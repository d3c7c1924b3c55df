// Enumeration of an OFList, src/OFList.m: by OFListEnumerator, and in batches for loops over a list.

module ListEnumerators {
  import Bits
  import opened Lists
  import opened Options

  class OFListEnumerator<T> {
    const list: OFList<T>
    const mutations: nat
    var current: ListObject?<T>
    ghost const snapshot: seq<ListObject<T>>
    ghost var position: nat

    /** As every change of the list counts as a mutation, equal counters mean equal nodes. */
    ghost predicate Valid()
      reads this, list, list.nodes
    {
      list.Valid() && (list.mutations == mutations ==>
        list.nodes == snapshot && position <= |snapshot| && current == NodeAt(snapshot, position))
    }

    constructor (list: OFList<T>)
      requires list.Valid()
      ensures Valid() && this.list == list && mutations == list.mutations && snapshot == list.nodes && position == 0
    {
      this.list, mutations, current, snapshot, position := list, list.mutations, list.firstListObject, list.nodes, 0;
    }

    method NextObject() returns (mutated: bool, object': Option<T>)
      requires Valid()
      modifies this`current, this`position
      ensures Valid() && (mutated <==> list.mutations != mutations)
      ensures !mutated ==> object' == if old(position) < |snapshot| then Some(snapshot[old(position)].object') else None
      ensures !mutated ==> position == if old(position) < |snapshot| then old(position) + 1 else old(position)
    {
      if list.mutations != mutations { return true, None; }
      if current == null { return false, None; }
      assert LinkedAt(list.nodes, position);
      object' := Some(current.object');
      current, position := current.next, position + 1;
      return false, object';
    }
  }

  // Batches

  /** The state that a loop over a list passes from one call to the next: whether there was a call, and
      the node to go on with. */
  class EnumerationState<T> {
    var state: nat
    var extra: ListObject?<T>

    constructor ()
      ensures state == 0 && extra == null
    {
      state, extra := 0, null;
    }
  }

  /** Where the next batch begins, for a list of `n` objects */
  datatype Place = Fresh | At(index: nat)

  function Begin(place: Place): nat
  {
    if place.Fresh? then 0 else place.index
  }

  /** The number of objects in the batch */
  function Batch(n: nat, count: nat, place: Place): nat
    requires Begin(place) <= n
  {
    if n - Begin(place) < count then n - Begin(place) else count
  }

  /** When the list ends within a batch, the state is not brought up to date; before the first call it is nil. */
  function NextPlace(n: nat, count: nat, place: Place): (next: Place)
    requires Begin(place) <= n
    ensures Begin(next) <= n && next.At?
  {
    if n - Begin(place) >= count then At(Begin(place) + count) else if place.Fresh? then At(n) else place
  }

  ghost predicate IsAt<T>(nodes: seq<ListObject<T>>, s: EnumerationState<T>, place: Place)
    reads s
  {
    match place
    case Fresh => s.state == 0 && s.extra == null
    case At(i) => s.state == 1 && i <= |nodes| && s.extra == NodeAt(nodes, i)
  }

  /** `countByEnumeratingWithState:objects:count:` */
  method CountByEnumerating<T>(list: OFList<T>, s: EnumerationState<T>, count: nat, ghost place: Place)
      returns (objects: seq<T>)
    requires list.Valid() && IsAt(list.nodes, s, place) && Begin(place) <= |list.nodes|
    modifies s
    ensures IsAt(list.nodes, s, NextPlace(|list.nodes|, count, place))
    ensures objects == Objects(list.nodes)[Begin(place)..Begin(place) + Batch(|list.nodes|, count, place)]
  {
    var listObject := s.extra;
    if s.state == 0 {
      listObject := list.firstListObject;
      s.state := 1;
    }
    ghost var first, all := Begin(place), Objects(list.nodes);
    objects := [];
    var i := 0;
    while i < count
      invariant 0 <= i <= count && first + i <= |list.nodes| && listObject == NodeAt(list.nodes, first + i)
      invariant objects == all[first..first + i]
    {
      if listObject == null { return; }
      assert LinkedAt(list.nodes, first + i);
      objects := objects + [listObject.object'];
      listObject := listObject.next;
      i := i + 1;
    }
    s.extra := listObject;
  }

  function PlaceAfter(n: nat, count: nat, calls: nat): (place: Place)
    ensures Begin(place) <= n
    ensures calls > 0 ==> place.At?
  {
    if calls == 0 then Fresh else NextPlace(n, count, PlaceAfter(n, count, calls - 1))
  }

  /** A loop ends with the first batch that is empty. */
  ghost predicate Ends(n: nat, count: nat)
  {
    exists calls: nat :: Batch(n, count, PlaceAfter(n, count, calls)) == 0
  }

  /** The objects that the first batches hold */
  function Delivered(n: nat, count: nat, calls: nat): (indexes: seq<nat>)
  {
    if calls == 0 then []
    else
      var place := PlaceAfter(n, count, calls - 1);
      Delivered(n, count, calls - 1) + seq(Batch(n, count, place), i requires 0 <= i => Begin(place) + i)
  }

  /** Of `n == q * count + r` objects, `m` batches leave enough for a whole batch if and only if `m < q`. */
  lemma Room(n: int, count: int, q: int, r: int, m: int)
    requires n == q * count + r && 0 <= r < count && 0 <= m <= q
    ensures 0 <= m * count <= n && (n - m * count >= count <==> m < q)
    ensures (m + 1) * count == m * count + count
  {
    Bits.Monotone(m, q, count);
    Bits.Monotone(0, m, count);
    if m < q { Bits.Monotone(m + 1, q, count); }
  }

  function Least(a: nat, b: nat): nat
  {
    if a < b then a else b
  }

  lemma {:induction false} PlaceOf(n: nat, count: nat, q: nat, r: nat, calls: nat)
    requires n == q * count + r && r < count && q > 0
    ensures 0 <= Least(calls, q) * count <= n
    ensures PlaceAfter(n, count, calls) == if calls == 0 then Fresh else At(Least(calls, q) * count)
  {
    Room(n, count, q, r, Least(calls, q));
    if calls > 0 {
      PlaceOf(n, count, q, r, calls - 1);
      Room(n, count, q, r, Least(calls - 1, q));
    }
  }

  /** From the last whole batch on, every batch is the same: what is left of the list. */
  lemma LastBatchRepeats(n: nat, count: nat, q: nat, r: nat, calls: nat)
    requires n == q * count + r && r < count && q > 0 && calls >= q
    ensures PlaceAfter(n, count, calls) == At(q * count) && Batch(n, count, PlaceAfter(n, count, calls)) == r
  {
    PlaceOf(n, count, q, r, calls);
  }

  lemma NeverEmpty(n: nat, count: nat, q: nat, r: nat, calls: nat)
    requires n == q * count + r && 0 < r < count && q > 0
    ensures Batch(n, count, PlaceAfter(n, count, calls)) > 0
  {
    PlaceOf(n, count, q, r, calls);
    Room(n, count, q, r, Least(calls, q));
  }

  /** A loop over a list ends if and only if the list is shorter than a batch or made of whole batches;
      otherwise it gets the end of the list again and again. */
  lemma EndsIff(n: nat, count: nat)
    requires count > 0
    ensures Ends(n, count) <==> n < count || n % count == 0
  {
    var q, r := n / count, n % count;
    assert n == q * count + r;
    if n < count {
      assert PlaceAfter(n, count, 0) == Fresh;
      assert Batch(n, count, PlaceAfter(n, count, 1)) == 0;
    } else {
      assert q == 0 ==> n < count;
      if r == 0 {
        LastBatchRepeats(n, count, q, r, q);
      } else if Ends(n, count) {
        var calls: nat :| Batch(n, count, PlaceAfter(n, count, calls)) == 0;
        NeverEmpty(n, count, q, r, calls);
      }
    }
  }

  function Upto(n: nat): (s: seq<nat>)
    ensures |s| == n && forall i :: 0 <= i < n ==> s[i] == i
  {
    seq(n, i => i)
  }

  lemma NextBatch(n: nat, count: nat, calls: nat, b: nat)
    requires Delivered(n, count, calls) == Upto(b) && Begin(PlaceAfter(n, count, calls)) == b && b + count <= n
    ensures Delivered(n, count, calls + 1) == Upto(b + count)
  {
    hide PlaceAfter;
  }

  lemma {:induction false} WholeBatches(n: nat, count: nat, q: nat, r: nat, calls: nat)
    requires n == q * count + r && r < count && q > 0 && calls <= q
    ensures calls * count >= 0 && Delivered(n, count, calls) == Upto(calls * count)
  {
    if calls > 0 {
      WholeBatches(n, count, q, r, calls - 1);
      PlaceOf(n, count, q, r, calls - 1);
      Room(n, count, q, r, calls - 1);
      hide *;
      NextBatch(n, count, calls - 1, (calls - 1) * count);
    } else {
      assert calls * count == 0;
    }
  }

  /** If the loop ends, it got every object once and in order. */
  lemma DeliversAll(n: nat, count: nat)
    requires count > 0 && Ends(n, count)
    ensures exists calls: nat ::
      Batch(n, count, PlaceAfter(n, count, calls)) == 0 && Delivered(n, count, calls) == Upto(n)
  {
    EndsIff(n, count);
    if n < count {
      assert PlaceAfter(n, count, 0) == Fresh && Delivered(n, count, 0) == [];
      assert Batch(n, count, PlaceAfter(n, count, 1)) == 0 && Delivered(n, count, 1) == Upto(n);
    } else {
      var q := n / count;
      assert n == q * count + n % count;
      assert q > 0;
      LastBatchRepeats(n, count, q, 0, q);
      WholeBatches(n, count, q, 0, q);
    }
  }
}
