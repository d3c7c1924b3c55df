// OFSortedList of src/OFSortedList.m: insertion keeps a list sorted under any total preorder.

module SortedLists {
  import opened Lists

  datatype Order = Ascending | Same | Descending

  /** `compare:` is a total preorder. */
  ghost predicate Lawful<T(!new)>(compare: (T, T) -> Order)
  {
    && (forall a, b :: compare(a, b) == Ascending <==> compare(b, a) == Descending)
    && (forall a, b, c :: compare(a, b) != Descending && compare(b, c) != Descending ==> compare(a, c) != Descending)
  }

  ghost predicate Sorted<T>(compare: (T, T) -> Order, s: seq<T>)
  {
    forall i, j :: 0 <= i < j < |s| ==> compare(s[i], s[j]) != Descending
  }

  /** Before the objects that are greater, behind all others */
  function Position<T>(compare: (T, T) -> Order, s: seq<T>, x: T): (k: nat)
    ensures k <= |s|
    ensures k > 0 ==> compare(x, s[k - 1]) != Ascending
    ensures forall i :: k <= i < |s| ==> compare(x, s[i]) == Ascending
  {
    if s == [] || compare(x, s[|s| - 1]) != Ascending then |s| else Position(compare, s[..|s| - 1], x)
  }

  ghost function WithObject<T>(compare: (T, T) -> Order, s: seq<T>, x: T): seq<T>
  {
    Inserted(s, Position(compare, s, x), x)
  }

  lemma StaysSorted<T(!new)>(compare: (T, T) -> Order, s: seq<T>, x: T)
    requires Lawful(compare) && Sorted(compare, s)
    ensures Sorted(compare, WithObject(compare, s, x))
  {
    hide Inserted, Position;
    var k, t := Position(compare, s, x), WithObject(compare, s, x);
    forall i, j | 0 <= i < j < |t| ensures compare(t[i], t[j]) != Descending {
      if j == k {
        assert compare(s[k - 1], x) != Descending;
        assert i < k - 1 ==> compare(s[i], s[k - 1]) != Descending;
      } else if i != k {
        var i', j' := if i < k then i else i - 1, if j < k then j else j - 1;
        assert compare(s[i'], s[j']) != Descending;
      }
    }
  }

  lemma RemovalStaysSorted<T(!new)>(compare: (T, T) -> Order, s: seq<T>, at: nat)
    requires Sorted(compare, s) && at < |s|
    ensures Sorted(compare, Removed(s, at))
  {
  }

  lemma InsertedMultiset<T>(s: seq<T>, at: nat, x: T)
    requires at <= |s|
    ensures multiset(Inserted(s, at, x)) == multiset(s) + multiset{x}
  {
    assert s == s[..at] + s[at..];
  }

  lemma RemovedMultiset<T>(s: seq<T>, at: nat)
    requires at < |s|
    ensures multiset(Removed(s, at)) == multiset(s) - multiset{s[at]}
  {
    assert s == s[..at] + [s[at]] + s[at + 1..];
  }

  // Runs

  datatype Change<T> = Insert(object': T) | Remove(at: nat)

  predicate Possible<T>(s: seq<T>, change: Change<T>)
  {
    change.Remove? ==> change.at < |s|
  }

  ghost function After<T>(compare: (T, T) -> Order, s: seq<T>, change: Change<T>): seq<T>
    requires Possible(s, change)
  {
    match change
    case Insert(x) => WithObject(compare, s, x)
    case Remove(at) => Removed(s, at)
  }

  ghost predicate AllPossible<T>(compare: (T, T) -> Order, changes: seq<Change<T>>)
    decreases |changes|, 0
  {
    changes == [] ||
    (AllPossible(compare, changes[..|changes| - 1]) &&
     Possible(AfterAll(compare, changes[..|changes| - 1]), changes[|changes| - 1]))
  }

  ghost function AfterAll<T>(compare: (T, T) -> Order, changes: seq<Change<T>>): seq<T>
    requires AllPossible(compare, changes)
    decreases |changes|, 1
  {
    if changes == [] then []
    else After(compare, AfterAll(compare, changes[..|changes| - 1]), changes[|changes| - 1])
  }

  /** What was inserted, without what was removed */
  ghost function Balance<T>(compare: (T, T) -> Order, changes: seq<Change<T>>): multiset<T>
    requires AllPossible(compare, changes)
  {
    if changes == [] then multiset{}
    else
      var n := |changes| - 1;
      var was := Balance(compare, changes[..n]);
      match changes[n]
      case Insert(x) => was + multiset{x}
      case Remove(at) => was - multiset{AfterAll(compare, changes[..n])[at]}
  }

  /** After any run of insertions and removals the list is sorted and holds exactly the balance. */
  lemma {:induction false} SortedBalance<T(!new)>(compare: (T, T) -> Order, changes: seq<Change<T>>)
    requires Lawful(compare) && AllPossible(compare, changes)
    ensures Sorted(compare, AfterAll(compare, changes))
    ensures multiset(AfterAll(compare, changes)) == Balance(compare, changes)
  {
    if changes != [] {
      var n := |changes| - 1;
      SortedBalance(compare, changes[..n]);
      var s := AfterAll(compare, changes[..n]);
      match changes[n] {
        case Insert(x) =>
          StaysSorted(compare, s, x);
          InsertedMultiset(s, Position(compare, s, x), x);
        case Remove(at) =>
          RemovalStaysSorted(compare, s, at);
          RemovedMultiset(s, at);
      }
    }
  }

  lemma ObjectsInserted<T>(nodes: seq<ListObject<T>>, at: nat, node: ListObject<T>)
    requires at <= |nodes|
    ensures Objects(Inserted(nodes, at, node)) == Inserted(Objects(nodes), at, node.object')
  {
    hide Inserted, Objects;
  }

  lemma ObjectsRemoved<T>(nodes: seq<ListObject<T>>, at: nat)
    requires at < |nodes|
    ensures Objects(Removed(nodes, at)) == Removed(Objects(nodes), at)
  {
    hide Removed, Objects;
  }

  class OFSortedList<T> {
    const list: OFList<T>
    const compare: (T, T) -> Order

    ghost predicate Valid()
      reads this, list, list.nodes
    {
      list.Valid()
    }

    ghost function Contents(): seq<T>
      reads this, list, list.nodes
    {
      Objects(list.nodes)
    }

    constructor (compare: (T, T) -> Order)
      ensures Valid() && fresh(list) && Contents() == [] && this.compare == compare
    {
      list := new OFList();
      this.compare := compare;
    }

    method InsertObject(object': T) returns (listObject: ListObject<T>)
      requires Valid()
      modifies list, list.nodes
      ensures Valid() && fresh(listObject) && listObject.object' == object'
      ensures Contents() == WithObject(compare, old(Contents()), object')
      ensures list.nodes == Inserted(old(list.nodes), Position(compare, old(Contents()), object'), listObject)
    {
      hide Inserted, Linked, Objects, Position;
      ghost var objects, nodes := Contents(), list.nodes;
      ghost var k := Position(compare, objects, object');
      var iter := list.lastListObject;
      ghost var i := |nodes|;
      while iter != null
        invariant 0 <= i <= |nodes| && iter == NodeAt(nodes, i - 1) && list.Valid() && list.nodes == nodes
        invariant k <= i
        decreases i
      {
        if compare(object', iter.object') != Ascending {
          assert compare(object', objects[i - 1]) != Ascending;
          listObject := list.InsertAfter(object', iter, i - 1);
          ObjectsInserted(nodes, i, listObject);
          return;
        }
        Previous(nodes, i - 1);
        iter, i := iter.previous, i - 1;
      }
      listObject := list.PrependObject(object');
      ObjectsInserted(nodes, 0, listObject);
    }

    lemma Previous(nodes: seq<ListObject<T>>, i: nat)
      requires Linked(nodes) && i < |nodes|
      ensures nodes[i].previous == NodeAt(nodes, i - 1)
    {
      assert LinkedAt(nodes, i);
    }

    /** `removeListObject:` as it is inherited */
    method RemoveListObject(listObject: ListObject<T>, ghost at: nat)
      requires Valid() && at < |list.nodes| && list.nodes[at] == listObject
      modifies list, list.nodes
      ensures Valid() && list.nodes == Removed(old(list.nodes), at) && Contents() == Removed(old(Contents()), at)
    {
      ObjectsRemoved(list.nodes, at);
      list.RemoveListObject(listObject, at);
    }
  }
}
