// OFList of src/OFList.m and OFSortedList of src/OFSortedList.m: doubly linked lists whose nodes are
// handles that callers keep.

module Lists {
  import opened Options

  class ListObject<T> {
    const object': T
    var next: ListObject?<T>
    var previous: ListObject?<T>

    constructor (object': T, next: ListObject?<T>, previous: ListObject?<T>)
      ensures this.object' == object' && this.next == next && this.previous == previous
    {
      this.object', this.next, this.previous := object', next, previous;
    }
  }

  /** Both ways the links spell the same nodes. */
  ghost predicate Linked<T>(nodes: seq<ListObject<T>>)
    reads nodes
  {
    Distinct(nodes) && forall i :: 0 <= i < |nodes| ==> LinkedAt(nodes, i)
  }

  ghost predicate Distinct<T>(nodes: seq<ListObject<T>>)
  {
    forall i, j :: 0 <= i < j < |nodes| ==> nodes[i] != nodes[j]
  }

  ghost predicate LinkedAt<T>(nodes: seq<ListObject<T>>, i: nat)
    requires i < |nodes|
    reads nodes
  {
    nodes[i].next == NodeAt(nodes, i + 1) && nodes[i].previous == NodeAt(nodes, i - 1)
  }

  /** The node at an index, nil beyond either end */
  ghost function NodeAt<T>(nodes: seq<ListObject<T>>, i: int): ListObject?<T>
  {
    if 0 <= i < |nodes| then nodes[i] else null
  }

  ghost function Objects<T>(nodes: seq<ListObject<T>>): (objects: seq<T>)
    ensures |objects| == |nodes| && forall i :: 0 <= i < |nodes| ==> objects[i] == nodes[i].object'
  {
    if nodes == [] then [] else Objects(nodes[..|nodes| - 1]) + [nodes[|nodes| - 1].object']
  }

  ghost function Inserted<X>(s: seq<X>, at: nat, x: X): (r: seq<X>)
    requires at <= |s|
    ensures |r| == |s| + 1 && r[at] == x
    ensures forall i {:trigger r[i]} :: 0 <= i < |r| && i != at ==> r[i] == s[if i < at then i else i - 1]
  {
    s[..at] + [x] + s[at..]
  }

  ghost function Removed<X>(s: seq<X>, at: nat): (r: seq<X>)
    requires at < |s|
    ensures |r| == |s| - 1
    ensures forall i {:trigger r[i]} :: 0 <= i < |r| ==> r[i] == s[if i < at then i else i + 1]
  {
    s[..at] + s[at + 1..]
  }

  class OFList<T> {
    var firstListObject: ListObject?<T>
    var lastListObject: ListObject?<T>
    var count: nat
    var mutations: nat
    ghost var nodes: seq<ListObject<T>>
    /** What `removeAllObjects` failed to subtract from the count. */
    ghost var surplus: nat

    ghost predicate Valid()
      reads this, nodes
    {
      && Linked(nodes)
      && firstListObject == NodeAt(nodes, 0) && lastListObject == NodeAt(nodes, |nodes| - 1)
      && count == |nodes| + surplus
    }

    constructor ()
      ensures Valid() && nodes == [] && surplus == 0 && mutations == 0
    {
      firstListObject, lastListObject, count, mutations, nodes, surplus := null, null, 0, 0, [], 0;
    }

    method AppendObject(object': T) returns (listObject: ListObject<T>)
      requires Valid()
      modifies this, nodes
      ensures Valid() && fresh(listObject) && listObject.object' == object'
      ensures nodes == old(nodes) + [listObject] && surplus == old(surplus) && mutations == old(mutations) + 1
    {
      ghost var was := nodes;
      assert was != [] ==> LinkedAt(was, |was| - 1);
      listObject := new ListObject(object', null, lastListObject);
      if lastListObject != null { lastListObject.next := listObject; }
      lastListObject := listObject;
      if firstListObject == null { firstListObject := listObject; }
      count := count + 1;
      mutations := mutations + 1;
      nodes := nodes + [listObject];
      forall i | 0 <= i < |nodes| ensures LinkedAt(nodes, i) {
        assert i < |was| ==> old(LinkedAt(was, i));
      }
    }

    method PrependObject(object': T) returns (listObject: ListObject<T>)
      requires Valid()
      modifies this, nodes
      ensures Valid() && fresh(listObject) && listObject.object' == object'
      ensures nodes == [listObject] + old(nodes) && surplus == old(surplus) && mutations == old(mutations) + 1
    {
      ghost var was := nodes;
      assert was != [] ==> LinkedAt(was, 0);
      listObject := new ListObject(object', firstListObject, null);
      if firstListObject != null { firstListObject.previous := listObject; }
      firstListObject := listObject;
      if lastListObject == null { lastListObject := listObject; }
      count := count + 1;
      mutations := mutations + 1;
      nodes := [listObject] + nodes;
      forall i | 0 <= i < |nodes| ensures LinkedAt(nodes, i) {
        assert i > 0 ==> old(LinkedAt(was, i - 1));
      }
    }

    method InsertBefore(object': T, listObject: ListObject<T>, ghost at: nat) returns (newListObject: ListObject<T>)
      requires Valid() && at < |nodes| && nodes[at] == listObject
      modifies this, nodes
      ensures Valid() && fresh(newListObject) && newListObject.object' == object'
      ensures nodes == Inserted(old(nodes), at, newListObject)
      ensures surplus == old(surplus) && mutations == old(mutations) + 1
    {
      hide Inserted;
      ghost var was := nodes;
      assert LinkedAt(was, at) && (at > 0 ==> LinkedAt(was, at - 1)) && (at + 1 < |was| ==> LinkedAt(was, at + 1));
      newListObject := new ListObject(object', listObject, listObject.previous);
      if listObject.previous != null { listObject.previous.next := newListObject; }
      listObject.previous := newListObject;
      if listObject == firstListObject { firstListObject := newListObject; }
      count := count + 1;
      mutations := mutations + 1;
      nodes := Inserted(nodes, at, newListObject);
      forall i | 0 <= i < |nodes| ensures LinkedAt(nodes, i) {
        var j := if i < at then i else i - 1;
        assert 0 <= j < |was| ==> old(LinkedAt(was, j));
      }
    }

    method InsertAfter(object': T, listObject: ListObject<T>, ghost at: nat) returns (newListObject: ListObject<T>)
      requires Valid() && at < |nodes| && nodes[at] == listObject
      modifies this, nodes
      ensures Valid() && fresh(newListObject) && newListObject.object' == object'
      ensures nodes == Inserted(old(nodes), at + 1, newListObject)
      ensures surplus == old(surplus) && mutations == old(mutations) + 1
    {
      hide Inserted;
      ghost var was := nodes;
      assert LinkedAt(was, at) && (at > 0 ==> LinkedAt(was, at - 1)) && (at + 1 < |was| ==> LinkedAt(was, at + 1));
      newListObject := new ListObject(object', listObject.next, listObject);
      if listObject.next != null { listObject.next.previous := newListObject; }
      listObject.next := newListObject;
      if listObject == lastListObject { lastListObject := newListObject; }
      count := count + 1;
      mutations := mutations + 1;
      nodes := Inserted(nodes, at + 1, newListObject);
      forall i | 0 <= i < |nodes| ensures LinkedAt(nodes, i) {
        var j := if i < at + 1 then i else i - 1;
        assert 0 <= j < |was| ==> old(LinkedAt(was, j));
      }
    }

    method RemoveListObject(listObject: ListObject<T>, ghost at: nat)
      requires Valid() && at < |nodes| && nodes[at] == listObject
      modifies this, nodes
      ensures Valid() && nodes == Removed(old(nodes), at)
      ensures surplus == old(surplus) && mutations == old(mutations) + 1
    {
      hide Removed;
      ghost var was := nodes;
      assert LinkedAt(was, at) && (at > 0 ==> LinkedAt(was, at - 1)) && (at + 1 < |was| ==> LinkedAt(was, at + 1));
      if listObject.previous != null { listObject.previous.next := listObject.next; }
      if listObject.next != null { listObject.next.previous := listObject.previous; }
      if firstListObject == listObject { firstListObject := listObject.next; }
      if lastListObject == listObject { lastListObject := listObject.previous; }
      count := count - 1;
      mutations := mutations + 1;
      nodes := Removed(nodes, at);
      forall i | 0 <= i < |nodes| ensures LinkedAt(nodes, i) {
        var j := if i < at then i else i + 1;
        assert old(LinkedAt(was, j));
      }
    }

    /** The count stays as it is. */
    method RemoveAllObjects()
      requires Valid()
      modifies this
      ensures Valid() && nodes == [] && surplus == old(surplus) + |old(nodes)| && mutations == old(mutations) + 1
    {
      mutations := mutations + 1;
      firstListObject, lastListObject := null, null;
      surplus, nodes := surplus + |nodes|, [];
    }

    method ContainsObject(object': T, equal: (T, T) -> bool) returns (r: bool)
      requires Valid()
      ensures r <==> exists i :: 0 <= i < |nodes| && equal(nodes[i].object', object')
    {
      if count == 0 { return false; }
      var iter := firstListObject;
      ghost var i := 0;
      while iter != null
        invariant 0 <= i <= |nodes| && iter == NodeAt(nodes, i)
        invariant forall j :: 0 <= j < i ==> !equal(nodes[j].object', object')
        decreases |nodes| - i
      {
        assert LinkedAt(nodes, i);
        if equal(iter.object', object') { return true; }
        iter, i := iter.next, i + 1;
      }
      return false;
    }

    /** `isEqual:` with another list; `None` stands for the assertion that fails. */
    method IsEqual(list: OFList<T>, equal: (T, T) -> bool) returns (r: Option<bool>)
      requires Valid() && list.Valid()
      ensures r == if list == this then Some(true) else Compared(equal, Objects(nodes), surplus, Objects(list.nodes),
        list.surplus)
    {
      if list == this { return Some(true); }
      if list.count != count { return Some(false); }
      var iter, iter2 := firstListObject, list.firstListObject;
      ghost var i := 0;
      while iter != null && iter2 != null
        invariant 0 <= i <= |nodes| && i <= |list.nodes| && iter == NodeAt(nodes, i) && iter2 == NodeAt(list.nodes, i)
        invariant forall j :: 0 <= j < i ==> equal(nodes[j].object', list.nodes[j].object')
        decreases |nodes| - i
      {
        assert LinkedAt(nodes, i) && LinkedAt(list.nodes, i);
        if !equal(iter.object', iter2.object') { return Some(false); }
        iter, iter2, i := iter.next, iter2.next, i + 1;
      }
      return if iter == null && iter2 == null then Some(true) else None;
    }

    /** `-[copy]` counts anew. */
    constructor Copy(list: OFList<T>)
      requires list.Valid()
      ensures Valid() && surplus == 0 && mutations == 0 && fresh(nodes)
      ensures Objects(nodes) == Objects(list.nodes)
    {
      firstListObject, lastListObject, count, mutations, nodes, surplus := null, null, 0, 0, [], 0;
      new;
      var iter := list.firstListObject;
      ghost var i := 0;
      while iter != null
        invariant 0 <= i <= |list.nodes| && iter == NodeAt(list.nodes, i) && list.Valid() && list != this
        invariant Valid() && surplus == 0 && mutations == 0 && fresh(nodes) && |nodes| == i
        invariant forall j :: 0 <= j < i ==> nodes[j].object' == list.nodes[j].object'
        decreases |list.nodes| - i
      {
        assert LinkedAt(list.nodes, i);
        Link(iter.object');
        iter, i := iter.next, i + 1;
      }
    }

    /** One turn of the loop of `-[copy]`, which counts no mutation */
    method Link(object': T)
      requires Valid()
      modifies this`firstListObject, this`lastListObject, this`count, this`nodes, nodes
      ensures Valid() && surplus == old(surplus) && |nodes| == |old(nodes)| + 1 && nodes[..|nodes| - 1] == old(nodes)
      ensures fresh(nodes[|nodes| - 1]) && nodes[|nodes| - 1].object' == object'
    {
      ghost var was := nodes;
      assert was != [] ==> LinkedAt(was, |was| - 1);
      var listObject := new ListObject(object', null, lastListObject);
      if firstListObject == null { firstListObject := listObject; }
      if lastListObject != null { lastListObject.next := listObject; }
      count := count + 1;
      lastListObject := listObject;
      nodes := nodes + [listObject];
      forall i | 0 <= i < |nodes| ensures LinkedAt(nodes, i) {
        assert i < |was| ==> old(LinkedAt(was, i));
      }
    }
  }

  /** What `isEqual:` answers, in terms of the contents and of what the counts are too high by. */
  ghost function Compared<T>(equal: (T, T) -> bool, a: seq<T>, aSurplus: nat, b: seq<T>, bSurplus: nat): Option<bool>
  {
    if |a| + aSurplus != |b| + bSurplus || exists i :: 0 <= i < |a| && i < |b| && !equal(a[i], b[i]) then Some(false)
    else if |a| == |b| then Some(true) else None
  }

  ghost predicate SameObjects<T>(equal: (T, T) -> bool, a: seq<T>, b: seq<T>)
  {
    |a| == |b| && forall i :: 0 <= i < |a| ==> equal(a[i], b[i])
  }

  /** `isEqual:` is right for all contents if and only if both counts are too high by the same, as when
      `removeAllObjects` was never sent to a list with objects. */
  lemma ComparedRightIff<T(!new)>(equal: (T, T) -> bool, aSurplus: nat, bSurplus: nat)
    ensures (forall a, b :: Compared(equal, a, aSurplus, b, bSurplus) == Some(SameObjects(equal, a, b))) <==>
      aSurplus == bSurplus
  {
    assert SameObjects(equal, [], []);
    assert aSurplus != bSurplus ==> Compared(equal, [], aSurplus, [], bSurplus) == Some(false);
  }
}
