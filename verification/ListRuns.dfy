// Runs of changes to an OFList, and what its count is worth after them.

module ListRuns {
  import opened Lists

  /** A change, at the place of a handle that the caller kept */
  datatype Change<T> =
    | Append(object': T)
    | Prepend(object': T)
    | Before(object': T, at: nat)
    | After(object': T, at: nat)
    | Remove(at: nat)
    | RemoveAll

  datatype Content<T> = Content(objects: seq<T>, count: int)

  predicate Possible<T>(c: Content<T>, change: Change<T>)
  {
    match change
    case Before(_, at) => at < |c.objects|
    case After(_, at) => at < |c.objects|
    case Remove(at) => at < |c.objects|
    case _ => true
  }

  function Changed<T>(c: Content<T>, change: Change<T>): Content<T>
    requires Possible(c, change)
  {
    match change
    case Append(x) => Content(c.objects + [x], c.count + 1)
    case Prepend(x) => Content([x] + c.objects, c.count + 1)
    case Before(x, at) => Content(c.objects[..at] + [x] + c.objects[at..], c.count + 1)
    case After(x, at) => Content(c.objects[..at + 1] + [x] + c.objects[at + 1..], c.count + 1)
    case Remove(at) => Content(c.objects[..at] + c.objects[at + 1..], c.count - 1)
    case RemoveAll => Content([], c.count)
  }

  predicate AllPossible<T>(changes: seq<Change<T>>)
    decreases |changes|, 0
  {
    changes == [] ||
    (AllPossible(changes[..|changes| - 1]) &&
     Possible(AfterAll(changes[..|changes| - 1]), changes[|changes| - 1]))
  }

  /** A new list after some changes */
  function AfterAll<T>(changes: seq<Change<T>>): Content<T>
    requires AllPossible(changes)
    decreases |changes|, 1
  {
    if changes == [] then Content([], 0)
    else Changed(AfterAll(changes[..|changes| - 1]), changes[|changes| - 1])
  }

  lemma {:induction false} FrontPossible<T>(changes: seq<Change<T>>, i: nat)
    requires AllPossible(changes) && i <= |changes|
    ensures AllPossible(changes[..i])
    decreases |changes|
  {
    if i < |changes| {
      FrontPossible(changes[..|changes| - 1], i);
      assert changes[..|changes| - 1][..i] == changes[..i];
    } else {
      assert changes[..i] == changes;
    }
  }

  /** `removeAllObjects` was sent while there were objects. */
  ghost predicate Cleared<T>(changes: seq<Change<T>>)
    requires AllPossible(changes)
    decreases |changes|
  {
    changes != [] &&
    var front := changes[..|changes| - 1];
    Cleared(front) || (changes[|changes| - 1].RemoveAll? && AfterAll(front).objects != [])
  }

  /** Change number `i` is such a `removeAllObjects`. */
  ghost predicate Clears<T>(changes: seq<Change<T>>, i: nat)
    requires i < |changes|
  {
    changes[i].RemoveAll? && AllPossible(changes[..i]) && AfterAll(changes[..i]).objects != []
  }

  lemma {:induction false} ClearedMeans<T>(changes: seq<Change<T>>)
    requires AllPossible(changes)
    ensures Cleared(changes) <==> exists i :: 0 <= i < |changes| && Clears(changes, i)
    decreases |changes|
  {
    if changes != [] {
      var n := |changes| - 1;
      var front := changes[..n];
      ClearedMeans(front);
      forall i | 0 <= i < n ensures Clears(front, i) <==> Clears(changes, i) {
        assert front[..i] == changes[..i];
      }
      assert Cleared(changes) <==> Cleared(front) || Clears(changes, n);
    }
  }

  /**
   * After any run of changes the count is the number of objects if and only if `removeAllObjects` was never sent to
   * a list with objects. It never is too low.
   */
  lemma {:induction false} CountRightIff<T>(changes: seq<Change<T>>)
    requires AllPossible(changes)
    ensures var c := AfterAll(changes);
            c.count >= |c.objects| && (c.count == |c.objects| <==> !Cleared(changes))
    decreases |changes|
  {
    if changes != [] { CountRightIff(changes[..|changes| - 1]); }
  }

  /** One object and `removeAllObjects`: the list is empty and counts one. */
  lemma CountGoesWrong<T>(x: T)
    ensures var changes := [Append(x), RemoveAll];
            AllPossible(changes) && AfterAll(changes) == Content([], 1)
  {
    var none: seq<Change<T>> := [];
    var one: seq<Change<T>> := [Append(x)];
    var changes: seq<Change<T>> := [Append(x), RemoveAll];
    assert one[..|one| - 1] == none && changes[..|changes| - 1] == one;
    assert AllPossible(none) && AfterAll(none) == Content([], 0);
    assert AllPossible(one) && AfterAll(one) == Content([] + [x], 1);
  }

  /** A list with the handles that its caller kept */
  ghost predicate Holds<T>(list: OFList<T>, handles: seq<ListObject<T>>, c: Content<T>)
    reads list, list.nodes
  {
    list.Valid() && list.nodes == handles && Objects(handles) == c.objects && list.count == c.count
  }

  lemma InsertedIs<X>(s: seq<X>, at: nat, x: X)
    requires at <= |s|
    ensures Inserted(s, at, x) == s[..at] + [x] + s[at..]
  {
  }

  lemma ObjectsWith<T>(nodes: seq<ListObject<T>>, at: nat, h: ListObject<T>)
    requires at <= |nodes|
    ensures Inserted(nodes, at, h) == nodes[..at] + [h] + nodes[at..]
    ensures Objects(nodes[..at] + [h] + nodes[at..]) == Objects(nodes)[..at] + [h.object'] + Objects(nodes)[at..]
  {
    hide Objects, Inserted;
    InsertedIs(nodes, at, h);
    InsertedIs(Objects(nodes), at, h.object');
    var more := Inserted(nodes, at, h);
    forall i | 0 <= i < |more| ensures Objects(more)[i] == Inserted(Objects(nodes), at, h.object')[i] {
      if i != at { assert more[i] == nodes[if i < at then i else i - 1]; }
    }
  }

  lemma ObjectsAtEnds<T>(nodes: seq<ListObject<T>>, h: ListObject<T>)
    ensures Objects(nodes + [h]) == Objects(nodes) + [h.object']
    ensures Objects([h] + nodes) == [h.object'] + Objects(nodes)
  {
    hide Objects;
  }

  lemma RemovedIs<X>(s: seq<X>, at: nat)
    requires at < |s|
    ensures Removed(s, at) == s[..at] + s[at + 1..]
  {
  }

  lemma ObjectsWithout<T>(nodes: seq<ListObject<T>>, at: nat)
    requires at < |nodes|
    ensures Removed(nodes, at) == nodes[..at] + nodes[at + 1..]
    ensures Objects(nodes[..at] + nodes[at + 1..]) == Objects(nodes)[..at] + Objects(nodes)[at + 1..]
  {
    hide Objects, Removed;
    RemovedIs(nodes, at);
    RemovedIs(Objects(nodes), at);
    var less := Removed(nodes, at);
    forall i | 0 <= i < |less| ensures Objects(less)[i] == Removed(Objects(nodes), at)[i] {
      assert less[i] == nodes[if i < at then i else i + 1];
    }
  }

  twostate predicate OldOrNew<T>(new handles': seq<ListObject<T>>, handles: seq<ListObject<T>>)
  {
    forall i :: 0 <= i < |handles'| ==> handles'[i] in handles || fresh(handles'[i])
  }

  lemma PartsOf<T>(s: seq<T>, at: nat, x: T)
    requires at <= |s|
    ensures forall i :: 0 <= i < |s| + 1 ==> (s[..at] + [x] + s[at..])[i] in s || (s[..at] + [x] + s[at..])[i] == x
    ensures forall i :: 0 <= i < |s| + 1 ==> (s + [x])[i] in s || (s + [x])[i] == x
    ensures forall i :: 0 <= i < |s| + 1 ==> ([x] + s)[i] in s || ([x] + s)[i] == x
  {
  }

  method ApplyAtEnd<T>(list: OFList<T>, handles: seq<ListObject<T>>, change: Change<T>, ghost c: Content<T>)
      returns (handles': seq<ListObject<T>>)
    requires Holds(list, handles, c) && Possible(c, change) && (change.Append? || change.Prepend?)
    modifies list, list.nodes
    ensures Holds(list, handles', Changed(c, change)) && OldOrNew(handles', handles)
  {
    hide Linked, Objects;
    if change.Append? {
      var h := list.AppendObject(change.object');
      ObjectsAtEnds(handles, h);
      PartsOf(handles, 0, h);
      return handles + [h];
    }
    var h := list.PrependObject(change.object');
    ObjectsAtEnds(handles, h);
    PartsOf(handles, 0, h);
    return [h] + handles;
  }

  method ApplyBeside<T>(list: OFList<T>, handles: seq<ListObject<T>>, change: Change<T>, ghost c: Content<T>)
      returns (handles': seq<ListObject<T>>)
    requires Holds(list, handles, c) && Possible(c, change) && (change.Before? || change.After?)
    modifies list, list.nodes
    ensures Holds(list, handles', Changed(c, change)) && OldOrNew(handles', handles)
  {
    hide Linked, Objects, Inserted;
    if change.Before? {
      var h := list.InsertBefore(change.object', handles[change.at], change.at);
      ObjectsWith(handles, change.at, h);
      PartsOf(handles, change.at, h);
      return handles[..change.at] + [h] + handles[change.at..];
    }
    var h := list.InsertAfter(change.object', handles[change.at], change.at);
    ObjectsWith(handles, change.at + 1, h);
    PartsOf(handles, change.at + 1, h);
    return handles[..change.at + 1] + [h] + handles[change.at + 1..];
  }

  method ApplyRemoval<T>(list: OFList<T>, handles: seq<ListObject<T>>, change: Change<T>, ghost c: Content<T>)
      returns (handles': seq<ListObject<T>>)
    requires Holds(list, handles, c) && Possible(c, change) && (change.Remove? || change.RemoveAll?)
    modifies list, list.nodes
    ensures Holds(list, handles', Changed(c, change)) && OldOrNew(handles', handles)
  {
    hide Linked, Objects, Removed;
    if change.Remove? {
      list.RemoveListObject(handles[change.at], change.at);
      ObjectsWithout(handles, change.at);
      return handles[..change.at] + handles[change.at + 1..];
    }
    list.RemoveAllObjects();
    EmptyObjects<T>();
    return [];
  }

  method Apply<T>(list: OFList<T>, handles: seq<ListObject<T>>, change: Change<T>, ghost c: Content<T>)
      returns (handles': seq<ListObject<T>>)
    requires Holds(list, handles, c) && Possible(c, change)
    modifies list, list.nodes
    ensures Holds(list, handles', Changed(c, change)) && OldOrNew(handles', handles)
  {
    hide Linked, Objects, Removed, Changed;
    if change.Append? || change.Prepend? {
      handles' := ApplyAtEnd(list, handles, change, c);
    } else if change.Before? || change.After? {
      handles' := ApplyBeside(list, handles, change, c);
    } else {
      handles' := ApplyRemoval(list, handles, change, c);
    }
  }

  /** A run of changes to a list on the heap: its nodes and its count are those of the run. */
  method Run<T>(changes: seq<Change<T>>) returns (list: OFList<T>, handles: seq<ListObject<T>>)
    requires AllPossible(changes)
    ensures fresh(list) && Holds(list, handles, AfterAll(changes))
    ensures list.count == |list.nodes| <==> !Cleared(changes)
  {
    hide Cleared, Changed, Possible, Objects;
    list := new OFList();
    handles := [];
    EmptyObjects<T>();
    for i := 0 to |changes|
      invariant AllPossible(changes[..i]) && Holds(list, handles, AfterAll(changes[..i]))
      invariant fresh(list) && fresh(handles)
    {
      FrontPossible(changes, i + 1);
      assert changes[..i + 1][..i] == changes[..i];
      handles := Apply(list, handles, changes[i], AfterAll(changes[..i]));
    }
    assert changes[..|changes|] == changes;
    CountRightIff(changes);
  }

  lemma EmptyObjects<T>()
    ensures Objects<T>([]) == []
  {
  }
}
