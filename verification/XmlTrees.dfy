// What src/OFXMLElementBuilder.m is to compute: from the events of a parser to trees of elements.

module XmlTrees {
  import opened Options

  const XMLNS: string := "http://www.w3.org/2000/xmlns/"
  const XML: string := "http://www.w3.org/XML/1998/namespace"

  datatype Attribute = Attribute(name: string, namespace: Option<string>, value: string)

  datatype Leaf =
    ProcessingInstructions(text: string) | Characters(text: string) | CDATA(text: string) | Comment(text: string)

  datatype Child = Element(tree: Tree) | Text(leaf: Leaf)

  datatype Tree = Tree(name: string, namespace: Option<string>, attributes: seq<Attribute>,
    prefixes: map<string, string>, children: seq<Child>)

  datatype Event =
    | Found(leaf: Leaf)
    | Start(name: string, prefix: Option<string>, namespace: Option<string>, attributes: seq<Attribute>)
    | End(name: string, prefix: Option<string>, namespace: Option<string>)

  /** What a delegate is told, with `E` for elements */
  datatype Call<E> = DidBuildElement(element: E) | DidBuildParentlessNode(leaf: Leaf)
    | DidNotExpectCloseTag(name: string, prefix: Option<string>, namespace: Option<string>)

  /** Which of the optional callbacks the delegate has */
  datatype Delegate = Delegate(parentless: bool, closeTag: bool)

  datatype Status = Ok | MalformedXML | InvalidArgument

  // Attributes

  /** `xmlns` without a namespace is no attribute of the element. */
  predicate Skipped(a: Attribute)
  {
    a.namespace.None? && a.name == "xmlns"
  }

  predicate SameName(a: Attribute, b: Attribute)
  {
    a.name == b.name && a.namespace == b.namespace
  }

  /** `addAttribute:` keeps the first of a name. */
  function Added(attributes: seq<Attribute>, a: Attribute): seq<Attribute>
  {
    if exists i :: 0 <= i < |attributes| && SameName(attributes[i], a) then attributes else attributes + [a]
  }

  function Kept(attributes: seq<Attribute>): seq<Attribute>
  {
    if attributes == [] then []
    else
      var n := |attributes| - 1;
      if Skipped(attributes[n]) then Kept(attributes[..n]) else Added(Kept(attributes[..n]), attributes[n])
  }

  /** An element knows two prefixes from the beginning. */
  function Prefixes(attributes: seq<Attribute>): map<string, string>
  {
    if attributes == [] then map[XML := "xml", XMLNS := "xmlns"]
    else
      var n := |attributes| - 1;
      var a := attributes[n];
      if a.namespace == Some(XMLNS) then Prefixes(attributes[..n])[a.value := a.name] else Prefixes(attributes[..n])
  }

  /** `setPrefix:forNamespace:` refuses an empty prefix. */
  predicate Refused(attributes: seq<Attribute>)
  {
    exists i :: 0 <= i < |attributes| && attributes[i].namespace == Some(XMLNS) && attributes[i].name == ""
  }

  /** Attributes of well-formed XML: all names differ, and none is a plain `xmlns`. */
  ghost predicate Proper(attributes: seq<Attribute>)
  {
    && (forall i :: 0 <= i < |attributes| ==> !Skipped(attributes[i]))
    && (forall i, j :: 0 <= i < j < |attributes| ==> !SameName(attributes[i], attributes[j]))
  }

  lemma AddedNew(attributes: seq<Attribute>, a: Attribute)
    ensures (forall i :: 0 <= i < |attributes| ==> !SameName(attributes[i], a)) ==>
      Added(attributes, a) == attributes + [a]
  {
  }

  lemma ProperPrefix(attributes: seq<Attribute>, n: nat)
    requires Proper(attributes) && n < |attributes|
    ensures Proper(attributes[..n]) && !Skipped(attributes[n])
    ensures Added(attributes[..n], attributes[n]) == attributes[..n + 1]
  {
    hide Skipped, SameName;
    var rest := attributes[..n];
    assert forall i :: 0 <= i < n ==> rest[i] == attributes[i] && !SameName(attributes[i], attributes[n]);
    AddedNew(rest, attributes[n]);
    assert rest + [attributes[n]] == attributes[..n + 1];
  }

  lemma {:induction false} ProperKept(attributes: seq<Attribute>)
    requires Proper(attributes)
    ensures Kept(attributes) == attributes
  {
    hide Skipped, SameName, Proper, Added;
    if attributes != [] {
      var n := |attributes| - 1;
      ProperPrefix(attributes, n);
      ProperKept(attributes[..n]);
      assert attributes[..n + 1] == attributes;
    }
  }

  // What attributes mean, apart from how they are gone through

  /** `xmlns:name="namespace"` */
  predicate Declares(a: Attribute, namespace: string)
  {
    a.namespace == Some("http://www.w3.org/2000/xmlns/") && a.value == namespace
  }

  ghost predicate DeclaresLast(attributes: seq<Attribute>, i: nat, namespace: string)
  {
    && i < |attributes| && Declares(attributes[i], namespace)
    && forall j :: i < j < |attributes| ==> !Declares(attributes[j], namespace)
  }

  /** The prefix that an element with these attributes has for a namespace */
  ghost predicate IsPrefix(attributes: seq<Attribute>, namespace: string, prefix: Option<string>)
  {
    if exists i :: 0 <= i < |attributes| && Declares(attributes[i], namespace) then
      exists i: nat :: DeclaresLast(attributes, i, namespace) && prefix == Some(attributes[i].name)
    else
      prefix == if namespace == "http://www.w3.org/XML/1998/namespace" then Some("xml")
                else if namespace == "http://www.w3.org/2000/xmlns/" then Some("xmlns") else None
  }

  function PrefixIn(prefixes: map<string, string>, namespace: string): Option<string>
  {
    if namespace in prefixes then Some(prefixes[namespace]) else None
  }

  /** For every namespace, these are the prefixes of an element with these attributes. */
  ghost predicate PrefixesOf(prefixes: map<string, string>, attributes: seq<Attribute>)
  {
    forall namespace :: IsPrefix(attributes, namespace, PrefixIn(prefixes, namespace))
  }

  lemma OnePrefix(attributes: seq<Attribute>, namespace: string, p: Option<string>, q: Option<string>)
    requires IsPrefix(attributes, namespace, p) && IsPrefix(attributes, namespace, q)
    ensures p == q
  {
  }

  lemma PrefixesOnce(p: map<string, string>, q: map<string, string>, attributes: seq<Attribute>)
    requires PrefixesOf(p, attributes) && PrefixesOf(q, attributes)
    ensures p == q
  {
    hide IsPrefix;
    forall namespace: string
      ensures PrefixIn(p, namespace) == PrefixIn(q, namespace)
    {
      assert IsPrefix(attributes, namespace, PrefixIn(p, namespace));
      assert IsPrefix(attributes, namespace, PrefixIn(q, namespace));
      OnePrefix(attributes, namespace, PrefixIn(p, namespace), PrefixIn(q, namespace));
    }
    forall n | n in p ensures n in q && q[n] == p[n] { assert PrefixIn(p, n) == PrefixIn(q, n); }
    forall n | n in q ensures n in p { assert PrefixIn(p, n) == PrefixIn(q, n); }
  }

  /** One more attribute at the end */
  lemma NextPrefix(attributes: seq<Attribute>, a: Attribute, namespace: string, prefix: Option<string>)
    requires IsPrefix(attributes, namespace, prefix)
    ensures IsPrefix(attributes + [a], namespace, if Declares(a, namespace) then Some(a.name) else prefix)
  {
    var more, n := attributes + [a], |attributes|;
    assert more[n] == a && forall i :: 0 <= i < n ==> more[i] == attributes[i];
    if Declares(a, namespace) {
      assert DeclaresLast(more, n, namespace);
    } else if i :| 0 <= i < n && Declares(attributes[i], namespace) {
      assert Declares(more[i], namespace);
      var k: nat :| DeclaresLast(attributes, k, namespace) && prefix == Some(attributes[k].name);
      assert DeclaresLast(more, k, namespace);
    }
  }

  /** The last declaration of a namespace counts; without one, two namespaces have a prefix and no others. */
  lemma {:induction false} PrefixesAre(attributes: seq<Attribute>)
    ensures PrefixesOf(Prefixes(attributes), attributes)
  {
    hide IsPrefix;
    if attributes == [] {
      forall namespace ensures IsPrefix([], namespace, PrefixIn(Prefixes([]), namespace)) { FirstPrefixes(namespace); }
    } else {
      var n := |attributes| - 1;
      var a := attributes[n];
      PrefixesAre(attributes[..n]);
      assert attributes == attributes[..n] + [a];
      forall namespace ensures IsPrefix(attributes, namespace, PrefixIn(Prefixes(attributes), namespace)) {
        NextPrefix(attributes[..n], a, namespace, PrefixIn(Prefixes(attributes[..n]), namespace));
      }
    }
  }

  lemma FirstPrefixes(namespace: string)
    ensures IsPrefix([], namespace, PrefixIn(Prefixes([]), namespace))
  {
  }

  /** The first attribute of its name that is not a plain `xmlns` */
  ghost predicate FirstOfName(attributes: seq<Attribute>, i: nat)
  {
    && i < |attributes| && !(attributes[i].name == "xmlns" && attributes[i].namespace == None)
    && forall j :: 0 <= j < i ==> !SameName(attributes[j], attributes[i])
  }

  lemma FirstStays(attributes: seq<Attribute>, a: Attribute, i: nat)
    requires i < |attributes|
    ensures FirstOfName(attributes + [a], i) <==> FirstOfName(attributes, i)
  {
    assert forall j :: 0 <= j <= i ==> (attributes + [a])[j] == attributes[j];
  }

  /** Of the attributes, exactly the first of each name are kept, in their order. */
  lemma {:induction false} KeptAre(attributes: seq<Attribute>) returns (indexes: seq<nat>)
    ensures |indexes| == |Kept(attributes)|
    ensures forall x :: 0 <= x < |indexes| ==>
      FirstOfName(attributes, indexes[x]) && Kept(attributes)[x] == attributes[indexes[x]]
    ensures forall x, y :: 0 <= x < y < |indexes| ==> indexes[x] < indexes[y]
    ensures forall i :: FirstOfName(attributes, i) ==> i in indexes
  {
    if attributes == [] {
      indexes := [];
    } else {
      var n := |attributes| - 1;
      var a, kept := attributes[n], Kept(attributes[..n]);
      indexes := KeptAre(attributes[..n]);
      assert attributes == attributes[..n] + [a];
      forall i | 0 <= i < n ensures FirstOfName(attributes, i) <==> FirstOfName(attributes[..n], i) {
        FirstStays(attributes[..n], a, i);
      }
      LastIsFirst(attributes, indexes);
      if FirstOfName(attributes, n) { indexes := indexes + [n]; }
    }
  }

  /** The last attribute is kept if none of its name was kept before. */
  lemma LastIsFirst(attributes: seq<Attribute>, indexes: seq<nat>)
    requires attributes != []
    requires var kept := Kept(attributes[..|attributes| - 1]);
             && |indexes| == |kept|
             && forall x :: 0 <= x < |indexes| ==> indexes[x] < |attributes| - 1 && kept[x] == attributes[indexes[x]]
    requires forall i :: FirstOfName(attributes[..|attributes| - 1], i) ==> i in indexes
    ensures var n := |attributes| - 1;
            Kept(attributes) == Kept(attributes[..n]) + if FirstOfName(attributes, n) then [attributes[n]] else []
  {
    var n := |attributes| - 1;
    var a, kept := attributes[n], Kept(attributes[..n]);
    if !Skipped(a) && !FirstOfName(attributes, n) {
      var j :| 0 <= j < n && SameName(attributes[j], a);
      var i := FirstSame(attributes[..n], j);
      assert FirstOfName(attributes[..n], i);
      assert i in indexes;
      var x :| 0 <= x < |indexes| && indexes[x] == i;
      assert SameName(kept[x], a);
    }
  }

  lemma {:induction false} FirstSame(attributes: seq<Attribute>, j: nat) returns (i: nat)
    requires j < |attributes| && !Skipped(attributes[j])
    ensures i <= j && SameName(attributes[i], attributes[j]) && FirstOfName(attributes, i)
  {
    if k :| 0 <= k < j && SameName(attributes[k], attributes[j]) {
      i := FirstSame(attributes, k);
    } else {
      i := j;
    }
  }

  // The builder

  /** The open elements, each with the children it has got so far, and what the delegate was told */
  datatype State = State(stack: seq<Tree>, calls: seq<Call<Tree>>)

  function WithChild(t: Tree, child: Child): Tree
  {
    t.(children := t.children + [child])
  }

  /** A child of the innermost open element */
  function Push(stack: seq<Tree>, child: Child): seq<Tree>
    requires stack != []
  {
    stack[..|stack| - 1] + [WithChild(stack[|stack| - 1], child)]
  }

  function StatusOf(s: State, d: Delegate, e: Event): Status
  {
    if e.Start? && Refused(e.attributes) then InvalidArgument
    else if e.End? && s.stack == [] && !d.closeTag then MalformedXML
    else Ok
  }

  function Step(s: State, d: Delegate, e: Event): State
  {
    if StatusOf(s, d, e) != Ok then s
    else
      match e
      case Found(leaf) =>
        if s.stack != [] then s.(stack := Push(s.stack, Text(leaf)))
        else if d.parentless then s.(calls := s.calls + [DidBuildParentlessNode(leaf)])
        else s
      case Start(name, _, namespace, attributes) =>
        s.(stack := s.stack + [Tree(name, namespace, Kept(attributes), Prefixes(attributes), [])])
      case End(name, prefix, namespace) =>
        var n := |s.stack| - 1;
        if s.stack == [] then s.(calls := s.calls + [DidNotExpectCloseTag(name, prefix, namespace)])
        else Delivered(State(s.stack[..n], s.calls), s.stack[n])
  }

  /** An element is finished: a child of the element around it, or the delegate's. */
  function Delivered(s: State, t: Tree): State
  {
    if s.stack == [] then s.(calls := s.calls + [DidBuildElement(t)]) else s.(stack := Push(s.stack, Element(t)))
  }

  function Run(s: State, d: Delegate, events: seq<Event>): State
    decreases |events|
  {
    if events == [] then s else Run(Step(s, d, events[0]), d, events[1..])
  }

  lemma {:induction false} RunJoins(s: State, d: Delegate, a: seq<Event>, b: seq<Event>)
    ensures Run(s, d, a + b) == Run(Run(s, d, a), d, b)
    decreases |a|
  {
    if a == [] {
      assert a + b == b;
    } else {
      assert (a + b)[1..] == a[1..] + b;
      RunJoins(Step(s, d, a[0]), d, a[1..], b);
    }
  }

  // The events of a tree

  function Events(t: Tree): seq<Event>
    decreases t, 0
  {
    [Start(t.name, None, t.namespace, t.attributes)] + ChildrenEvents(t, |t.children|)
      + [End(t.name, None, t.namespace)]
  }

  /** Of the first `n` children */
  function ChildrenEvents(t: Tree, n: nat): seq<Event>
    requires n <= |t.children|
    decreases t, 0, n
  {
    if n == 0 then []
    else
      ChildrenEvents(t, n - 1) +
      match t.children[n - 1]
      case Element(child) => Events(child)
      case Text(leaf) => [Found(leaf)]
  }

  /** No attribute in it declares an empty prefix. */
  ghost predicate Acceptable(t: Tree)
  {
    && !Refused(t.attributes)
    && forall i :: 0 <= i < |t.children| && t.children[i].Element? ==> Acceptable(t.children[i].tree)
  }

  /** What is kept of a tree: default namespace declarations and repeated attributes go. */
  function Built(t: Tree): Tree
    decreases t, 0
  {
    Tree(t.name, t.namespace, Kept(t.attributes), Prefixes(t.attributes), BuiltChildren(t, |t.children|))
  }

  function BuiltChildren(t: Tree, n: nat): (children: seq<Child>)
    requires n <= |t.children|
    ensures |children| == n
    decreases t, 0, n
  {
    if n == 0 then []
    else
      BuiltChildren(t, n - 1) +
      match t.children[n - 1]
      case Element(child) => [Element(Built(child))]
      case Text(leaf) => [Text(leaf)]
  }

  /** The innermost element when it has the first `n` of its children */
  function Partly(t: Tree, n: nat): Tree
    requires n <= |t.children|
  {
    Tree(t.name, t.namespace, Kept(t.attributes), Prefixes(t.attributes), BuiltChildren(t, n))
  }

  /**
   * The events of any tree make the builder build what is kept of that tree, once, and leave its stack as it was.
   */
  lemma {:induction false} BuildsKept(s: State, d: Delegate, t: Tree)
    requires Acceptable(t)
    ensures Run(s, d, Events(t)) == Delivered(s, Built(t))
    decreases t, 1
  {
    var start, end := Start(t.name, None, t.namespace, t.attributes), End(t.name, None, t.namespace);
    var inner := ChildrenEvents(t, |t.children|);
    RunJoins(s, d, [start] + inner, [end]);
    RunJoins(s, d, [start], inner);
    BuildsChildren(s, d, t, |t.children|);
  }

  lemma {:induction false} BuildsChildren(s: State, d: Delegate, t: Tree, n: nat)
    requires Acceptable(t) && n <= |t.children|
    ensures Run(State(s.stack + [Partly(t, 0)], s.calls), d, ChildrenEvents(t, n)) ==
            State(s.stack + [Partly(t, n)], s.calls)
    decreases t, 0, n
  {
    hide Kept, Prefixes, Events, Built, Refused;
    if n > 0 {
      var inside := State(s.stack + [Partly(t, 0)], s.calls);
      var before := State(s.stack + [Partly(t, n - 1)], s.calls);
      BuildsChildren(s, d, t, n - 1);
      match t.children[n - 1] {
        case Element(child) =>
          RunJoins(inside, d, ChildrenEvents(t, n - 1), Events(child));
          BuildsKept(before, d, child);
        case Text(leaf) =>
          RunJoins(inside, d, ChildrenEvents(t, n - 1), [Found(leaf)]);
      }
    }
  }

  /** A tree as a builder can give it */
  ghost predicate WellFormed(t: Tree)
  {
    && Proper(t.attributes) && !Refused(t.attributes) && PrefixesOf(t.prefixes, t.attributes)
    && forall i :: 0 <= i < |t.children| && t.children[i].Element? ==> WellFormed(t.children[i].tree)
  }

  lemma {:induction false} NothingGoes(t: Tree)
    requires WellFormed(t)
    ensures Acceptable(t) && Built(t) == t
    decreases t, 0
  {
    hide Proper, Refused, Kept, Prefixes, PrefixesOf;
    ProperKept(t.attributes);
    PrefixesAre(t.attributes);
    PrefixesOnce(t.prefixes, Prefixes(t.attributes), t.attributes);
    forall i | 0 <= i < |t.children| && t.children[i].Element? ensures Acceptable(t.children[i].tree) {
      NothingGoes(t.children[i].tree);
    }
    ChildrenStay(t, |t.children|);
    assert t.children[..|t.children|] == t.children;
  }

  lemma {:induction false} ChildrenStay(t: Tree, n: nat)
    requires WellFormed(t) && n <= |t.children|
    ensures BuiltChildren(t, n) == t.children[..n]
    decreases t, 0, n
  {
    hide Proper, Refused, Prefixes, PrefixesOf;
    if n > 0 {
      ChildrenStay(t, n - 1);
      if t.children[n - 1].Element? { NothingGoes(t.children[n - 1].tree); }
      assert t.children[..n] == t.children[..n - 1] + [t.children[n - 1]];
    }
  }

  /** The events of a tree make the builder build exactly that tree, once, and leave its stack as it was. */
  lemma BuildsTree(s: State, d: Delegate, t: Tree)
    requires WellFormed(t)
    ensures Run(s, d, Events(t)) == Delivered(s, t)
  {
    hide Run, Events, Delivered, Built, WellFormed, Acceptable;
    NothingGoes(t);
    BuildsKept(s, d, t);
  }

  /** The element built from any tree has the prefixes that the attributes of the tree declare. */
  lemma BuiltPrefixes(d: Delegate, t: Tree, namespace: string)
    requires Acceptable(t)
    ensures var s := Run(State([], []), d, Events(t));
            && |s.calls| == 1 && s.calls[0].DidBuildElement?
            && IsPrefix(t.attributes, namespace, PrefixIn(s.calls[0].element.prefixes, namespace))
  {
    hide Run, Events, IsPrefix, Prefixes;
    BuildsKept(State([], []), d, t);
    PrefixesAre(t.attributes);
  }
}
