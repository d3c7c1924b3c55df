// OFXMLElementBuilder of src/OFXMLElementBuilder.m: elements are objects that are children of each
// other from their start tag on; module XmlTrees says what they amount to.

module XmlElementBuilders {
  import opened Options
  import opened XmlTrees

  datatype Node = ElementNode(element: OFXMLElement) | LeafNode(leaf: Leaf)

  class OFXMLElement {
    const name: string
    const namespace: Option<string>
    var attributes: seq<Attribute>
    var namespaces: map<string, string>
    var children: seq<Node>

    constructor (name: string, namespace: Option<string>)
      ensures this.name == name && this.namespace == namespace
      ensures attributes == [] && namespaces == Prefixes([]) && children == []
    {
      this.name, this.namespace, attributes, children := name, namespace, [], [];
      namespaces := map[XML := "xml", XMLNS := "xmlns"];
    }

    method AddChild(child: Node)
      modifies this`children
      ensures children == old(children) + [child]
    {
      children := children + [child];
    }

    method AddAttribute(a: Attribute)
      modifies this`attributes
      ensures attributes == Added(old(attributes), a)
    {
      var i := 0;
      while i < |attributes|
        invariant 0 <= i <= |attributes|
        invariant forall j :: 0 <= j < i ==> !SameName(attributes[j], a)
      {
        if SameName(attributes[i], a) { return; }
        i := i + 1;
      }
      attributes := attributes + [a];
    }
  }

  /** The finished elements and what each of them amounts to */
  type Finished = map<OFXMLElement, Tree>

  ghost predicate NodesShow(nodes: seq<Node>, children: seq<Child>, finished: Finished)
  {
    && |nodes| == |children|
    && forall i :: 0 <= i < |nodes| ==> NodeShows(nodes[i], children[i], finished)
  }

  ghost predicate NodeShows(node: Node, child: Child, finished: Finished)
  {
    match node
    case LeafNode(leaf) => child == Text(leaf)
    case ElementNode(e) => e in finished && child == Element(finished[e])
  }

  /** The element is that tree, but for its last children `more`. */
  ghost predicate Shows(e: OFXMLElement, t: Tree, finished: Finished, more: seq<Node>)
    reads e
  {
    && e.name == t.name && e.namespace == t.namespace && e.attributes == t.attributes && e.namespaces == t.prefixes
    && |e.children| >= |more| && e.children[|e.children| - |more|..] == more
    && NodesShow(e.children[..|e.children| - |more|], t.children, finished)
  }

  lemma ShowsGrows(e: OFXMLElement, t: Tree, finished: Finished, more: seq<Node>, top: OFXMLElement, tree: Tree)
    requires Shows(e, t, finished, more) && top !in finished
    ensures Shows(e, t, finished[top := tree], more)
  {
    var nodes := e.children[..|e.children| - |more|];
    forall i | 0 <= i < |nodes| ensures NodeShows(nodes[i], t.children[i], finished[top := tree]) {
      assert NodeShows(nodes[i], t.children[i], finished);
    }
  }

  /** The last child is finished. */
  lemma ShowsAdopts(e: OFXMLElement, t: Tree, finished: Finished, child: OFXMLElement)
    requires Shows(e, t, finished, [ElementNode(child)]) && child in finished
    ensures Shows(e, WithChild(t, Element(finished[child])), finished, [])
  {
    var n := |e.children| - 1;
    var children := WithChild(t, Element(finished[child])).children;
    assert e.children[n..] == [ElementNode(child)];
    assert e.children[n] == e.children[n..][0];
    assert e.children[..n + 1] == e.children;
    forall i | 0 <= i < n + 1 ensures NodeShows(e.children[i], children[i], finished) {
      if i < n { assert NodeShows(e.children[..n][i], t.children[i], finished); }
    }
  }

  class OFXMLElementBuilder {
    const delegate: Delegate
    var stack: seq<OFXMLElement>
    var calls: seq<Call<OFXMLElement>>
    ghost var open: seq<Tree>
    ghost var told: seq<Call<Tree>>
    ghost var finished: Finished

    /** The element that an open element holds as its last child */
    ghost function Inner(i: int): seq<Node>
      reads this
    {
      if 0 <= i < |stack| - 1 then [ElementNode(stack[i + 1])] else []
    }

    ghost predicate Valid()
      reads this, stack, finished.Keys
    {
      && |open| == |stack|
      && (forall i, j :: 0 <= i < j < |stack| ==> stack[i] != stack[j])
      && (forall i :: 0 <= i < |stack| ==> stack[i] !in finished)
      && (forall i :: 0 <= i < |stack| ==> IsOpen(i))
      && (forall e :: e in finished ==> IsFinished(e))
      && |told| == |calls| && forall i :: 0 <= i < |calls| ==> Tells(calls[i], told[i], finished)
    }

    ghost predicate IsOpen(i: nat)
      requires i < |stack| == |open|
      reads this, stack
    {
      Shows(stack[i], open[i], finished, Inner(i))
    }

    ghost predicate IsFinished(e: OFXMLElement)
      requires e in finished
      reads this, e
    {
      Shows(e, finished[e], finished, [])
    }

    ghost predicate Tells(call: Call<OFXMLElement>, tells: Call<Tree>, finished: Finished)
    {
      match call
      case DidBuildElement(e) => e in finished && tells == DidBuildElement(finished[e])
      case DidBuildParentlessNode(leaf) => tells == DidBuildParentlessNode(leaf)
      case DidNotExpectCloseTag(name, prefix, namespace) => tells == DidNotExpectCloseTag(name, prefix, namespace)
    }

    ghost function Abstract(): State
      reads this
    {
      State(open, told)
    }

    constructor (delegate: Delegate)
      ensures Valid() && this.delegate == delegate && Abstract() == State([], [])
    {
      this.delegate, stack, calls := delegate, [], [];
      open, told, finished := [], [], map[];
    }

    /** `parser:foundCharacters:` and the like */
    method FoundLeaf(leaf: Leaf)
      requires Valid()
      modifies this, stack
      ensures Valid() && stack == old(stack)
      ensures Abstract() == Step(old(Abstract()), delegate, Found(leaf))
    {
      if stack != [] {
        AddLeaf(leaf);
      } else if delegate.parentless {
        hide IsFinished;
        calls := calls + [DidBuildParentlessNode(leaf)];
        told := told + [DidBuildParentlessNode(leaf)];
        forall e | e in finished ensures IsFinished(e) { assert old(IsFinished(e)); }
      }
    }

    method AddLeaf(leaf: Leaf)
      requires Valid() && stack != []
      modifies this`open, stack
      ensures Valid() && open == Push(old(open), Text(leaf))
    {
      var n := |stack| - 1;
      assert IsOpen(n);
      var parent := stack[n];
      ghost var was := parent.children;
      parent.AddChild(LeafNode(leaf));
      open := Push(open, Text(leaf));
      forall i | 0 <= i < |stack| ensures IsOpen(i) {
        assert old(IsOpen(i));
        if i == n {
          assert was[..|was|] == was;
          forall k | 0 <= k < |parent.children| ensures NodeShows(parent.children[k], open[n].children[k], finished) {
            if k < |was| { assert NodeShows(was[..|was|][k], old(open[n]).children[k], finished); }
          }
          assert parent.children[..|parent.children|] == parent.children;
        }
      }
      forall e | e in finished ensures IsFinished(e) { assert old(IsFinished(e)); }
    }

    method DidEndElement(name: string, prefix: Option<string>, namespace: Option<string>) returns (status: Status)
      requires Valid()
      modifies this
      ensures Valid() && forall k :: 0 <= k < |stack| ==> stack[k] in old(stack)
      ensures status == StatusOf(old(Abstract()), delegate, End(name, prefix, namespace))
      ensures Abstract() == Step(old(Abstract()), delegate, End(name, prefix, namespace))
    {
      if |stack| == 0 {
        if !delegate.closeTag { return MalformedXML; }
        calls := calls + [DidNotExpectCloseTag(name, prefix, namespace)];
        told := told + [DidNotExpectCloseTag(name, prefix, namespace)];
        forall e | e in finished ensures IsFinished(e) { assert old(IsFinished(e)); }
        return Ok;
      }
      if |stack| == 1 { FinishRoot(); } else { FinishChild(); }
      return Ok;
    }

    method FinishRoot()
      requires Valid() && |stack| == 1
      modifies this
      ensures Valid() && stack == [] && open == [] && told == old(told) + [DidBuildElement(old(open[0]))]
    {
      hide Shows;
      var top := stack[0];
      ghost var t := open[0];
      assert IsOpen(0);
      calls, told := calls + [DidBuildElement(top)], told + [DidBuildElement(t)];
      stack, open := [], [];
      finished := finished[top := t];
      forall e | e in finished ensures IsFinished(e) {
        if e != top { assert old(IsFinished(e)); }
        ShowsGrows(e, finished[e], old(finished), [], top, t);
      }
    }

    /** The element is a child of the one around it already. */
    method FinishChild()
      requires Valid() && |stack| > 1
      modifies this
      ensures Valid() && told == old(told) && stack == old(stack)[..|old(stack)| - 1]
      ensures open == Push(old(open)[..|old(open)| - 1], Element(old(open)[|old(open)| - 1]))
    {
      hide Shows;
      var n := |stack| - 1;
      var top := stack[n];
      ghost var t := open[n];
      assert IsOpen(n);
      stack := stack[..n];
      finished := finished[top := t];
      open := Push(open[..n], Element(t));
      forall i | 0 <= i < |stack| ensures IsOpen(i) {
        assert old(IsOpen(i));
        ShowsGrows(stack[i], old(open[i]), old(finished), old(Inner(i)), top, t);
        if i == n - 1 { ShowsAdopts(stack[i], old(open[i]), finished, top); }
      }
      forall e | e in finished ensures IsFinished(e) {
        if e != top { assert old(IsFinished(e)); }
        ShowsGrows(e, finished[e], old(finished), [], top, t);
      }
    }

    method DidStartElement(name: string, prefix: Option<string>, namespace: Option<string>, attributes: seq<Attribute>)
        returns (status: Status)
      requires Valid()
      modifies this, stack
      ensures Valid() && forall k :: 0 <= k < |stack| ==> stack[k] in old(stack) || fresh(stack[k])
      ensures status == StatusOf(old(Abstract()), delegate, Start(name, prefix, namespace, attributes))
      ensures Abstract() == Step(old(Abstract()), delegate, Start(name, prefix, namespace, attributes))
    {
      var element := new OFXMLElement(name, namespace);
      var i := 0;
      while i < |attributes|
        invariant 0 <= i <= |attributes|
        invariant element.attributes == Kept(attributes[..i]) && element.namespaces == Prefixes(attributes[..i])
          && element.children == []
        invariant !Refused(attributes[..i])
        modifies element
      {
        var attribute := attributes[i];
        assert attributes[..i + 1][..i] == attributes[..i];
        if !(attribute.namespace.None? && attribute.name == "xmlns") {
          if attribute.namespace == Some(XMLNS) {
            if attribute.name == "" {
              assert attributes[i].name == "";
              return InvalidArgument;
            }
            element.namespaces := element.namespaces[attribute.value := attribute.name];
          }
          element.AddAttribute(attribute);
        }
        i := i + 1;
      }
      assert attributes[..i] == attributes;
      Open(element, Tree(name, namespace, Kept(attributes), Prefixes(attributes), []));
      return Ok;
    }

    method Open(element: OFXMLElement, ghost t: Tree)
      requires Valid() && element !in stack && element !in finished
      requires Shows(element, t, finished, [])
      modifies this`stack, this`open, stack
      ensures Valid() && stack == old(stack) + [element] && open == old(open) + [t]
    {
      hide NodesShow;
      var n := |stack|;
      if stack != [] { stack[n - 1].AddChild(ElementNode(element)); }
      stack, open := stack + [element], open + [t];
      forall i | 0 <= i < |stack| ensures IsOpen(i) {
        if i < n {
          assert old(IsOpen(i));
          if i == n - 1 { Extended(old(stack[i].children), ElementNode(element)); }
        }
      }
      forall e | e in finished ensures IsFinished(e) { assert old(IsFinished(e)); }
    }

    static lemma Extended(nodes: seq<Node>, node: Node)
      ensures (nodes + [node])[|nodes|..] == [node] && (nodes + [node])[..|nodes|] == nodes && nodes[..|nodes|] == nodes
    {
    }

    /** Any run of events; what an exception was thrown for is passed over. */
    method Feed(events: seq<Event>)
      requires Valid()
      modifies this, stack
      ensures Valid() && Abstract() == Run(old(Abstract()), delegate, events)
    {
      hide Valid, Step, Refused;
      var i := 0;
      while i < |events|
        invariant 0 <= i <= |events| && Valid()
        invariant forall k :: 0 <= k < |stack| ==> stack[k] in old(stack) || fresh(stack[k])
        invariant Abstract() == Run(old(Abstract()), delegate, events[..i])
      {
        RunJoins(old(Abstract()), delegate, events[..i], [events[i]]);
        assert events[..i] + [events[i]] == events[..i + 1];
        match events[i] {
          case Found(leaf) => FoundLeaf(leaf);
          case Start(name, prefix, namespace, attributes) => var _ :=
            DidStartElement(name, prefix, namespace, attributes);
          case End(name, prefix, namespace) => var _ := DidEndElement(name, prefix, namespace);
        }
        i := i + 1;
      }
      assert events[..i] == events;
    }
  }
}
