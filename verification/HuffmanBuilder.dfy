// The construction of Huffman trees in place, as in src/huffman_tree.m, proved against the trees of
// module Huffman.

module HuffmanBuilder {
  import opened Bits
  import opened Huffman

  class TreeNode {
    var leaf0: TreeNode?
    var leaf1: TreeNode?
    var value: nat

    constructor ()
      ensures leaf0 == null && leaf1 == null && value == NO_VALUE
    {
      leaf0, leaf1, value := null, null, NO_VALUE;
    }
  }

  /** The nodes of a tree in the heap, by the path that leads to each of them. */
  type Nodes = map<seq<Bit>, TreeNode>

  ghost function Child(nodes: Nodes, path: seq<Bit>): TreeNode?
  {
    if path in nodes then nodes[path] else null
  }

  ghost predicate Linked(nodes: Nodes)
    reads nodes.Values
  {
    && [] in nodes
    && (forall p: seq<Bit>, b: Bit {:trigger p + [b] in nodes} :: p + [b] in nodes ==> p in nodes)
    && (forall p {:trigger nodes[p].leaf0} :: p in nodes ==> nodes[p].leaf0 == Child(nodes, p + [0]))
    && (forall p {:trigger nodes[p].leaf1} :: p in nodes ==> nodes[p].leaf1 == Child(nodes, p + [1]))
    && (forall p, q :: p in nodes && q in nodes && nodes[p] == nodes[q] ==> p == q)
  }

  /** The heap nodes form the tree `t`. */
  ghost predicate Represents(nodes: Nodes, t: Tree)
    reads nodes.Values
  {
    && Linked(nodes)
    && t.Node?
    && (forall p :: p in nodes <==> At(t, p).Node?)
    && (forall p :: p in nodes ==> nodes[p].value == At(t, p).value)
  }

  /** One turn of the loop of `insertTree`: the child for `bit`, created where it is missing. */
  method Descend(ghost nodes: Nodes, ghost path: seq<Bit>, tree: TreeNode, bit: Bit)
    returns (next: TreeNode, ghost nodes': Nodes)
    requires Linked(nodes) && path in nodes && nodes[path] == tree
    modifies tree`leaf0, tree`leaf1
    ensures Linked(nodes')
    ensures path + [bit] in nodes ==> nodes' == nodes && next == nodes[path + [bit]]
    ensures path + [bit] !in nodes ==>
      fresh(next) && next.value == NO_VALUE && nodes' == nodes[path + [bit] := next]
      && nodes'.Values == nodes.Values + {next}
  {
    ghost var at := path + [bit];
    nodes' := nodes;
    if (if bit == 0 then tree.leaf0 else tree.leaf1) == null {
      assert at !in nodes;
      NothingBelow(nodes, at);
      var node := new TreeNode();
      if bit == 0 { tree.leaf0 := node; } else { tree.leaf1 := node; }
      nodes' := nodes[at := node];
      ValuesOfUpdate(nodes, at, node);
      forall b: Bit ensures at + [b] !in nodes' { assert |at + [b]| == |at| + 1; }
      forall p: seq<Bit>, b: Bit | p + [b] in nodes' ensures p in nodes' {
        LastStep(p, path, bit);
      }
      forall p | p in nodes
        ensures nodes[p].leaf0 == Child(nodes', p + [0]) && nodes[p].leaf1 == Child(nodes', p + [1])
      {
        LastStep(p, path, bit);
      }
    }
    next := if bit == 0 then tree.leaf0 else tree.leaf1;
  }

  lemma NothingBelow(nodes: Nodes, at: seq<Bit>)
    requires Linked(nodes) && at !in nodes
    ensures forall b: Bit :: at + [b] !in nodes
  {
  }

  lemma ValuesOfUpdate(nodes: Nodes, path: seq<Bit>, node: TreeNode)
    requires path !in nodes
    ensures nodes[path := node].Values == nodes.Values + {node}
  {
    var nodes' := nodes[path := node];
    forall x | x in nodes.Values + {node} ensures x in nodes'.Values {
      if x == node {
        assert nodes'[path] == x;
      } else {
        var p :| p in nodes && nodes[p] == x;
        assert nodes'[p] == x;
      }
    }
  }

  lemma LastStep(p: seq<Bit>, q: seq<Bit>, bit: Bit)
    ensures forall b: Bit :: p + [b] == q + [bit] ==> p == q && b == bit
  {
    forall b: Bit | p + [b] == q + [bit] ensures p == q && b == bit {
      assert p == (p + [b])[..|p|] && q == (q + [bit])[..|q|];
      assert (p + [b])[|p|] == b && (q + [bit])[|q|] == bit;
    }
  }

  /** The nodes of `t` with the prefixes of `path` added, none of which carries a value. */
  ghost predicate Extends(nodes: Nodes, t: Tree, path: seq<Bit>)
    reads nodes.Values
  {
    && (forall p :: p in nodes <==> At(t, p).Node? || p <= path)
    && (forall p :: p in nodes ==> nodes[p].value == if At(t, p).Node? then At(t, p).value else NO_VALUE)
  }

  lemma ExtendsDomain(nodes: Nodes, nodes': Nodes, t: Tree, path: seq<Bit>, bit: Bit)
    requires forall p :: p in nodes <==> At(t, p).Node? || p <= path
    requires nodes'.Keys == nodes.Keys + {path + [bit]}
    ensures forall p :: p in nodes' <==> At(t, p).Node? || p <= path + [bit]
  {
    forall p ensures p in nodes' <==> At(t, p).Node? || p <= path + [bit] {
      if p <= path + [bit] && p != path + [bit] {
        assert p == (path + [bit])[..|p|] == path[..|p|];
      }
    }
  }

  /** One turn of the loop of `insertTree`. */
  method Follow(ghost nodes: Nodes, ghost t: Tree, ghost path: seq<Bit>, tree: TreeNode, bit: Bit)
    returns (next: TreeNode, ghost nodes': Nodes)
    requires Linked(nodes) && Extends(nodes, t, path) && path in nodes && nodes[path] == tree
    modifies tree`leaf0, tree`leaf1
    ensures Linked(nodes') && Extends(nodes', t, path + [bit])
    ensures path + [bit] in nodes' && nodes'[path + [bit]] == next && [] in nodes' && nodes'[[]] == nodes[[]]
    ensures nodes.Values <= nodes'.Values && fresh(nodes'.Values - nodes.Values)
  {
    next, nodes' := Descend(nodes, path, tree, bit);
    assert nodes'.Keys == nodes.Keys + {path + [bit]};
    ExtendsDomain(nodes, nodes', t, path, bit);
  }

  /** The last line of `insertTree`. */
  method Store(ghost nodes: Nodes, ghost t: Tree, ghost path: seq<Bit>, tree: TreeNode, value: nat)
    requires Linked(nodes) && t.Node? && Extends(nodes, t, path) && path in nodes && nodes[path] == tree
    modifies tree`value
    ensures Represents(nodes, Insert(t, path, value))
  {
    tree.value := value;
    forall p
      ensures p in nodes <==> At(Insert(t, path, value), p).Node?
      ensures p in nodes ==> nodes[p].value == At(Insert(t, path, value), p).value
    {
      AtInsert(t, path, value, p);
    }
  }

  lemma ExtendsStart(nodes: Nodes, t: Tree)
    requires Represents(nodes, t)
    ensures Extends(nodes, t, [])
  {
    forall p ensures p in nodes <==> At(t, p).Node? || p <= [] {
      if p <= [] { assert p == []; }
    }
  }

  lemma NextBit(code: nat, length: nat, k: nat)
    requires k < length
    ensures Msb(code, length)[..k + 1] == Msb(code, length)[..k] + [BitAt(code, length - 1 - k)]
  {
    MsbIndex(code, length, k);
  }

  /** The loop of `insertTree`: follows the bits of the code from the root. */
  method Grow(root: TreeNode, ghost nodes: Nodes, ghost t: Tree, code: nat, length: nat)
    returns (tree: TreeNode, ghost nodes': Nodes)
    requires Linked(nodes) && Extends(nodes, t, []) && [] in nodes && nodes[[]] == root
    modifies nodes.Values
    ensures Linked(nodes') && Extends(nodes', t, Msb(code, length))
    ensures nodes'[[]] == root && Msb(code, length) in nodes' && nodes'[Msb(code, length)] == tree
    ensures nodes.Values <= nodes'.Values && fresh(nodes'.Values - nodes.Values)
  {
    hide Linked, Extends, At, Msb, BitAt, Pow2;
    ghost var path := Msb(code, length);
    var left := length;
    tree, nodes' := root, nodes;
    ghost var done: seq<Bit> := [];
    while left > 0
      invariant 0 <= left <= length
      invariant done == path[..length - left]
      invariant Linked(nodes') && Extends(nodes', t, done)
      invariant done in nodes' && nodes'[done] == tree && [] in nodes' && nodes'[[]] == root
      invariant nodes.Values <= nodes'.Values && fresh(nodes'.Values - nodes.Values)
    {
      NextBit(code, length, length - left);
      var bit: Bit := BitAt(code, left - 1);
      assert path[..length - left + 1] == done + [bit];
      assert tree in nodes'.Values;
      tree, nodes' := Follow(nodes', t, done, tree, bit);
      left, done := left - 1, done + [bit];
    }
    assert path[..length] == path;
  }

  /** `insertTree`: follows the bits of the code and stores the value at their end. */
  method InsertTree(root: TreeNode, ghost nodes: Nodes, ghost t: Tree, code: nat, length: nat, value: nat)
    returns (ghost nodes': Nodes)
    requires Represents(nodes, t) && nodes[[]] == root
    modifies nodes.Values
    ensures Represents(nodes', Insert(t, Msb(code, length), value)) && [] in nodes' && nodes'[[]] == root
    ensures nodes.Values <= nodes'.Values && fresh(nodes'.Values - nodes.Values)
  {
    ExtendsStart(nodes, t);
    var tree: TreeNode;
    tree, nodes' := Grow(root, nodes, t, code, length);
    assert tree in nodes'.Values;
    Store(nodes', t, Msb(code, length), tree, value);
  }

  /** What `of_huffman_tree_construct` gathers about the first `n` lengths. */
  ghost predicate Counted(lengths: seq<nat>, n: nat, maxBit: nat, maxCode: nat, lengthCount: seq<nat>)
    requires n <= |lengths|
  {
    && (forall i :: 0 <= i < n ==> lengths[i] <= maxBit && (0 < lengths[i] ==> i <= maxCode))
    && (0 < maxBit ==> |lengthCount| == maxBit + 1 && maxCode < n)
    && (0 == maxBit ==> maxCode == 0)
    && (forall l :: 0 < l <= maxBit ==> lengthCount[l] == Count(lengths[..n], l))
  }

  lemma {:induction false} NoneCounted(lengths: seq<nat>, length: nat)
    requires forall i :: 0 <= i < |lengths| ==> lengths[i] != length
    ensures Count(lengths, length) == 0
  {
    if lengths != [] { NoneCounted(lengths[..|lengths| - 1], length); }
  }

  /** The most bits that the source can shift a code by, and one */
  const MAX_LENGTH: nat := 32

  /** The bits of a code of which only the low 16 are kept */
  function KeptBits(lengths: seq<nat>, symbol: nat): seq<Bit>
    requires symbol < |lengths|
  {
    Msb(Code(lengths, symbol) % 0x10000, lengths[symbol])
  }

  /** The tree holding what is kept of the codes of the symbols below `n` */
  function KeptTree(lengths: seq<nat>, n: nat): (t: Tree)
    requires n <= |lengths|
    ensures t.Node? && t.value == NO_VALUE
  {
    if n == 0 then NEW_TREE
    else if lengths[n - 1] == 0 then KeptTree(lengths, n - 1)
    else Insert(KeptTree(lengths, n - 1), KeptBits(lengths, n - 1), n - 1)
  }

  /** Of codes of at most 16 bits everything is kept. */
  lemma {:induction false} AllKept(lengths: seq<nat>, n: nat)
    requires n <= |lengths| && forall i :: 0 <= i < n ==> lengths[i] <= 16
    ensures KeptTree(lengths, n) == TreeOf(lengths, n)
  {
    if n > 0 {
      AllKept(lengths, n - 1);
      AgreeWrapped(Code(lengths, n - 1), lengths[n - 1]);
      AgreeBits(Code(lengths, n - 1) % 0x10000, Code(lengths, n - 1), lengths[n - 1]);
    }
  }

  lemma {:induction false} KeptTail(lengths: seq<nat>, m: nat, n: nat)
    requires m <= n <= |lengths|
    requires forall i :: m <= i < n ==> lengths[i] == 0
    ensures KeptTree(lengths, n) == KeptTree(lengths, m)
  {
    if m < n { KeptTail(lengths, m, n - 1); }
  }

  /** The first loop of `of_huffman_tree_construct`. */
  method CountLengths(lengths: seq<nat>, unset: nat)
    returns (maxBit: nat, maxCode: nat, lengthCount: seq<nat>)
    requires 0 < |lengths|
    ensures Counted(lengths, |lengths|, maxBit, maxCode, lengthCount)
  {
    maxBit, maxCode, lengthCount := 0, 0, [];
    for i := 0 to |lengths|
      invariant Counted(lengths, i, maxBit, maxCode, lengthCount)
    {
      var length := lengths[i];
      assert lengths[..i + 1][..i] == lengths[..i];
      if length > maxBit {
        forall l | maxBit < l <= length ensures Count(lengths[..i], l) == 0 {
          NoneCounted(lengths[..i], l);
        }
        if maxBit == 0 { lengthCount := [unset]; }
        lengthCount := lengthCount + seq(length - maxBit, _ => 0);
        maxBit := length;
      }
      if length > 0 {
        lengthCount := lengthCount[length := lengthCount[length] + 1];
        maxCode := i;
      }
    }
  }

  /** How many bits of a code of this length are kept */
  function Width(length: nat): nat
  {
    if length < 16 then length else 16
  }

  lemma FirstCodesStep(lengths: seq<nat>, i: nat, code: nat, count: nat)
    requires 0 < i
    requires i > 1 ==> Agree(code, FirstCode(lengths, i - 1), Width(i - 1)) && count == Count(lengths, i - 1)
    ensures Agree((2 * (code + count)) % 0x10000, FirstCode(lengths, i), Width(i))
  {
    if i > 16 {
      AgreeBeyond(code, FirstCode(lengths, i - 1), count);
    } else if i > 1 {
      AgreeNext(code, FirstCode(lengths, i - 1), count, i - 1);
    } else {
      AgreeAnything(code + count);
      AgreeNext(code + count, 0, 0, 0);
    }
  }

  /** The second loop: the smallest code of each length, in 16 bits. */
  method FirstCodes(lengths: seq<nat>, maxBit: nat, maxCode: nat, lengthCount: seq<nat>)
    returns (nextCode: seq<nat>)
    requires Counted(lengths, |lengths|, maxBit, maxCode, lengthCount)
    ensures NextCodes(lengths, 0, maxBit, nextCode)
  {
    hide Agree, FirstCode, Count;
    assert lengths[..|lengths|] == lengths;
    var code: nat := 0;
    nextCode := seq(maxBit + 1, _ => 0);
    for i := 1 to maxBit + 1
      invariant |nextCode| == maxBit + 1
      invariant i > 1 ==> Agree(code, FirstCode(lengths, i - 1), Width(i - 1))
      invariant forall l :: 0 < l < i ==> nextCode[l] < 0x10000 && Agree(nextCode[l], FirstCode(lengths, l), Width(l))
    {
      FirstCodesStep(lengths, i, code, lengthCount[i - 1]);
      code := (2 * (code + lengthCount[i - 1])) % 0x10000;
      nextCode := nextCode[i := code];
    }
    NothingCounted(lengths);
  }

  lemma NothingCounted(lengths: seq<nat>)
    ensures forall l :: Count(lengths[..0], l) == 0
  {
  }

  /** `newTree` */
  method NewRoot() returns (root: TreeNode, ghost nodes: Nodes)
    ensures Represents(nodes, NEW_TREE) && nodes[[]] == root && fresh(nodes.Values)
  {
    root := new TreeNode();
    nodes := map[[] := root];
    assert nodes[[]] == root;
    forall p: seq<Bit> ensures p in nodes <==> At(NEW_TREE, p).Node? { AtNewTree(p); }
  }

  /** `nextCode` before symbol `i` is given its code. */
  ghost predicate NextCodes(lengths: seq<nat>, i: nat, maxBit: nat, nextCode: seq<nat>)
    requires i <= |lengths|
  {
    && |nextCode| == maxBit + 1
    && forall l :: 0 < l <= maxBit ==>
         nextCode[l] < 0x10000 && Agree(nextCode[l], FirstCode(lengths, l) + Count(lengths[..i], l), Width(l))
  }

  lemma NextCodesStep(lengths: seq<nat>, i: nat, maxBit: nat, nextCode: seq<nat>)
    requires i < |lengths| && lengths[i] <= maxBit && NextCodes(lengths, i, maxBit, nextCode)
    ensures lengths[i] == 0 ==> NextCodes(lengths, i + 1, maxBit, nextCode)
    ensures 0 < lengths[i] ==>
      && Msb(nextCode[lengths[i]], lengths[i]) == KeptBits(lengths, i)
      && NextCodes(lengths, i + 1, maxBit, nextCode[lengths[i] := (nextCode[lengths[i]] + 1) % 0x10000])
  {
    assert lengths[..i + 1][..i] == lengths[..i];
    if lengths[i] > 0 {
      hide Agree, Msb, FirstCode;
      SameBits(nextCode[lengths[i]], Code(lengths, i), lengths[i]);
      AgreeStep(nextCode[lengths[i]], Code(lengths, i), Width(lengths[i]));
    }
  }

  /** Numbers of 16 bits that agree with a code give the bits that are kept of it. */
  lemma SameBits(a: nat, code: nat, length: nat)
    requires a < 0x10000 && Agree(a, code, Width(length))
    ensures Msb(a, length) == Msb(code % 0x10000, length)
  {
    AgreeWrapped(code, Width(length));
    AgreeBack(code % 0x10000, code, Width(length));
    AgreeThen(a, code, code % 0x10000, Width(length));
    if length <= 16 {
      AgreeBits(a, code % 0x10000, length);
    } else {
      Pow2Of16();
      hide Pow2;
      AgreeSmall(a, code % 0x10000);
    }
  }

  lemma AgreeBack(a: nat, b: nat, length: nat)
    requires Agree(a, b, length)
    ensures Agree(b, a, length)
  {
    var k: int :| a == b + k * Pow2(length);
    Negated(k, Pow2(length));
    assert b == a + (-k) * Pow2(length);
  }

  lemma AgreeSmall(a: nat, b: nat)
    requires a < 0x10000 && b < 0x10000 && Agree(a, b, 16) && Pow2(16) == 0x10000
    ensures a == b
  {
    var k: int :| a == b + k * Pow2(16);
  }

  /** One turn of the third loop: the next code of its length goes to symbol `i`. */
  method AssignCode(lengths: seq<nat>, i: nat, maxBit: nat, nextCode: seq<nat>, root: TreeNode, ghost nodes: Nodes)
    returns (nextCode': seq<nat>, ghost nodes': Nodes)
    requires i < |lengths| && lengths[i] <= maxBit && NextCodes(lengths, i, maxBit, nextCode)
      && |nextCode| == maxBit + 1
    requires Represents(nodes, KeptTree(lengths, i)) && [] in nodes && nodes[[]] == root
    modifies nodes.Values
    ensures NextCodes(lengths, i + 1, maxBit, nextCode') && |nextCode'| == maxBit + 1
    ensures Represents(nodes', KeptTree(lengths, i + 1)) && [] in nodes' && nodes'[[]] == root
    ensures nodes.Values <= nodes'.Values && fresh(nodes'.Values - nodes.Values)
  {
    hide Represents, Msb, Insert, NextCodes, KeptBits;
    var length := lengths[i];
    NextCodesStep(lengths, i, maxBit, nextCode);
    nextCode', nodes' := nextCode, nodes;
    if length > 0 {
      nodes' := InsertTree(root, nodes, KeptTree(lengths, i), nextCode[length], length, i);
      nextCode' := nextCode[length := (nextCode[length] + 1) % 0x10000];
    }
  }

  /** The third loop: codes are handed out in the order of the symbols. */
  method AssignCodes(lengths: seq<nat>, maxBit: nat, maxCode: nat, first: seq<nat>)
    returns (root: TreeNode, ghost nodes: Nodes)
    requires maxCode < |lengths| && NextCodes(lengths, 0, maxBit, first)
    requires forall i :: 0 <= i < |lengths| ==> lengths[i] <= maxBit && (0 < lengths[i] ==> i <= maxCode)
    ensures Represents(nodes, KeptTree(lengths, |lengths|)) && nodes[[]] == root
    ensures fresh(nodes.Values)
  {
    var nextCode := first;
    root, nodes := NewRoot();
    assert [] in nodes && |nextCode| == maxBit + 1 && KeptTree(lengths, 0) == NEW_TREE;
    KeptTail(lengths, maxCode + 1, |lengths|);
    hide Represents, NextCodes, KeptTree;
    for i := 0 to maxCode + 1
      invariant NextCodes(lengths, i, maxBit, nextCode) && |nextCode| == maxBit + 1
      invariant Represents(nodes, KeptTree(lengths, i)) && [] in nodes && nodes[[]] == root && fresh(nodes.Values)
    {
      nextCode, nodes := AssignCode(lengths, i, maxBit, nextCode, root, nodes);
    }
  }

  /**
   * `of_huffman_tree_construct`. The source allocates `lengthCount` without setting its entry 0, yet reads it; `unset`
   * stands for what happens to be there, which never shows in the tree. Codes are kept in 16 bits, which does not show
   * as long as no length exceeds 16.
   */
  method Construct(lengths: seq<nat>, unset: nat)
    returns (root: TreeNode, ghost nodes: Nodes)
    requires 0 < |lengths| <= NO_VALUE
    requires forall i :: 0 <= i < |lengths| ==> lengths[i] <= MAX_LENGTH
    ensures Represents(nodes, KeptTree(lengths, |lengths|)) && nodes[[]] == root
    ensures (forall i :: 0 <= i < |lengths| ==> lengths[i] <= 16) ==>
      Represents(nodes, TreeOf(lengths, |lengths|))
    ensures fresh(nodes.Values)
  {
    hide KeptTree, TreeOf, Represents;
    if forall i :: 0 <= i < |lengths| ==> lengths[i] <= 16 { AllKept(lengths, |lengths|); }
    var maxBit, maxCode, lengthCount := CountLengths(lengths, unset);
    var nextCode := FirstCodes(lengths, maxBit, maxCode, lengthCount);
    root, nodes := AssignCodes(lengths, maxBit, maxCode, nextCode);
  }

  /** Equal in the low `length` bits. */
  ghost predicate Agree(a: nat, b: nat, length: nat)
  {
    exists k: int :: a == b + k * Pow2(length)
  }

  lemma AgreeBits(a: nat, b: nat, length: nat)
    requires Agree(a, b, length)
    ensures Msb(a, length) == Msb(b, length)
  {
    var k: int :| a == b + k * Pow2(length);
    if k >= 0 {
      MsbCongruent(a, b, k, length);
    } else {
      Negated(k, Pow2(length));
      MsbCongruent(b, a, -k, length);
    }
  }

  lemma Negated(k: int, p: int)
    ensures (-k) * p == -(k * p)
  {
  }

  lemma Distributed(k: int, l: int, p: int)
    ensures (k + l) * p == k * p + l * p
  {
  }

  lemma AgreePlus(a: nat, b: nat, c: nat, length: nat)
    requires Agree(a, b, length)
    ensures Agree(a + c, b + c, length)
  {
    var k: int :| a == b + k * Pow2(length);
    assert a + c == (b + c) + k * Pow2(length);
  }

  lemma AgreeTwice(a: nat, b: nat, length: nat)
    requires Agree(a, b, length)
    ensures Agree(2 * a, 2 * b, length + 1)
  {
    var k: int :| a == b + k * Pow2(length);
    Doubled(Pow2(length), k);
    assert 2 * a == 2 * b + k * Pow2(length + 1);
  }

  lemma AgreeThen(a: nat, b: nat, c: nat, length: nat)
    requires Agree(a, b, length) && Agree(b, c, length)
    ensures Agree(a, c, length)
  {
    var k: int :| a == b + k * Pow2(length);
    var l: int :| b == c + l * Pow2(length);
    Distributed(k, l, Pow2(length));
    assert a == c + (k + l) * Pow2(length);
  }

  lemma AgreeAnything(a: nat)
    ensures Agree(a, 0, 0)
  {
    assert a == 0 + a * Pow2(0);
  }

  /** Keeping only 16 bits. */
  lemma AgreeWrapped(x: nat, length: nat)
    requires length <= 16
    ensures Agree(x % 0x10000, x, length)
  {
    Pow2Add(length, 16 - length);
    Pow2Of16();
    var k := Wrapped(x, Pow2(length), Pow2(16 - length));
    assert x % 0x10000 == x + k * Pow2(length);
  }

  lemma Pow2Of16()
    ensures Pow2(16) == 0x10000
  {
    assert Pow2(8) == 0x100;
    Pow2Add(8, 8);
  }

  lemma Wrapped(x: nat, p: nat, r: nat) returns (k: int)
    requires p * r == 0x10000
    ensures x % 0x10000 == x + k * p
  {
    var q := x / 0x10000;
    k := -(q * r);
    Regrouped(q, r, p);
  }

  lemma Regrouped(q: int, r: int, p: int)
    ensures (-(q * r)) * p == -(q * (p * r))
  {
  }

  lemma AgreeStep(a: nat, b: nat, length: nat)
    requires Agree(a, b, length) && length <= 16
    ensures Agree((a + 1) % 0x10000, b + 1, length)
  {
    AgreePlus(a, b, 1, length);
    AgreeWrapped(a + 1, length);
    AgreeThen((a + 1) % 0x10000, a + 1, b + 1, length);
  }

  lemma AgreeBeyond(a: nat, b: nat, count: nat)
    requires Agree(a, b, 16)
    ensures Agree((2 * (a + count)) % 0x10000, 2 * (b + count), 16)
  {
    AgreePlus(a, b, count, 16);
    AgreePlus(a + count, b + count, a + count, 16);
    AgreePlus(a + count, b + count, b + count, 16);
    AgreeThen(2 * (a + count), a + count + (b + count), 2 * (b + count), 16);
    AgreeWrapped(2 * (a + count), 16);
    AgreeThen((2 * (a + count)) % 0x10000, 2 * (a + count), 2 * (b + count), 16);
  }

  /** The unset entry and the lost high bits only ever enter above the bits that are used. */
  lemma AgreeNext(a: nat, b: nat, count: nat, length: nat)
    requires Agree(a, b, length) && length < 16
    ensures Agree((2 * (a + count)) % 0x10000, 2 * (b + count), length + 1)
  {
    AgreePlus(a, b, count, length);
    AgreeTwice(a + count, b + count, length);
    AgreeWrapped(2 * (a + count), length + 1);
    AgreeThen((2 * (a + count)) % 0x10000, 2 * (a + count), 2 * (b + count), length + 1);
  }
}
