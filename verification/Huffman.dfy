// Huffman trees as built by src/huffman_tree.m and walked by src/huffman_tree.h.
//
// The trees are specified as values of type `Tree`; the canonical code is that of section 3.2.2 of
// RFC 1951. `HuffmanBuilder` holds the construction in place.

module Huffman {
  import opened Bits

  /** The value of a node to which no symbol was assigned. */
  const NO_VALUE: nat := 0xFFFF

  datatype Tree = Nil | Node(leaf0: Tree, leaf1: Tree, value: nat)
  {
    function Leaf(bit: Bit): Tree
      requires Node?
    {
      if bit == 0 then leaf0 else leaf1
    }
  }

  const NEW_TREE := Node(Nil, Nil, NO_VALUE)

  /** The subtree reached from `t` along `path`, or Nil where the path leaves the tree. */
  function At(t: Tree, path: seq<Bit>): Tree
  {
    if path == [] || t.Nil? then t else At(t.Leaf(path[0]), path[1..])
  }

  /** The tree after storing `value` at `path`, with new nodes where the path leaves the tree. */
  function Insert(t: Tree, path: seq<Bit>, value: nat): (r: Tree)
    requires t.Node?
    ensures r.Node? && (path != [] ==> r.value == t.value)
    decreases |path|
  {
    if path == [] then t.(value := value)
    else
      var child := if t.Leaf(path[0]).Nil? then NEW_TREE else t.Leaf(path[0]);
      var grown := Insert(child, path[1..], value);
      if path[0] == 0 then t.(leaf0 := grown) else t.(leaf1 := grown)
  }

  datatype WalkResult = Found(value: nat, rest: seq<Bit>) | Suspended(iter: Tree) | Invalid

  /** Walks down from `iter`: a value, a node to resume from when the bits run out, or an error. */
  function Walk(iter: Tree, bits: seq<Bit>): (r: WalkResult)
    requires iter.Node?
    ensures r.Suspended? ==> r.iter.Node? && r.iter.value == NO_VALUE
    ensures r.Found? ==> |r.rest| <= |bits| && r.value != NO_VALUE
    ensures r.Found? && iter.value == NO_VALUE ==> |r.rest| < |bits|
    decreases |bits|
  {
    if iter.value != NO_VALUE then Found(iter.value, bits)
    else if bits == [] then Suspended(iter)
    else if iter.Leaf(bits[0]).Nil? then Invalid
    else Walk(iter.Leaf(bits[0]), bits[1..])
  }

  /** A tree whose root is not a value. */
  type Root = t: Tree | t.Node? && t.value == NO_VALUE witness NEW_TREE

  // Section 3.2.2 of RFC 1951

  function Count(lengths: seq<nat>, length: nat): (n: nat)
    ensures n <= |lengths|
  {
    if lengths == [] then 0
    else Count(lengths[..|lengths| - 1], length) + (if lengths[|lengths| - 1] == length then 1 else 0)
  }

  /** Step 2: the smallest code of each length; no code has length zero. */
  function FirstCode(lengths: seq<nat>, length: nat): nat
  {
    if length <= 1 then 0 else 2 * (FirstCode(lengths, length - 1) + Count(lengths, length - 1))
  }

  /** Step 3: codes of one length are consecutive in the order of their symbols. */
  function Code(lengths: seq<nat>, symbol: nat): nat
    requires symbol < |lengths|
  {
    FirstCode(lengths, lengths[symbol]) + Count(lengths[..symbol], lengths[symbol])
  }

  function CodeBits(lengths: seq<nat>, symbol: nat): seq<Bit>
    requires symbol < |lengths|
  {
    Msb(Code(lengths, symbol), lengths[symbol])
  }

  /** The tree holding the codes of the symbols below `n`. */
  function TreeOf(lengths: seq<nat>, n: nat): (t: Tree)
    requires n <= |lengths|
    ensures t.Node? && t.value == NO_VALUE
  {
    if n == 0 then NEW_TREE
    else if lengths[n - 1] == 0 then TreeOf(lengths, n - 1)
    else Insert(TreeOf(lengths, n - 1), CodeBits(lengths, n - 1), n - 1)
  }

  /** Every length has room for its codes: the set of lengths is not over-subscribed. */
  ghost predicate NotOversubscribed(lengths: seq<nat>)
  {
    forall l: nat {:trigger FirstCode(lengths, l)} :: l > 0 ==> FirstCode(lengths, l) + Count(lengths, l) <= Pow2(l)
  }

  /** Symbol `s` is what the walk finds on reading its own code, whatever follows. */
  ghost predicate Decodes(lengths: seq<nat>, s: nat)
    requires s < |lengths|
  {
    forall rest: seq<Bit> ::
      Walk(TreeOf(lengths, |lengths|), CodeBits(lengths, s) + rest) == Found(s, rest)
  }

  // Trees

  lemma {:induction false} AtNil(path: seq<Bit>)
    ensures At(Nil, path) == Nil
  {
  }

  lemma {:induction false} AtNewTree(path: seq<Bit>)
    ensures At(NEW_TREE, path).Node? <==> path == []
  {
    if path != [] { AtNil(path[1..]); }
  }

  /** Insertion adds exactly the prefixes of the path and changes the value at its end only. */
  lemma {:induction false} AtInsert(t: Tree, path: seq<Bit>, value: nat, p: seq<Bit>)
    requires t.Node?
    ensures At(Insert(t, path, value), p).Node? <==> At(t, p).Node? || p <= path
    ensures p == path ==> At(Insert(t, path, value), p).value == value
    ensures p != path && At(t, p).Node? ==> At(Insert(t, path, value), p).value == At(t, p).value
    ensures p != path && At(t, p).Nil? && p <= path ==> At(Insert(t, path, value), p).value == NO_VALUE
    decreases |path|
  {
    if path == [] {
      if p != [] {
        assert Insert(t, path, value).Leaf(p[0]) == t.Leaf(p[0]);
      }
    } else if p != [] {
      assert p <= path <==> p[0] == path[0] && p[1..] <= path[1..];
      assert p == path <==> p[0] == path[0] && p[1..] == path[1..] by {
        assert p == [p[0]] + p[1..] && path == [path[0]] + path[1..];
      }
      if p[0] == path[0] {
        var child := if t.Leaf(path[0]).Nil? then NEW_TREE else t.Leaf(path[0]);
        AtInsert(child, path[1..], value, p[1..]);
        if t.Leaf(path[0]).Nil? {
          AtNewTree(p[1..]);
          AtNil(p[1..]);
        }
      }
    }
  }

  lemma {:induction false} AtPrefix(t: Tree, p: seq<Bit>, q: seq<Bit>)
    requires p <= q && At(t, q).Node?
    ensures At(t, p).Node?
    decreases |p|
  {
    if p != [] && t.Node? {
      AtPrefix(t.Leaf(p[0]), p[1..], q[1..]);
    } else if t.Nil? {
      AtNil(q);
    }
  }

  // Walking

  /** Stopping after any bit and resuming from the saved node changes nothing. */
  lemma {:induction false} WalkResumes(iter: Tree, bits: seq<Bit>, more: seq<Bit>)
    requires iter.Node?
    ensures Walk(iter, bits + more) == match Walk(iter, bits)
                                       case Found(v, rest) => Found(v, rest + more)
                                       case Suspended(i) => Walk(i, more)
                                       case Invalid => Invalid
    decreases |bits|
  {
    if iter.value == NO_VALUE {
      if bits == [] {
        assert bits + more == more;
      } else if iter.Leaf(bits[0]).Node? {
        assert (bits + more)[1..] == bits[1..] + more;
        WalkResumes(iter.Leaf(bits[0]), bits[1..], more);
      }
    }
  }

  /** The walk stops at the first node on its way that carries a value. */
  lemma {:induction false} WalkReaches(t: Tree, path: seq<Bit>, rest: seq<Bit>)
    requires At(t, path).Node? && At(t, path).value != NO_VALUE && t.Node?
    requires forall k :: 0 <= k < |path| ==> At(t, path[..k]).Node? && At(t, path[..k]).value == NO_VALUE
    ensures Walk(t, path + rest) == Found(At(t, path).value, rest)
    decreases |path|
  {
    if path == [] {
      assert path + rest == rest;
    } else {
      assert path[..0] == [];
      var next := t.Leaf(path[0]);
      if next.Nil? { AtNil(path[1..]); }
      forall k | 0 <= k < |path| - 1
        ensures At(next, path[1..][..k]).Node? && At(next, path[1..][..k]).value == NO_VALUE
      {
        assert path[..k + 1][1..] == path[1..][..k];
      }
      assert (path + rest)[1..] == path[1..] + rest;
      WalkReaches(next, path[1..], rest);
    }
  }

  lemma {:induction false} WalkFinds(t: Tree, bits: seq<Bit>) returns (k: nat)
    requires t.Node? && Walk(t, bits).Found?
    ensures k <= |bits| && Walk(t, bits).rest == bits[k..]
    ensures At(t, bits[..k]).Node? && At(t, bits[..k]).value == Walk(t, bits).value
    decreases |bits|
  {
    if t.value != NO_VALUE {
      k := 0;
    } else {
      var k' := WalkFinds(t.Leaf(bits[0]), bits[1..]);
      k := k' + 1;
      assert bits[..k][1..] == bits[1..][..k'];
    }
  }

  // The canonical code

  lemma {:induction false} CountGrows(lengths: seq<nat>, m: nat, n: nat, length: nat)
    requires m <= n <= |lengths|
    ensures Count(lengths[..m], length) <= Count(lengths[..n], length)
    ensures m < n && lengths[m] == length ==> Count(lengths[..m], length) < Count(lengths[..n], length)
    decreases n
  {
    if m < n {
      assert lengths[..n][..n - 1] == lengths[..n - 1];
      CountGrows(lengths, m, n - 1, length);
    }
  }

  lemma CodeRange(lengths: seq<nat>, s: nat)
    requires s < |lengths|
    ensures FirstCode(lengths, lengths[s]) <= Code(lengths, s)
    ensures Code(lengths, s) < FirstCode(lengths, lengths[s]) + Count(lengths, lengths[s])
  {
    CountGrows(lengths, s, |lengths|, lengths[s]);
    assert lengths[..|lengths|] == lengths;
  }

  /** All codes of one length, extended, lie below the codes of any longer length. */
  lemma {:induction false} FirstCodeGrows(lengths: seq<nat>, short: nat, long: nat)
    requires 0 < short < long
    ensures (FirstCode(lengths, short) + Count(lengths, short)) * Pow2(long - short) <= FirstCode(lengths, long)
    decreases long
  {
    var x := FirstCode(lengths, short) + Count(lengths, short);
    if short + 1 < long {
      FirstCodeGrows(lengths, short, long - 1);
      ScaleBound(x, Pow2(long - 1 - short), FirstCode(lengths, long - 1));
    } else {
      assert Pow2(1) == 2 * Pow2(0);
    }
  }

  lemma ScaleBound(x: nat, p: nat, bound: nat)
    requires x * p <= bound
    ensures x * (2 * p) <= 2 * bound
  {
  }

  /** No code is a prefix of another one. */
  lemma PrefixFree(lengths: seq<nat>, s: nat, t: nat)
    requires NotOversubscribed(lengths)
    requires s < |lengths| && t < |lengths| && s != t && 0 < lengths[s] && 0 < lengths[t]
    ensures !(CodeBits(lengths, s) <= CodeBits(lengths, t))
  {
    var ls, lt, cs, ct := lengths[s], lengths[t], Code(lengths, s), Code(lengths, t);
    CodeRange(lengths, s);
    CodeRange(lengths, t);
    assert cs < Pow2(ls) && ct < Pow2(lt);
    if CodeBits(lengths, s) <= CodeBits(lengths, t) {
      if ls == lt {
        MsbInjective(cs, ct, ls);
        if s < t {
          CountGrows(lengths, s, t, ls);
        } else {
          CountGrows(lengths, t, s, ls);
        }
      } else {
        var d := lt - ls;
        MsbPrefix(ct, ls, d);
        Pow2Add(ls, d);
        FirstCodeGrows(lengths, ls, lt);
        QuotientBetween(cs, ct, FirstCode(lengths, ls) + Count(lengths, ls), Pow2(d), Pow2(ls));
        MsbInjective(cs, ct / Pow2(d), ls);
      }
    }
  }

  lemma QuotientBetween(c: nat, x: nat, y: nat, d: nat, limit: nat)
    requires 0 < d && c < y && y * d <= x < limit * d
    ensures c < x / d < limit
  {
    assert x == (x / d) * d + x % d;
    if x / d < y {
      Monotone(x / d, y - 1, d);
    }
    if limit <= x / d {
      Monotone(limit, x / d, d);
    }
  }

  // The tree of a code

  /** Each value in the tree is a symbol found at the end of its own code. */
  lemma {:induction false} TreeSound(lengths: seq<nat>, n: nat, p: seq<Bit>)
    requires n <= |lengths| && At(TreeOf(lengths, n), p).Node?
    requires At(TreeOf(lengths, n), p).value != NO_VALUE
    ensures var v := At(TreeOf(lengths, n), p).value;
            v < n && 0 < lengths[v] && p == CodeBits(lengths, v)
    decreases n
  {
    if n == 0 {
      AtNewTree(p);
    } else if lengths[n - 1] == 0 {
      TreeSound(lengths, n - 1, p);
    } else {
      AtInsert(TreeOf(lengths, n - 1), CodeBits(lengths, n - 1), n - 1, p);
      if p != CodeBits(lengths, n - 1) {
        TreeSound(lengths, n - 1, p);
      }
    }
  }

  /** Every code ends at a node that carries a value. */
  lemma {:induction false} TreeComplete(lengths: seq<nat>, n: nat, s: nat)
    requires s < n <= |lengths| <= NO_VALUE && 0 < lengths[s]
    ensures At(TreeOf(lengths, n), CodeBits(lengths, s)).Node?
    ensures At(TreeOf(lengths, n), CodeBits(lengths, s)).value != NO_VALUE
    decreases n
  {
    if lengths[n - 1] > 0 {
      AtInsert(TreeOf(lengths, n - 1), CodeBits(lengths, n - 1), n - 1, CodeBits(lengths, s));
    }
    if s < n - 1 {
      TreeComplete(lengths, n - 1, s);
    }
  }

  lemma DecodesWhenPrefixFree(lengths: seq<nat>, s: nat)
    requires s < |lengths| <= NO_VALUE && 0 < lengths[s] && NotOversubscribed(lengths)
    ensures Decodes(lengths, s)
  {
    var t, path := TreeOf(lengths, |lengths|), CodeBits(lengths, s);
    TreeComplete(lengths, |lengths|, s);
    TreeSound(lengths, |lengths|, path);
    var v := At(t, path).value;
    if v != s { PrefixFree(lengths, v, s); }
    forall k | 0 <= k < |path|
      ensures At(t, path[..k]).Node? && At(t, path[..k]).value == NO_VALUE
    {
      AtPrefix(t, path[..k], path);
      if At(t, path[..k]).value != NO_VALUE {
        TreeSound(lengths, |lengths|, path[..k]);
        var u := At(t, path[..k]).value;
        PrefixFree(lengths, u, s);
      }
    }
    forall rest ensures Walk(t, path + rest) == Found(s, rest) {
      WalkReaches(t, path, rest);
    }
  }

  /** Finding a symbol means that its code was read. */
  lemma WalkSound(lengths: seq<nat>, bits: seq<Bit>)
    requires Walk(TreeOf(lengths, |lengths|), bits).Found?
    ensures var r := Walk(TreeOf(lengths, |lengths|), bits);
            r.value < |lengths| && 0 < lengths[r.value] && bits == CodeBits(lengths, r.value) + r.rest
  {
    var k := WalkFinds(TreeOf(lengths, |lengths|), bits);
    TreeSound(lengths, |lengths|, bits[..k]);
    assert bits == bits[..k] + bits[k..];
  }

  // Over-subscribed lengths

  lemma {:induction false} SymbolWithRank(lengths: seq<nat>, length: nat, rank: nat) returns (s: nat)
    requires rank < Count(lengths, length)
    ensures s < |lengths| && lengths[s] == length && Count(lengths[..s], length) == rank
    decreases |lengths|
  {
    var n := |lengths| - 1;
    if rank < Count(lengths[..n], length) {
      s := SymbolWithRank(lengths[..n], length, rank);
      assert lengths[..n][..s] == lengths[..s];
    } else {
      s := n;
    }
  }

  /** The first length that is used has code zero. */
  lemma {:induction false} ShortestCode(lengths: seq<nat>, length: nat) returns (s: nat)
    requires 0 < length && 0 < FirstCode(lengths, length) + Count(lengths, length)
    ensures s < |lengths| && 0 < lengths[s] <= length && Code(lengths, s) == 0
    decreases length
  {
    if length > 1 && 0 < FirstCode(lengths, length - 1) + Count(lengths, length - 1) {
      s := ShortestCode(lengths, length - 1);
    } else {
      s := SymbolWithRank(lengths, length, 0);
    }
  }

  lemma {:induction false} FirstOverflow(lengths: seq<nat>, length: nat) returns (l: nat)
    requires 0 < length && Pow2(length) < FirstCode(lengths, length) + Count(lengths, length)
    ensures 0 < l && FirstCode(lengths, l) <= Pow2(l) < FirstCode(lengths, l) + Count(lengths, l)
    decreases length
  {
    if length > 1 && Pow2(length - 1) < FirstCode(lengths, length - 1) + Count(lengths, length - 1) {
      l := FirstOverflow(lengths, length - 1);
    } else {
      l := length;
    }
  }

  /** Two codes of an over-subscribed set run into each other. */
  lemma OversubscribedCollides(lengths: seq<nat>) returns (s: nat, t: nat)
    requires !NotOversubscribed(lengths)
    ensures s < |lengths| && t < |lengths| && s != t && 0 < lengths[s] && 0 < lengths[t]
    ensures CodeBits(lengths, s) <= CodeBits(lengths, t)
  {
    var length: nat :| 0 < length && Pow2(length) < FirstCode(lengths, length) + Count(lengths, length);
    var l := FirstOverflow(lengths, length);
    t := SymbolWithRank(lengths, l, Pow2(l) - FirstCode(lengths, l));
    assert Code(lengths, t) == Pow2(l);
    s := ShortestCode(lengths, l);
    MsbCongruent(Pow2(l), 0, 1, l);
    MsbZero(l);
    MsbZero(lengths[s]);
    assert CodeBits(lengths, t) == Msb(0, l) && CodeBits(lengths, s) == Msb(0, lengths[s]);
  }

  /**
   * Main result: the tree decodes every symbol from its canonical code, whatever follows, exactly
   * when the code lengths are not over-subscribed.
   */
  lemma DecodesIff(lengths: seq<nat>)
    requires |lengths| <= NO_VALUE
    ensures (forall s: nat :: s < |lengths| && 0 < lengths[s] ==> Decodes(lengths, s)) <==> NotOversubscribed(lengths)
  {
    if NotOversubscribed(lengths) {
      forall s: nat | s < |lengths| && 0 < lengths[s] ensures Decodes(lengths, s) {
        DecodesWhenPrefixFree(lengths, s);
      }
    } else {
      var s, t := OversubscribedCollides(lengths);
      var cs, ct := CodeBits(lengths, s), CodeBits(lengths, t);
      var tree := TreeOf(lengths, |lengths|);
      assert ct + [] == cs + ct[|cs|..];
      if Decodes(lengths, s) {
        assert Walk(tree, cs + ct[|cs|..]) == Found(s, ct[|cs|..]);
      }
      if Decodes(lengths, t) {
        assert Walk(tree, ct + []) == Found(t, []);
      }
    }
  }
}
