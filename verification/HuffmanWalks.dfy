// `of_huffman_tree_walk` of src/huffman_tree.h on the nodes that src/huffman_tree.m builds: it finds what
// the walk of module Huffman finds, on which the bit reader and OFInflateStream are modelled.

module HuffmanWalks {
  import opened BitReader
  import opened Bits
  import opened Huffman
  import opened HuffmanBuilder
  import opened Streams

  datatype NodeStop = AtSymbol(value: nat) | AtTreeNode(node: TreeNode) | NoTreeNode

  lemma {:induction false} AtStep(t: Tree, path: seq<Bit>, bit: Bit)
    ensures At(t, path + [bit]) == if At(t, path).Node? then At(t, path).Leaf(bit) else Nil
  {
    if path == [] {
      assert path + [bit] == [bit] && [bit][1..] == [];
    } else if t.Node? {
      assert (path + [bit])[1..] == path[1..] + [bit];
      AtStep(t.Leaf(path[0]), path[1..], bit);
    }
  }

  /** The nodes stand for the tree, and this one for the part of it behind the path. */
  ghost predicate StandsFor(nodes: Nodes, t: Tree, path: seq<Bit>, node: TreeNode)
    reads nodes.Values
  {
    Represents(nodes, t) && path in nodes && nodes[path] == node
  }

  lemma Stands(nodes: Nodes, t: Tree, path: seq<Bit>, node: TreeNode)
    requires StandsFor(nodes, t, path, node)
    ensures At(t, path).Node? && At(t, path).value == node.value
    ensures node.leaf0 == null <==> At(t, path).leaf0.Nil?
    ensures node.leaf1 == null <==> At(t, path).leaf1.Nil?
    ensures node.leaf0 != null ==> StandsFor(nodes, t, path + [0], node.leaf0)
    ensures node.leaf1 != null ==> StandsFor(nodes, t, path + [1], node.leaf1)
  {
    AtStep(t, path, 0);
    AtStep(t, path, 1);
  }

  /**
   * `of_huffman_tree_walk`: from a node in the heap, over bits that may run out at any point. Where it stops it can be
   * taken up again.
   */
  method WalkNodes(reader: OFBitReader, tree: TreeNode, ghost nodes: Nodes, ghost t: Tree, ghost path: seq<Bit>)
      returns (stop: NodeStop, ghost path': seq<Bit>)
    requires reader.Valid() && reader.saved == [] && StandsFor(nodes, t, path, tree)
    modifies reader`buffer, reader`bufferIndex, reader`byte, reader`bitIndex, reader`savedBits, reader`savedBitsLength,
             reader`saved, reader.stream
    ensures reader.Valid() && reader.saved == [] && StandsFor(nodes, t, path, tree) && At(t, path).Node?
    ensures match stop
            case AtSymbol(v) => Walk(At(t, path), old(reader.Unread())) == Found(v, reader.Unread())
            case AtTreeNode(node) =>
              && StandsFor(nodes, t, path', node) && At(t, path').Node?
              && Walk(At(t, path), old(reader.Unread())) == Walk(At(t, path'), reader.Unread())
            case NoTreeNode => Walk(At(t, path), old(reader.Unread())) == Invalid
    ensures stop.AtTreeNode? ==> reader.Unread() == [] || reader.stream.low.Fuel() < old(reader.stream.low.Fuel())
  {
    hide Represents, BytesBits, ByteBits, BitAt, FromLsb, Pow2, OFBitReader.Unread, Low.Fuel;
    var iter: TreeNode := tree;
    path' := path;
    ghost var sub := At(t, path);
    Stands(nodes, t, path, iter);
    while iter.value == NO_VALUE
      invariant reader.Valid() && reader.saved == [] && StandsFor(nodes, t, path', iter)
        && StandsFor(nodes, t, path, tree)
      invariant sub == At(t, path') && sub.Node? && sub.value == iter.value
      invariant reader.stream.low.Fuel() <= old(reader.stream.low.Fuel())
      invariant Walk(At(t, path), old(reader.Unread())) == Walk(sub, reader.Unread())
      decreases sub
    {
      ghost var before := reader.Unread();
      assert reader.Ahead() == before;
      var ok, bits := reader.TryReadBits(1);
      if !ok {
        OnlySaved(reader.saved);
        assert reader.Ahead() == reader.Unread();
        return AtTreeNode(iter), path';
      }
      assert before[..1] == [before[0]];
      OneBit(before[0]);
      assert bits == before[0];
      Stands(nodes, t, path', iter);
      AtStep(t, path', bits);
      if bits == 0 {
        if iter.leaf0 == null { return NoTreeNode, path'; }
        iter := iter.leaf0;
      } else {
        if iter.leaf1 == null { return NoTreeNode, path'; }
        iter := iter.leaf1;
      }
      path' := path' + [bits];
      sub := At(t, path');
      Stands(nodes, t, path', iter);
    }
    return AtSymbol(iter.value), path';
  }

  /** Lengths for which every code is whole and has its place */
  ghost predicate Canonical(lengths: seq<nat>)
  {
    NotOversubscribed(lengths) && forall i :: 0 <= i < |lengths| ==> lengths[i] <= 16
  }

  ghost predicate BeginsWithCode(lengths: seq<nat>, s: nat, bits: seq<Bit>)
  {
    s < |lengths| && 0 < lengths[s] <= |bits| && bits[..lengths[s]] == CodeBits(lengths, s)
  }

  /** If the bits begin with the code of a symbol, that symbol is read, unless they are too few for now. */
  ghost predicate ReadsCode(lengths: seq<nat>, bits: seq<Bit>, stop: NodeStop, rest: seq<Bit>)
  {
    forall s: nat :: BeginsWithCode(lengths, s, bits) ==>
      !stop.NoTreeNode? && (stop.AtSymbol? ==> stop.value == s && rest == bits[lengths[s]..])
  }

  lemma CanonicalDecodes(lengths: seq<nat>, s: nat, bits: seq<Bit>)
    requires |lengths| <= NO_VALUE && Canonical(lengths) && BeginsWithCode(lengths, s, bits)
    ensures Walk(KeptTree(lengths, |lengths|), bits) == Found(s, bits[lengths[s]..])
  {
    hide KeptTree, TreeOf, CodeBits, Walk, NotOversubscribed;
    AllKept(lengths, |lengths|);
    DecodesWhenPrefixFree(lengths, s);
    assert bits == CodeBits(lengths, s) + bits[lengths[s]..];
  }

  /**
   * Building a tree and reading with it, whatever the lengths: a symbol is found exactly where the walk down the tree
   * of what is kept of the codes finds it. For lengths up to 16 that are not over-subscribed these are the canonical
   * codes, and the bits of each give its symbol.
   */
  method ReadSymbol(reader: OFBitReader, lengths: seq<nat>, unset: nat) returns (stop: NodeStop)
    requires 0 < |lengths| <= NO_VALUE && forall i :: 0 <= i < |lengths| ==> lengths[i] <= MAX_LENGTH
    requires reader.Valid() && reader.saved == []
    modifies reader, reader.stream
    ensures reader.Valid()
    ensures var w := Walk(KeptTree(lengths, |lengths|), old(reader.Unread()));
            match stop
            case AtSymbol(v) => w == Found(v, reader.Unread())
            case AtTreeNode(node) => reader.Unread() == [] || reader.stream.low.Fuel() < old(reader.stream.low.Fuel())
            case NoTreeNode => w == Invalid
    ensures Canonical(lengths) ==> ReadsCode(lengths, old(reader.Unread()), stop, reader.Unread())
  {
    hide Represents, KeptTree, TreeOf, CodeBits, Walk, Canonical, OFBitReader.Unread, Low.Fuel;
    var root; ghost var nodes;
    root, nodes := Construct(lengths, unset);
    var t := KeptTree(lengths, |lengths|);
    Rooted(nodes, t, root);
    ghost var path;
    stop, path := WalkNodes(reader, root, nodes, t, []);
    forall s: nat | Canonical(lengths) && BeginsWithCode(lengths, s, old(reader.Unread()))
      ensures Walk(t, old(reader.Unread())) == Found(s, old(reader.Unread())[lengths[s]..])
    {
      CanonicalDecodes(lengths, s, old(reader.Unread()));
    }
  }

  lemma Rooted(nodes: Nodes, t: Tree, root: TreeNode)
    requires Represents(nodes, t) && nodes[[]] == root
    ensures StandsFor(nodes, t, [], root) && At(t, []) == t
  {
  }
}
