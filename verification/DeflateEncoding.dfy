// The other direction of module Deflate: what a compressor writes. Decompression gives back what was
// compressed, whichever tokens and codes the compressor chose.

module DeflateEncoding {
  import opened BitReader
  import opened Bits
  import opened Bytes
  import opened Deflate
  import opened Huffman

  /** A literal byte, or a length and a distance by their codes and extra bits (section 3.2.5 of RFC 1951) */
  datatype Token =
    | Literal(b: Byte)
    | Reference(lengthCode: nat, lengthExtra: nat, distanceCode: nat, distanceExtra: nat)

  const END_OF_BLOCK: nat := 256

  /** The token exists, and the codes have a place for it. */
  predicate Legal(t: Token, lit: seq<nat>, dist: seq<nat>)
  {
    match t
    case Literal(b) => b < |lit| && lit[b] > 0
    case Reference(l, e, d, f) =>
      && l < 29 && d < 30 && e < Pow2(LengthExtraBits(l)) && f < Pow2(DistanceExtraBits(d))
      && 257 + l < |lit| && lit[257 + l] > 0 && d < |dist| && dist[d] > 0
  }

  ghost predicate AllLegal(ts: seq<Token>, lit: seq<nat>, dist: seq<nat>)
  {
    forall i :: 0 <= i < |ts| ==> Legal(ts[i], lit, dist)
  }

  /** Codes that the standard allows for a block */
  ghost predicate Codes(lit: seq<nat>, dist: seq<nat>)
  {
    && END_OF_BLOCK < |lit| <= NO_VALUE && lit[END_OF_BLOCK] > 0 && NotOversubscribed(lit)
    && 0 < |dist| <= NO_VALUE && NotOversubscribed(dist)
  }

  /** A number in so many bits, least significant first (section 3.1.1 of RFC 1951) */
  function Lsb(n: nat, length: nat): (bits: seq<Bit>)
    ensures |bits| == length
  {
    if length == 0 then [] else [n % 2] + Lsb(n / 2, length - 1)
  }

  lemma {:induction false} FromLsbOfLsb(n: nat, length: nat)
    requires n < Pow2(length)
    ensures FromLsb(Lsb(n, length)) == n
  {
    if length > 0 {
      FromLsbOfLsb(n / 2, length - 1);
      assert Lsb(n, length)[1..] == Lsb(n / 2, length - 1);
    }
  }

  lemma {:induction false} LsbOfFromLsb(bits: seq<Bit>)
    ensures Lsb(FromLsb(bits), |bits|) == bits
  {
    if bits != [] {
      LsbOfFromLsb(bits[1..]);
      assert bits == [bits[0]] + bits[1..];
    }
  }

  lemma {:induction false} LsbSplit(low: nat, high: nat, m: nat, n: nat)
    requires low < Pow2(m)
    ensures Lsb(low + Pow2(m) * high, m + n) == Lsb(low, m) + Lsb(high, n)
    decreases m
  {
    if m > 0 {
      var p := Pow2(m - 1);
      Doubled(p, high);
      assert low + Pow2(m) * high == low + 2 * (p * high);
      LsbSplit(low / 2, high, m - 1, n);
      assert (low + 2 * (p * high)) / 2 == low / 2 + p * high && (low + 2 * (p * high)) % 2 == low % 2;
    }
  }

  function Encoded(t: Token, lit: seq<nat>, dist: seq<nat>): seq<Bit>
    requires Legal(t, lit, dist)
  {
    match t
    case Literal(b) => CodeBits(lit, b)
    case Reference(l, e, d, f) =>
      CodeBits(lit, 257 + l) + (Lsb(e, LengthExtraBits(l)) + (CodeBits(dist, d) + Lsb(f, DistanceExtraBits(d))))
  }

  /** The bytes that a token stands for after the history */
  function Expanded(t: Token, history: seq<Byte>): seq<Byte>
  {
    match t
    case Literal(b) => [b]
    case Reference(l, e, d, f) =>
      if l < 29 && d < 30 then
        DistancesArePositive(d);
        Copy(history, DistanceCode(d) + f, LengthCode(l) + 3 + e)
      else []
  }

  /** The token refers to nothing before the start of the output. */
  predicate InReach(t: Token, history: seq<Byte>)
  {
    match t
    case Literal(_) => true
    case Reference(_, _, d, f) => d < 30 && DistanceCode(d) + f <= |history|
  }

  lemma DistancesArePositive(d: nat)
    requires d < 30
    ensures DistanceCode(d) > 0
  {
  }

  function AllEncoded(ts: seq<Token>, lit: seq<nat>, dist: seq<nat>): seq<Bit>
    requires AllLegal(ts, lit, dist)
  {
    if ts == [] then [] else Encoded(ts[0], lit, dist) + AllEncoded(ts[1..], lit, dist)
  }

  predicate AllInReach(ts: seq<Token>, history: seq<Byte>)
  {
    ts == [] || (InReach(ts[0], history) && AllInReach(ts[1..], history + Expanded(ts[0], history)))
  }

  function AllExpanded(ts: seq<Token>, history: seq<Byte>): seq<Byte>
  {
    if ts == [] then []
    else Expanded(ts[0], history) + AllExpanded(ts[1..], history + Expanded(ts[0], history))
  }

  lemma Reads(lengths: seq<nat>, s: nat, rest: seq<Bit>)
    requires s < |lengths| <= NO_VALUE && 0 < lengths[s] && NotOversubscribed(lengths)
    ensures Walk(TreeOf(lengths, |lengths|), CodeBits(lengths, s) + rest) == Found(s, rest)
  {
    hide CodeBits, TreeOf, Walk, NotOversubscribed;
    DecodesWhenPrefixFree(lengths, s);
  }

  lemma ExtraReads(n: nat, length: nat, rest: seq<Bit>)
    requires n < Pow2(length)
    ensures var bits := Lsb(n, length) + rest;
            |bits| >= length && FromLsb(bits[..length]) == n && bits[length..] == rest
  {
    FromLsbOfLsb(n, length);
    assert (Lsb(n, length) + rest)[..length] == Lsb(n, length);
  }

  lemma LiteralMeans(rules: Rules, b: Byte, lit: seq<nat>, dist: Root, last: bool, history: seq<Byte>, rest: seq<Bit>)
    requires |lit| <= NO_VALUE && NotOversubscribed(lit) && b < |lit| && lit[b] > 0
    ensures var tree := TreeOf(lit, |lit|);
            SymbolsAt(rules, tree, tree, dist, last, history, CodeBits(lit, b) + rest) ==
            Emit([b], SymbolsAt(rules, tree, tree, dist, last, history + [b], rest))
  {
    Reads(lit, b, rest);
    hide CodeBits, TreeOf, Walk, NotOversubscribed;
  }

  /** From the distance of a reference on */
  lemma DistanceMeans(rules: Rules, d: nat, f: nat, length: nat, lit: Root, dist: seq<nat>, last: bool,
      history: seq<Byte>, rest: seq<Bit>)
    requires |dist| <= NO_VALUE && NotOversubscribed(dist) && d < 30 && d < |dist| && dist[d] > 0
      && f < Pow2(DistanceExtraBits(d))
    ensures DistanceCode(d) > 0
    ensures var tree := TreeOf(dist, |dist|);
            DistanceAt(rules, tree, length, lit, tree, last, history,
              CodeBits(dist, d) + (Lsb(f, DistanceExtraBits(d)) + rest)) ==
            Pair(rules, length, DistanceCode(d) + f, lit, tree, last, history, rest)
  {
    hide CodeBits, TreeOf, Walk, NotOversubscribed, Pair, FromLsb, Lsb, DistanceExtraBits, Pow2;
    DistancesArePositive(d);
    Reads(dist, d, Lsb(f, DistanceExtraBits(d)) + rest);
    ExtraReads(f, DistanceExtraBits(d), rest);
  }

  lemma LengthSymbol(rules: Rules, l: nat, lit: Root, dist: Root, last: bool, history: seq<Byte>, bits: seq<Bit>)
    requires l < 29
    ensures Symbol(rules, 257 + l, lit, dist, last, history, bits) ==
            LengthExtra(rules, LengthCode(l) + 3, LengthExtraBits(l), lit, dist, last, history, bits)
  {
    hide LengthExtra, LengthCode, LengthExtraBits;
    var v := 257 + l;
    assert v - 257 == l;
  }

  /** From the extra bits of a length on */
  lemma LengthMeans(rules: Rules, l: nat, e: nat, lit: Root, dist: Root, last: bool, history: seq<Byte>, rest: seq<Bit>)
    requires l < 29 && e < Pow2(LengthExtraBits(l))
    ensures LengthExtra(rules, LengthCode(l) + 3, LengthExtraBits(l), lit, dist, last, history,
      Lsb(e, LengthExtraBits(l)) + rest) ==
            DistanceAt(rules, dist, LengthCode(l) + 3 + e, lit, dist, last, history, rest)
  {
    hide DistanceAt, FromLsb, Lsb, LengthCode, LengthExtraBits, Pow2;
    ExtraReads(e, LengthExtraBits(l), rest);
  }

  lemma ReferenceMeans(rules: Rules, l: nat, e: nat, d: nat, f: nat, lit: seq<nat>, dist: seq<nat>, last: bool,
      history: seq<Byte>, rest: seq<Bit>)
    requires Codes(lit, dist) && Legal(Reference(l, e, d, f), lit, dist)
    ensures DistanceCode(d) > 0
    ensures var litTree, distTree := TreeOf(lit, |lit|), TreeOf(dist, |dist|);
            var more := CodeBits(dist, d) + (Lsb(f, DistanceExtraBits(d)) + rest);
            SymbolsAt(rules, litTree, litTree, distTree, last, history,
              CodeBits(lit, 257 + l) + (Lsb(e, LengthExtraBits(l)) + more)) ==
            Pair(rules, LengthCode(l) + 3 + e, DistanceCode(d) + f, litTree, distTree, last, history, rest)
  {
    hide CodeBits, TreeOf, Walk, NotOversubscribed, Pair, FromLsb, Lsb, DistanceAt, Symbol, LengthExtra, LengthCode,
      LengthExtraBits, DistanceExtraBits, Pow2;
    var litTree, distTree := TreeOf(lit, |lit|), TreeOf(dist, |dist|);
    var more := CodeBits(dist, d) + (Lsb(f, DistanceExtraBits(d)) + rest);
    var afterCode := Lsb(e, LengthExtraBits(l)) + more;
    Reads(lit, 257 + l, afterCode);
    LengthSymbol(rules, l, litTree, distTree, last, history, afterCode);
    LengthMeans(rules, l, e, litTree, distTree, last, history, more);
    DistanceMeans(rules, d, f, LengthCode(l) + 3 + e, litTree, dist, last, history, rest);
  }

  /** A token's bits give its bytes, and reading goes on after them, unless it reaches too far. */
  lemma TokenMeans(rules: Rules, t: Token, lit: seq<nat>, dist: seq<nat>, last: bool, history: seq<Byte>,
                   rest: seq<Bit>)
    requires Codes(lit, dist) && Legal(t, lit, dist)
    ensures var litTree, distTree := TreeOf(lit, |lit|), TreeOf(dist, |dist|);
            SymbolsAt(rules, litTree, litTree, distTree, last, history, Encoded(t, lit, dist) + rest) ==
            if rules.Strict? && !InReach(t, history) then TOO_FAR
            else Emit(Expanded(t, history),
                      SymbolsAt(rules, litTree, litTree, distTree, last, history + Expanded(t, history), rest))
  {
    hide CodeBits, TreeOf, Walk, NotOversubscribed, Lsb, SymbolsAt, LengthCode, LengthExtraBits, DistanceCode,
      DistanceExtraBits, Pow2, Emit, Copy;
    match t
    case Literal(b) =>
      LiteralMeans(rules, b, lit, TreeOf(dist, |dist|), last, history, rest);
    case Reference(l, e, d, f) =>
      ReferenceMeans(rules, l, e, d, f, lit, dist, last, history, rest);
      FiveParts(CodeBits(lit, 257 + l), Lsb(e, LengthExtraBits(l)), CodeBits(dist, d), Lsb(f, DistanceExtraBits(d)),
        rest);
  }

  lemma FiveParts(a: seq<Bit>, b: seq<Bit>, c: seq<Bit>, d: seq<Bit>, rest: seq<Bit>)
    ensures (a + (b + (c + d))) + rest == a + (b + (c + (d + rest)))
  {
  }

  /** A block from its first token to its end, with what comes after it */
  function BlockBits(ts: seq<Token>, lit: seq<nat>, dist: seq<nat>, rest: seq<Bit>): seq<Bit>
    requires Codes(lit, dist) && AllLegal(ts, lit, dist)
  {
    AllEncoded(ts, lit, dist) + (CodeBits(lit, END_OF_BLOCK) + rest)
  }

  lemma FirstOfBlock(ts: seq<Token>, lit: seq<nat>, dist: seq<nat>, rest: seq<Bit>)
    requires Codes(lit, dist) && AllLegal(ts, lit, dist)
    ensures ts == [] ==> BlockBits(ts, lit, dist, rest) == CodeBits(lit, END_OF_BLOCK) + rest
    ensures ts != [] ==>
              BlockBits(ts, lit, dist, rest) == Encoded(ts[0], lit, dist) + BlockBits(ts[1..], lit, dist, rest)
  {
    hide CodeBits, Encoded, Codes, Legal;
    if ts == [] {
      assert AllEncoded(ts, lit, dist) == [];
    }
  }

  /**
   * Decompression undoes compression: whatever tokens a compressor chose and whatever codes it wrote
   * them in, the block is read as what the tokens stand for, and the stream goes on after it. By the
   * strict rules that is so as long as no token refers to anything before the start of the output.
   */
  lemma {:induction false} BlockMeans(rules: Rules, ts: seq<Token>, lit: seq<nat>, dist: seq<nat>, last: bool,
                                      history: seq<Byte>, rest: seq<Bit>)
    requires Codes(lit, dist) && AllLegal(ts, lit, dist)
    requires rules.Lenient? || AllInReach(ts, history)
    ensures var litTree, distTree := TreeOf(lit, |lit|), TreeOf(dist, |dist|);
            SymbolsAt(rules, litTree, litTree, distTree, last, history, BlockBits(ts, lit, dist, rest)) ==
            Emit(AllExpanded(ts, history), Blocks(rules, last, history + AllExpanded(ts, history), rest))
    decreases |ts|
  {
    hide CodeBits, TreeOf, Walk, NotOversubscribed, Encoded, Expanded, Blocks, Legal, BlockBits, InReach;
    FirstOfBlock(ts, lit, dist, rest);
    if ts == [] {
      Reads(lit, END_OF_BLOCK, rest);
      assert history + AllExpanded(ts, history) == history;
    } else {
      hide SymbolsAt;
      var first := Expanded(ts[0], history);
      var more := AllExpanded(ts[1..], history + first);
      TokenMeans(rules, ts[0], lit, dist, last, history, BlockBits(ts[1..], lit, dist, rest));
      BlockMeans(rules, ts[1..], lit, dist, last, history + first, rest);
      assert (history + first) + more == history + (first + more);
      EmitTwice(first, more, Blocks(rules, last, history + (first + more), rest));
    }
  }

  /** By the strict rules reading stops at the first token that reaches too far. */
  lemma {:induction false} BlockTooFar(ts: seq<Token>, lit: seq<nat>, dist: seq<nat>, last: bool, history: seq<Byte>,
                                       rest: seq<Bit>)
    requires Codes(lit, dist) && AllLegal(ts, lit, dist) && !AllInReach(ts, history)
    ensures var litTree, distTree := TreeOf(lit, |lit|), TreeOf(dist, |dist|);
            SymbolsAt(Strict, litTree, litTree, distTree, last, history, BlockBits(ts, lit, dist, rest)).end == TooFar
    decreases |ts|
  {
    hide CodeBits, TreeOf, Walk, NotOversubscribed, Encoded, Expanded, Blocks, Legal, BlockBits, InReach, SymbolsAt;
    FirstOfBlock(ts, lit, dist, rest);
    TokenMeans(Strict, ts[0], lit, dist, last, history, BlockBits(ts[1..], lit, dist, rest));
    if InReach(ts[0], history) {
      BlockTooFar(ts[1..], lit, dist, last, history + Expanded(ts[0], history), rest);
    }
  }
}
