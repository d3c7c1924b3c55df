// What OFInflateStream refuses: the choices that section 3.2 of RFC 1951 leaves without a meaning.

module DeflateErrors {
  import opened BitReader
  import opened Bits
  import opened Bytes
  import opened Deflate
  import opened DeflateBlocks
  import opened DeflateEncoding
  import opened FixedCodes
  import opened Huffman

  /** The fourth kind of block */
  lemma ReservedKind(rules: Rules, last: bool, history: seq<Byte>, rest: seq<Bit>)
    ensures Blocks(rules, false, history, Lsb((if last then 1 else 0) + 2 * 3, 3) + rest) == CORRUPT
  {
    hide Lsb, FromLsb;
    assert Pow2(3) == 8;
    ExtraReads((if last then 1 else 0) + 2 * 3, 3, rest);
  }

  /** The length of a stored block and its complement have to agree in no bit. */
  lemma WrongComplement(rules: Rules, n: nat, m: nat, last: bool, history: seq<Byte>, rest: seq<Bit>)
    requires n <= 0xFFFF && m <= 0xFFFF
    ensures StoredHeader(rules, last, history, Lsb(n, 16) + (Lsb(m, 16) + rest)) ==
            if m == 0xFFFF - n then Stored(rules, n, last, history, rest) else CORRUPT
  {
    hide Lsb, FromLsb, Stored;
    SixteenBits();
    ExtraReads(n, 16, Lsb(m, 16) + rest);
    ExtraReads(m, 16, rest);
    TwoNumbers(Lsb(n, 16) + (Lsb(m, 16) + rest));
  }

  /** 286 codes for literals and lengths are the most. */
  lemma TooManyCodes(rules: Rules, lit: nat, last: bool, history: seq<Byte>, rest: seq<Bit>)
    requires lit < 32
    ensures LitLenCount(rules, last, history, Lsb(lit, 5) + rest) ==
            if lit + 257 > 286 then CORRUPT else DistCount(rules, lit, last, history, rest)
  {
    hide Lsb, FromLsb, DistCount;
    assert Pow2(5) == 32;
    ExtraReads(lit, 5, rest);
  }

  /** There is nothing to repeat before the first code length, and no run may go beyond the last one. */
  lemma RunRefused(rules: Rules, run: Run, codeLengths: seq<nat>, lit: nat, dist: nat, before: seq<nat>, last: bool,
      history: seq<Byte>, rest: seq<Bit>)
    requires |codeLengths| == 19 && NotOversubscribed(codeLengths) && |before| < lit + dist + 258
    requires 16 <= run.symbol < 19 && codeLengths[run.symbol] > 0 && run.extra < Pow2(RepeatBits(run.symbol))
    requires (run.symbol == 16 && before == []) || |before + Spread(run, before)| > lit + dist + 258
    ensures var tree := TreeOf(codeLengths, 19);
            LengthsAt(rules, tree, tree, lit, dist, before, last, history, RunBits(run, codeLengths) + rest) == CORRUPT
  {
    hide CodeBits, TreeOf, Walk, NotOversubscribed, Lsb, FromLsb, Pow2, SymbolsAt;
    var v := run.symbol;
    var extra := Lsb(run.extra, RepeatBits(v));
    Reads(codeLengths, v, extra + rest);
    ExtraReads(run.extra, RepeatBits(v), rest);
    assert RunBits(run, codeLengths) + rest == CodeBits(codeLengths, v) + (extra + rest);
  }

  /** Symbols 286 and 287 have fixed codes but stand for nothing. */
  lemma UnusedSymbol(rules: Rules, s: nat, dist: Root, last: bool, history: seq<Byte>, rest: seq<Bit>)
    requires 286 <= s < |FixedLengths(0)|
    ensures var tree := FixedLitLenTree();
            SymbolsAt(rules, tree, tree, dist, last, history, CodeBits(FixedLengths(0), s) + rest) == CORRUPT
  {
    hide CodeBits, TreeOf, Walk, FixedLengths, NotOversubscribed;
    FixedLiteralsFit();
    Reads(FixedLengths(0), s, rest);
  }

  /** Distance codes 30 and 31 stand for nothing either. */
  lemma UnusedDistance(rules: Rules, d: nat, length: nat, litLen: Root, last: bool, history: seq<Byte>, rest: seq<Bit>)
    requires 30 <= d < 32
    ensures var tree := FixedDistTree();
            DistanceAt(rules, tree, length, litLen, tree, last, history, CodeBits(FixedDistances(), d) + rest) ==
            CORRUPT
  {
    hide CodeBits, TreeOf, Walk, NotOversubscribed;
    FixedDistancesFit();
    Reads(FixedDistances(), d, rest);
  }
}
