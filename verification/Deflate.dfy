// The Deflate format of RFC 1951 as src/OFInflateStream.m reads it: what a sequence of bits means,
// from every point at which decompression can be interrupted.
//
// Each function below is one position in the grammar. It takes the output so far and the bits still
// to come, and gives the output that follows together with how it ends.

module Deflate {
  import opened BitReader
  import opened Bits
  import opened Bytes
  import opened Huffman
  import SlidingWindows

  /**
   * How the bits end: with what follows the last block, as invalid, or too early. A distance beyond the start of
   * the output and an end within the data of a stored block are told apart, because the code treats them
   * differently.
   */
  datatype End = Finished(rest: seq<Bit>) | Corrupt | TooFar | CutOff | CutOffInData

  datatype Meaning = Meaning(output: seq<Byte>, end: End)

  function Emit(bytes: seq<Byte>, m: Meaning): Meaning
  {
    Meaning(bytes + m.output, m.end)
  }

  lemma EmitTwice(a: seq<Byte>, b: seq<Byte>, m: Meaning)
    ensures Emit(a, Emit(b, m)) == Emit(a + b, m)
  {
    assert a + (b + m.output) == (a + b) + m.output;
  }

  const CORRUPT := Meaning([], Corrupt)
  const CUT_OFF := Meaning([], CutOff)
  const CUT_OFF_IN_DATA := Meaning([], CutOffInData)
  const TOO_FAR := Meaning([], TooFar)

  /** Whether a distance may reach beyond the start of the output, which section 2 of RFC 1951 forbids. */
  datatype Rules = Strict | Lenient

  // Section 3.2.5: lengths 3 to 258 and distances 1 to 32768

  function LengthCode(i: nat): nat
    requires i < 29
  {
    [0, 1, 2, 3, 4, 5, 6, 7, 8, 10, 12, 14, 16, 20, 24, 28, 32, 40, 48, 56, 64, 80, 96, 112, 128, 160, 192, 224, 255][i]
  }

  function LengthExtraBits(i: nat): nat
    requires i < 29
  {
    [0, 0, 0, 0, 0, 0, 0, 0, 1, 1, 1, 1, 2, 2, 2, 2, 3, 3, 3, 3, 4, 4, 4, 4, 5, 5, 5, 5, 0][i]
  }

  function DistanceCode(i: nat): nat
    requires i < 30
  {
    [1, 2, 3, 4, 5, 7, 9, 13, 17, 25, 33, 49, 65, 97, 129, 193, 257, 385, 513, 769, 1025, 1537, 2049, 3073, 4097, 6145,
     8193, 12289, 16385, 24577][i]
  }

  function DistanceExtraBits(i: nat): nat
    requires i < 30
  {
    [0, 0, 0, 0, 1, 1, 2, 2, 3, 3, 4, 4, 5, 5, 6, 6, 7, 7, 8, 8, 9, 9, 10, 10, 11, 11, 12, 12, 13, 13][i]
  }

  const CODE_LENGTHS_ORDER: seq<nat> := [16, 17, 18, 0, 8, 7, 9, 6, 10, 5, 11, 4, 12, 3, 13, 2, 14, 1, 15]

  /** Section 3.2.6: the lengths of the fixed codes. */
  function FixedLength(i: nat): nat
  {
    if i <= 143 then 8 else if i <= 255 then 9 else if i <= 279 then 7 else 8
  }

  function FixedLengths(i: nat): seq<nat>
    requires i <= 288
    decreases 288 - i
  {
    if i == 288 then []
    else [FixedLength(i)] + FixedLengths(i + 1)
  }

  function FixedLitLenTree(): Root
  {
    var lengths := FixedLengths(0);
    TreeOf(lengths, |lengths|)
  }

  function FixedDistances(): (lengths: seq<nat>)
    ensures |lengths| == 32
  {
    Copies(5, 32)
  }

  function FixedDistTree(): Root
  {
    var lengths := FixedDistances();
    TreeOf(lengths, |lengths|)
  }

  // Output and history

  /** Copies out of the output; before its start the window holds zeros. */
  function Copy(history: seq<Byte>, distance: nat, length: nat): (bytes: seq<Byte>)
    requires distance > 0
    ensures |bytes| == length
  {
    SlidingWindows.Copy(0, history, distance, length)
  }

  // The grammar

  function Blocks(rules: Rules, last: bool, history: seq<Byte>, bits: seq<Bit>): Meaning
    decreases |bits|, 0
  {
    if last then Meaning([], Finished(Align(bits)))
    else if |bits| < 3 then CUT_OFF
    else BlockBody(rules, FromLsb(bits[..3]), history, bits[3..])
  }

  /** After the three bits of a block header. */
  function BlockBody(rules: Rules, header: nat, history: seq<Byte>, bits: seq<Bit>): Meaning
    decreases |bits|, 6
  {
    var last := header % 2 == 1;
    match header / 2
    case 0 => StoredHeader(rules, last, history, Align(bits))
    case 1 => SymbolsAt(rules, FixedLitLenTree(), FixedLitLenTree(), FixedDistTree(), last, history, bits)
    case 2 => LitLenCount(rules, last, history, bits)
    case _ => CORRUPT
  }

  function StoredHeader(rules: Rules, last: bool, history: seq<Byte>, bits: seq<Bit>): Meaning
    decreases |bits|, 5
  {
    if |bits| < 32 then CUT_OFF
    else
      var length, complement := FromLsb(bits[..16]), FromLsb(bits[16..32]);
      if length + complement != 0xFFFF then CORRUPT
      else Stored(rules, length, last, history, bits[32..])
  }

  function Stored(rules: Rules, left: nat, last: bool, history: seq<Byte>, bits: seq<Bit>): Meaning
    decreases |bits|, 5
  {
    if left == 0 then Blocks(rules, last, history, bits)
    else if |bits| < 8 then CUT_OFF_IN_DATA
    else
      ByteFits(bits[..8]);
      var b: Byte := FromLsb(bits[..8]);
      Emit([b], Stored(rules, left - 1, last, history + [b], bits[8..]))
  }

  lemma ByteFits(bits: seq<Bit>)
    requires |bits| == 8
    ensures FromLsb(bits) < 256
  {
    assert Pow2(8) == 256;
  }

  /** Section 3.2.7: the three counts, the lengths of the code lengths, and the code lengths. */
  function LitLenCount(rules: Rules, last: bool, history: seq<Byte>, bits: seq<Bit>): Meaning
    decreases |bits|, 5
  {
    if |bits| < 5 then CUT_OFF
    else
      var lit := FromLsb(bits[..5]);
      if lit > 29 then CORRUPT else DistCount(rules, lit, last, history, bits[5..])
  }

  function DistCount(rules: Rules, lit: nat, last: bool, history: seq<Byte>, bits: seq<Bit>): Meaning
    decreases |bits|, 5
  {
    if |bits| < 5 then CUT_OFF else CodeLenCount(rules, lit, FromLsb(bits[..5]), last, history, bits[5..])
  }

  function CodeLenCount(rules: Rules, lit: nat, dist: nat, last: bool, history: seq<Byte>, bits: seq<Bit>): Meaning
    decreases |bits|, 5
  {
    if |bits| < 4 then CUT_OFF
    else
      assert Pow2(4) == 16;
      CodeLengths(rules, lit, dist, FromLsb(bits[..4]) + 4, Copies(0, 19), 0, last, history, bits[4..])
  }

  function CodeLengths(rules: Rules, lit: nat, dist: nat, count: nat, lengths: seq<nat>, i: nat, last: bool,
      history: seq<Byte>, bits: seq<Bit>): Meaning
    requires i <= count <= 19 && |lengths| == 19
    decreases |bits|, 5
  {
    if i == count then
      var tree := TreeOf(lengths, 19);
      LengthsAt(rules, tree, tree, lit, dist, [], last, history, bits)
    else if |bits| < 3 then CUT_OFF
    else CodeLengths(rules, lit, dist, count, lengths[CODE_LENGTHS_ORDER[i] := FromLsb(bits[..3])], i + 1, last,
      history, bits[3..])
  }

  /** The code lengths after `lengths`, with the walk down the tree at `iter`. */
  function LengthsAt(rules: Rules, iter: Root, tree: Root, lit: nat, dist: nat, lengths: seq<nat>, last: bool,
      history: seq<Byte>, bits: seq<Bit>): Meaning
    requires |lengths| <= lit + dist + 258
    decreases |bits|, 3
  {
    if |lengths| == lit + dist + 258 then
      var litLen, distance := TreeOf(lengths[..lit + 257], lit + 257), TreeOf(lengths[lit + 257..], dist + 1);
      SymbolsAt(rules, litLen, litLen, distance, last, history, bits)
    else
      match Walk(iter, bits)
      case Found(v, rest) =>
        if v < 16 then LengthsAt(rules, tree, tree, lit, dist, lengths + [v], last, history, rest)
        else Repeat(rules, v, tree, lit, dist, lengths, last, history, rest)
      case Suspended(_) => CUT_OFF
      case Invalid => CORRUPT
  }

  function RepeatBits(v: nat): nat
  {
    match v
    case 16 => 2
    case 17 => 3
    case _ => 7
  }

  function Copies(value: nat, n: nat): (s: seq<nat>)
    ensures |s| == n
  {
    seq(n, _ => value)
  }

  function Repeat(rules: Rules, v: nat, tree: Root, lit: nat, dist: nat, lengths: seq<nat>, last: bool,
      history: seq<Byte>, bits: seq<Bit>): Meaning
    requires |lengths| <= lit + dist + 258
    decreases |bits|, 4
  {
    if v > 18 || (v == 16 && lengths == []) then CORRUPT
    else if |bits| < RepeatBits(v) then CUT_OFF
    else
      var n := FromLsb(bits[..RepeatBits(v)]) + if v == 18 then 11 else 3;
      if |lengths| + n > lit + dist + 258 then CORRUPT
      else
        var value := if v == 16 then lengths[|lengths| - 1] else 0;
        LengthsAt(rules, tree, tree, lit, dist, lengths + Copies(value, n), last, history, bits[RepeatBits(v)..])
  }

  /** The symbols of a compressed block, with the walk down the literal tree at `iter`. */
  function SymbolsAt(rules: Rules, iter: Root, litLen: Root, dist: Root, last: bool, history: seq<Byte>,
      bits: seq<Bit>): Meaning
    decreases |bits|, 1
  {
    match Walk(iter, bits)
    case Found(v, rest) => Symbol(rules, v, litLen, dist, last, history, rest)
    case Suspended(_) => CUT_OFF
    case Invalid => CORRUPT
  }

  function Symbol(rules: Rules, v: nat, litLen: Root, dist: Root, last: bool, history: seq<Byte>,
      bits: seq<Bit>): Meaning
    decreases |bits|, 4
  {
    if v < 256 then Emit([v], SymbolsAt(rules, litLen, litLen, dist, last, history + [v], bits))
    else if v == 256 then Blocks(rules, last, history, bits)
    else if v > 285 then CORRUPT
    else LengthExtra(rules, LengthCode(v - 257) + 3, LengthExtraBits(v - 257), litLen, dist, last, history, bits)
  }

  function LengthExtra(rules: Rules, base: nat, extra: nat, litLen: Root, dist: Root, last: bool, history: seq<Byte>,
      bits: seq<Bit>): Meaning
    decreases |bits|, 3
  {
    if |bits| < extra then CUT_OFF
    else DistanceAt(rules, dist, base + FromLsb(bits[..extra]), litLen, dist, last, history, bits[extra..])
  }

  function DistanceAt(rules: Rules, iter: Root, length: nat, litLen: Root, dist: Root, last: bool, history: seq<Byte>,
      bits: seq<Bit>): Meaning
    decreases |bits|, 2
  {
    match Walk(iter, bits)
    case Found(v, rest) =>
      if v >= 30 then CORRUPT
      else DistanceExtra(rules, DistanceCode(v), DistanceExtraBits(v), length, litLen, dist, last, history, rest)
    case Suspended(_) => CUT_OFF
    case Invalid => CORRUPT
  }

  function DistanceExtra(rules: Rules, base: nat, extra: nat, length: nat, litLen: Root, dist: Root, last: bool,
      history: seq<Byte>, bits: seq<Bit>): Meaning
    requires base > 0
    decreases |bits|, 3
  {
    if |bits| < extra then CUT_OFF
    else Pair(rules, length, base + FromLsb(bits[..extra]), litLen, dist, last, history, bits[extra..])
  }

  function Pair(rules: Rules, length: nat, distance: nat, litLen: Root, dist: Root, last: bool, history: seq<Byte>,
      bits: seq<Bit>): Meaning
    requires distance > 0
    decreases |bits|, 2
  {
    if rules.Strict? && distance > |history| then TOO_FAR
    else
      var bytes := Copy(history, distance, length);
      Emit(bytes, SymbolsAt(rules, litLen, litLen, dist, last, history + bytes, bits))
  }

  /** What a whole stream means. */
  function Inflate(rules: Rules, bits: seq<Bit>): Meaning
  {
    Blocks(rules, false, [], bits)
  }
}
