// How far OFInflateStream is from RFC 1951: section 2 forbids a distance beyond the start of the output,
// where the code finds the zeros its window was filled with. One lemma for each position of the grammar.

module DeflateRules {
  import opened BitReader
  import opened Bits
  import opened Bytes
  import opened Deflate
  import opened DeflateBlocks
  import opened DeflateEncoding
  import opened FixedCodes
  import opened Huffman
  import SlidingWindows

  /** The lenient reading goes on where the strict one stops, and is otherwise the same. */
  ghost predicate Agree(strict: Meaning, lenient: Meaning)
  {
    && lenient.end != TooFar && strict.output <= lenient.output
    && (strict.end == TooFar || strict == lenient)
  }

  lemma AgreeOnMore(bytes: seq<Byte>, strict: Meaning, lenient: Meaning)
    requires Agree(strict, lenient)
    ensures Agree(Emit(bytes, strict), Emit(bytes, lenient))
  {
    assert lenient.output == strict.output + lenient.output[|strict.output|..];
    var more := lenient.output[|strict.output|..];
    assert bytes + lenient.output == (bytes + strict.output) + more;
  }

  lemma {:induction false} BlocksAgree(last: bool, history: seq<Byte>, bits: seq<Bit>)
    ensures Agree(Blocks(Strict, last, history, bits), Blocks(Lenient, last, history, bits))
    decreases |bits|, 0
  {
    hide BlockBody, FromLsb, Align;
    if !last && |bits| >= 3 { BlockBodyAgrees(FromLsb(bits[..3]), history, bits[3..]); }
  }

  lemma {:induction false} BlockBodyAgrees(header: nat, history: seq<Byte>, bits: seq<Bit>)
    ensures Agree(BlockBody(Strict, header, history, bits), BlockBody(Lenient, header, history, bits))
    decreases |bits|, 6
  {
    hide StoredHeader, SymbolsAt, LitLenCount, FixedLitLenTree, FixedDistTree;
    var last := header % 2 == 1;
    match header / 2
    case 0 => StoredHeaderAgrees(last, history, Align(bits));
    case 1 => SymbolsAgree(FixedLitLenTree(), FixedLitLenTree(), FixedDistTree(), last, history, bits);
    case 2 => LitLenCountAgrees(last, history, bits);
    case _ =>
  }

  lemma {:induction false} StoredHeaderAgrees(last: bool, history: seq<Byte>, bits: seq<Bit>)
    ensures Agree(StoredHeader(Strict, last, history, bits), StoredHeader(Lenient, last, history, bits))
    decreases |bits|, 5
  {
    hide Stored, FromLsb;
    if |bits| >= 32 { StoredAgrees(FromLsb(bits[..16]), last, history, bits[32..]); }
  }

  lemma {:induction false} StoredAgrees(left: nat, last: bool, history: seq<Byte>, bits: seq<Bit>)
    ensures Agree(Stored(Strict, left, last, history, bits), Stored(Lenient, left, last, history, bits))
    decreases |bits|, 5
  {
    hide Blocks, FromLsb, Emit, Agree;
    if left == 0 {
      BlocksAgree(last, history, bits);
    } else if |bits| >= 8 {
      ByteFits(bits[..8]);
      var b: Byte := FromLsb(bits[..8]);
      StoredAgrees(left - 1, last, history + [b], bits[8..]);
      AgreeOnMore([b], Stored(Strict, left - 1, last, history + [b], bits[8..]),
                  Stored(Lenient, left - 1, last, history + [b], bits[8..]));
    } else {
      SameAgrees(CUT_OFF_IN_DATA);
    }
  }

  lemma SameAgrees(m: Meaning)
    requires m.end != TooFar
    ensures Agree(m, m)
  {
  }

  lemma {:induction false} LitLenCountAgrees(last: bool, history: seq<Byte>, bits: seq<Bit>)
    ensures Agree(LitLenCount(Strict, last, history, bits), LitLenCount(Lenient, last, history, bits))
    decreases |bits|, 5
  {
    hide DistCount, FromLsb;
    if |bits| >= 5 && FromLsb(bits[..5]) <= 29 { DistCountAgrees(FromLsb(bits[..5]), last, history, bits[5..]); }
  }

  lemma {:induction false} DistCountAgrees(lit: nat, last: bool, history: seq<Byte>, bits: seq<Bit>)
    ensures Agree(DistCount(Strict, lit, last, history, bits), DistCount(Lenient, lit, last, history, bits))
    decreases |bits|, 5
  {
    hide CodeLenCount, FromLsb;
    if |bits| >= 5 { CodeLenCountAgrees(lit, FromLsb(bits[..5]), last, history, bits[5..]); }
  }

  lemma {:induction false} CodeLenCountAgrees(lit: nat, dist: nat, last: bool, history: seq<Byte>, bits: seq<Bit>)
    ensures Agree(CodeLenCount(Strict, lit, dist, last, history, bits),
                  CodeLenCount(Lenient, lit, dist, last, history, bits))
    decreases |bits|, 5
  {
    hide CodeLengths, FromLsb, Copies;
    if |bits| >= 4 {
      assert Pow2(4) == 16;
      CodeLengthsAgree(lit, dist, FromLsb(bits[..4]) + 4, Copies(0, 19), 0, last, history, bits[4..]);
    }
  }

  lemma {:induction false} CodeLengthsAgree(lit: nat, dist: nat, count: nat, lengths: seq<nat>, i: nat, last: bool,
                                            history: seq<Byte>, bits: seq<Bit>)
    requires i <= count <= 19 && |lengths| == 19
    ensures Agree(CodeLengths(Strict, lit, dist, count, lengths, i, last, history, bits),
                  CodeLengths(Lenient, lit, dist, count, lengths, i, last, history, bits))
    decreases |bits|, 5
  {
    hide LengthsAt, FromLsb, TreeOf;
    if i == count {
      LengthsAgree(TreeOf(lengths, 19), TreeOf(lengths, 19), lit, dist, [], last, history, bits);
    } else if |bits| >= 3 {
      CodeLengthsAgree(lit, dist, count, lengths[CODE_LENGTHS_ORDER[i] := FromLsb(bits[..3])], i + 1, last, history,
        bits[3..]);
    }
  }

  lemma {:induction false} LengthsAgree(iter: Root, tree: Root, lit: nat, dist: nat, lengths: seq<nat>, last: bool,
                                        history: seq<Byte>, bits: seq<Bit>)
    requires |lengths| <= lit + dist + 258
    ensures Agree(LengthsAt(Strict, iter, tree, lit, dist, lengths, last, history, bits),
                  LengthsAt(Lenient, iter, tree, lit, dist, lengths, last, history, bits))
    decreases |bits|, 3
  {
    hide SymbolsAt, Repeat, TreeOf, Walk;
    if |lengths| == lit + dist + 258 {
      var litLen, distance := TreeOf(lengths[..lit + 257], lit + 257), TreeOf(lengths[lit + 257..], dist + 1);
      SymbolsAgree(litLen, litLen, distance, last, history, bits);
    } else {
      var w := Walk(iter, bits);
      if w.Found? {
        if w.value < 16 {
          LengthsAgree(tree, tree, lit, dist, lengths + [w.value], last, history, w.rest);
        } else {
          RepeatAgrees(w.value, tree, lit, dist, lengths, last, history, w.rest);
        }
      }
    }
  }

  lemma {:induction false} RepeatAgrees(v: nat, tree: Root, lit: nat, dist: nat, lengths: seq<nat>, last: bool,
                                        history: seq<Byte>, bits: seq<Bit>)
    requires |lengths| <= lit + dist + 258
    ensures Agree(Repeat(Strict, v, tree, lit, dist, lengths, last, history, bits),
                  Repeat(Lenient, v, tree, lit, dist, lengths, last, history, bits))
    decreases |bits|, 4
  {
    hide LengthsAt, FromLsb, Copies;
    if v <= 18 && !(v == 16 && lengths == []) && |bits| >= RepeatBits(v) {
      var n := FromLsb(bits[..RepeatBits(v)]) + if v == 18 then 11 else 3;
      if |lengths| + n <= lit + dist + 258 {
        var value := if v == 16 then lengths[|lengths| - 1] else 0;
        LengthsAgree(tree, tree, lit, dist, lengths + Copies(value, n), last, history, bits[RepeatBits(v)..]);
      }
    }
  }

  lemma {:induction false} SymbolsAgree(iter: Root, litLen: Root, dist: Root, last: bool, history: seq<Byte>,
      bits: seq<Bit>)
    ensures Agree(SymbolsAt(Strict, iter, litLen, dist, last, history, bits),
                  SymbolsAt(Lenient, iter, litLen, dist, last, history, bits))
    decreases |bits|, 1
  {
    hide Symbol, Walk;
    var w := Walk(iter, bits);
    if w.Found? { SymbolAgrees(w.value, litLen, dist, last, history, w.rest); }
  }

  lemma {:induction false} SymbolAgrees(v: nat, litLen: Root, dist: Root, last: bool, history: seq<Byte>,
      bits: seq<Bit>)
    ensures Agree(Symbol(Strict, v, litLen, dist, last, history, bits),
                  Symbol(Lenient, v, litLen, dist, last, history, bits))
    decreases |bits|, 4
  {
    hide SymbolsAt, Blocks, LengthExtra, LengthCode, LengthExtraBits, Emit, Agree;
    if v < 256 {
      SymbolsAgree(litLen, litLen, dist, last, history + [v], bits);
      AgreeOnMore([v], SymbolsAt(Strict, litLen, litLen, dist, last, history + [v], bits),
                  SymbolsAt(Lenient, litLen, litLen, dist, last, history + [v], bits));
    } else if v == 256 {
      BlocksAgree(last, history, bits);
    } else if v > 285 {
      SameAgrees(CORRUPT);
    } else {
      LengthExtraAgrees(LengthCode(v - 257) + 3, LengthExtraBits(v - 257), litLen, dist, last, history, bits);
    }
  }

  lemma {:induction false} LengthExtraAgrees(base: nat, extra: nat, litLen: Root, dist: Root, last: bool,
                                             history: seq<Byte>, bits: seq<Bit>)
    ensures Agree(LengthExtra(Strict, base, extra, litLen, dist, last, history, bits),
                  LengthExtra(Lenient, base, extra, litLen, dist, last, history, bits))
    decreases |bits|, 3
  {
    hide DistanceAt, FromLsb;
    if |bits| >= extra { DistanceAgrees(dist, base + FromLsb(bits[..extra]), litLen, dist, last, history,
      bits[extra..]); }
  }

  lemma {:induction false} DistanceAgrees(iter: Root, length: nat, litLen: Root, dist: Root, last: bool,
                                          history: seq<Byte>, bits: seq<Bit>)
    ensures Agree(DistanceAt(Strict, iter, length, litLen, dist, last, history, bits),
                  DistanceAt(Lenient, iter, length, litLen, dist, last, history, bits))
    decreases |bits|, 2
  {
    hide DistanceExtra, Walk, DistanceExtraBits;
    var w := Walk(iter, bits);
    if w.Found? && w.value < 30 {
      DistancesArePositive(w.value);
      hide DistanceCode;
      DistanceExtraAgrees(DistanceCode(w.value), DistanceExtraBits(w.value), length, litLen, dist, last, history,
        w.rest);
    }
  }

  lemma {:induction false} DistanceExtraAgrees(base: nat, extra: nat, length: nat, litLen: Root, dist: Root, last: bool,
                                               history: seq<Byte>, bits: seq<Bit>)
    requires base > 0
    ensures Agree(DistanceExtra(Strict, base, extra, length, litLen, dist, last, history, bits),
                  DistanceExtra(Lenient, base, extra, length, litLen, dist, last, history, bits))
    decreases |bits|, 3
  {
    hide Pair, FromLsb;
    if |bits| >= extra {
      PairAgrees(length, base + FromLsb(bits[..extra]), litLen, dist, last, history, bits[extra..]);
    }
  }

  /** The only place where the rules differ */
  lemma {:induction false} PairAgrees(length: nat, distance: nat, litLen: Root, dist: Root, last: bool,
                                      history: seq<Byte>, bits: seq<Bit>)
    requires distance > 0
    ensures Agree(Pair(Strict, length, distance, litLen, dist, last, history, bits),
                  Pair(Lenient, length, distance, litLen, dist, last, history, bits))
    decreases |bits|, 2
  {
    hide SymbolsAt, Copy;
    var bytes := Copy(history, distance, length);
    SymbolsAgree(litLen, litLen, dist, last, history + bytes, bits);
    AgreeOnMore(bytes, SymbolsAt(Strict, litLen, litLen, dist, last, history + bytes, bits),
                SymbolsAt(Lenient, litLen, litLen, dist, last, history + bytes, bits));
  }

  /**
   * For all input whatever: OFInflateStream reads it as RFC 1951 says if and only if the standard finds no distance
   * beyond the start of the output, and up to the first such distance in any case.
   */
  lemma InflatesAsTheStandardIff(bits: seq<Bit>)
    ensures Inflate(Lenient, bits) == Inflate(Strict, bits) <==> Inflate(Strict, bits).end != TooFar
    ensures Inflate(Strict, bits).output <= Inflate(Lenient, bits).output
  {
    hide Blocks;
    BlocksAgree(false, [], bits);
  }

  /** A reference to the byte before the first one */
  function FarStream(): seq<Block>
  {
    [FixedBlock([Reference(0, 0, 0, 0)])]
  }

  /** Three zeros come out of a stream that the standard does not allow. */
  lemma ZerosFromNowhere(after: seq<Bit>)
    ensures AllLegalBlocks(FarStream())
    ensures Inflate(Lenient, StreamBits(FarStream(), after)) == Meaning([0, 0, 0], Finished(Align(after)))
    ensures Inflate(Strict, StreamBits(FarStream(), after)).end == TooFar
  {
    hide FixedLengths, FixedDistances, NotOversubscribed, StreamBits, Align, Blocks, Copy;
    FixedLiteralsFit();
    FixedDistancesFit();
    var t := Reference(0, 0, 0, 0);
    assert Pow2(0) == 1 && Legal(t, FixedLengths(0), FixedDistances());
    assert LegalBlock(FarStream()[0]);
    ThreeZeros();
    assert Expanded(t, []) == [0, 0, 0] && AllExpanded([t], []) == [0, 0, 0] + [];
    assert StreamBytes(FarStream(), []) == [0, 0, 0] + [];
    assert !InReach(t, []) && !AllInReach([t], []);
    assert !BlockInReach(FarStream()[0], []);
    RoundTrip(Lenient, FarStream(), after);
    StreamTooFar(FarStream(), [], after);
  }

  lemma ThreeZeros()
    ensures Copy([], 1, 3) == [0, 0, 0]
  {
    forall i | 0 <= i < 3 ensures Copy([], 1, 3)[i] == 0 {
      SlidingWindows.CopyIndexes(0, [], 1, 3, i);
    }
  }
}
