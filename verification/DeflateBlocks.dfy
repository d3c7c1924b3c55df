// Whole Deflate streams as a compressor may write them: any blocks of the three kinds, with any
// codes and any run-length encoding of their lengths. Reading one gives back what it stands for.

module DeflateBlocks {
  import opened BitReader
  import opened Bits
  import opened Bytes
  import opened CachedStream
  import opened Deflate
  import opened DeflateEncoding
  import opened FixedCodes
  import opened Huffman
  import opened InflateStream
  import opened SlidingWindows
  import opened Streams

  /** One symbol of the code length alphabet with its extra bits (section 3.2.7 of RFC 1951) */
  datatype Run = Run(symbol: nat, extra: nat)

  datatype Block =
    | StoredBlock(padding: seq<Bit>, data: seq<Byte>)
    | FixedBlock(tokens: seq<Token>)
    | DynamicBlock(lit: seq<nat>, dist: seq<nat>, codeLengths: seq<nat>, count: nat, runs: seq<Run>, tokens: seq<Token>)

  // Code lengths

  ghost predicate LegalCodeLengths(codeLengths: seq<nat>, count: nat)
  {
    && 4 <= count <= 19 == |codeLengths| && NotOversubscribed(codeLengths)
    && (forall k :: 0 <= k < 19 ==> codeLengths[k] < 8)
    && (forall k :: 0 <= k < 19 && Place(k) >= count ==> codeLengths[k] == 0)
  }

  /** Where in the stream the length for a symbol is sent */
  function Place(symbol: nat): nat
    requires symbol < 19
  {
    [3, 17, 15, 13, 11, 9, 7, 5, 4, 6, 8, 10, 12, 14, 16, 18, 0, 1, 2][symbol]
  }

  function CodeLengthBits(codeLengths: seq<nat>, i: nat, count: nat): seq<Bit>
    requires i <= count <= 19 == |codeLengths|
    decreases count - i
  {
    if i == count then [] else Lsb(codeLengths[CODE_LENGTHS_ORDER[i]], 3) + CodeLengthBits(codeLengths, i + 1, count)
  }

  lemma PlaceInverts(i: nat)
    requires i < 19
    ensures Place(i) < 19 && CODE_LENGTHS_ORDER[Place(i)] == i
    ensures CODE_LENGTHS_ORDER[i] < 19 && Place(CODE_LENGTHS_ORDER[i]) == i
  {
  }

  /** The lengths that have been received when `i` of them have been sent */
  ghost predicate Received(lengths: seq<nat>, codeLengths: seq<nat>, i: nat)
    requires |lengths| == |codeLengths| == 19
  {
    forall k :: 0 <= k < 19 ==> lengths[k] == if Place(k) < i then codeLengths[k] else 0
  }

  lemma OneMoreReceived(lengths: seq<nat>, codeLengths: seq<nat>, i: nat)
    requires |lengths| == |codeLengths| == 19 && i < 19 && Received(lengths, codeLengths, i)
    ensures var s := CODE_LENGTHS_ORDER[i]; s < 19 && Received(lengths[s := codeLengths[s]], codeLengths, i + 1)
  {
    hide Place;
    PlaceInverts(i);
    var s := CODE_LENGTHS_ORDER[i];
    forall k | 0 <= k < 19 ensures lengths[s := codeLengths[s]][k] == if Place(k) < i + 1 then codeLengths[k] else 0 {
      PlaceInverts(k);
    }
  }

  lemma CodeLengthMeans(rules: Rules, lit: nat, dist: nat, n: nat, count: nat, lengths: seq<nat>, i: nat, last: bool,
      history: seq<Byte>, rest: seq<Bit>)
    requires i < count <= 19 == |lengths| && n < 8 && CODE_LENGTHS_ORDER[i] < 19
    ensures CodeLengths(rules, lit, dist, count, lengths, i, last, history, Lsb(n, 3) + rest) ==
            CodeLengths(rules, lit, dist, count, lengths[CODE_LENGTHS_ORDER[i] := n], i + 1, last, history, rest)
  {
    hide LengthsAt, TreeOf, Lsb, FromLsb;
    assert Pow2(3) == 8;
    ExtraReads(n, 3, rest);
  }

  lemma NoMoreLengths(rules: Rules, lit: nat, dist: nat, count: nat, lengths: seq<nat>, last: bool, history: seq<Byte>,
                      rest: seq<Bit>)
    requires count <= 19 == |lengths|
    ensures CodeLengths(rules, lit, dist, count, lengths, count, last, history, rest) ==
            LengthsAt(rules, TreeOf(lengths, 19), TreeOf(lengths, 19), lit, dist, [], last, history, rest)
  {
    hide LengthsAt, TreeOf;
  }

  lemma NextLengthBits(codeLengths: seq<nat>, i: nat, count: nat, rest: seq<Bit>)
    requires i <= count <= 19 == |codeLengths|
    ensures i == count ==> CodeLengthBits(codeLengths, i, count) + rest == rest
    ensures i < count ==>
              CodeLengthBits(codeLengths, i, count) + rest ==
              Lsb(codeLengths[CODE_LENGTHS_ORDER[i]], 3) + (CodeLengthBits(codeLengths, i + 1, count) + rest)
  {
    hide Lsb;
  }

  lemma {:induction false} CodeLengthsMean(rules: Rules, lit: nat, dist: nat, codeLengths: seq<nat>, count: nat,
      lengths: seq<nat>, i: nat, last: bool, history: seq<Byte>, rest: seq<Bit>)
    requires LegalCodeLengths(codeLengths, count) && i <= count
    requires |lengths| == 19 && Received(lengths, codeLengths, i)
    ensures CodeLengths(rules, lit, dist, count, lengths, i, last, history,
      CodeLengthBits(codeLengths, i, count) + rest) ==
            LengthsAt(rules, TreeOf(codeLengths, 19), TreeOf(codeLengths, 19), lit, dist, [], last, history, rest)
    decreases count - i
  {
    hide LengthsAt, TreeOf, Lsb, Place, Received, NotOversubscribed, CodeLengths, CodeLengthBits;
    NextLengthBits(codeLengths, i, count, rest);
    if i == count {
      AllReceived(lengths, codeLengths, i);
      NoMoreLengths(rules, lit, dist, count, lengths, last, history, rest);
    } else {
      var s := CODE_LENGTHS_ORDER[i];
      var more := CodeLengthBits(codeLengths, i + 1, count) + rest;
      OneMoreReceived(lengths, codeLengths, i);
      CodeLengthMeans(rules, lit, dist, codeLengths[s], count, lengths, i, last, history, more);
      CodeLengthsMean(rules, lit, dist, codeLengths, count, lengths[s := codeLengths[s]], i + 1, last, history, rest);
    }
  }

  lemma AllReceived(lengths: seq<nat>, codeLengths: seq<nat>, count: nat)
    requires LegalCodeLengths(codeLengths, count) && |lengths| == 19 && Received(lengths, codeLengths, count)
    ensures lengths == codeLengths
  {
    hide Place, NotOversubscribed;
  }

  // Runs of lengths

  /** The lengths that a run adds after the lengths before it */
  function Spread(run: Run, before: seq<nat>): (lengths: seq<nat>)
    ensures |lengths| > 0
  {
    if run.symbol < 16 then [run.symbol]
    else
      var value := if run.symbol == 16 && before != [] then before[|before| - 1] else 0;
      Copies(value, run.extra + if run.symbol == 18 then 11 else 3)
  }

  /** All lengths up to the end of the runs */
  function Spreads(runs: seq<Run>, before: seq<nat>): (lengths: seq<nat>)
    ensures |lengths| >= |before|
    decreases |runs|
  {
    if runs == [] then before else Spreads(runs[1..], before + Spread(runs[0], before))
  }

  predicate LegalRun(run: Run, before: seq<nat>, codeLengths: seq<nat>)
  {
    && run.symbol < 19 == |codeLengths| && codeLengths[run.symbol] > 0
    && (run.symbol == 16 ==> before != [])
    && (run.symbol >= 16 ==> run.extra < Pow2(RepeatBits(run.symbol)))
  }

  predicate LegalRuns(runs: seq<Run>, before: seq<nat>, codeLengths: seq<nat>)
    decreases |runs|
  {
    runs == [] || (LegalRun(runs[0], before, codeLengths) && LegalRuns(runs[1..], before + Spread(runs[0], before),
      codeLengths))
  }

  function RunBits(run: Run, codeLengths: seq<nat>): seq<Bit>
    requires run.symbol < |codeLengths|
  {
    CodeBits(codeLengths, run.symbol) + if run.symbol < 16 then [] else Lsb(run.extra, RepeatBits(run.symbol))
  }

  function AllRunBits(runs: seq<Run>, before: seq<nat>, codeLengths: seq<nat>): seq<Bit>
    requires LegalRuns(runs, before, codeLengths)
    decreases |runs|
  {
    if runs == [] then []
    else RunBits(runs[0], codeLengths) + AllRunBits(runs[1..], before + Spread(runs[0], before), codeLengths)
  }

  lemma RunMeans(rules: Rules, run: Run, codeLengths: seq<nat>, lit: nat, dist: nat, before: seq<nat>, last: bool,
      history: seq<Byte>, rest: seq<Bit>)
    requires |codeLengths| == 19 && NotOversubscribed(codeLengths) && LegalRun(run, before, codeLengths)
    requires |before + Spread(run, before)| <= lit + dist + 258
    ensures var tree := TreeOf(codeLengths, 19);
            LengthsAt(rules, tree, tree, lit, dist, before, last, history, RunBits(run, codeLengths) + rest) ==
            LengthsAt(rules, tree, tree, lit, dist, before + Spread(run, before), last, history, rest)
  {
    hide CodeBits, TreeOf, Walk, NotOversubscribed, Lsb, FromLsb, Pow2, SymbolsAt;
    var v := run.symbol;
    if v < 16 {
      Reads(codeLengths, v, rest);
      assert RunBits(run, codeLengths) + rest == CodeBits(codeLengths, v) + rest;
    } else {
      var extra := Lsb(run.extra, RepeatBits(v));
      Reads(codeLengths, v, extra + rest);
      ExtraReads(run.extra, RepeatBits(v), rest);
      assert RunBits(run, codeLengths) + rest == CodeBits(codeLengths, v) + (extra + rest);
    }
  }

  lemma {:induction false} RunsMean(rules: Rules, runs: seq<Run>, codeLengths: seq<nat>, lit: nat, dist: nat,
      before: seq<nat>, last: bool, history: seq<Byte>, rest: seq<Bit>)
    requires |codeLengths| == 19 && NotOversubscribed(codeLengths) && LegalRuns(runs, before, codeLengths)
    requires |Spreads(runs, before)| <= lit + dist + 258
    ensures var tree := TreeOf(codeLengths, 19);
            LengthsAt(rules, tree, tree, lit, dist, before, last, history,
              AllRunBits(runs, before, codeLengths) + rest) ==
            LengthsAt(rules, tree, tree, lit, dist, Spreads(runs, before), last, history, rest)
    decreases |runs|
  {
    hide TreeOf, NotOversubscribed, LengthsAt, RunBits, Spread, RepeatBits, Pow2;
    if runs == [] {
      assert AllRunBits(runs, before, codeLengths) + rest == rest;
    } else {
      var longer := before + Spread(runs[0], before);
      var more := AllRunBits(runs[1..], longer, codeLengths);
      assert |Spreads(runs[1..], longer)| >= |longer|;
      RunMeans(rules, runs[0], codeLengths, lit, dist, before, last, history, more + rest);
      RunsMean(rules, runs[1..], codeLengths, lit, dist, longer, last, history, rest);
      assert AllRunBits(runs, before, codeLengths) + rest == RunBits(runs[0], codeLengths) + (more + rest);
    }
  }

  // The three kinds of block

  predicate LegalStored(padding: seq<Bit>, data: seq<Byte>)
  {
    |padding| < 8 && |data| <= 0xFFFF
  }

  ghost predicate LegalDynamic(lit: seq<nat>, dist: seq<nat>, codeLengths: seq<nat>, count: nat, runs: seq<Run>)
  {
    && 257 <= |lit| <= 286 && 1 <= |dist| <= 32 && Codes(lit, dist) && LegalCodeLengths(codeLengths, count)
    && LegalRuns(runs, [], codeLengths) && Spreads(runs, []) == lit + dist
  }

  ghost predicate LegalBlock(block: Block)
  {
    match block
    case StoredBlock(padding, data) => LegalStored(padding, data)
    case FixedBlock(tokens) => AllLegal(tokens, FixedLengths(0), FixedDistances())
    case DynamicBlock(lit, dist, codeLengths, count, runs, tokens) =>
      LegalDynamic(lit, dist, codeLengths, count, runs) && AllLegal(tokens, lit, dist)
  }

  function StoredBits(padding: seq<Bit>, data: seq<Byte>, after: seq<Bit>): seq<Bit>
    requires LegalStored(padding, data)
  {
    padding + (Lsb(|data|, 16) + (Lsb(0xFFFF - |data|, 16) + (BytesBits(data) + after)))
  }

  function TreeBits(lit: seq<nat>, dist: seq<nat>, codeLengths: seq<nat>, count: nat, runs: seq<Run>,
      after: seq<Bit>): seq<Bit>
    requires LegalDynamic(lit, dist, codeLengths, count, runs)
  {
    Lsb(|lit| - 257, 5) + (Lsb(|dist| - 1, 5) + (Lsb(count - 4, 4) +
    (CodeLengthBits(codeLengths, 0, count) + (AllRunBits(runs, [], codeLengths) + after))))
  }

  /** A block after its header, and what comes after the block */
  function BodyBits(block: Block, after: seq<Bit>): seq<Bit>
    requires LegalBlock(block)
  {
    match block
    case StoredBlock(padding, data) => StoredBits(padding, data, after)
    case FixedBlock(tokens) =>
      FixedCodesFit();
      BlockBits(tokens, FixedLengths(0), FixedDistances(), after)
    case DynamicBlock(lit, dist, codeLengths, count, runs, tokens) =>
      TreeBits(lit, dist, codeLengths, count, runs, BlockBits(tokens, lit, dist, after))
  }

  function Kind(block: Block): nat
  {
    match block
    case StoredBlock(_, _) => 0
    case FixedBlock(_) => 1
    case DynamicBlock(_, _, _, _, _, _) => 2
  }

  /** The bytes that a block stands for */
  function BlockBytes(block: Block, history: seq<Byte>): seq<Byte>
  {
    match block
    case StoredBlock(_, data) => data
    case FixedBlock(tokens) => AllExpanded(tokens, history)
    case DynamicBlock(_, _, _, _, _, tokens) => AllExpanded(tokens, history)
  }

  /** The block refers to nothing before the start of the output. */
  predicate BlockInReach(block: Block, history: seq<Byte>)
  {
    match block
    case StoredBlock(_, _) => true
    case FixedBlock(tokens) => AllInReach(tokens, history)
    case DynamicBlock(_, _, _, _, _, tokens) => AllInReach(tokens, history)
  }

  lemma FixedCodesFit()
    ensures Codes(FixedLengths(0), FixedDistances())
  {
    hide FixedLengths, FixedDistances, NotOversubscribed;
    FixedLiteralsFit();
    FixedDistancesFit();
  }

  lemma StoredMeans(rules: Rules, padding: seq<Bit>, data: seq<Byte>, last: bool, history: seq<Byte>, after: seq<Bit>)
    requires LegalStored(padding, data) && |after| % 8 == 0
    ensures StoredHeader(rules, last, history, Align(StoredBits(padding, data, after))) ==
            Emit(data, Blocks(rules, last, history + data, after))
  {
    hide Lsb, BytesBits, FromLsb, Stored, Blocks, Align;
    var payload := BytesBits(data) + after;
    var bits := Lsb(|data|, 16) + (Lsb(0xFFFF - |data|, 16) + payload);
    BytesBitsSize(data);
    AlignPartial(padding, bits);
    SixteenBits();
    ExtraReads(|data|, 16, Lsb(0xFFFF - |data|, 16) + payload);
    ExtraReads(0xFFFF - |data|, 16, payload);
    TwoNumbers(bits);
    StoredTakes(rules, |data|, data, last, history, after);
    StoredNone(rules, last, history + data, after);
  }

  lemma SixteenBits()
    ensures Pow2(16) == 0x10000
  {
    assert Pow2(4) == 16;
    Pow2Add(4, 4);
    Pow2Add(8, 8);
  }

  lemma TwoNumbers(bits: seq<Bit>)
    requires |bits| >= 32
    ensures bits[16..][..16] == bits[16..32] && bits[16..][16..] == bits[32..]
  {
  }

  lemma CountsMean(rules: Rules, lit: nat, dist: nat, count: nat, last: bool, history: seq<Byte>, rest: seq<Bit>)
    requires lit <= 29 && dist < 32 && 4 <= count <= 19
    ensures LitLenCount(rules, last, history, Lsb(lit, 5) + (Lsb(dist, 5) + (Lsb(count - 4, 4) + rest))) ==
            CodeLengths(rules, lit, dist, count, Copies(0, 19), 0, last, history, rest)
  {
    hide Lsb, FromLsb, CodeLengths, Copies;
    assert Pow2(5) == 32 && Pow2(4) == 16;
    var counts := Lsb(dist, 5) + (Lsb(count - 4, 4) + rest);
    ExtraReads(lit, 5, counts);
    ExtraReads(dist, 5, Lsb(count - 4, 4) + rest);
    ExtraReads(count - 4, 4, rest);
    assert LitLenCount(rules, last, history, Lsb(lit, 5) + counts) == DistCount(rules, lit, last, history, counts);
    assert DistCount(rules, lit, last, history, counts) ==
           CodeLenCount(rules, lit, dist, last, history, Lsb(count - 4, 4) + rest);
  }

  lemma TreesMean(rules: Rules, lit: seq<nat>, dist: seq<nat>, codeLengths: seq<nat>, count: nat, runs: seq<Run>,
      last: bool, history: seq<Byte>, after: seq<Bit>)
    requires LegalDynamic(lit, dist, codeLengths, count, runs)
    ensures var litTree, distTree := TreeOf(lit, |lit|), TreeOf(dist, |dist|);
            LitLenCount(rules, last, history, TreeBits(lit, dist, codeLengths, count, runs, after)) ==
            SymbolsAt(rules, litTree, litTree, distTree, last, history, after)
  {
    hide TreeOf, Lsb, NotOversubscribed, CodeLengths, CodeLengthBits, AllRunBits, LitLenCount, SymbolsAt, Place,
      LegalRuns, Spreads;
    var l, d := |lit| - 257, |dist| - 1;
    var runBits := AllRunBits(runs, [], codeLengths) + after;
    CountsMean(rules, l, d, count, last, history, CodeLengthBits(codeLengths, 0, count) + runBits);
    CodeLengthsMean(rules, l, d, codeLengths, count, Copies(0, 19), 0, last, history, runBits);
    RunsMean(rules, runs, codeLengths, l, d, [], last, history, after);
    assert (lit + dist)[..l + 257] == lit && (lit + dist)[l + 257..] == dist;
  }

  lemma BodyMeans(rules: Rules, block: Block, last: bool, history: seq<Byte>, after: seq<Bit>)
    requires LegalBlock(block) && (block.StoredBlock? ==> |after| % 8 == 0)
    requires rules.Lenient? || BlockInReach(block, history)
    ensures BlockBody(rules, (if last then 1 else 0) + 2 * Kind(block), history, BodyBits(block, after)) ==
            Emit(BlockBytes(block, history), Blocks(rules, last, history + BlockBytes(block, history), after))
  {
    hide TreeOf, FixedLengths, FixedDistances, Codes, AllLegal, SymbolsAt, StoredHeader, LitLenCount, Blocks, Emit,
      AllExpanded, AllEncoded, CodeBits, StoredBits, TreeBits, LegalStored, Align, LegalCodeLengths, LegalRuns,
      Spreads;
    match block
    case StoredBlock(padding, data) =>
      StoredMeans(rules, padding, data, last, history, after);
    case FixedBlock(tokens) =>
      FixedCodesFit();
      BlockMeans(rules, tokens, FixedLengths(0), FixedDistances(), last, history, after);
    case DynamicBlock(lit, dist, codeLengths, count, runs, tokens) =>
      TreesMean(rules, lit, dist, codeLengths, count, runs, last, history, BlockBits(tokens, lit, dist, after));
      BlockMeans(rules, tokens, lit, dist, last, history, after);
  }

  lemma BodyTooFar(block: Block, last: bool, history: seq<Byte>, after: seq<Bit>)
    requires LegalBlock(block) && !BlockInReach(block, history)
    ensures BlockBody(Strict, (if last then 1 else 0) + 2 * Kind(block), history, BodyBits(block, after)).end == TooFar
  {
    hide TreeOf, FixedLengths, FixedDistances, Codes, AllLegal, SymbolsAt, LitLenCount, AllInReach, BlockBits,
      TreeBits, Align, LegalCodeLengths, LegalRuns, Spreads, StoredBits, StoredHeader;
    match block
    case FixedBlock(tokens) =>
      FixedCodesFit();
      BlockTooFar(tokens, FixedLengths(0), FixedDistances(), last, history, after);
    case DynamicBlock(lit, dist, codeLengths, count, runs, tokens) =>
      TreesMean(Strict, lit, dist, codeLengths, count, runs, last, history, BlockBits(tokens, lit, dist, after));
      BlockTooFar(tokens, lit, dist, last, history, after);
  }

  // Streams

  ghost predicate AllLegalBlocks(blocks: seq<Block>)
  {
    forall i :: 0 <= i < |blocks| ==> LegalBlock(blocks[i])
  }

  /** The blocks with their headers, the last one marked as such, and what comes after them */
  function StreamBits(blocks: seq<Block>, after: seq<Bit>): seq<Bit>
    requires AllLegalBlocks(blocks)
  {
    if blocks == [] then after
    else
      Lsb((if |blocks| == 1 then 1 else 0) + 2 * Kind(blocks[0]), 3)
        + BodyBits(blocks[0], StreamBits(blocks[1..], after))
  }

  /** The data of each stored block ends where a byte of the stream ends. */
  ghost predicate Padded(blocks: seq<Block>, after: seq<Bit>)
    requires AllLegalBlocks(blocks)
  {
    blocks == [] ||
    ((blocks[0].StoredBlock? ==> |StreamBits(blocks[1..], after)| % 8 == 0) && Padded(blocks[1..], after))
  }

  function StreamBytes(blocks: seq<Block>, history: seq<Byte>): seq<Byte>
  {
    if blocks == [] then []
    else
      var bytes := BlockBytes(blocks[0], history);
      bytes + StreamBytes(blocks[1..], history + bytes)
  }

  predicate StreamInReach(blocks: seq<Block>, history: seq<Byte>)
  {
    blocks == [] ||
    (BlockInReach(blocks[0], history) && StreamInReach(blocks[1..], history + BlockBytes(blocks[0], history)))
  }

  lemma HeaderMeans(rules: Rules, blocks: seq<Block>, history: seq<Byte>, after: seq<Bit>)
    requires AllLegalBlocks(blocks) && blocks != []
    ensures Blocks(rules, false, history, StreamBits(blocks, after)) ==
            BlockBody(rules, (if |blocks| == 1 then 1 else 0) + 2 * Kind(blocks[0]), history,
                      BodyBits(blocks[0], StreamBits(blocks[1..], after)))
  {
    hide LegalBlock, BodyBits, BlockBody, Lsb, FromLsb;
    assert Pow2(3) == 8;
    ExtraReads((if |blocks| == 1 then 1 else 0) + 2 * Kind(blocks[0]), 3,
      BodyBits(blocks[0], StreamBits(blocks[1..], after)));
  }

  lemma {:induction false} StreamMeans(rules: Rules, blocks: seq<Block>, history: seq<Byte>, after: seq<Bit>)
    requires AllLegalBlocks(blocks) && Padded(blocks, after)
    requires rules.Lenient? || StreamInReach(blocks, history)
    ensures Blocks(rules, blocks == [], history, StreamBits(blocks, after)) ==
            Meaning(StreamBytes(blocks, history), Finished(Align(after)))
    decreases |blocks|
  {
    hide LegalBlock, BodyBits, BlockBytes, BlockBody, BlockInReach, Align;
    if blocks != [] {
      hide Blocks;
      HeaderMeans(rules, blocks, history, after);
      BodyMeans(rules, blocks[0], |blocks| == 1, history, StreamBits(blocks[1..], after));
      StreamMeans(rules, blocks[1..], history + BlockBytes(blocks[0], history), after);
    }
  }

  lemma {:induction false} StreamTooFar(blocks: seq<Block>, history: seq<Byte>, after: seq<Bit>)
    requires AllLegalBlocks(blocks) && Padded(blocks, after) && !StreamInReach(blocks, history)
    ensures Blocks(Strict, false, history, StreamBits(blocks, after)).end == TooFar
    decreases |blocks|
  {
    hide LegalBlock, BodyBits, BlockBytes, BlockBody, BlockInReach, Align, Blocks;
    HeaderMeans(Strict, blocks, history, after);
    if BlockInReach(blocks[0], history) {
      BodyMeans(Strict, blocks[0], |blocks| == 1, history, StreamBits(blocks[1..], after));
      StreamTooFar(blocks[1..], history + BlockBytes(blocks[0], history), after);
    } else {
      BodyTooFar(blocks[0], |blocks| == 1, history, StreamBits(blocks[1..], after));
    }
  }

  /** Decompression undoes compression, for whatever a compressor may write. */
  lemma RoundTrip(rules: Rules, blocks: seq<Block>, after: seq<Bit>)
    requires blocks != [] && AllLegalBlocks(blocks) && Padded(blocks, after)
    requires rules.Lenient? || StreamInReach(blocks, [])
    ensures Inflate(rules, StreamBits(blocks, after)) == Meaning(StreamBytes(blocks, []), Finished(Align(after)))
  {
    StreamMeans(rules, blocks, [], after);
  }

  /**
   * What OFInflateStream reads is what RFC 1951 says exactly if nothing before the start of the output is referred
   * to.
   */
  lemma ReadAsTheStandardIff(blocks: seq<Block>, after: seq<Bit>)
    requires blocks != [] && AllLegalBlocks(blocks) && Padded(blocks, after)
    ensures Inflate(Lenient, StreamBits(blocks, after)) == Inflate(Strict, StreamBits(blocks, after)) <==>
            StreamInReach(blocks, [])
  {
    hide AllLegalBlocks, Padded, StreamInReach, StreamBits, StreamBytes, Align, Blocks;
    RoundTrip(Lenient, blocks, after);
    if StreamInReach(blocks, []) {
      RoundTrip(Strict, blocks, after);
    } else {
      StreamTooFar(blocks, [], after);
    }
  }

  // Any data

  function Literals(data: seq<Byte>): (tokens: seq<Token>)
    ensures |tokens| == |data| && forall i :: 0 <= i < |data| ==> tokens[i] == Literal(data[i])
  {
    if data == [] then [] else [Literal(data[0])] + Literals(data[1..])
  }

  lemma {:induction false} LiteralsExpand(data: seq<Byte>, history: seq<Byte>)
    ensures AllExpanded(Literals(data), history) == data && AllInReach(Literals(data), history)
    decreases |data|
  {
    if data != [] {
      assert Literals(data)[1..] == Literals(data[1..]);
      LiteralsExpand(data[1..], history + [data[0]]);
    }
  }

  /** Every sequence of bytes can be written with the fixed codes and comes back. */
  lemma AnyDataComesBack(rules: Rules, data: seq<Byte>, after: seq<Bit>)
    ensures var blocks := [FixedBlock(Literals(data))];
            AllLegalBlocks(blocks) && Inflate(rules, StreamBits(blocks, after)) == Meaning(data, Finished(Align(after)))
  {
    hide FixedLengths, FixedDistances, BodyBits, Align, Inflate, AllExpanded, AllInReach, NotOversubscribed;
    FixedLiteralsFit();
    LiteralsExpand(data, []);
    var blocks := [FixedBlock(Literals(data))];
    assert AllLegal(Literals(data), FixedLengths(0), FixedDistances());
    RoundTrip(rules, blocks, after);
    assert StreamBytes(blocks, []) == data + [];
  }

  /**
   * Reading what a compressor wrote, in reads of any lengths, over a stream that delivers it in any
   * pieces: never an error, never anything but the data in order, and at the end of the stream all of
   * it, with the underlying stream left at the first byte that was not part of it.
   */
  method ReadCompressed(stream: OFStream, lengths: seq<nat>, ghost blocks: seq<Block>, ghost after: seq<Bit>)
    returns (output: seq<Byte>, atEnd: bool)
    requires blocks != [] && AllLegalBlocks(blocks) && Padded(blocks, after)
    requires BytesBits(Pending(stream.Value())) == StreamBits(blocks, after)
    modifies stream
    ensures output <= StreamBytes(blocks, [])
    ensures atEnd ==> output == StreamBytes(blocks, []) && BytesBits(Pending(stream.Value())) == Align(after)
  {
    hide AllLegalBlocks, Padded, StreamBits, StreamBytes, Inflate, Align, BytesBits, Pending;
    hide OFInflateStream.Now, OFInflateStream.Valid, SlidingWindow.Valid, OFBitReader.Valid, OFBitReader.Ahead,
      OFBitReader.Unread;
    RoundTrip(Lenient, blocks, after);
    var inflate := new OFInflateStream(stream);
    ghost var all := inflate.Now();
    output, atEnd := [], false;
    for i := 0 to |lengths|
      invariant inflate.Valid() && inflate.reader.stream == stream && fresh(inflate) && fresh(inflate.reader)
      invariant fresh(inflate.window) && fresh(inflate.window.slots)
      invariant !inflate.atEndOfStream && !atEnd && all == Emit(output, inflate.Now())
    {
      ghost var before := inflate.Now();
      var r, bytes := inflate.LowlevelRead(lengths[i]);
      EmitMore(output, bytes, all, before, inflate.Now());
      output := output + bytes;
      if inflate.atEndOfStream { return output, true; }
    }
  }

  /**
   * Reading what a compressor wrote until its end, in reads of any length, over a stream that delivers it in any
   * pieces, empty ones included: it ends, and gives back the data, with the underlying stream left at the first
   * byte that was not part of it.
   */
  method ReadToEnd(stream: OFStream, length: nat, ghost blocks: seq<Block>, ghost after: seq<Bit>)
    returns (output: seq<Byte>)
    requires length > 0
    requires blocks != [] && AllLegalBlocks(blocks) && Padded(blocks, after)
    requires BytesBits(Pending(stream.Value())) == StreamBits(blocks, after)
    modifies stream
    ensures output == StreamBytes(blocks, []) && BytesBits(Pending(stream.Value())) == Align(after)
  {
    hide AllLegalBlocks, Padded, StreamBits, StreamBytes, Blocks, Align, BytesBits, Pending, NeedsInput;
    hide OFInflateStream.Now, OFInflateStream.Valid, OFInflateStream.Repeats, OFBitReader.Valid, OFBitReader.Unread;
    RoundTrip(Lenient, blocks, after);
    var inflate := new OFInflateStream(stream);
    var ending;
    ending, output := inflate.ReadUntilEnd(length);
  }

  // Input that ends too early

  lemma HeaderOfStored(rules: Rules, last: bool, history: seq<Byte>, rest: seq<Bit>)
    ensures Blocks(rules, false, history, Lsb(if last then 1 else 0, 3) + rest) ==
            StoredHeader(rules, last, history, Align(rest))
  {
    hide StoredHeader, Lsb, FromLsb, Align;
    assert Pow2(3) == 8;
    ExtraReads(if last then 1 else 0, 3, rest);
  }

  /** The end of the input within the data of a stored block */
  lemma CutInData(rules: Rules, padding: seq<Bit>, data: seq<Byte>, missing: nat, last: bool, history: seq<Byte>)
    requires |padding| < 8 && 0 < missing && |data| + missing <= 0xFFFF
    ensures var n := |data| + missing;
            Blocks(rules, false, history, Lsb(if last then 1 else 0, 3) +
              (padding + (Lsb(n, 16) + (Lsb(0xFFFF - n, 16) + BytesBits(data))))) ==
            Meaning(data, CutOffInData)
  {
    hide Lsb, BytesBits, FromLsb, Stored, Blocks, Align;
    var n := |data| + missing;
    var bits := Lsb(n, 16) + (Lsb(0xFFFF - n, 16) + BytesBits(data));
    HeaderOfStored(rules, last, history, padding + bits);
    BytesBitsSize(data);
    AlignPartial(padding, bits);
    SixteenBits();
    ExtraReads(n, 16, Lsb(0xFFFF - n, 16) + BytesBits(data));
    ExtraReads(0xFFFF - n, 16, BytesBits(data));
    TwoNumbers(bits);
    StoredTakes(rules, n, data, last, history, []);
    assert BytesBits(data) + [] == BytesBits(data);
    NothingStored(rules, missing, last, history + data);
    assert data + [] == data;
  }

  lemma NothingStored(rules: Rules, left: nat, last: bool, history: seq<Byte>)
    requires left > 0
    ensures Stored(rules, left, last, history, []) == CUT_OFF_IN_DATA
  {
  }

  lemma LsbOfByte(b: Byte)
    ensures BytesBits([b]) == Lsb(b, 8)
  {
    hide Lsb, ByteBits, FromLsb;
    ByteFromBits(b);
    LsbOfFromLsb(ByteBits(b));
    assert BytesBits([b]) == ByteBits(b) + [];
  }

  lemma LsbOfBytes(a: Byte, b: Byte)
    ensures BytesBits([a, b]) == Lsb(a + 0x100 * b, 16)
  {
    hide Lsb, BytesBits;
    BytesBitsSplit([a], [b]);
    LsbOfByte(a);
    LsbOfByte(b);
    assert Pow2(8) == 0x100;
    LsbSplit(a, b, 8, 8);
    assert [a] + [b] == [a, b];
  }

  /** The last block, stored, of one byte that is missing */
  const HANGING: seq<Byte> := [1] + ([1, 0] + [0xFE, 0xFF])

  lemma HangingBits()
    ensures BytesBits(HANGING) == Lsb(1, 3) + (Lsb(0, 5) + (Lsb(1, 16) + (Lsb(0xFFFE, 16) + [])))
  {
    hide Lsb, BytesBits, FromLsb;
    assert Pow2(3) == 8;
    LsbSplit(1, 0, 3, 5);
    LsbOfByte(1);
    LsbOfBytes(1, 0);
    LsbOfBytes(0xFE, 0xFF);
    BytesBitsSplit([1], [1, 0] + [0xFE, 0xFF]);
    BytesBitsSplit([1, 0], [0xFE, 0xFF]);
  }

  lemma HangingIsCut()
    ensures Inflate(Lenient, BytesBits(HANGING)) == Meaning([], CutOffInData)
  {
    hide Blocks, Lsb;
    HangingBits();
    CutInData(Lenient, Lsb(0, 5), [], 1, true, []);
    assert BytesBits([]) == [];
  }

  /** A read that never returns */
  method HangingRead() returns (ending: Ending, output: seq<Byte>)
    ensures ending == Hangs && output == []
  {
    hide BytesBits, Inflate, Blocks, OFInflateStream.Now, OFInflateStream.Valid, OFInflateStream.Repeats,
      OFBitReader.Valid, OFBitReader.Unread, OFBitReader.Ahead, NeedsInput, Low.Fuel;
    HangingIsCut();
    var low := Low(HANGING, 0, []);
    assert low.Rest() == HANGING && [] + HANGING == HANGING;
    var stream := new OFStream(low, 4096, _ => true);
    assert Pending(stream.Value()) == HANGING;
    var inflate := new OFInflateStream(stream);
    ending, output := inflate.ReadUntilEnd(1);
  }
}
