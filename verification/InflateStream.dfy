// OFInflateStream of src/OFInflateStream.m: decompression that can be interrupted by missing input
// between any two bits and by a full output buffer between any two bytes.
//
// Every step keeps what the stream means: the output delivered so far, followed by what the saved
// state and the bits to come mean, is what the whole input means by the lenient rules of module Deflate.
// Module DeflateRules tells how far these are from RFC 1951.

module InflateStream {
  import opened BitReader
  import opened Bits
  import opened CachedStream
  import opened Deflate
  import opened Bytes
  import opened Huffman
  import opened SlidingWindows
  import opened Options
  import opened Streams
  import StreamLaws

  const WINDOW_SIZE: nat := 0x8000

  datatype HuffmanState =
    WriteValue | AwaitCode | AwaitLengthExtraBits | AwaitDistance | AwaitDistanceExtraBits | ProcessPair

  /** `_state` together with the part of `_context` that belongs to it. */
  datatype Context =
    | BlockHeader
    | UncompressedHeader(header: seq<Byte>)
    | Uncompressed(position: nat, length: nat)
    | TreeContext(
        value: nat, litLenCodesCount: nat, distCodesCount: nat, codeLenCodesCount: nat,
        lengths: seq<nat>, receivedCount: nat, codeLenTree: Root, codeLenIter: Root)
    | HuffmanBlock(
        litLenTree: Root, distTree: Root, treeIter: Root, state: HuffmanState,
        byteValue: nat, pairLength: nat, distance: nat, extraBits: nat)

  /** The value of a tree context before and while the code lengths are read. */
  const NO_CODE_LENGTHS: nat := 0xFE
  const CODE_LENGTHS: nat := 0xFF
  const NOT_READ: nat := 0xFF

  ghost predicate ValidContext(c: Context)
  {
    match c
    case BlockHeader => true
    case UncompressedHeader(header) => |header| < 4
    case Uncompressed(position, length) => position <= length
    case TreeContext(value, lit, dist, codes, lengths, received, _, _) =>
      if value == NO_CODE_LENGTHS then
        && (lit == NOT_READ ==> dist == NOT_READ) && (dist == NOT_READ ==> codes == NOT_READ)
        && (codes == NOT_READ ==> lengths == [] && received == 0)
        && (codes != NOT_READ ==> codes <= 15 && |lengths| == 19 && received <= codes + 4)
      else
        && (value == CODE_LENGTHS || 16 <= value <= 18) && received == |lengths| <= lit + dist + 258
        && (value == 16 ==> lengths != [])
    case HuffmanBlock(_, _, _, state, v, length, distance, extra) =>
      && (state.WriteValue? ==> v < 256)
      && (state.AwaitLengthExtraBits? || state.AwaitDistanceExtraBits? ==> extra > 0)
      && (state.AwaitDistanceExtraBits? ==> 0 < distance && distance + Pow2(extra) <= WINDOW_SIZE + 1)
      && (state.ProcessPair? ==> 0 < distance <= WINDOW_SIZE)
  }

  /** More bits than are ever saved in this context. */
  function BitsWanted(c: Context, last: bool): nat
  {
    match c
    case BlockHeader => if last then 1 else 3
    case UncompressedHeader(_) => 1
    case Uncompressed(_, _) => 1
    case TreeContext(value, lit, dist, codes, _, received, _, _) =>
      if value == NO_CODE_LENGTHS then
        if lit == NOT_READ || dist == NOT_READ then 5
        else if codes == NOT_READ then 4
        else if received < codes + 4 then 3 else 1
      else if value == CODE_LENGTHS then 1 else RepeatBits(value)
    case HuffmanBlock(_, _, _, state, _, _, _, extra) =>
      if state.AwaitLengthExtraBits? || state.AwaitDistanceExtraBits? then extra else 1
  }

  /** Nothing more can be delivered in this context without more input. */
  predicate NeedsInput(c: Context, last: bool)
  {
    match c
    case BlockHeader => !last
    case UncompressedHeader(_) => true
    case Uncompressed(_, _) => false
    case TreeContext(value, lit, dist, codes, lengths, received, _, _) =>
      if value == NO_CODE_LENGTHS then lit == NOT_READ || dist == NOT_READ || codes == NOT_READ || received < codes + 4
      else value == CODE_LENGTHS ==> |lengths| < lit + dist + 258
    case HuffmanBlock(_, _, _, state, _, _, _, _) => !state.WriteValue? && !state.ProcessPair?
  }

  /** What the bits to come mean in this context. */
  function MeaningOf(c: Context, last: bool, history: seq<Byte>, bits: seq<Bit>): Meaning
    requires ValidContext(c)
  {
    match c
    case BlockHeader => Blocks(Lenient, last, history, bits)
    case UncompressedHeader(header) => StoredHeader(Lenient, last, history, BytesBits(header) + bits)
    case Uncompressed(position, length) => Stored(Lenient, length - position, last, history, bits)
    case TreeContext(value, lit, dist, codes, lengths, received, tree, iter) =>
      if value == NO_CODE_LENGTHS then
        if lit == NOT_READ then LitLenCount(Lenient, last, history, bits)
        else if dist == NOT_READ then DistCount(Lenient, lit, last, history, bits)
        else if codes == NOT_READ then CodeLenCount(Lenient, lit, dist, last, history, bits)
        else CodeLengths(Lenient, lit, dist, codes + 4, lengths, received, last, history, bits)
      else if value == CODE_LENGTHS then LengthsAt(Lenient, iter, tree, lit, dist, lengths, last, history, bits)
      else Repeat(Lenient, value, tree, lit, dist, lengths, last, history, bits)
    case HuffmanBlock(litLen, dist, iter, state, v, length, distance, extra) =>
      match state
      case WriteValue => Emit([v], SymbolsAt(Lenient, litLen, litLen, dist, last, history + [v], bits))
      case AwaitCode => SymbolsAt(Lenient, iter, litLen, dist, last, history, bits)
      case AwaitLengthExtraBits => LengthExtra(Lenient, length, extra, litLen, dist, last, history, bits)
      case AwaitDistance => DistanceAt(Lenient, iter, length, litLen, dist, last, history, bits)
      case AwaitDistanceExtraBits => DistanceExtra(Lenient, distance, extra, length, litLen, dist, last, history, bits)
      case ProcessPair => Pair(Lenient, length, distance, litLen, dist, last, history, bits)
  }

  lemma NoBytes()
    ensures BytesBits([]) == []
  {
  }

  /** How a step ends: go on, return to the caller, an invalid format, or never. */
  datatype Verdict = Continue | Return | InvalidFormat | Spin

  /**
   * What becomes of reading a stream until its end: it comes, there is an exception, a read never returns, or reads
   * without end give nothing.
   */
  datatype Ending = Complete | Refused | Hangs | Loops

  function EndingOf(end: End): Ending
  {
    match end
    case Finished(_) => Complete
    case Corrupt => Refused
    case TooFar => Refused
    case CutOff => Loops
    case CutOffInData => Hangs
  }

  class OFInflateStream {
    const reader: OFBitReader
    const window: SlidingWindow
    var context: Context
    var inLastBlock: bool
    var atEndOfStream: bool

    ghost predicate Valid()
      reads this, reader, window, window.slots
    {
      && reader.Valid() && reader.bitIndex > 0
      && window.Valid() && window.slots.Length == WINDOW_SIZE && window.fill == 0
      && ValidContext(context) && reader.savedBitsLength < BitsWanted(context, inLastBlock)
      && (context.UncompressedHeader? || context.Uncompressed? ==> reader.bitIndex == 8)
      && (context.Uncompressed? ==> reader.buffer == [])
    }

    /** What is still to be delivered. */
    ghost function Now(): Meaning
      requires Valid()
      reads this, reader, reader.stream, window, window.slots
    {
      MeaningOf(context, inLastBlock, window.history, reader.Ahead())
    }

    constructor (stream: OFStream)
      ensures Valid() && reader.Valid() && fresh(reader) && fresh(window) && fresh(window.slots)
        && reader.stream == stream
      ensures window.history == [] && !atEndOfStream
      ensures Now() == Inflate(Lenient, BytesBits(Pending(stream.Value())))
    {
      reader := new OFBitReader(stream);
      window := new SlidingWindow(WINDOW_SIZE, 0);
      context, inLastBlock, atEndOfStream := BlockHeader, false, false;
      new;
      assert reader.Ahead() == BytesBits(Pending(stream.Value()));
    }

    /** Where the input stands: what there is only ever shrinks. */
    twostate predicate Reads()
      requires old(Valid()) && Valid()
      reads this, reader, reader.stream, window, window.slots
    {
      && |reader.Ahead()| <= old(|reader.Ahead()|)
      && reader.stream.low.Fuel() <= old(reader.stream.low.Fuel())
    }

    /** Why a step returned: a read was limited, more input is needed than there is, or a header came in part. */
    twostate predicate Starved()
      requires old(Valid()) && Valid()
      reads this, reader, reader.stream, window, window.slots
    {
      || reader.stream.low.Fuel() < old(reader.stream.low.Fuel())
      || (reader.Unread() == [] && NeedsInput(context, inLastBlock))
      || (0 < reader.stream.low.Fuel() && |reader.Ahead()| < old(|reader.Ahead()|))
    }

    /** A step that only reads input. */
    twostate predicate Steps(r: Verdict)
      requires old(Valid()) && Valid()
      reads this, reader, reader.stream, window, window.slots
    {
      && Reads()
      && (r == InvalidFormat ==> old(Now()).end == Corrupt)
      && (r == Continue || r == Return ==> Now() == old(Now()))
      && (r == Continue ==> |reader.Ahead()| < old(|reader.Ahead()|))
      && (r == Return ==> Starved())
      && r != Spin
    }

    /** What the bits of a block header lead to. */
    method StartBlock(bits: nat) returns (r: Verdict)
      requires Valid() && context.BlockHeader? && reader.savedBitsLength == 0
      modifies this`context, this`inLastBlock, reader`bitIndex
      ensures Valid() && reader.Valid() && |reader.Ahead()| <= old(|reader.Ahead()|)
      ensures var m := BlockBody(Lenient, bits, window.history, old(reader.Ahead()));
              if r == InvalidFormat then m.end == Corrupt else r == Continue && m == Now()
    {
      hide FromLsb, Pow2, Holds, StoredHeader, SymbolsAt, LitLenCount, BytesBits, ByteBits, Pending, TreeOf,
        FixedLengths, FixedLitLenTree, FixedDistTree, SlidingWindow.Valid;
      NoBytes();
      assert reader.Ahead() == reader.Unread();
      inLastBlock := bits % 2 == 1;
      match bits / 2 {
        case 0 =>
          reader.SkipToByte();
          context := UncompressedHeader([]);
          assert BytesBits(context.header) + reader.Ahead() == reader.Ahead() == reader.Unread();
        case 1 =>
          var litLen, dist := FixedLitLenTree(), FixedDistTree();
          context := HuffmanBlock(litLen, dist, litLen, AwaitCode, 0, 0, 0, 0);
        case 2 =>
          context := TreeContext(NO_CODE_LENGTHS, NOT_READ, NOT_READ, NOT_READ, [], 0, NEW_TREE, NEW_TREE);
        case _ =>
          return InvalidFormat;
      }
      return Continue;
    }

    /** `case BLOCK_HEADER`, unless the last block is over */
    method DoBlockHeader() returns (r: Verdict)
      requires Valid() && context.BlockHeader? && !inLastBlock
      modifies this`context, this`inLastBlock, reader, reader.stream
      ensures Valid() && Steps(r)
    {
      hide OFBitReader.Unread, Low.Fuel, FromLsb, Pow2, Blocks, BlockBody, Holds, SlidingWindow.Valid, Pending;
      HeaderTakes(window.history, reader.Ahead());
      var ok, bits := reader.TryReadBits(3);
      if !ok { return Return; }
      r := StartBlock(bits);
    }

    /** `case UNCOMPRESSED_BLOCK_HEADER` */
    method DoUncompressedHeader() returns (r: Verdict)
      requires Valid() && context.UncompressedHeader?
      modifies this`context, reader, reader.stream
      ensures Valid() && Steps(r)
    {
      hide OFBitReader.Unread, Low.Fuel, Pow2, SlidingWindow.Valid, FromLsb, Holds, Blocks, Stored, StoredHeader,
        ByteBits, BytesBits, Pending, Low.Rest;
      reader.GiveBack();
      var bytes := reader.TakeBytes(4 - |context.header|);
      var header := context.header + bytes;
      HeaderGrows(context.header, bytes, reader.Ahead());
      if |header| < 4 {
        context := UncompressedHeader(header);
        return Return;
      }
      var length, complement := Word(header[0], header[1]), Word(header[2], header[3]);
      StoredHeaderMeans(inLastBlock, window.history, header, reader.Ahead());
      if length != 0xFFFF - complement {
        context := BlockHeader;
        return InvalidFormat;
      }
      context := Uncompressed(0, length);
      return Continue;
    }

    // The tree of a dynamic block

    method ReadLitLenCount() returns (r: Verdict)
      requires Valid() && context.TreeContext? && context.value == NO_CODE_LENGTHS
      requires context.litLenCodesCount == NOT_READ
      modifies this`context, reader, reader.stream
      ensures Valid() && Steps(r)
    {
      hide OFBitReader.Unread, Low.Fuel, Pow2, SlidingWindow.Valid, FromLsb, Holds, DistCount, BytesBits, ByteBits,
        Pending, LengthExtra, DistanceAt, DistanceExtra, Pair, Repeat, LengthsAt, Stored, StoredHeader, Blocks,
        SymbolsAt, Walk, TreeOf, CodeLengths, CodeLenCount;
      var ok, bits := reader.TryReadBits(5);
      if !ok { return Return; }
      if bits > 29 {
        context := BlockHeader;
        return InvalidFormat;
      }
      context := context.(litLenCodesCount := bits);
      return Continue;
    }

    method ReadDistCount() returns (r: Verdict)
      requires Valid() && context.TreeContext? && context.value == NO_CODE_LENGTHS
      requires context.litLenCodesCount != NOT_READ && context.distCodesCount == NOT_READ
      modifies this`context, reader, reader.stream
      ensures Valid() && Steps(r)
    {
      hide OFBitReader.Unread, Low.Fuel, FromLsb, Holds, CodeLenCount, BytesBits, ByteBits, Pending, LengthExtra,
        DistanceAt, DistanceExtra, Pair, Repeat, LengthsAt, Stored, StoredHeader, Blocks, SymbolsAt, Walk, TreeOf,
        SlidingWindow.Valid, CodeLengths, LitLenCount;
      var ok, bits := reader.TryReadBits(5);
      if !ok { return Return; }
      assert bits < Pow2(5) == 32;
      context := context.(distCodesCount := bits);
      return Continue;
    }

    method ReadCodeLenCount() returns (r: Verdict)
      requires Valid() && context.TreeContext? && context.value == NO_CODE_LENGTHS
      requires context.distCodesCount != NOT_READ && context.codeLenCodesCount == NOT_READ
      modifies this`context, reader, reader.stream
      ensures Valid() && Steps(r)
    {
      hide OFBitReader.Unread, Low.Fuel, FromLsb, Holds, CodeLengths, BytesBits, ByteBits, Pending, Copies,
        LengthExtra, DistanceAt, DistanceExtra, Pair, Repeat, LengthsAt, Stored, StoredHeader, Blocks, SymbolsAt,
        Walk, TreeOf, SlidingWindow.Valid, LitLenCount, DistCount;
      var ok, bits := reader.TryReadBits(4);
      if !ok { return Return; }
      assert bits < Pow2(4) == 16;
      context := context.(codeLenCodesCount := bits, lengths := Copies(0, 19), receivedCount := 0);
      return Continue;
    }

    method ReadCodeLength() returns (r: Verdict)
      requires Valid() && context.TreeContext? && context.value == NO_CODE_LENGTHS
      requires context.codeLenCodesCount != NOT_READ && context.receivedCount < context.codeLenCodesCount + 4
      modifies this`context, reader, reader.stream
      ensures Valid() && Steps(r)
    {
      hide OFBitReader.Unread, Low.Fuel, Pow2, SlidingWindow.Valid, FromLsb, Holds, BytesBits, ByteBits, Pending,
        LengthsAt, TreeOf, LengthExtra, DistanceAt, DistanceExtra, Pair, Repeat, Stored, StoredHeader, Blocks,
        SymbolsAt, Walk, LitLenCount, DistCount, CodeLenCount;
      var ok, bits := reader.TryReadBits(3);
      if !ok { return Return; }
      var i := context.receivedCount;
      context := context.(lengths := context.lengths[CODE_LENGTHS_ORDER[i] := bits], receivedCount := i + 1);
      return Continue;
    }

    /** A step that turns to what follows without reading. */
    twostate predicate TurnsTo(r: Verdict)
      requires old(Valid()) && Valid()
      reads this, reader, reader.stream, window, window.slots
    {
      r == Continue && Now() == old(Now())
    }

    method EndCodeLengths() returns (r: Verdict)
      requires Valid() && context.TreeContext? && context.value == NO_CODE_LENGTHS
      requires context.codeLenCodesCount != NOT_READ && context.receivedCount == context.codeLenCodesCount + 4
      modifies this`context
      ensures Valid() && TurnsTo(r)
      ensures context.TreeContext? && context.value == CODE_LENGTHS
    {
      hide OFBitReader.Unread, Low.Fuel, Pow2, SlidingWindow.Valid, FromLsb, Holds, BytesBits, ByteBits, Pending,
        LengthsAt, TreeOf;
      var tree := TreeOf(context.lengths, 19);
      context := context.(value := CODE_LENGTHS, codeLenTree := tree, codeLenIter := tree, lengths := [],
        receivedCount := 0);
      return Continue;
    }

    method ReadLength() returns (r: Verdict)
      requires Valid() && context.TreeContext? && context.value == CODE_LENGTHS
      requires context.receivedCount < context.litLenCodesCount + context.distCodesCount + 258
      modifies this`context, reader, reader.stream
      ensures Valid() && Steps(r)
    {
      hide OFBitReader.Unread, Low.Fuel, Pow2, SlidingWindow.Valid, FromLsb, Holds, BytesBits, ByteBits, Pending,
        TreeOf, Walk, Repeat, LengthsAt, LengthExtra, DistanceAt, DistanceExtra, Pair, CodeLengths, Stored,
        StoredHeader, Blocks, SymbolsAt, DistCount, CodeLenCount, LitLenCount;
      ghost var lit, dist, lengths := context.litLenCodesCount, context.distCodesCount, context.lengths;
      assert reader.saved == [] && reader.Ahead() == reader.Unread();
      ghost var before := reader.Unread();
      NextLength(context.codeLenIter, context.codeLenTree, lit, dist, lengths, inLastBlock, window.history, before);
      var stop := reader.TreeWalk(context.codeLenIter);
      NextLength(if stop.AtNode? then stop.iter else context.codeLenIter, context.codeLenTree, lit, dist, lengths,
        inLastBlock,
        window.history, reader.Ahead());
      match stop {
        case AtNode(iter) =>
          context := context.(codeLenIter := iter);
          return Return;
        case NoCode =>
          context := BlockHeader;
          return InvalidFormat;
        case AtValue(v) =>
          WalkConsumes(context.codeLenIter, before);
          if v < 16 {
            context := context.(codeLenIter := context.codeLenTree, lengths := context.lengths + [v],
              receivedCount := context.receivedCount + 1);
          } else if v > 18 || (v == 16 && |context.lengths| < 1) {
            RepeatInvalid(v, context.codeLenTree, lit, dist, lengths, inLastBlock, window.history, reader.Ahead());
            context := BlockHeader;
            return InvalidFormat;
          } else {
            context := context.(codeLenIter := context.codeLenTree, value := v);
          }
      }
      return Continue;
    }

    method ReadRepeat() returns (r: Verdict)
      requires Valid() && context.TreeContext? && 16 <= context.value <= 18
      modifies this`context, reader, reader.stream
      ensures Valid() && Steps(r)
    {
      hide OFBitReader.Unread, Low.Fuel, Pow2, FromLsb, Holds, BytesBits, ByteBits, Pending, TreeOf, LengthsAt,
        Copies, SlidingWindow.Valid, LengthExtra, DistanceAt, DistanceExtra, Pair, CodeLengths, Stored, StoredHeader,
        Blocks, SymbolsAt, DistCount, CodeLenCount, LitLenCount;
      var v, lengths := context.value, context.lengths;
      var ok, bits := reader.TryReadBits(RepeatBits(v));
      if !ok { return Return; }
      var count := bits + if v == 18 then 11 else 3;
      if |lengths| + count > context.litLenCodesCount + context.distCodesCount + 258 {
        context := BlockHeader;
        return InvalidFormat;
      }
      var value := if v == 16 then lengths[|lengths| - 1] else 0;
      context := context.(lengths := lengths + Copies(value, count), receivedCount := |lengths| + count,
        value := CODE_LENGTHS,
        codeLenIter := context.codeLenTree);
      return Continue;
    }

    method EndLengths() returns (r: Verdict)
      requires Valid() && context.TreeContext? && context.value == CODE_LENGTHS
      requires context.receivedCount == context.litLenCodesCount + context.distCodesCount + 258
      modifies this`context
      ensures Valid() && TurnsTo(r)
      ensures context.HuffmanBlock? && context.state == AwaitCode
    {
      hide OFBitReader.Unread, Low.Fuel, Pow2, SlidingWindow.Valid, FromLsb, Holds, BytesBits, ByteBits, Pending,
        TreeOf, Walk, SymbolsAt;
      var lit, dist := context.litLenCodesCount, context.distCodesCount;
      var litLenTree := TreeOf(context.lengths[..lit + 257], lit + 257);
      var distTree := TreeOf(context.lengths[lit + 257..], dist + 1);
      context := HuffmanBlock(litLenTree, distTree, litLenTree, AwaitCode, 0, 0, 0, 0);
      return Continue;
    }

    // The symbols of a compressed block

    method ReadLengthExtra() returns (r: Verdict)
      requires Valid() && context.HuffmanBlock? && context.state == AwaitLengthExtraBits
      modifies this`context, reader, reader.stream
      ensures Valid() && Steps(r)
    {
      hide OFBitReader.Unread, Low.Fuel, Pow2, SlidingWindow.Valid, FromLsb, Holds, BytesBits, ByteBits, Pending,
        Walk, DistanceAt, LengthExtra, DistanceExtra, Pair, Repeat, LengthsAt, CodeLengths, Stored, StoredHeader,
        Blocks, SymbolsAt, DistCount, CodeLenCount, LitLenCount;
      LengthTakes(context.pairLength, context.extraBits, context.litLenTree, context.distTree, inLastBlock,
        window.history, reader.Ahead());
      var ok, bits := reader.TryReadBits(context.extraBits);
      if !ok { return Return; }
      context := context.(pairLength := context.pairLength + bits, state := AwaitDistance,
        treeIter := context.distTree);
      return Continue;
    }

    method ReadDistance() returns (r: Verdict)
      requires Valid() && context.HuffmanBlock? && context.state == AwaitDistance
      modifies this`context, reader, reader.stream
      ensures Valid() && Steps(r)
    {
      hide OFBitReader.Unread, Low.Fuel, Pow2, SlidingWindow.Valid, FromLsb, Holds, BytesBits, ByteBits, Pending,
        Walk, DistanceExtra, Pair, DistanceCode, DistanceExtraBits, LengthExtra, Repeat, LengthsAt, CodeLengths,
        Stored, StoredHeader, Blocks, SymbolsAt, DistCount, CodeLenCount, LitLenCount;
      assert reader.saved == [] && reader.Ahead() == reader.Unread();
      ghost var before := reader.Unread();
      var stop := reader.TreeWalk(context.treeIter);
      match stop {
        case AtNode(iter) =>
          context := context.(treeIter := iter);
          return Return;
        case NoCode =>
          context := BlockHeader;
          return InvalidFormat;
        case AtValue(v) =>
          WalkConsumes(context.treeIter, before);
          if v >= 30 {
            context := BlockHeader;
            return InvalidFormat;
          }
          DistanceFits(v);
          var extra := DistanceExtraBits(v);
          NoExtra(DistanceCode(v), context.pairLength, context.litLenTree, context.distTree, inLastBlock,
            window.history, reader.Ahead());
          context := context.(distance := DistanceCode(v), extraBits := extra,
            state := if extra > 0 then AwaitDistanceExtraBits else ProcessPair);
      }
      return Continue;
    }

    method ReadDistanceExtra() returns (r: Verdict)
      requires Valid() && context.HuffmanBlock? && context.state == AwaitDistanceExtraBits
      modifies this`context, reader, reader.stream
      ensures Valid() && Steps(r)
    {
      hide OFBitReader.Unread, Low.Fuel, Pow2, SlidingWindow.Valid, FromLsb, Holds, BytesBits, ByteBits, Pending,
        Walk, Pair, DistanceExtra, LengthExtra, DistanceAt, SymbolsAt, Repeat, LengthsAt, CodeLengths, Stored,
        StoredHeader, Blocks;
      DistanceTakes(context.distance, context.extraBits, context.pairLength, context.litLenTree, context.distTree,
        inLastBlock,
        window.history, reader.Ahead());
      var ok, bits := reader.TryReadBits(context.extraBits);
      if !ok { return Return; }
      context := context.(distance := context.distance + bits, state := ProcessPair);
      return Continue;
    }

    // Output

    /** A step that may deliver bytes. */
    twostate predicate Emits(r: Verdict, bytes: seq<Byte>, limit: nat)
      requires old(Valid()) && Valid()
      reads this, reader, reader.stream, window, window.slots
    {
      && Reads()
      && |bytes| <= limit && window.history == old(window.history) + bytes
      && (r == Continue || r == Return ==> old(Now()) == Emit(bytes, Now()))
      && (r == InvalidFormat ==> bytes == [] && old(Now()).end == Corrupt)
      && r != Spin
      && (r == Return ==> |bytes| == limit || Starved())
      && (r == Continue ==>
            || old(Repeats(limit))
            || |reader.Ahead()| < old(|reader.Ahead()|)
            || reader.stream.low.Fuel() < old(reader.stream.low.Fuel())
            || (reader.stream.low.Fuel() == old(reader.stream.low.Fuel()) && Rank(context) < old(Rank(context))))
    }

    /** The data of a stored block is asked for, and the input has ended. */
    predicate Repeats(limit: nat)
      reads this, reader, reader.stream
    {
      0 < limit && context.Uncompressed? && context.position < context.length && AtEndOfStream(reader.stream.Value())
    }

    /** Nothing that a turn can change has changed. */
    twostate predicate Stays()
      reads this, reader, reader.stream, window, window.slots
    {
      && context == old(context) && inLastBlock == old(inLastBlock) && atEndOfStream == old(atEndOfStream)
      && reader.buffer == old(reader.buffer) && reader.bufferIndex == old(reader.bufferIndex)
      && reader.byte == old(reader.byte) && reader.bitIndex == old(reader.bitIndex)
      && reader.savedBits == old(reader.savedBits) && reader.savedBitsLength == old(reader.savedBitsLength)
      && reader.stream.Value() == old(reader.stream.Value())
      && window.index == old(window.index) && window.slots[..] == old(window.slots[..])
    }

    lemma StoredEnds(limit: nat)
      requires Valid() && Repeats(limit)
      ensures Now() == CUT_OFF_IN_DATA
    {
      reader.Whole();
      assert Pending(reader.stream.Value()) == [];
    }

    /** `case UNCOMPRESSED_BLOCK` */
    method DoUncompressed(limit: nat) returns (r: Verdict, bytes: seq<Byte>)
      requires Valid() && context.Uncompressed?
      modifies this`context, reader.stream, window, window.slots
      ensures Valid() && Emits(r, bytes, limit)
      ensures old(Repeats(limit)) ==> r == Continue && bytes == [] && Stays()
    {
      hide OFBitReader.Unread, Low.Fuel, FromLsb, Holds, BytesBits, ByteBits, Pending, Stored, Blocks, AtEndOfStream;
      bytes := [];
      if limit == 0 {
        EmitNothing(Now());
        return Return, [];
      }
      var left := context.length - context.position;
      bytes := reader.TakeBytes(if limit < left then limit else left);
      StoredTakes(Lenient, left, bytes, inLastBlock, window.history, reader.Ahead());
      StoredNone(Lenient, inLastBlock, window.history + bytes, reader.Ahead());
      window.PutAll(bytes);
      var position := context.position + |bytes|;
      context := if position == context.length then BlockHeader else context.(position := position);
      r := Continue;
    }

    /** `case HUFFMAN_BLOCK`, `WRITE_VALUE` */
    method WriteByte(limit: nat) returns (r: Verdict, bytes: seq<Byte>)
      requires Valid() && context.HuffmanBlock? && context.state == WriteValue
      modifies this`context, window, window.slots
      ensures Valid() && Emits(r, bytes, limit)
    {
      hide OFBitReader.Valid, OFBitReader.Ahead;
      hide OFBitReader.Unread, Low.Fuel, FromLsb, Holds, BytesBits, ByteBits, Pending, SymbolsAt, Walk;
      if limit == 0 {
        EmitNothing(Now());
        return Return, [];
      }
      var b: Byte := context.byteValue;
      bytes := [b];
      window.Put(b);
      context := context.(state := AwaitCode, treeIter := context.litLenTree);
      return Continue, bytes;
    }

    /** What a symbol that was read leads to. */
    method TakeSymbol(v: nat, limit: nat) returns (r: Verdict, bytes: seq<Byte>)
      requires Valid() && context.HuffmanBlock? && context.state == AwaitCode
      modifies this`context, window, window.slots
      ensures Valid() && |bytes| <= limit && window.history == old(window.history) + bytes
      ensures var m := Symbol(Lenient, v, old(context).litLenTree, old(context).distTree, inLastBlock,
        old(window.history), reader.Ahead());
              if r == InvalidFormat then bytes == [] && m.end == Corrupt
              else m == Emit(bytes, Now()) && (r == Continue || (r == Return && limit == 0))
    {
      hide OFBitReader.Unread, Low.Fuel, FromLsb, Holds, BytesBits, ByteBits, Pending, Walk, Blocks, DistanceAt,
        LengthExtra, Symbol, SymbolsAt;
      hide LengthCode, LengthExtraBits;
      SymbolMeans(v, context.litLenTree, context.distTree, inLastBlock, window.history, reader.Ahead());
      bytes := [];
      EmitNothing(Symbol(Lenient, v, context.litLenTree, context.distTree, inLastBlock, window.history,
        reader.Ahead()));
      if v == 256 {
        context := BlockHeader;
      } else if v < 256 {
        if limit == 0 {
          context := context.(state := WriteValue, byteValue := v);
          return Return, [];
        }
        var b: Byte := v;
        window.Put(b);
        bytes := [b];
        context := context.(treeIter := context.litLenTree);
      } else if v > 285 {
        context := BlockHeader;
        return InvalidFormat, [];
      } else {
        var extra := LengthExtraBits(v - 257);
        context := context.(pairLength := LengthCode(v - 257) + 3, extraBits := extra,
          state := if extra > 0 then AwaitLengthExtraBits else AwaitDistance, treeIter := context.distTree);
      }
      return Continue, bytes;
    }

    /** `case HUFFMAN_BLOCK`, `AWAIT_CODE` */
    method ReadSymbol(limit: nat) returns (r: Verdict, bytes: seq<Byte>)
      requires Valid() && context.HuffmanBlock? && context.state == AwaitCode
      modifies this`context, reader, reader.stream, window, window.slots
      ensures Valid() && Emits(r, bytes, limit)
    {
      hide OFBitReader.Unread, Low.Fuel, Pow2, FromLsb, Holds, BytesBits, ByteBits, Pending, Walk, Blocks, DistanceAt,
        LengthExtra, Symbol;
      assert reader.saved == [] && reader.Ahead() == reader.Unread();
      ghost var before := reader.Unread();
      var stop := reader.TreeWalk(context.treeIter);
      bytes := [];
      EmitNothing(old(Now()));
      match stop {
        case AtNode(iter) =>
          context := context.(treeIter := iter);
          return Return, [];
        case NoCode =>
          context := BlockHeader;
          return InvalidFormat, [];
        case AtValue(v) =>
          WalkConsumes(context.treeIter, before);
          assert old(Now()) == Symbol(Lenient, v, context.litLenTree, context.distTree, inLastBlock, window.history,
            reader.Ahead());
          r, bytes := TakeSymbol(v, limit);
      }
    }

    /** `case HUFFMAN_BLOCK`, `PROCESS_PAIR` */
    method CopyPair(limit: nat) returns (r: Verdict, bytes: seq<Byte>)
      requires Valid() && context.HuffmanBlock? && context.state == ProcessPair
      modifies this`context, window, window.slots
      ensures Valid() && Emits(r, bytes, limit)
    {
      hide OFBitReader.Valid, OFBitReader.Ahead;
      hide OFBitReader.Unread, Low.Fuel, FromLsb, Holds, BytesBits, ByteBits, Pending, SymbolsAt, Walk,
        SlidingWindows.Copy, Pair, SlidingWindow.Valid, Pow2, TreeOf, NeedsInput, AtEndOfStream, LengthExtra,
        DistanceAt, DistanceExtra, Repeat, LengthsAt, CodeLengths, Stored, StoredHeader, Blocks, LitLenCount,
        DistCount, CodeLenCount;
      var length := context.pairLength;
      bytes := window.CopyBack(context.distance, length, limit);
      PairTakes(length, |bytes|, context.distance, context.litLenTree, context.distTree, inLastBlock,
        old(window.history), reader.Ahead());
      if |bytes| < length {
        context := context.(pairLength := length - |bytes|);
        return Return, bytes;
      }
      context := context.(state := AwaitCode, treeIter := context.litLenTree);
      return Continue, bytes;
    }

    /** `case HUFFMAN_TREE` */
    method TreeTurn() returns (r: Verdict)
      requires Valid() && context.TreeContext?
      modifies this`context, reader, reader.stream
      ensures Valid() && Emits(r, [], 0) && (r == Return ==> Starved())
    {
      hide Holds, MeaningOf, Emit;
      hide OFInflateStream.Now, OFBitReader.Valid, OFBitReader.Ahead, OFBitReader.Unread, SlidingWindow.Valid;
      NoneEmitted(old(Now()), window.history);
      var lit, dist, codes := context.litLenCodesCount, context.distCodesCount, context.codeLenCodesCount;
      if context.value == NO_CODE_LENGTHS {
        if lit == NOT_READ { r := ReadLitLenCount(); }
        else if dist == NOT_READ { r := ReadDistCount(); }
        else if codes == NOT_READ { r := ReadCodeLenCount(); }
        else if context.receivedCount < codes + 4 { r := ReadCodeLength(); }
        else { r := EndCodeLengths(); }
      } else if context.value == CODE_LENGTHS {
        if context.receivedCount < lit + dist + 258 { r := ReadLength(); } else { r := EndLengths(); }
      } else {
        r := ReadRepeat();
      }
    }

    /** `case HUFFMAN_BLOCK` */
    method SymbolTurn(limit: nat) returns (r: Verdict, bytes: seq<Byte>)
      requires Valid() && context.HuffmanBlock?
      modifies this`context, reader, reader.stream, window, window.slots
      ensures Valid() && Emits(r, bytes, limit)
    {
      hide Holds, MeaningOf, Emit;
      hide OFInflateStream.Now, OFBitReader.Valid, OFBitReader.Ahead, OFBitReader.Unread, SlidingWindow.Valid,
        ValidContext;
      bytes := [];
      NoneEmitted(old(Now()), window.history);
      match context.state {
        case WriteValue => r, bytes := WriteByte(limit);
        case AwaitCode => r, bytes := ReadSymbol(limit);
        case AwaitLengthExtraBits => r := ReadLengthExtra();
        case AwaitDistance => r := ReadDistance();
        case AwaitDistanceExtraBits => r := ReadDistanceExtra();
        case ProcessPair => r, bytes := CopyPair(limit);
      }
    }

    /** One turn of `switch (_state)`, with the loops of its cases taken a turn at a time. */
    method Turn(limit: nat) returns (r: Verdict, bytes: seq<Byte>)
      requires Valid() && !(context.BlockHeader? && inLastBlock)
      modifies this`context, this`inLastBlock, reader, reader.stream, window, window.slots
      ensures Valid() && Emits(r, bytes, limit)
      ensures old(Repeats(limit)) ==> r == Continue && bytes == [] && Stays()
    {
      hide Holds, MeaningOf, Emit;
      hide OFInflateStream.Now, OFBitReader.Valid, OFBitReader.Ahead, OFBitReader.Unread, SlidingWindow.Valid,
        ValidContext;
      bytes := [];
      NoneEmitted(old(Now()), window.history);
      match context {
        case BlockHeader => r := DoBlockHeader();
        case UncompressedHeader(_) => r := DoUncompressedHeader();
        case Uncompressed(_, _) => r, bytes := DoUncompressed(limit);
        case TreeContext(_, _, _, _, _, _, _, _) => r := TreeTurn();
        case HuffmanBlock(_, _, _, _, _, _, _, _) => r, bytes := SymbolTurn(limit);
      }
    }

    /** Where a turn comes again, any number of turns deliver nothing and change nothing. */
    method TurnInVain(turns: nat, limit: nat) returns (bytes: seq<Byte>)
      requires Valid() && Repeats(limit)
      modifies this`context, this`inLastBlock, reader, reader.stream, window, window.slots
      ensures Valid() && Repeats(limit) && Stays() && bytes == []
    {
      hide OFInflateStream.Valid, Emit, AtEndOfStream;
      bytes := [];
      for i := 0 to turns
        invariant Valid() && Repeats(limit) && Stays() && bytes == []
      {
        var r, more := Turn(limit);
        bytes := bytes + more;
      }
    }

    /** Ends the stream and hands back what was read beyond its last byte. */
    method Finish()
      requires Valid() && context.BlockHeader? && inLastBlock
      modifies this`atEndOfStream, reader, reader.stream
      ensures Valid() && atEndOfStream && Now() == old(Now())
      ensures Now() == Meaning([], Finished(BytesBits(Pending(reader.stream.Value()))))
    {
      hide OFBitReader.Valid, OFBitReader.Unread, SlidingWindow.Valid, Align;
      hide Low.Fuel, Holds, BytesBits, ByteBits, FromLsb;
      reader.GiveBack();
      reader.Remainder();
      atEndOfStream := true;
    }

    /** The turns of one read, until it returns, or until a turn would change nothing and come again for ever. */
    method Turns(length: nat) returns (r: Verdict, output: seq<Byte>)
      requires Valid() && !atEndOfStream
      modifies this`context, this`inLastBlock, this`atEndOfStream, reader, reader.stream, window, window.slots
      ensures Valid() && reader.Valid() && r != Continue
      ensures |output| <= length && window.history == old(window.history) + output
      ensures r == Return ==> old(Now()) == Emit(output, Now())
      ensures r == InvalidFormat ==> old(Now()).end == Corrupt && output <= old(Now()).output
      ensures r == Spin ==> old(Now()) == Emit(output, CUT_OFF_IN_DATA) && Repeats(length - |output|)
      ensures atEndOfStream ==> r == Return && Now() == Meaning([], Finished(BytesBits(Pending(reader.stream.Value()))))
      ensures !atEndOfStream ==> Reads() && (r == Return ==> |output| == length || Starved())
    {
      hide OFInflateStream.Now, OFBitReader.Valid, OFBitReader.Unread, OFBitReader.Ahead, SlidingWindow.Valid,
        ValidContext;
      hide Holds, Emit, Rank;
      output := [];
      NoneEmitted(old(Now()), window.history);
      ghost var all, history := Now(), window.history;
      assert reader.Valid();
      hide OFInflateStream.Valid;
      while true
        invariant Valid() && reader.Valid() && !atEndOfStream
        invariant |output| <= length && window.history == history + output
        invariant all == Emit(output, Now())
        invariant |reader.Ahead()| <= old(|reader.Ahead()|) && reader.stream.low.Fuel() <= old(reader.stream.low.Fuel())
        decreases |reader.Ahead()|, reader.stream.low.Fuel(), Rank(context)
      {
        if context.BlockHeader? && inLastBlock {
          Finish();
          return Return, output;
        }
        if Repeats(length - |output|) {
          StoredEnds(length - |output|);
          return Spin, output;
        }
        var bytes;
        r, bytes := TurnMore(length - |output|, all, history, output);
        output := output + bytes;
        if r != Continue { return r, output; }
      }
    }

    /**
     * `lowlevelReadIntoBuffer:length:`. Main result: whatever the limits on input and output, the
     * bytes delivered and what is still to come are together what the stream meant before. When no
     * more can come from below, the call never returns if and only if the input ends within the data
     * of a stored block and more is asked for than can be delivered.
     */
    method LowlevelRead(length: nat) returns (r: Verdict, output: seq<Byte>)
      requires Valid()
      modifies this`context, this`inLastBlock, this`atEndOfStream, reader, reader.stream, window, window.slots
      ensures Valid() && reader.Valid() && r != Continue
      ensures |output| <= length && window.history == old(window.history) + output
      ensures r == Return ==> old(Now()) == Emit(output, Now())
      ensures r == InvalidFormat ==> old(Now()).end == Corrupt && output <= old(Now()).output
      ensures r == Spin ==> old(Now()) == Emit(output, CUT_OFF_IN_DATA) && Repeats(length - |output|)
      ensures old(reader.stream.low.Fuel()) == 0 && !old(atEndOfStream) ==>
        (r == Spin <==> old(Now()).end == CutOffInData && |old(Now()).output| < length)
      ensures atEndOfStream && !old(atEndOfStream) ==>
        r == Return && Now() == Meaning([], Finished(BytesBits(Pending(reader.stream.Value()))))
      ensures !atEndOfStream ==> Reads() && (r == Return ==> |output| == length || Starved())
      ensures old(atEndOfStream) ==> atEndOfStream && r == Return && output == [] && Now() == old(Now())
    {
      hide OFInflateStream.Now, OFBitReader.Valid, OFBitReader.Unread, OFBitReader.Ahead, SlidingWindow.Valid,
        ValidContext;
      hide Holds, Low.Fuel, NeedsInput, BytesBits, Pending;
      NoneEmitted(Now(), window.history);
      if atEndOfStream { return Return, []; }
      assert reader.Valid();
      hide OFInflateStream.Valid;
      r, output := Turns(length);
      if r == Return && !atEndOfStream && reader.Unread() == [] && NeedsInput(context, inLastBlock) { Hungry(); }
    }

    /** One more turn after `output`, out of `all` that the call began with. */
    method TurnMore(limit: nat, ghost all: Meaning, ghost history: seq<Byte>, ghost output: seq<Byte>)
        returns (r: Verdict, bytes: seq<Byte>)
      requires Valid() && !(context.BlockHeader? && inLastBlock) && !Repeats(limit)
      requires all == Emit(output, Now()) && window.history == history + output
      modifies this`context, this`inLastBlock, reader, reader.stream, window, window.slots
      ensures Valid() && reader.Valid() && Reads() && |bytes| <= limit && window.history == history + (output + bytes)
      ensures r == Continue || r == Return ==> all == Emit(output + bytes, Now())
      ensures r == InvalidFormat ==> all.end == Corrupt && output + bytes <= all.output
      ensures r != Spin
      ensures r == Return ==> |bytes| == limit || Starved()
      ensures r == Continue ==>
        || |reader.Ahead()| < old(|reader.Ahead()|)
        || reader.stream.low.Fuel() < old(reader.stream.low.Fuel())
        || (reader.stream.low.Fuel() == old(reader.stream.low.Fuel()) && Rank(context) < old(Rank(context)))
    {
      hide OFInflateStream.Now, OFBitReader.Valid, OFBitReader.Ahead, OFBitReader.Unread, SlidingWindow.Valid;
      hide Holds, MeaningOf, ValidContext, BitsWanted, Emit, Rank;
      ghost var before := Now();
      r, bytes := Turn(limit);
      assert (history + output) + bytes == history + (output + bytes);
      EmitMore(output, bytes, all, before, Now());
    }

    /** A stream that needs input and has none was cut off. */
    lemma Hungry()
      requires Valid() && NeedsInput(context, inLastBlock) && reader.Unread() == []
      ensures Now() == CUT_OFF
    {
      hide OFBitReader.Unread, SlidingWindow.Valid, MeaningOf, NeedsInput, BitsWanted, ValidContext;
      TooFewBits(context, inLastBlock, window.history, reader.Ahead());
    }

    /** One more read after `output`, out of `all` that there was to deliver. */
    method ReadMore(length: nat, ghost all: Meaning, ghost output: seq<Byte>) returns (r: Verdict, bytes: seq<Byte>)
      requires Valid() && reader.Valid() && !atEndOfStream && length > 0 && all == Emit(output, Now())
      modifies this`context, this`inLastBlock, this`atEndOfStream, reader, reader.stream, window, window.slots
      ensures Valid() && reader.Valid() && r != Continue
      ensures r == InvalidFormat ==> all.end == Corrupt && output + bytes <= all.output
      ensures r == Spin ==> all == Meaning(output + bytes, CutOffInData) && Repeats(1)
      ensures r == Return && atEndOfStream ==>
        all == Meaning(output + bytes, Finished(BytesBits(Pending(reader.stream.Value()))))
      ensures r == Return && !atEndOfStream ==> all == Emit(output + bytes, Now())
      ensures r == Return && !atEndOfStream && reader.Unread() == [] && NeedsInput(context, inLastBlock) ==>
        all == Meaning(output + bytes, CutOff)
      ensures r == Return && !atEndOfStream ==>
        || (reader.Unread() == [] && NeedsInput(context, inLastBlock))
        || |Now().output| + |reader.Ahead()| + reader.stream.low.Fuel() <
           old(|Now().output| + |reader.Ahead()| + reader.stream.low.Fuel())
    {
      hide OFInflateStream.Now, SlidingWindow.Valid, OFBitReader.Valid, OFBitReader.Ahead, OFBitReader.Unread;
      hide OFInflateStream.Valid, NeedsInput, Low.Fuel, BytesBits, Pending, Emit;
      ghost var before := Now();
      r, bytes := LowlevelRead(length);
      EmitMore(output, bytes, all, before, Now());
      Emitted(bytes, Now());
      Delivered(output + bytes, Now());
      Delivered(output + bytes, CUT_OFF_IN_DATA);
      if r == Return && !atEndOfStream && reader.Unread() == [] && NeedsInput(context, inLastBlock) { Hungry(); }
    }

    /** Once the input is known to be cut off, any number of reads give nothing, and none of them reports the end. */
    method ReadInVain(times: nat, length: nat) returns (bytes: seq<Byte>)
      requires Valid() && !atEndOfStream && Now() == CUT_OFF
      modifies this`context, this`inLastBlock, this`atEndOfStream, reader, reader.stream, window, window.slots
      ensures Valid() && !atEndOfStream && Now() == CUT_OFF && bytes == []
    {
      hide OFInflateStream.Now, OFInflateStream.Valid, OFBitReader.Valid, OFBitReader.Ahead, OFBitReader.Unread,
        SlidingWindow.Valid;
      bytes := [];
      for i := 0 to times
        invariant Valid() && !atEndOfStream && Now() == CUT_OFF && bytes == []
      {
        var r, more := LowlevelRead(length);
        bytes := bytes + more;
      }
    }

    /**
     * `readDataUntilEndOfStream` of src/OFStream.m, with reads of any length, up to the point from which nothing
     * changes any more. Main result: its loop terminates if and only if the input is complete or corrupt. On input cut
     * off within the data of a stored block a read never returns (TurnInVain), on any other that is cut off the reads
     * give nothing for ever (ReadInVain).
     */
    method ReadUntilEnd(length: nat) returns (ending: Ending, output: seq<Byte>)
      requires Valid() && reader.Valid() && !atEndOfStream && length > 0
      modifies this`context, this`inLastBlock, this`atEndOfStream, reader, reader.stream, window, window.slots
      ensures ending == EndingOf(old(Now()).end)
      ensures if ending == Refused then output <= old(Now()).output else output == old(Now()).output
      ensures ending == Complete ==> old(Now()).end == Finished(BytesBits(Pending(reader.stream.Value())))
      ensures ending == Hangs ==> Repeats(1)
      ensures ending == Loops ==> Valid() && !atEndOfStream && Now() == CUT_OFF
      ensures ending == Complete || ending == Refused <==> !old(Now()).end.CutOff? && !old(Now()).end.CutOffInData?
    {
      hide OFInflateStream.Now, SlidingWindow.Valid, OFBitReader.Valid, OFBitReader.Ahead, OFBitReader.Unread;
      hide OFInflateStream.Valid, OFInflateStream.Repeats, NeedsInput, Low.Fuel, BytesBits, Pending, Emit;
      output := [];
      ghost var all := Now();
      NoneEmitted(all, []);
      while true
        invariant Valid() && reader.Valid() && !atEndOfStream && all == Emit(output, Now())
        decreases |Now().output| + |reader.Ahead()| + reader.stream.low.Fuel()
      {
        var r, bytes := ReadMore(length, all, output);
        output := output + bytes;
        if r == InvalidFormat { return Refused, output; }
        if r == Spin { return Hangs, output; }
        if atEndOfStream { return Complete, output; }
        if reader.Unread() == [] && NeedsInput(context, inLastBlock) {
          Hungry();
          return Loops, output;
        }
      }
    }

    /** Over every run of reads, of any lengths, the output never depends on how it was asked for. */
    method ReadAll(lengths: seq<nat>) returns (r: Verdict, output: seq<Byte>)
      requires Valid()
      modifies this`context, this`inLastBlock, this`atEndOfStream, reader, reader.stream, window, window.slots
      ensures Valid() && r != Continue
      ensures r == Return ==> old(Now()) == Emit(output, Now())
      ensures r == InvalidFormat ==> old(Now()).end == Corrupt && output <= old(Now()).output
      ensures r == Spin ==> old(Now()) == Emit(output, CUT_OFF_IN_DATA)
    {
      r, output := Return, [];
      NoneEmitted(old(Now()), window.history);
      hide Holds, MeaningOf, ValidContext, BitsWanted, Emit;
      for i := 0 to |lengths|
        invariant Valid() && old(Now()) == Emit(output, Now()) && r == Return
      {
        ghost var before := Now();
        var bytes;
        r, bytes := LowlevelRead(lengths[i]);
        EmitMore(output, bytes, old(Now()), before, Now());
        output := output + bytes;
        if r != Return { return; }
      }
    }
  }

  lemma EmitMore(output: seq<Byte>, bytes: seq<Byte>, all: Meaning, before: Meaning, after: Meaning)
    requires all == Emit(output, before)
    ensures before == Emit(bytes, after) ==> all == Emit(output + bytes, after)
    ensures before == Emit(bytes, CUT_OFF_IN_DATA) ==> all == Emit(output + bytes, CUT_OFF_IN_DATA)
    ensures bytes == [] ==> output + bytes == output
    ensures bytes <= before.output ==> output + bytes <= all.output && all.end == before.end
  {
    EmitTwice(output, bytes, after);
    EmitTwice(output, bytes, CUT_OFF_IN_DATA);
  }

  lemma Emitted(output: seq<Byte>, m: Meaning)
    ensures Emit(output, m).end == m.end && |Emit(output, m).output| == |output| + |m.output|
  {
  }

  lemma Delivered(output: seq<Byte>, m: Meaning)
    ensures m.output == [] ==> Emit(output, m) == Meaning(output, m.end)
  {
    if m.output == [] { assert output + m.output == output; }
  }

  lemma NoneEmitted(m: Meaning, history: seq<Byte>)
    ensures Emit([], m) == m && history + [] == history
  {
    EmitNothing(m);
  }

  lemma SymbolMeans(v: nat, litLen: Root, dist: Root, last: bool, history: seq<Byte>, bits: seq<Bit>)
    ensures Symbol(Lenient, v, litLen, dist, last, history, bits) ==
            if v < 256 then Emit([v], SymbolsAt(Lenient, litLen, litLen, dist, last, history + [v], bits))
            else if v == 256 then Blocks(Lenient, last, history, bits)
            else if v > 285 then CORRUPT
            else if LengthExtraBits(v - 257) > 0 then
              LengthExtra(Lenient, LengthCode(v - 257) + 3, LengthExtraBits(v - 257), litLen, dist, last, history, bits)
            else DistanceAt(Lenient, dist, LengthCode(v - 257) + 3, litLen, dist, last, history, bits)
  {
    hide LengthCode, LengthExtraBits, DistanceAt, Blocks, SymbolsAt, FromLsb;
    if 256 < v <= 285 && LengthExtraBits(v - 257) == 0 {
      NoBitsAre(bits);
    }
  }

  lemma NoBitsAre(bits: seq<Bit>)
    ensures FromLsb(bits[..0]) == 0 && bits[0..] == bits
  {
  }

  /** Copying a pair in pieces. */
  lemma PairTakes(length: nat, n: nat, distance: nat, litLen: Root, dist: Root, last: bool, history: seq<Byte>,
      bits: seq<Bit>)
    requires n <= length && distance > 0
    ensures var head := SlidingWindows.Copy(0, history, distance, n);
            && Pair(Lenient, length, distance, litLen, dist, last, history, bits) ==
               Emit(head, Pair(Lenient, length - n, distance, litLen, dist, last, history + head, bits))
            && (n == length ==>
                  Pair(Lenient, length, distance, litLen, dist, last, history, bits) ==
                  Emit(head, SymbolsAt(Lenient, litLen, litLen, dist, last, history + head, bits)))
  {
    hide SymbolsAt;
    CopySplit(0, history, distance, n, length - n);
    var head := SlidingWindows.Copy(0, history, distance, n);
    var tail := SlidingWindows.Copy(0, history + head, distance, length - n);
    assert (history + head) + tail == history + (head + tail);
    EmitTwice(head, tail, SymbolsAt(Lenient, litLen, litLen, dist, last, history + (head + tail), bits));
  }

  /** Orders the contexts that follow each other without any input. */
  function Rank(c: Context): nat
  {
    match c
    case BlockHeader => 0
    case TreeContext(value, _, _, _, _, _, _, _) => if value == NO_CODE_LENGTHS then 4 else 3
    case HuffmanBlock(_, _, _, state, _, _, _, _) => if state == WriteValue || state == ProcessPair then 2 else 1
    case _ => 1
  }

  lemma EmitNothing(m: Meaning)
    ensures Emit([], m) == m
  {
    assert [] + m.output == m.output;
  }

  lemma StoredNone(rules: Rules, last: bool, history: seq<Byte>, bits: seq<Bit>)
    ensures Stored(rules, 0, last, history, bits) == Blocks(rules, last, history, bits)
  {
  }

  lemma StoredOne(rules: Rules, left: nat, b: Byte, rest: seq<Bit>, last: bool, history: seq<Byte>)
    requires left > 0
    ensures Stored(rules, left, last, history, ByteBits(b) + rest) ==
      Emit([b], Stored(rules, left - 1, last, history + [b], rest))
  {
    var bits := ByteBits(b) + rest;
    assert bits[..8] == ByteBits(b) && bits[8..] == rest;
    ByteFromBits(b);
  }

  /** Taking stored bytes in pieces. */
  lemma {:induction false} StoredTakes(rules: Rules, left: nat, bytes: seq<Byte>, last: bool, history: seq<Byte>,
      rest: seq<Bit>)
    requires |bytes| <= left
    ensures Stored(rules, left, last, history, BytesBits(bytes) + rest) ==
            Emit(bytes, Stored(rules, left - |bytes|, last, history + bytes, rest))
    decreases |bytes|
  {
    hide Stored, ByteBits, Emit;
    if bytes == [] {
      assert BytesBits(bytes) + rest == rest && history + bytes == history;
      EmitNothing(Stored(rules, left, last, history, rest));
    } else {
      var b, more := bytes[0], bytes[1..];
      BitsSplit(b, more, rest);
      hide BytesBits;
      assert [b] + more == bytes && (history + [b]) + more == history + bytes;
      StoredOne(rules, left, b, BytesBits(more) + rest, last, history);
      StoredTakes(rules, left - 1, more, last, history + [b], rest);
      EmitTwice([b], more, Stored(rules, left - |bytes|, last, history + bytes, rest));
    }
  }

  lemma BitsSplit(b: Byte, more: seq<Byte>, rest: seq<Bit>)
    ensures BytesBits([b] + more) + rest == ByteBits(b) + (BytesBits(more) + rest)
  {
    assert ([b] + more)[1..] == more;
  }

  lemma WalkConsumes(iter: Root, bits: seq<Bit>)
    ensures Walk(iter, bits).Found? ==> |Walk(iter, bits).rest| < |bits|
  {
  }

  lemma RepeatInvalid(v: nat, tree: Root, lit: nat, dist: nat, lengths: seq<nat>, last: bool, history: seq<Byte>,
      bits: seq<Bit>)
    requires |lengths| <= lit + dist + 258 && (v > 18 || (v == 16 && lengths == []))
    ensures Repeat(Lenient, v, tree, lit, dist, lengths, last, history, bits) == CORRUPT
  {
  }

  lemma LengthTakes(base: nat, extra: nat, litLen: Root, dist: Root, last: bool, history: seq<Byte>, bits: seq<Bit>)
    ensures extra <= |bits| ==>
      LengthExtra(Lenient, base, extra, litLen, dist, last, history, bits) ==
      DistanceAt(Lenient, dist, base + FromLsb(bits[..extra]), litLen, dist, last, history, bits[extra..])
  {
  }

  lemma TooFewBits(c: Context, last: bool, history: seq<Byte>, bits: seq<Bit>)
    requires ValidContext(c) && NeedsInput(c, last) && |bits| < BitsWanted(c, last)
    ensures MeaningOf(c, last, history, bits) == CUT_OFF
  {
    hide BlockBody, Stored, Symbol, Pair, TreeOf, BytesBits;
    match c
    case UncompressedHeader(header) => BytesBitsSize(header);
    case TreeContext(_, _, _, _, _, _, _, iter) => NothingToWalk(iter, bits);
    case HuffmanBlock(_, _, iter, _, _, _, _, _) => NothingToWalk(iter, bits);
    case _ =>
  }

  lemma NothingToWalk(iter: Root, bits: seq<Bit>)
    ensures |bits| < 1 ==> Walk(iter, bits) == Suspended(iter)
  {
  }

  lemma DistanceTakes(base: nat, extra: nat, length: nat, litLen: Root, dist: Root, last: bool, history: seq<Byte>,
      bits: seq<Bit>)
    requires base > 0
    ensures extra <= |bits| ==>
      DistanceExtra(Lenient, base, extra, length, litLen, dist, last, history, bits) ==
      Pair(Lenient, length, base + FromLsb(bits[..extra]), litLen, dist, last, history, bits[extra..])
  {
  }

  lemma NextLength(iter: Root, tree: Root, lit: nat, dist: nat, lengths: seq<nat>, last: bool, history: seq<Byte>,
      bits: seq<Bit>)
    requires |lengths| < lit + dist + 258
    ensures var w := Walk(iter, bits);
            LengthsAt(Lenient, iter, tree, lit, dist, lengths, last, history, bits) ==
            if w.Invalid? then CORRUPT
            else if w.Suspended? then CUT_OFF
            else if w.value < 16 then LengthsAt(Lenient, tree, tree, lit, dist, lengths + [w.value], last, history,
              w.rest)
            else Repeat(Lenient, w.value, tree, lit, dist, lengths, last, history, w.rest)
  {
  }

  lemma HeaderTakes(history: seq<Byte>, bits: seq<Bit>)
    ensures |bits| >= 3 ==>
      Blocks(Lenient, false, history, bits) == BlockBody(Lenient, FromLsb(bits[..3]), history, bits[3..])
  {
  }

  lemma NoExtra(distance: nat, length: nat, litLen: Root, dist: Root, last: bool, history: seq<Byte>, bits: seq<Bit>)
    requires distance > 0
    ensures DistanceExtra(Lenient, distance, 0, length, litLen, dist, last, history, bits) ==
            Pair(Lenient, length, distance, litLen, dist, last, history, bits)
  {
    NoBitsAre(bits);
  }

  /** No distance reaches farther back than the window. */
  lemma DistanceFits(v: nat)
    requires v < 30
    ensures 0 < DistanceCode(v) && DistanceCode(v) + Pow2(DistanceExtraBits(v)) <= WINDOW_SIZE + 1
  {
    assert Pow2(13) == 8192 by { assert Pow2(8) == 256; }
    DistancesAre(v);
    hide Pow2, DistanceCode, DistanceExtraBits;
    Pow2Monotone(DistanceExtraBits(v), 13);
  }

  lemma DistancesAre(v: nat)
    requires v < 30
    ensures 0 < DistanceCode(v) <= 24577 && DistanceExtraBits(v) <= 13
  {
    assert 0 < DistanceCode(v) <= 24577 by { hide DistanceExtraBits; }
    assert DistanceExtraBits(v) <= 13 by { hide DistanceCode; }
  }

  lemma {:induction false} Pow2Monotone(m: nat, n: nat)
    requires m <= n
    ensures Pow2(m) <= Pow2(n)
    decreases n
  {
    if m < n { Pow2Monotone(m, n - 1); }
  }

  function Word(low: nat, high: nat): nat
  {
    low + 0x100 * high
  }
  lemma HeaderGrows(header: seq<Byte>, bytes: seq<Byte>, bits: seq<Bit>)
    ensures BytesBits(header) + (BytesBits(bytes) + bits) == BytesBits(header + bytes) + bits
  {
    BytesBitsSplit(header, bytes);
  }

  /** The four bytes of the header are two numbers of 16 bits. */
  lemma HeaderBits(header: seq<Byte>, rest: seq<Bit>)
    requires |header| == 4
    ensures var bits := BytesBits(header) + rest;
            && |bits| >= 32 && bits[32..] == rest
            && FromLsb(bits[..16]) == Word(header[0], header[1])
            && FromLsb(bits[16..32]) == Word(header[2], header[3])
  {
    var low, high := header[..2], header[2..];
    assert header == low + high;
    BytesBitsSplit(low, high);
    var bits := BytesBits(header) + rest;
    assert bits[..16] == BytesBits(low) && bits[16..32] == BytesBits(high) && bits[32..] == rest;
    TwoBytes(header[0], header[1]);
    TwoBytes(header[2], header[3]);
    assert low == [header[0], header[1]] && high == [header[2], header[3]];
  }

  lemma StoredHeaderMeans(last: bool, history: seq<Byte>, header: seq<Byte>, rest: seq<Bit>)
    requires |header| == 4
    ensures StoredHeader(Lenient, last, history, BytesBits(header) + rest) ==
            if Word(header[0], header[1]) != 0xFFFF - Word(header[2], header[3]) then CORRUPT
            else Stored(Lenient, Word(header[0], header[1]), last, history, rest)
  {
    HeaderBits(header, rest);
  }

  lemma TwoBytes(a: Byte, b: Byte)
    ensures FromLsb(BytesBits([a, b])) == Word(a, b)
  {
    assert [a, b][1..] == [b] && [b][1..] == [];
    assert BytesBits([a, b]) == ByteBits(a) + ByteBits(b) by {
      assert BytesBits([b]) == ByteBits(b) + [];
    }
    ByteFromBits(a);
    ByteFromBits(b);
    hide FromLsb, ByteBits;
    FromLsbSplit(ByteBits(a), ByteBits(b));
    assert Pow2(8) == 0x100;
  }
}
