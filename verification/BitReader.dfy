// The bit reader of src/OFInflateStream.m: bits are taken from bytes, bytes from a buffer and the
// buffer from the underlying stream, and reading can be given up between any two bits.

module BitReader {
  import opened Bits
  import opened Bytes
  import opened Huffman
  import opened Options
  import opened Streams
  import opened CachedStream
  import StreamLaws

  const BUFFER_SIZE: nat := 4096

  /** The eight bits of a byte, least significant first. */
  function ByteBits(b: Byte): (bits: seq<Bit>)
    ensures |bits| == 8
  {
    [BitAt(b, 0), BitAt(b, 1), BitAt(b, 2), BitAt(b, 3), BitAt(b, 4), BitAt(b, 5), BitAt(b, 6), BitAt(b, 7)]
  }

  function BytesBits(bytes: seq<Byte>): (bits: seq<Bit>)
    ensures |bits| == 8 * |bytes|
  {
    if bytes == [] then [] else ByteBits(bytes[0]) + BytesBits(bytes[1..])
  }

  lemma {:induction false} BytesBitsSplit(a: seq<Byte>, b: seq<Byte>)
    ensures BytesBits(a + b) == BytesBits(a) + BytesBits(b)
  {
    if a == [] {
      assert a + b == b;
    } else {
      assert (a + b)[1..] == a[1..] + b;
      BytesBitsSplit(a[1..], b);
      Associates(ByteBits(a[0]), BytesBits(a[1..]), BytesBits(b));
    }
  }

  lemma Associates(a: seq<Bit>, b: seq<Bit>, c: seq<Bit>)
    ensures (a + b) + c == a + (b + c)
  {
  }

  /** Reading the bits of a byte as a number gives the byte. */
  lemma ByteFromBits(b: Byte)
    ensures FromLsb(ByteBits(b)) == b
  {
    FromLsbFrom(b, 0);
    assert ByteBits(b)[0..] == ByteBits(b);
    assert Pow2(0) == 1;
  }

  lemma {:induction false} FromLsbFrom(b: Byte, k: nat)
    requires k <= 8
    ensures FromLsb(ByteBits(b)[k..]) == b / Pow2(k)
    decreases 8 - k
  {
    if k == 8 {
      assert Pow2(8) == 256;
    } else {
      FromLsbFrom(b, k + 1);
      FromLsbStep(ByteBits(b), k);
      ByteBit(b, k);
      hide *;
      Halves(b, k);
    }
  }

  lemma ByteBit(b: Byte, k: nat)
    requires k < 8
    ensures ByteBits(b)[k] == BitAt(b, k)
  {
  }

  lemma FromLsbStep(bits: seq<Bit>, k: nat)
    requires k < |bits|
    ensures FromLsb(bits[k..]) == bits[k] + 2 * FromLsb(bits[k + 1..])
  {
    assert bits[k..][1..] == bits[k + 1..];
  }

  lemma Halves(b: nat, k: nat)
    ensures b / Pow2(k) == BitAt(b, k) + 2 * (b / Pow2(k + 1))
  {
    DivMul(b, Pow2(k), 2);
    assert Pow2(k + 1) == Pow2(k) * 2;
  }

  lemma {:induction false} BytesBitsSize(bytes: seq<Byte>)
    ensures |BytesBits(bytes)| == 8 * |bytes|
  {
    if bytes != [] { BytesBitsSize(bytes[1..]); }
  }

  /** What a walk down a tree in the middle of a stream can lead to. */
  datatype WalkStop = AtValue(value: nat) | AtNode(iter: Root) | NoCode

  class OFBitReader {
    const stream: OFStream
    var buffer: seq<Byte>
    var bufferIndex: nat
    var byte: Byte
    var bitIndex: nat
    var savedBits: nat
    var savedBitsLength: nat
    ghost var saved: seq<Bit>

    ghost predicate Valid()
      reads this
    {
      && bufferIndex <= |buffer| <= BUFFER_SIZE && bitIndex <= 8
      && savedBitsLength == |saved| && savedBits == FromLsb(saved)
    }

    /** The bits that were not read yet, wherever they are kept. */
    function Unread(): seq<Bit>
      requires Valid()
      reads this, stream
    {
      ByteBits(byte)[bitIndex..] + BytesBits(buffer[bufferIndex..] + Pending(stream.Value()))
    }

    /** The bits to come, with those of a read that was given up. */
    ghost function Ahead(): seq<Bit>
      requires Valid()
      reads this, stream
    {
      saved + Unread()
    }

    constructor (stream: OFStream)
      ensures Valid() && this.stream == stream && saved == [] && bitIndex == 8 && buffer == []
      ensures Unread() == BytesBits(Pending(stream.Value()))
    {
      this.stream := stream;
      buffer, bufferIndex := [], 0;
      // All eight bits of the byte count as read, so the first bit comes from the stream.
      byte, bitIndex := 0, 8;
      savedBits, savedBitsLength, saved := 0, 0, [];
      new;
      assert buffer[bufferIndex..] + Pending(stream.Value()) == Pending(stream.Value());
    }

    /** Gets the next byte, if the underlying stream has one for now. */
    method FetchByte() returns (ok: bool)
      requires Valid() && bitIndex == 8
      modifies this`buffer, this`bufferIndex, this`byte, this`bitIndex, stream
      ensures Valid() && Unread() == old(Unread())
      ensures bitIndex == if ok then 0 else 8
      ensures stream.low.Fuel() <= old(stream.low.Fuel())
      ensures !ok ==> Unread() == [] || stream.low.Fuel() < old(stream.low.Fuel())
    {
      hide Pending, Read, Low.Fuel, AtEndOfStream, BytesBits, ByteBits;
      ghost var rest := buffer[bufferIndex..] + Pending(stream.Value());
      assert ByteBits(byte)[8..] == [];
      if bufferIndex < |buffer| {
        byte := buffer[bufferIndex];
        bufferIndex := bufferIndex + 1;
      } else {
        StreamLaws.ReadConserves(stream.Value(), BUFFER_SIZE);
        ReadFuel(stream.Value(), BUFFER_SIZE);
        var bytes := stream.ReadIntoBuffer(BUFFER_SIZE);
        assert rest == bytes + Pending(stream.Value());
        if |bytes| < 1 {
          assert rest == Pending(stream.Value());
          assert buffer[bufferIndex..] + Pending(stream.Value()) == rest;
          return false;
        }
        byte := bytes[0];
        buffer, bufferIndex := bytes, 1;
      }
      bitIndex := 0;
      ok := true;
      assert rest == [byte] + (buffer[bufferIndex..] + Pending(stream.Value()));
      FirstByte(byte, buffer[bufferIndex..] + Pending(stream.Value()));
    }

    method NextBit() returns (bit: Bit)
      requires Valid() && bitIndex < 8
      modifies this`bitIndex
      ensures Valid() && bitIndex == old(bitIndex) + 1 && old(Unread()) == [bit] + Unread()
    {
      hide BytesBits, ByteBits, BitAt, Pending;
      bit := BitAt(byte, bitIndex);
      TakeBit(byte, bitIndex, BytesBits(buffer[bufferIndex..] + Pending(stream.Value())));
      bitIndex := bitIndex + 1;
    }

    method TryReadBits(count: nat) returns (ok: bool, bits: nat)
      requires Valid() && |saved| < count
      modifies this`buffer, this`bufferIndex, this`byte, this`bitIndex, this`savedBits, this`savedBitsLength,
        this`saved, stream
      ensures Valid()
      ensures ok ==> count <= |old(Ahead())| && bits == FromLsb(old(Ahead())[..count])
      ensures ok ==> saved == [] && Ahead() == Unread() == old(Ahead())[count..]
      ensures !ok ==> |saved| < count && Ahead() == old(Ahead()) && bitIndex == 8
      ensures bitIndex > 0
      ensures stream.low.Fuel() <= old(stream.low.Fuel())
      ensures !ok ==> Unread() == [] || stream.low.Fuel() < old(stream.low.Fuel())
    {
      hide FromLsb, Pow2, BytesBits, ByteBits, BitAt, Low.Fuel;
      ghost var ahead := Ahead();
      ghost var got := saved;
      var ret := savedBits;
      var i := savedBitsLength;
      while i < count
        invariant Valid() && saved == old(saved) && i == |got| <= count
        invariant ret == FromLsb(got) && got + Unread() == ahead
        invariant i > savedBitsLength ==> bitIndex > 0
        invariant stream.low.Fuel() <= old(stream.low.Fuel())
      {
        if bitIndex == 8 {
          var fetched := FetchByte();
          if !fetched {
            savedBits, savedBitsLength, saved := ret, i, got;
            return false, 0;
          }
        }
        var bit := NextBit();
        OneMore(got, bit, Unread());
        ret := ret + Pow2(i) * bit;
        got := got + [bit];
        i := i + 1;
      }
      NoBits();
      savedBits, savedBitsLength, saved := 0, 0, [];
      assert ahead[..count] == got && ahead[count..] == Unread();
      return true, ret;
    }

    /** Hands the rest of the buffer back to the underlying stream. */
    method GiveBack()
      requires Valid()
      modifies this`buffer, this`bufferIndex, stream
      ensures Valid() && Unread() == old(Unread())
      ensures buffer == [] && stream.low == old(stream.low)
    {
      ghost var rest := buffer[bufferIndex..] + Pending(stream.Value());
      ghost var cached, low := Cached(stream.Value()), stream.low.Rest();
      stream.UnreadFromBuffer(buffer[bufferIndex..]);
      Regroup(buffer[bufferIndex..], cached, low);
      buffer, bufferIndex := [], 0;
      assert buffer[bufferIndex..] + Pending(stream.Value()) == rest;
    }

    /** Takes bytes off the underlying stream directly, past the empty buffer. */
    method TakeBytes(length: nat) returns (bytes: seq<Byte>)
      requires Valid() && buffer == [] && bitIndex == 8 && savedBitsLength == 0
      modifies stream
      ensures Valid() && |bytes| <= length && old(Ahead()) == BytesBits(bytes) + Ahead()
      ensures stream.low.Fuel() <= old(stream.low.Fuel())
      ensures bytes == [] && 0 < length && !AtEndOfStream(old(stream.Value())) ==>
        stream.low.Fuel() < old(stream.low.Fuel())
      ensures |bytes| < length && stream.low.Fuel() == old(stream.low.Fuel()) ==>
        Unread() == [] || (bytes != [] && 0 < stream.low.Fuel())
      ensures AtEndOfStream(old(stream.Value())) ==> bytes == [] && stream.Value() == old(stream.Value())
    {
      hide ByteBits, BytesBits;
      ghost var before := stream.Value();
      Whole();
      StreamLaws.ReadConserves(before, length);
      ReadFuel(before, length);
      hide Pending, Read;
      bytes := stream.ReadIntoBuffer(length);
      Taken(before, bytes);
      Whole();
    }

    /** With nothing in between, the bits ahead are those of the underlying stream. */
    lemma Whole()
      requires Valid() && buffer == [] && bitIndex == 8 && savedBitsLength == 0
      ensures saved == [] && Ahead() == Unread() == BytesBits(Pending(stream.Value()))
    {
      assert buffer[bufferIndex..] + Pending(stream.Value()) == Pending(stream.Value());
      assert ByteBits(byte)[8..] == [];
    }

    lemma Taken(before: State, bytes: seq<Byte>)
      requires Valid() && buffer == [] && bitIndex == 8 && savedBitsLength == 0
      requires Pending(before) == bytes + Pending(stream.Value())
      ensures BytesBits(Pending(before)) == BytesBits(bytes) + Ahead()
    {
      BytesBitsSplit(bytes, Pending(stream.Value()));
      Whole();
    }

    /** Skips to the next byte boundary. */
    method SkipToByte()
      requires Valid()
      modifies this`bitIndex
      ensures Valid() && bitIndex == 8
      ensures old(bitIndex) > 0 ==> Unread() == Align(old(Unread()))
    {
      hide ByteBits, BytesBits, Pending, Align;
      ghost var rest := BytesBits(buffer[bufferIndex..] + Pending(stream.Value()));
      AlignPartial(ByteBits(byte)[bitIndex..], rest);
      bitIndex := 8;
      assert ByteBits(byte)[8..] + rest == rest;
    }

    /** Beyond the byte that is partly read, only the underlying stream is left. */
    lemma Remainder()
      requires Valid() && buffer == [] && 0 < bitIndex && savedBitsLength == 0
      ensures Align(Ahead()) == BytesBits(Pending(stream.Value()))
    {
      var rest := BytesBits(Pending(stream.Value()));
      assert buffer[bufferIndex..] + Pending(stream.Value()) == Pending(stream.Value());
      assert Ahead() == ByteBits(byte)[bitIndex..] + rest;
      AlignPartial(ByteBits(byte)[bitIndex..], rest);
    }

    /** `of_huffman_tree_walk` */
    method TreeWalk(start: Root) returns (stop: WalkStop)
      requires Valid() && saved == []
      modifies this`buffer, this`bufferIndex, this`byte, this`bitIndex, this`savedBits, this`savedBitsLength,
        this`saved, stream
      ensures Valid() && saved == [] && Ahead() == Unread() && |Unread()| <= |old(Unread())|
      ensures old(bitIndex) > 0 ==> bitIndex > 0
      ensures match stop
              case AtValue(v) => Walk(start, old(Unread())) == Found(v, Unread())
              case AtNode(iter) => Walk(start, old(Unread())) == Walk(iter, Unread())
              case NoCode => Walk(start, old(Unread())) == Invalid
      ensures stream.low.Fuel() <= old(stream.low.Fuel())
      ensures stop.AtNode? ==> Unread() == [] || stream.low.Fuel() < old(stream.low.Fuel())
    {
      hide Pending, Low.Fuel, BytesBits, ByteBits, BitAt, FromLsb, Pow2;
      var iter: Tree := start;
      while iter.value == NO_VALUE
        invariant Valid() && saved == [] && iter.Node? && |Unread()| <= |old(Unread())|
        invariant old(bitIndex) > 0 ==> bitIndex > 0
        invariant Walk(start, old(Unread())) == Walk(iter, Unread())
        invariant stream.low.Fuel() <= old(stream.low.Fuel())
        decreases iter
      {
        ghost var before := Unread();
        assert Ahead() == before;
        var ok, bits := TryReadBits(1);
        if !ok {
          OnlySaved(saved);
          assert Ahead() == Unread();
          return AtNode(iter);
        }
        assert before[..1] == [before[0]];
        OneBit(before[0]);
        assert bits == before[0];
        if iter.Leaf(bits).Nil? { return NoCode; }
        iter := iter.Leaf(bits);
      }
      return AtValue(iter.value);
    }
  }

  function Align(bits: seq<Bit>): seq<Bit>
  {
    bits[|bits| % 8..]
  }

  lemma AlignPartial(partial: seq<Bit>, rest: seq<Bit>)
    requires |rest| % 8 == 0
    ensures |partial| < 8 ==> Align(partial + rest) == rest
    ensures |partial| == 8 ==> Align(partial + rest) == partial + rest
  {
    if |partial| < 8 { assert |partial + rest| % 8 == |partial|; }
  }

  lemma Regroup(a: seq<Byte>, b: seq<Byte>, c: seq<Byte>)
    ensures (a + b) + c == a + (b + c)
  {
  }

  lemma NoBits()
    ensures FromLsb([]) == 0
  {
  }

  lemma OnlySaved(saved: seq<Bit>)
    requires |saved| < 1
    ensures saved == []
  {
  }

  lemma FirstByte(b: Byte, rest: seq<Byte>)
    ensures BytesBits([b] + rest) == ByteBits(b)[0..] + BytesBits(rest)
  {
    assert ([b] + rest)[1..] == rest;
  }

  lemma TakeBit(b: Byte, index: nat, rest: seq<Bit>)
    requires index < 8
    ensures ByteBits(b)[index..] + rest == [BitAt(b, index)] + (ByteBits(b)[index + 1..] + rest)
  {
    assert ByteBits(b)[index] == BitAt(b, index);
  }

  lemma OneMore(got: seq<Bit>, bit: Bit, rest: seq<Bit>)
    ensures got + ([bit] + rest) == (got + [bit]) + rest
    ensures FromLsb(got + [bit]) == FromLsb(got) + Pow2(|got|) * bit
  {
    Associates(got, [bit], rest);
    OneBit(bit);
    hide FromLsb, Pow2;
    FromLsbSplit(got, [bit]);
  }

  lemma OneBit(bit: Bit)
    ensures FromLsb([bit]) == bit
  {
    assert [bit][1..] == [];
  }

  lemma ReadFuel(s: State, length: nat)
    ensures var (s', bytes) := Read(s, length);
            && s'.low.Fuel() <= s.low.Fuel()
            && (bytes == [] && 0 < length && !AtEndOfStream(s) ==> s'.low.Fuel() < s.low.Fuel())
            && (AtEndOfStream(s) ==> bytes == [] && s' == s && Pending(s) == [])
            && (|bytes| < length && s'.low.Fuel() == s.low.Fuel() ==>
                  Pending(s') == [] || (bytes != [] && 0 < s'.low.Fuel()))
  {
    hide AtEndOfStream, Pending;
    if Cached(s) == [] {
      EmptyCacheRead(s, length);
    } else {
      CachedRead(s, length);
    }
  }

  lemma CachedRead(s: State, length: nat)
    requires Cached(s) != []
    ensures var (s', bytes) := Read(s, length);
            s'.low == s.low && !AtEndOfStream(s) && (length > 0 ==> bytes != []) &&
            (|bytes| < length ==> s'.low.Rest() == Pending(s') && (Pending(s') == [] || 0 < s'.low.Fuel()))
  {
    hide Low.Read;
  }

  lemma EmptyCacheRead(s: State, length: nat)
    requires Cached(s) == []
    ensures var (s', bytes) := Read(s, length);
            && s'.low.Fuel() <= s.low.Fuel()
            && (bytes == [] && 0 < length && !AtEndOfStream(s) ==> s'.low.Fuel() < s.low.Fuel())
            && (AtEndOfStream(s) ==> bytes == [] && s' == s && Pending(s) == [])
            && (|bytes| < length && s'.low.Fuel() == s.low.Fuel() ==>
                  Pending(s') == [] || (bytes != [] && 0 < s'.low.Fuel()))
  {
    hide Low.Read, Low.Rest, Low.Fuel;
    var n := if length < MIN_READ_SIZE then MIN_READ_SIZE else length;
    LowStands(s.low, n);
    EmptyPending(s.low, s.buffer, s.waiting);
    EmptyPending(s.low.Read(n).0, s.buffer, s.waiting);
  }

  lemma EmptyPending(low: Low, buffer: Option<seq<Byte>>, waiting: bool)
    requires Cached(State(low, buffer, waiting)) == []
    ensures Pending(State(low, buffer, waiting)) == low.Rest()
    ensures low.AtEnd() ==> low.Rest() == []
  {
  }

  /** A low-level read that does not bring the end of the input nearer finds nothing to come. */
  lemma LowStands(low: Low, length: nat)
    ensures var (low', bytes) := low.Read(length);
            && (|bytes| < length && low'.Fuel() == low.Fuel() ==> low'.Rest() == [])
            && (low.AtEnd() ==> low' == low && bytes == [])
  {
  }
}
