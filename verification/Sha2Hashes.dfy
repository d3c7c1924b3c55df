// OFSHA224Or256Hash and OFSHA384Or512Hash of src/OFSHA224Or256Hash.m and src/OFSHA384Or512Hash.m, which
// differ in the sizes of their words and in their counters of bits.

module Sha2Hashes {
  import Bits
  import opened Bytes
  import opened Sha2
  import Sha256Blocks
  import Sha512Blocks

  const UINT64_LIMIT: nat := 0x1_0000_0000_0000_0000
  const UINT128_LIMIT: nat := 0x1_0000_0000_0000_0000_0000_0000_0000_0000
  const SIZE_MAX: nat := UINT64_LIMIT - 1

  datatype Status = Ok | AlreadyCalculated | OutOfRange | InvalidArgument

  /** The counters hold eight times the length, modulo 2 to the power of 64 or of 128. */
  ghost predicate CountsBits(v: Variant, bits0: nat, bits1: nat, length: nat)
  {
    && bits0 < UINT64_LIMIT && bits1 < UINT64_LIMIT
    && if v.Wide() then bits1 * UINT64_LIMIT + bits0 == (8 * length) % (UINT128_LIMIT)
       else bits1 == 0 && bits0 == (8 * length) % UINT64_LIMIT
  }

  lemma WrapOnce(n: nat, l: nat, m: nat)
    requires m > 0 && l <= m
    ensures (n + l) % m == if n % m + l < m then n % m + l else n % m + l - m
  {
    var q, r := n / m, n % m;
    assert n == q * m + r;
    if r + l < m {
      Bits.DivUnique(n + l, m, q, r + l);
    } else {
      assert (q + 1) * m == q * m + m;
      Bits.DivUnique(n + l, m, q + 1, r + l - m);
    }
  }

  /** One addition to a counter of two words */
  lemma Carry(bits0: nat, bits1: nat, l: nat)
    requires bits0 < UINT64_LIMIT && bits1 < UINT64_LIMIT && l < UINT64_LIMIT
    ensures (bits0 + l) % UINT64_LIMIT == if bits0 + l < UINT64_LIMIT then bits0 + l else bits0 + l - UINT64_LIMIT
    ensures (bits1 + 1) % UINT64_LIMIT == if bits1 + 1 < UINT64_LIMIT then bits1 + 1 else 0
    ensures var total := bits1 * UINT64_LIMIT + bits0 + l;
            var more := if UINT64_LIMIT - 1 - bits0 < l then (bits1 + 1) % UINT64_LIMIT else bits1;
            more * UINT64_LIMIT + (bits0 + l) % UINT64_LIMIT ==
            if total < UINT128_LIMIT then total else total - UINT128_LIMIT
  {
  }

  lemma Powers()
    ensures Pow256(4) == 0x1_0000_0000 && Pow256(8) == UINT64_LIMIT && Pow256(16) == UINT128_LIMIT
  {
    assert Pow256(6) == 0x1_0000_0000_0000;
    assert Pow256(10) == 0x1_0000_0000_0000_0000_0000;
    assert Pow256(13) == 0x1_0000_0000_0000_0000_0000_0000_00;
  }

  lemma StoreRemainder(n: nat, size: nat)
    ensures Store(n % Pow256(size), size) == Store(n, size)
  {
    hide *;
    var p := Pow256(size);
    assert n == n % p + n / p * p;
    StoreWraps(n % p, n / p, size);
  }

  /** What the counters hold is what the padding wants stored. */
  lemma StoredCounters(v: Variant, bits0: nat, bits1: nat, length: nat)
    requires CountsBits(v, bits0, bits1, length)
    ensures Store(8 * length, v.CounterSize()) ==
            if v.Wide() then Store(bits1, 8) + Store(bits0, 8)
            else Store(bits0 / 0x1_0000_0000, 4) + Store(bits0 % 0x1_0000_0000, 4)
  {
    Powers();
    hide Pow256, Store;
    StoreRemainder(8 * length, v.CounterSize());
    if v.Wide() {
      StoreJoins(bits1, bits0, 8, 8);
    } else {
      StoreJoins(bits0 / 0x1_0000_0000, bits0 % 0x1_0000_0000, 4, 4);
    }
  }

  /** The whole blocks of the message are in the state, and the rest of it is in the buffer. */
  ghost predicate Holds(v: Variant, words: seq<nat>, rest: seq<Byte>, message: seq<Byte>)
  {
    && |rest| < v.BlockSize() && |rest| <= |message| && Whole(v, |message| - |rest|)
    && message[|message| - |rest|..] == rest
    && words == Absorb(v, Initial(v), message[..|message| - |rest|])
  }

  lemma Nothing(v: Variant)
    ensures Holds(v, Initial(v), [], []) && CountsBits(v, 0, 0, 0)
  {
  }

  lemma HoldsMore(v: Variant, words: seq<nat>, rest: seq<Byte>, message: seq<Byte>, chunk: seq<Byte>)
    requires Holds(v, words, rest, message) && |rest| + |chunk| < v.BlockSize()
    ensures Holds(v, words, rest + chunk, message + chunk)
  {
    hide Whole, Absorb, Initial;
    var n := |message| - |rest|;
    assert (message + chunk)[..n] == message[..n];
    assert (message + chunk)[n..] == rest + chunk;
  }

  lemma HoldsBlock(v: Variant, words: seq<nat>, rest: seq<Byte>, message: seq<Byte>, chunk: seq<Byte>)
    requires Holds(v, words, rest, message) && |rest| + |chunk| == v.BlockSize()
    ensures AreWords(v, words) && Holds(v, Compress(v, words, rest + chunk), [], message + chunk)
  {
    hide Compress, Whole, Absorb, Initial, AreWords;
    var n := |message| - |rest|;
    AbsorbMore(v, Initial(v), message[..n], rest + chunk);
    assert message + chunk == message[..n] + (rest + chunk);
    assert (message + chunk)[..|message + chunk|] == message + chunk;
  }

  lemma ZeroCountIs(v: Variant, length: nat, r: nat)
    requires r < v.BlockSize() && r <= length && Whole(v, length - r)
    ensures ZeroCount(v, length) + r + 1 + v.CounterSize() ==
            if r + v.CounterSize() < v.BlockSize() then v.BlockSize() else 2 * v.BlockSize()
  {
    Fill(v.BlockSize(), (length - r) / v.BlockSize(), r + 1 + v.CounterSize(), length + 1 + v.CounterSize());
  }

  /** What is missing to the next multiple of `b` */
  lemma Fill(b: nat, q: nat, x: nat, n: nat)
    requires 0 < x < 2 * b && n == q * b + x
    ensures (b - n % b) % b == if x <= b then b - x else 2 * b - x
  {
    if x < b {
      Bits.DivUnique(n, b, q, x);
      Bits.DivUnique(b - x, b, 0, b - x);
    } else {
      assert (q + 1) * b == q * b + b;
      Bits.DivUnique(n, b, q + 1, x - b);
      if x == b { Bits.DivUnique(b, b, 1, 0); } else { Bits.DivUnique(2 * b - x, b, 0, 2 * b - x); }
    }
  }

  lemma CounterFits(v: Variant)
    ensures v.CounterSize() < v.BlockSize()
  {
  }

  /** The block that holds the rest of the message but has no room for the counter */
  function RestBlock(v: Variant, rest: seq<Byte>): (block: seq<Byte>)
    requires |rest| < v.BlockSize()
    ensures |block| == v.BlockSize()
  {
    rest + [0x80] + Zeros(v.BlockSize() - |rest| - 1)
  }

  /** The last block, of which all but the counter is given */
  function CounterBlock(v: Variant, before: seq<Byte>, length: nat): (block: seq<Byte>)
    requires |before| + v.CounterSize() == v.BlockSize()
    ensures |block| == v.BlockSize()
  {
    before + Store(8 * length, v.CounterSize())
  }

  /** The front of the last block, if it holds the rest of the message too */
  function RestFront(v: Variant, rest: seq<Byte>): (before: seq<Byte>)
    requires |rest| + v.CounterSize() < v.BlockSize()
    ensures |before| + v.CounterSize() == v.BlockSize()
  {
    rest + [0x80] + Zeros(v.BlockSize() - |rest| - 1 - v.CounterSize())
  }

  /** The last block, if it holds nothing but the counter */
  function LoneCounter(v: Variant, length: nat): (block: seq<Byte>)
    ensures |block| == v.BlockSize()
  {
    CounterBlock(v, Zeros(v.BlockSize() - v.CounterSize()), length)
  }

  lemma ShortPadding(v: Variant, length: nat, r: nat)
    requires r <= length && Whole(v, length - r) && r + v.CounterSize() < v.BlockSize()
    ensures Padding(v, length) ==
            [0x80] + Zeros(v.BlockSize() - r - 1 - v.CounterSize()) + Store(8 * length, v.CounterSize())
  {
    hide Whole, ZeroCount, Zeros, Store, Variant.BlockSize, Variant.CounterSize;
    ZeroCountIs(v, length, r);
  }

  /** The digest in terms of what is left over for the last block */
  lemma DigestShort(v: Variant, words: seq<nat>, rest: seq<Byte>, message: seq<Byte>)
    requires Holds(v, words, rest, message) && |rest| + v.CounterSize() < v.BlockSize()
    ensures AreWords(v, words)
    ensures Digest(v, message) == Output(v, Compress(v, words, CounterBlock(v, RestFront(v, rest), |message|)))
  {
    hide Compress, Store, Whole, Initial, AreWords, ZeroCount, Output, Absorb, Zeros, Padding, Variant.BlockSize,
      Variant.CounterSize;
    var counter := Store(8 * |message|, v.CounterSize());
    var k, n := v.BlockSize() - |rest| - 1 - v.CounterSize(), |message| - |rest|;
    ShortPadding(v, |message|, |rest|);
    var head := message[..n];
    assert message == head + rest;
    AbsorbMore(v, Initial(v), head, rest + [0x80] + Zeros(k) + counter);
    OneBlock(head, rest, [0x80], Zeros(k), counter);
  }

  lemma LongPadding(v: Variant, length: nat, r: nat)
    requires r < v.BlockSize() && r <= length && Whole(v, length - r) && r + v.CounterSize() >= v.BlockSize()
    requires v.CounterSize() <= v.BlockSize()
    ensures Padding(v, length) ==
            [0x80] + (Zeros(v.BlockSize() - r - 1) + Zeros(v.BlockSize() - v.CounterSize())) +
            Store(8 * length, v.CounterSize())
  {
    hide Whole, ZeroCount, Zeros, Store, Variant.BlockSize, Variant.CounterSize;
    ZeroCountIs(v, length, r);
    ZerosJoin(v.BlockSize() - r - 1, v.BlockSize() - v.CounterSize());
  }

  lemma AbsorbTwo(v: Variant, state: seq<nat>, m: seq<Byte>, first: seq<Byte>, second: seq<Byte>)
    requires AreWords(v, state) && Whole(v, |m|) && |first| == |second| == v.BlockSize()
    ensures Whole(v, |m + first + second|) && AreWords(v, Absorb(v, state, m))
    ensures Absorb(v, state, m + first + second) == Compress(v, Compress(v, Absorb(v, state, m), first), second)
  {
    hide Whole, Compress, AreWords, Absorb, Variant.BlockSize;
    AbsorbMore(v, state, m, first);
    AbsorbMore(v, state, m + first, second);
  }

  /** The digest in terms of what is left over for the last two blocks */
  lemma DigestLong(v: Variant, words: seq<nat>, rest: seq<Byte>, message: seq<Byte>)
    requires Holds(v, words, rest, message) && |rest| + v.CounterSize() >= v.BlockSize()
    ensures AreWords(v, words)
    ensures Digest(v, message) == Output(v,
              Compress(v, Compress(v, words, RestBlock(v, rest)), LoneCounter(v, |message|)))
  {
    hide Compress, Store, Whole, Initial, AreWords, ZeroCount, Output, Absorb, Zeros, Padding, Variant.BlockSize,
      Variant.CounterSize;
    CounterFits(v);
    var counter := Store(8 * |message|, v.CounterSize());
    var k, m, n := v.BlockSize() - |rest| - 1, v.BlockSize() - v.CounterSize(), |message| - |rest|;
    LongPadding(v, |message|, |rest|);
    var head := message[..n];
    assert message == head + rest;
    AbsorbTwo(v, Initial(v), head, rest + [0x80] + Zeros(k), Zeros(m) + counter);
    TwoBlocks(head, rest, [0x80], Zeros(k), Zeros(m), counter);
  }

  lemma OneBlock(head: seq<Byte>, rest: seq<Byte>, one: seq<Byte>, zeros: seq<Byte>, counter: seq<Byte>)
    ensures head + rest + (one + zeros + counter) == head + (rest + one + zeros + counter)
  {
  }

  lemma TwoBlocks(head: seq<Byte>, rest: seq<Byte>, one: seq<Byte>, zeros: seq<Byte>, more: seq<Byte>,
      counter: seq<Byte>)
    ensures head + rest + (one + (zeros + more) + counter) == head + (rest + one + zeros) + (more + counter)
  {
  }

  lemma {:induction false} ZerosJoin(m: nat, n: nat)
    ensures Zeros(m + n) == Zeros(m) + Zeros(n)
  {
    if n > 0 { ZerosJoin(m, n - 1); }
  }

  lemma Shortened(rest: seq<Byte>, m: nat, n: nat)
    ensures (rest + [0x80] + Zeros(m + n))[..|rest| + 1 + m] == rest + [0x80] + Zeros(m)
  {
    ZerosJoin(m, n);
  }

  class OFSHA2Hash {
    const variant: Variant
    const state: array<nat>
    const buffer: array<Byte>
    var bits0: nat
    var bits1: nat
    var bufferLength: nat
    var calculated: bool
    ghost var message: seq<Byte>

    ghost predicate Shaped()
      reads state
    {
      && state.Length == 8 && buffer.Length == variant.BlockSize() && AreWords(variant, state[..])
      && (state as object) != buffer
    }

    ghost predicate Valid()
      reads this, state, buffer
    {
      && Shaped()
      && bufferLength < variant.BlockSize()
      && if calculated then Output(variant, state[..]) == Digest(variant, message)
         else Holds(variant, state[..], buffer[..bufferLength], message) && CountsBits(variant, bits0, bits1, |message|)
    }

    constructor (variant: Variant)
      ensures Valid() && fresh(state) && fresh(buffer) && this.variant == variant
      ensures message == [] && !calculated
    {
      this.variant := variant;
      state := new nat[8](i requires 0 <= i < 8 => Initial(variant)[i]);
      buffer := new Byte[variant.BlockSize()](_ => 0);
      bits0, bits1, bufferLength, calculated, message := 0, 0, 0, false, [];
      new;
      Nothing(variant);
      assert state[..] == Initial(variant);
    }

    method ProcessBlock()
      requires Shaped()
      modifies state
      ensures state[..] == Compress(variant, old(state[..]), buffer[..])
    {
      if variant.Wide() { ProcessBlock64(); } else { ProcessBlock32(); }
    }

    method ProcessBlock64()
      requires Shaped() && variant.Wide()
      modifies state
      ensures state[..] == Compress(variant, old(state[..]), buffer[..])
    {
      hide Words64, Numbers64, BlockWords, Word64, Number64, Sha512Blocks.Compress;
      ghost var before, bytes := state[..], buffer[..];
      var words, block := Words64(state[..]), Words64(BlockWords(variant, buffer[..]));
      assert Compress(variant, before, bytes) == Numbers64(Sha512Blocks.Compress(words, block));
      var s := new bv64[8](i requires 0 <= i < 8 => words[i]);
      var w := new bv64[80](i requires 0 <= i < 80 => if i < 16 then block[i] else 0);
      assert s[..] == words && w[..16] == block;
      Sha512Blocks.ProcessBlock(s, w);
      assert s[..] == Sha512Blocks.Compress(words, block);
      var numbers := Numbers64(s[..]);
      forall i | 0 <= i < 8 { state[i] := numbers[i]; }
      assert state[..] == numbers;
      assert buffer[..] == bytes;
    }

    method ProcessBlock32()
      requires Shaped() && !variant.Wide()
      modifies state
      ensures state[..] == Compress(variant, old(state[..]), buffer[..])
    {
      hide Words32, Numbers32, BlockWords, Word32, Number32, Sha256Blocks.Compress;
      ghost var before, bytes := state[..], buffer[..];
      var words, block := Words32(state[..]), Words32(BlockWords(variant, buffer[..]));
      assert Compress(variant, before, bytes) == Numbers32(Sha256Blocks.Compress(words, block));
      var s := new bv32[8](i requires 0 <= i < 8 => words[i]);
      var w := new bv32[64](i requires 0 <= i < 64 => if i < 16 then block[i] else 0);
      assert s[..] == words && w[..16] == block;
      Sha256Blocks.ProcessBlock(s, w);
      assert s[..] == Sha256Blocks.Compress(words, block);
      var numbers := Numbers32(s[..]);
      forall i | 0 <= i < 8 { state[i] := numbers[i]; }
      assert state[..] == numbers;
      assert buffer[..] == bytes;
    }

    /** `_iVars->bits += (length * 8)` or, with two words, the same with a carry */
    method AddBits(length: nat)
      requires length <= SIZE_MAX / 8 && CountsBits(variant, bits0, bits1, |message|)
      modifies this`bits0, this`bits1
      ensures CountsBits(variant, bits0, bits1, |message| + length)
    {
      WrapOnce(8 * |message|, 8 * length, if variant.Wide() then UINT128_LIMIT else UINT64_LIMIT);
      Carry(bits0, bits1, length * 8);
      if variant.Wide() && UINT64_LIMIT - 1 - bits0 < length * 8 {
        bits1 := (bits1 + 1) % UINT64_LIMIT;
      }
      bits0 := (bits0 + length * 8) % UINT64_LIMIT;
    }

    /** One turn of the loop of `updateWithBuffer:length:` */
    method Feed(chunk: seq<Byte>, ghost before: seq<Byte>)
      requires Shaped() && bufferLength < variant.BlockSize() && bufferLength + |chunk| <= variant.BlockSize()
      requires Holds(variant, state[..], buffer[..bufferLength], before)
      modifies this`bufferLength, state, buffer
      ensures Shaped() && bufferLength < variant.BlockSize()
      ensures Holds(variant, state[..], buffer[..bufferLength], before + chunk)
    {
      hide Holds, CountsBits, AreWords, Absorb, Initial, Digest, Output, Whole, Compress;
      ghost var words, rest := state[..], buffer[..bufferLength];
      forall i | 0 <= i < |chunk| { buffer[bufferLength + i] := chunk[i]; }
      bufferLength := bufferLength + |chunk|;
      assert buffer[..bufferLength] == rest + chunk && state[..] == words;
      if bufferLength == variant.BlockSize() {
        HoldsBlock(variant, words, rest, before, chunk);
        assert buffer[..] == rest + chunk;
        ProcessBlock();
        bufferLength := 0;
        assert buffer[..0] == [];
      } else {
        HoldsMore(variant, words, rest, before, chunk);
      }
    }

    method UpdateWithBuffer(data: seq<Byte>) returns (status: Status)
      requires Valid()
      modifies this, state, buffer
      ensures Valid() && calculated == old(calculated)
      ensures status == if old(calculated) then AlreadyCalculated else if |data| > SIZE_MAX / 8 then OutOfRange else Ok
      ensures message == if status == Ok then old(message) + data else old(message)
    {
      hide Holds, CountsBits, AreWords, Absorb, Initial, Digest, Output, Whole, Compress;
      if calculated { return AlreadyCalculated; }
      if |data| > SIZE_MAX / 8 { return OutOfRange; }
      AddBits(|data|);
      var i := 0;
      assert message + data[..0] == message;
      while i < |data|
        invariant 0 <= i <= |data| && Shaped() && bufferLength < variant.BlockSize() && !calculated
          && message == old(message)
        invariant Holds(variant, state[..], buffer[..bufferLength], message + data[..i])
        invariant CountsBits(variant, bits0, bits1, |message| + |data|)
      {
        var min := variant.BlockSize() - bufferLength;
        if min > |data| - i { min := |data| - i; }
        assert message + data[..i] + data[i..i + min] == message + data[..i + min];
        Feed(data[i..i + min], message + data[..i]);
        i := i + min;
      }
      assert data[..i] == data;
      message := message + data;
      return Ok;
    }

    /** `memset` of the buffer from `from` on */
    method Clear(from: nat)
      requires from <= buffer.Length && (state as object) != buffer
      modifies buffer
      ensures buffer[..] == old(buffer[..from]) + Zeros(buffer.Length - from)
    {
      forall i | from <= i < buffer.Length { buffer[i] := 0; }
    }

    method StoreCounter(ghost length: nat)
      requires Shaped() && CountsBits(variant, bits0, bits1, length)
      modifies buffer
      ensures buffer[..] == old(buffer[..variant.BlockSize() - variant.CounterSize()])
        + Store(8 * length, variant.CounterSize())
    {
      StoredCounters(variant, bits0, bits1, length);
      var bytes := if variant.Wide() then Store(bits1, 8) + Store(bits0, 8)
                   else Store(bits0 / 0x1_0000_0000, 4) + Store(bits0 % 0x1_0000_0000, 4);
      var from := variant.BlockSize() - variant.CounterSize();
      forall i | from <= i < buffer.Length { buffer[i] := bytes[i - from]; }
    }

    /** `digest`: the first bytes of the state, most significant byte first */
    method GetDigest() returns (digest: seq<Byte>)
      requires Valid()
      modifies this`calculated, state, buffer
      ensures Valid() && calculated && digest == Digest(variant, message)
    {
      hide Holds, CountsBits, AreWords, Absorb, Initial, Digest, Output, Whole, Compress;
      if calculated { return Output(variant, state[..]); }
      Finish();
      calculated := true;
      return Output(variant, state[..]);
    }

    /** `digest` without its first and its last line */
    method Finish()
      requires Valid() && !calculated
      modifies state, buffer
      ensures Shaped() && Output(variant, state[..]) == Digest(variant, message)
    {
      hide Holds, CountsBits, AreWords, Absorb, Initial, Digest, Output, Whole, Compress;
      hide Store, Zeros;
      ghost var rest, words := buffer[..bufferLength], state[..];
      var b, r, c := variant.BlockSize(), bufferLength, variant.CounterSize();
      if r >= b - c { DigestLong(variant, words, rest, message); } else { DigestShort(variant, words, rest, message); }
      hide OFSHA2Hash.Valid, Variant.BlockSize, Variant.CounterSize;
      buffer[r] := 0x80;
      assert buffer[..r + 1] == rest + [0x80] && state[..] == words;
      Clear(r + 1);
      MakeRoom(rest);
      StoreCounter(|message|);
      ProcessBlock();
      Clear(0);
    }

    /** Without room for the counter behind the rest of the message, it gets a block of its own. */
    method MakeRoom(ghost rest: seq<Byte>)
      requires Shaped() && bufferLength == |rest| < variant.BlockSize() && variant.CounterSize() < variant.BlockSize()
      requires buffer[..] == rest + [0x80] + Zeros(variant.BlockSize() - |rest| - 1)
      modifies state, buffer
      ensures Shaped()
      ensures var b, c := variant.BlockSize(), variant.CounterSize();
              if |rest| >= b - c then
                buffer[..b - c] == Zeros(b - c) && state[..] == Compress(variant, old(state[..]), old(buffer[..]))
              else buffer[..b - c] == rest + [0x80] + Zeros(b - |rest| - 1 - c) && state[..] == old(state[..])
    {
      hide AreWords, Compress, Zeros, Variant.BlockSize, Variant.CounterSize;
      var b, c := variant.BlockSize(), variant.CounterSize();
      if bufferLength >= b - c {
        ProcessBlock();
        Clear(0);
        assert buffer[..b - c] == Zeros(b - c) by { ZerosJoin(b - c, c); }
      } else {
        Shortened(rest, b - bufferLength - 1 - c, c);
      }
    }

    method Reset()
      requires Valid()
      modifies this, state, buffer
      ensures Valid() && message == [] && !calculated
    {
      Nothing(variant);
      hide Holds, CountsBits, AreWords, Absorb, Initial, Digest, Output, Whole, Compress;
      var initial := Initial(variant);
      forall i | 0 <= i < 8 { state[i] := initial[i]; }
      assert state[..] == initial;
      Clear(0);
      bits0, bits1, bufferLength, calculated, message := 0, 0, 0, false, [];
    }

    constructor Copy(other: OFSHA2Hash)
      requires other.Valid()
      ensures Valid() && fresh(state) && fresh(buffer) && variant == other.variant
      ensures message == other.message && calculated == other.calculated
    {
      hide Holds, CountsBits, AreWords, Absorb, Initial, Digest, Output, Whole, Compress;
      variant := other.variant;
      var words, bytes := other.state[..], other.buffer[..];
      state := new nat[8](i requires 0 <= i < 8 => words[i]);
      buffer := new Byte[other.variant.BlockSize()](i requires 0 <= i < |bytes| => bytes[i]);
      bits0, bits1, bufferLength := other.bits0, other.bits1, other.bufferLength;
      calculated, message := other.calculated, other.message;
      new;
      assert state[..] == words && buffer[..] == bytes;
      assert buffer[..bufferLength] == other.buffer[..bufferLength];
    }
  }
}
