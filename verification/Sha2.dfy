// SHA-224, SHA-256, SHA-384 and SHA-512 as FIPS 180-4 defines them, for messages of whole bytes.

module Sha2 {
  import Bits
  import opened Bytes
  import Sha256Blocks
  import Sha512Blocks

  datatype Variant = SHA224 | SHA256 | SHA384 | SHA512 {
    predicate Wide() { SHA384? || SHA512? }

    function WordSize(): nat { if Wide() then 8 else 4 }

    function BlockSize(): nat { 16 * WordSize() }

    /** The bytes that the length of the message takes at the end of the padding. */
    function CounterSize(): nat { 2 * WordSize() }

    function DigestSize(): nat
    {
      match this
      case SHA224 => 28
      case SHA256 => 32
      case SHA384 => 48
      case SHA512 => 64
    }
  }

  /** Section 5.3 of FIPS 180-4 */
  function Initial(v: Variant): (words: seq<nat>)
    ensures |words| == 8 && AreWords(v, words)
  {
    match v
    case SHA224 =>
      [0xC1059ED8, 0x367CD507, 0x3070DD17, 0xF70E5939, 0xFFC00B31, 0x68581511, 0x64F98FA7, 0xBEFA4FA4]
    case SHA256 =>
      [0x6A09E667, 0xBB67AE85, 0x3C6EF372, 0xA54FF53A, 0x510E527F, 0x9B05688C, 0x1F83D9AB, 0x5BE0CD19]
    case SHA384 =>
      [0xCBBB9D5DC1059ED8, 0x629A292A367CD507, 0x9159015A3070DD17, 0x152FECD8F70E5939,
       0x67332667FFC00B31, 0x8EB44A8768581511, 0xDB0C2E0D64F98FA7, 0x47B5481DBEFA4FA4]
    case SHA512 =>
      [0x6A09E667F3BCC908, 0xBB67AE8584CAA73B, 0x3C6EF372FE94F82B, 0xA54FF53A5F1D36F1,
       0x510E527FADE682D1, 0x9B05688C2B3E6C1F, 0x1F83D9ABFB41BD6B, 0x5BE0CD19137E2179]
  }

  ghost predicate AreWords(v: Variant, words: seq<nat>)
  {
    |words| == 8 && forall i :: 0 <= i < 8 ==> words[i] < Pow256(v.WordSize())
  }

  /** The words of a block, most significant byte first: section 3.1 of FIPS 180-4 */
  function BlockWord(v: Variant, block: seq<Byte>, i: nat): (n: nat)
    requires |block| == v.BlockSize() && i < 16
    ensures n < Pow256(v.WordSize())
  {
    Load(block[v.WordSize() * i..v.WordSize() * i + v.WordSize()])
  }

  function BlockWords(v: Variant, block: seq<Byte>): (words: seq<nat>)
    requires |block| == v.BlockSize()
    ensures |words| == 16 && forall i :: 0 <= i < 16 ==> words[i] == BlockWord(v, block, i)
  {
    seq(16, i requires 0 <= i < 16 => BlockWord(v, block, i))
  }

  function Word32(n: nat): bv32
    requires n < Pow256(4)
  {
    n as bv32
  }

  function Word64(n: nat): bv64
    requires n < Pow256(8)
  {
    n as bv64
  }

  function Number32(w: bv32): (n: nat)
    ensures n < Pow256(4)
  {
    w as nat
  }

  function Number64(w: bv64): (n: nat)
    ensures n < Pow256(8)
  {
    w as nat
  }

  function Words32(numbers: seq<nat>): (words: seq<bv32>)
    requires forall i :: 0 <= i < |numbers| ==> numbers[i] < Pow256(4)
    ensures |words| == |numbers| && forall i :: 0 <= i < |words| ==> words[i] == Word32(numbers[i])
  {
    seq(|numbers|, i requires 0 <= i < |numbers| => Word32(numbers[i]))
  }

  function Words64(numbers: seq<nat>): (words: seq<bv64>)
    requires forall i :: 0 <= i < |numbers| ==> numbers[i] < Pow256(8)
    ensures |words| == |numbers| && forall i :: 0 <= i < |words| ==> words[i] == Word64(numbers[i])
  {
    seq(|numbers|, i requires 0 <= i < |numbers| => Word64(numbers[i]))
  }

  function Numbers32(words: seq<bv32>): (numbers: seq<nat>)
    ensures |numbers| == |words| && forall i :: 0 <= i < |words| ==> numbers[i] == Number32(words[i])
  {
    seq(|words|, i requires 0 <= i < |words| => Number32(words[i]))
  }

  function Numbers64(words: seq<bv64>): (numbers: seq<nat>)
    ensures |numbers| == |words| && forall i :: 0 <= i < |words| ==> numbers[i] == Number64(words[i])
  {
    seq(|words|, i requires 0 <= i < |words| => Number64(words[i]))
  }

  /** What one block does to the state: section 6.2.2 or 6.4.2 of FIPS 180-4 */
  ghost function Compress(v: Variant, state: seq<nat>, block: seq<Byte>): (r: seq<nat>)
    requires AreWords(v, state) && |block| == v.BlockSize()
    ensures AreWords(v, r)
  {
    if v.Wide() then Numbers64(Sha512Blocks.Compress(Words64(state), Words64(BlockWords(v, block))))
    else Numbers32(Sha256Blocks.Compress(Words32(state), Words32(BlockWords(v, block))))
  }

  /** So many bytes are whole blocks. */
  predicate Whole(v: Variant, length: int)
  {
    length % v.BlockSize() == 0
  }

  lemma WholeNext(v: Variant, length: int)
    ensures Whole(v, length + v.BlockSize()) <==> Whole(v, length)
  {
  }

  /** The state after the blocks of `m` */
  ghost function Absorb(v: Variant, state: seq<nat>, m: seq<Byte>): (r: seq<nat>)
    requires AreWords(v, state) && Whole(v, |m|)
    ensures AreWords(v, r)
  {
    if m == [] then state
    else
      var n := |m| - v.BlockSize();
      WholeNext(v, n);
      Compress(v, Absorb(v, state, m[..n]), m[n..])
  }

  function Zeros(n: nat): (s: seq<Byte>)
    ensures |s| == n && forall i :: 0 <= i < n ==> s[i] == 0
  {
    if n == 0 then [] else Zeros(n - 1) + [0]
  }

  /** The fewest zeros after which the length fits the end of a block. */
  function ZeroCount(v: Variant, length: nat): (k: nat)
    ensures k < v.BlockSize() && (length + 1 + k + v.CounterSize()) % v.BlockSize() == 0
  {
    FillsUp(length + 1 + v.CounterSize(), v.BlockSize());
    (v.BlockSize() - (length + 1 + v.CounterSize()) % v.BlockSize()) % v.BlockSize()
  }

  lemma FillsUp(x: nat, b: nat)
    requires b > 0
    ensures var k := (b - x % b) % b; k < b && (x + k) % b == 0
  {
    var q, r := x / b, x % b;
    assert x == q * b + r;
    if r == 0 {
      Bits.DivUnique(b, b, 1, 0);
    } else {
      Bits.DivUnique(b - r, b, 0, b - r);
      assert (q + 1) * b == q * b + b;
      Bits.DivUnique(x + (b - r), b, q + 1, 0);
    }
  }

  /** Section 5.1 of FIPS 180-4; the length is kept modulo 2 to the power of 64 or 128. */
  function Padding(v: Variant, length: nat): (p: seq<Byte>)
    ensures Whole(v, length + |p|)
  {
    [0x80] + Zeros(ZeroCount(v, length)) + Store(8 * length, v.CounterSize())
  }

  function Output(v: Variant, state: seq<nat>): (d: seq<Byte>)
    requires |state| == 8
    ensures |d| == v.DigestSize()
  {
    (Store(state[0], v.WordSize()) + Store(state[1], v.WordSize()) + Store(state[2], v.WordSize())
      + Store(state[3], v.WordSize())
     + Store(state[4], v.WordSize()) + Store(state[5], v.WordSize()) + Store(state[6], v.WordSize())
       + Store(state[7], v.WordSize()))
    [..v.DigestSize()]
  }

  ghost function Digest(v: Variant, message: seq<Byte>): (d: seq<Byte>)
    ensures |d| == v.DigestSize()
  {
    Output(v, Absorb(v, Initial(v), message + Padding(v, |message|)))
  }

  // Laws

  lemma {:induction false} StoreJoins(high: nat, low: nat, a: nat, b: nat)
    requires low < Pow256(b)
    ensures Store(high * Pow256(b) + low, a + b) == Store(high, a) + Store(low, b)
  {
    if b == 0 {
      assert Store(low, 0) == [];
    } else {
      var n := high * Pow256(b) + low;
      Shifted(high, Pow256(b - 1), low);
      StoreJoins(high, low / 256, a, b - 1);
    }
  }

  lemma Shifted(high: nat, p: nat, low: nat)
    ensures (high * (256 * p) + low) / 256 == high * p + low / 256
    ensures (high * (256 * p) + low) % 256 == low % 256
  {
    assert high * (256 * p) == 256 * (high * p);
  }

  /** Stored bytes do not depend on what is above them. */
  lemma {:induction false} StoreWraps(n: nat, k: nat, size: nat)
    ensures Store(n + k * Pow256(size), size) == Store(n, size)
  {
    if size > 0 {
      Shifted(k, Pow256(size - 1), n);
      StoreWraps(n / 256, k, size - 1);
    }
  }

  lemma AbsorbMore(v: Variant, state: seq<nat>, m: seq<Byte>, block: seq<Byte>)
    requires AreWords(v, state) && Whole(v, |m|) && |block| == v.BlockSize()
    ensures Whole(v, |m + block|)
    ensures Absorb(v, state, m + block) == Compress(v, Absorb(v, state, m), block)
  {
    hide Whole, Compress, AreWords;
    WholeNext(v, |m|);
    assert (m + block)[..|m|] == m && (m + block)[|m|..] == block;
  }
}
