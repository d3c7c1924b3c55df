// Published digests: what FIPS 180-4 makes of "abc" in each variant, worked out from the rounds.

module Sha2Examples {
  import Bits
  import opened Bytes
  import opened Sha2
  import opened Sha2Hashes
  import Sha256Blocks
  import Sha256Traces
  import Sha512Blocks
  import Sha512Traces

  // Words and their bytes

  /** The bytes of numbers of `size` bytes each */
  function BytesOf(numbers: seq<nat>, size: nat): (bytes: seq<Byte>)
    ensures |bytes| == size * |numbers|
  {
    if numbers == [] then []
    else
      var n := |numbers| - 1;
      assert size * |numbers| == size * n + size;
      BytesOf(numbers[..n], size) + Store(numbers[n], size)
  }

  lemma {:induction false} BytesJoin(a: seq<nat>, b: seq<nat>, size: nat)
    ensures BytesOf(a + b, size) == BytesOf(a, size) + BytesOf(b, size)
  {
    hide Store;
    if b == [] {
      assert a + b == a;
    } else {
      var n := |b| - 1;
      assert (a + b)[..|a| + n] == a + b[..n];
      BytesJoin(a, b[..n], size);
    }
  }

  function Copies(n: nat): (numbers: seq<nat>)
    ensures |numbers| == n && forall i :: 0 <= i < n ==> numbers[i] == 0
  {
    if n == 0 then [] else Copies(n - 1) + [0]
  }

  lemma {:induction false} StoredZero(size: nat)
    ensures Store(0, size) == Zeros(size)
  {
    if size > 0 { StoredZero(size - 1); }
  }

  lemma {:induction false} ZeroBytes(n: nat, size: nat)
    ensures BytesOf(Copies(n), size) == Zeros(size * n)
  {
    hide Store, Zeros;
    if n == 0 {
      assert size * 0 == 0;
      NoZeros();
    } else {
      ZeroBytes(n - 1, size);
      StoredZero(size);
      assert Copies(n)[..n - 1] == Copies(n - 1) && size * n == size * (n - 1) + size;
      ZerosJoin(size * (n - 1), size);
    }
  }

  lemma NoZeros()
    ensures Zeros(0) == []
  {
  }

  lemma {:induction false} BytesAt(numbers: seq<nat>, size: nat, i: nat)
    requires i < |numbers|
    ensures 0 <= size * i <= size * i + size <= size * |numbers|
    ensures BytesOf(numbers, size)[size * i..size * i + size] == Store(numbers[i], size)
  {
    hide Store;
    var n := |numbers| - 1;
    Bits.Monotone(i + 1, |numbers|, size);
    Bits.Monotone(0, i, size);
    assert size * (i + 1) == size * i + size && size * n + size == size * |numbers|;
    if i < n {
      BytesAt(numbers[..n], size, i);
      var front := BytesOf(numbers[..n], size);
      assert BytesOf(numbers, size)[..|front|] == front;
      assert front[size * i..size * i + size] == BytesOf(numbers, size)[size * i..size * i + size];
    }
  }

  lemma BlockOf(v: Variant, numbers: seq<nat>)
    requires |numbers| == 16 && forall i :: 0 <= i < 16 ==> numbers[i] < Pow256(v.WordSize())
    ensures |BytesOf(numbers, v.WordSize())| == v.BlockSize()
    ensures BlockWords(v, BytesOf(numbers, v.WordSize())) == numbers
  {
    hide BytesOf, Load, Store, Pow256;
    var k := v.WordSize();
    assert k * 16 == v.BlockSize();
    forall i | 0 <= i < 16 ensures BlockWord(v, BytesOf(numbers, k), i) == numbers[i] {
      BytesAt(numbers, k, i);
      LoadStore(numbers[i], k);
    }
  }

  lemma Back32(w: bv32)
    ensures Word32(Number32(w)) == w
  {
  }

  lemma Back64(w: bv64)
    ensures Word64(Number64(w)) == w
  {
  }

  lemma WordsBack32(words: seq<bv32>)
    ensures Words32(Numbers32(words)) == words
  {
    hide Word32, Number32, Pow256;
    forall i | 0 <= i < |words| ensures Words32(Numbers32(words))[i] == words[i] { Back32(words[i]); }
  }

  lemma WordsBack64(words: seq<bv64>)
    ensures Words64(Numbers64(words)) == words
  {
    hide Word64, Number64, Pow256;
    forall i | 0 <= i < |words| ensures Words64(Numbers64(words))[i] == words[i] { Back64(words[i]); }
  }

  /** A trace, in numbers and bytes */
  lemma Compressed32(v: Variant, e: Sha256Traces.Example)
    requires !v.Wide()
    ensures var block := BytesOf(Numbers32(Sha256Traces.Block(Sha256Traces.MessageOf(e))), 4);
            && AreWords(v, Numbers32(Sha256Traces.States(e, 0))) && |block| == v.BlockSize()
            && Compress(v, Numbers32(Sha256Traces.States(e, 0)), block) ==
               Numbers32(Sha256Traces.States(e, Sha256Traces.ROWS + 1))
  {
    hide BytesOf, Numbers32, Words32, BlockWords, Pow256, Sha256Traces.Block, Sha256Traces.States,
      Sha256Traces.MessageOf,
      Sha256Blocks.Compress;
    var block := Sha256Traces.Block(Sha256Traces.MessageOf(e));
    BlockOf(v, Numbers32(block));
    WordsBack32(block);
    WordsBack32(Sha256Traces.States(e, 0));
    Sha256Traces.TraceCompresses(e);
  }

  lemma Compressed64(v: Variant, e: Sha512Traces.Example)
    requires v.Wide()
    ensures var block := BytesOf(Numbers64(Sha512Traces.Block(Sha512Traces.MessageOf(e))), 8);
            && AreWords(v, Numbers64(Sha512Traces.States(e, 0))) && |block| == v.BlockSize()
            && Compress(v, Numbers64(Sha512Traces.States(e, 0)), block) ==
               Numbers64(Sha512Traces.States(e, Sha512Traces.ROWS + 1))
  {
    hide BytesOf, Numbers64, Words64, BlockWords, Pow256, Sha512Traces.Block, Sha512Traces.States,
      Sha512Traces.MessageOf,
      Sha512Blocks.Compress;
    var block := Sha512Traces.Block(Sha512Traces.MessageOf(e));
    BlockOf(v, Numbers64(block));
    WordsBack64(block);
    WordsBack64(Sha512Traces.States(e, 0));
    Sha512Traces.TraceCompresses(e);
  }

  // The last block

  lemma LastNumbers(front: seq<nat>, n: nat, last: nat, size: nat)
    ensures BytesOf(front + Copies(n) + [last], size) == BytesOf(front, size) + Zeros(size * n) + Store(last, size)
  {
    hide BytesOf, Store, Zeros, Copies;
    BytesJoin(front + Copies(n), [last], size);
    BytesJoin(front, Copies(n), size);
    ZeroBytes(n, size);
    OneNumber(last, size);
  }

  lemma SmallNumber(number: nat, size: nat)
    requires number < Pow256(size)
    ensures Store(number, 2 * size) == Zeros(size) + Store(number, size)
  {
    hide Store, Zeros, Pow256;
    assert 0 * Pow256(size) + number == number;
    StoreJoins(0, number, size, size);
    StoredZero(size);
  }

  lemma MoreZeros(rest: seq<Byte>, a: nat, b: nat, c: nat, end: seq<Byte>)
    ensures rest + [0x80] + Zeros(a) + Zeros(b + c) + end == rest + [0x80] + Zeros(a + b) + (Zeros(c) + end)
  {
    ZerosJoin(a, b + c);
    ZerosJoin(a + b, c);
    assert a + (b + c) == (a + b) + c;
    hide Zeros;
  }

  lemma LastSizes(v: Variant, front: nat, n: nat, rest: nat, zeros: nat)
    requires front + n + 1 == 16 && 0 < n && v.WordSize() * front == rest + 1 + zeros
    ensures v.WordSize() * n == v.WordSize() * (n - 1) + v.WordSize() && v.CounterSize() == 2 * v.WordSize()
    ensures zeros + v.WordSize() * (n - 1) == v.BlockSize() - rest - 1 - v.CounterSize()
    ensures rest + v.CounterSize() < v.BlockSize()
  {
    var k := v.WordSize();
    assert k * n == k * (n - 1) + k && k * 16 == k * front + k * n + k;
    assert 0 <= k * (n - 1);
  }

  lemma FrontAndCounter(v: Variant, rest: seq<Byte>, zeros: nat, more: nat, k: nat, last: seq<Byte>, length: nat)
    requires |rest| + v.CounterSize() < v.BlockSize() && zeros + more == v.BlockSize() - |rest| - 1 - v.CounterSize()
    requires Store(8 * length, v.CounterSize()) == Zeros(k) + last
    ensures rest + [0x80] + Zeros(zeros) + Zeros(more + k) + last == CounterBlock(v, RestFront(v, rest), length)
  {
    hide Store, Zeros, Variant.BlockSize, Variant.CounterSize;
    MoreZeros(rest, zeros, more, k, last);
  }

  /** Words that hold the rest of a message and the byte behind it, words of zeros, and the length in bits */
  lemma LastBlock(v: Variant, front: seq<nat>, n: nat, rest: seq<Byte>, zeros: nat, length: nat)
    requires |front| + n + 1 == 16 && 0 < n && 8 * length < Pow256(v.WordSize())
    requires BytesOf(front, v.WordSize()) == rest + [0x80] + Zeros(zeros)
    ensures |rest| + v.CounterSize() < v.BlockSize()
    ensures BytesOf(front + Copies(n) + [8 * length], v.WordSize()) == CounterBlock(v, RestFront(v, rest), length)
  {
    hide BytesOf, Store, Zeros, Copies, Pow256, CounterBlock, RestFront, Variant.BlockSize, Variant.CounterSize;
    var k := v.WordSize();
    assert |BytesOf(front, k)| == |rest| + 1 + zeros;
    LastSizes(v, |front|, n, |rest|, zeros);
    LastNumbers(front, n, 8 * length, k);
    SmallNumber(8 * length, k);
    FrontAndCounter(v, rest, zeros, k * (n - 1), k, Store(8 * length, k), length);
  }

  lemma OneNumber(number: nat, size: nat)
    ensures BytesOf([number], size) == Store(number, size)
  {
    hide Store;
    assert [number][..0] == [] && BytesOf([], size) == [];
  }

  lemma {:induction false} FirstBytes(s: seq<nat>, k: nat, n: nat)
    requires n < |s|
    ensures BytesOf(s[..n + 1], k) == BytesOf(s[..n], k) + Store(s[n], k)
  {
    hide Store;
    assert s[..n + 1][..n] == s[..n];
  }

  lemma FourNumbers(a: nat, b: nat, c: nat, d: nat, k: nat)
    ensures BytesOf([a, b, c, d], k) == Store(a, k) + Store(b, k) + Store(c, k) + Store(d, k)
  {
    hide Store, BytesOf;
    var s := [a, b, c, d];
    OneNumber(a, k);
    FirstBytes(s, k, 1);
    FirstBytes(s, k, 2);
    FirstBytes(s, k, 3);
    assert s[..1] == [a] && s[..4] == s;
  }

  lemma EightNumbers(s: seq<nat>, k: nat)
    requires |s| == 8
    ensures BytesOf(s, k) == Store(s[0], k) + Store(s[1], k) + Store(s[2], k) + Store(s[3], k)
      + (Store(s[4], k) + Store(s[5], k) + Store(s[6], k) + Store(s[7], k))
  {
    hide Store, BytesOf;
    FourNumbers(s[0], s[1], s[2], s[3], k);
    FourNumbers(s[4], s[5], s[6], s[7], k);
    BytesJoin([s[0], s[1], s[2], s[3]], [s[4], s[5], s[6], s[7]], k);
    assert s == [s[0], s[1], s[2], s[3]] + [s[4], s[5], s[6], s[7]];
  }

  lemma Grouped(a: seq<Byte>, b: seq<Byte>, c: seq<Byte>, d: seq<Byte>, e: seq<Byte>)
    ensures a + b + c + d + e == a + (b + c + d + e)
  {
  }

  lemma OutputOf(v: Variant, s: seq<nat>)
    requires |s| == 8
    ensures Output(v, s) == BytesOf(s, v.WordSize())[..v.DigestSize()]
  {
    hide Store, BytesOf, Variant.WordSize, Variant.DigestSize;
    var k := v.WordSize();
    EightNumbers(s, k);
    Grouped(Store(s[0], k) + Store(s[1], k) + Store(s[2], k) + Store(s[3], k),
      Store(s[4], k), Store(s[5], k), Store(s[6], k), Store(s[7], k));
  }

  /** A digest whose last block is traced */
  lemma Traced32(v: Variant, e: Sha256Traces.Example, front: seq<nat>, n: nat, rest: seq<Byte>, zeros: nat,
      message: seq<Byte>)
    requires !v.Wide() && Holds(v, Numbers32(Sha256Traces.States(e, 0)), rest, message)
    requires |front| + n + 1 == 16 && 0 < n && 8 * |message| < Pow256(4)
    requires BytesOf(front, 4) == rest + [0x80] + Zeros(zeros)
    requires Numbers32(Sha256Traces.Block(Sha256Traces.MessageOf(e))) == front + Copies(n) + [8 * |message|]
    ensures Digest(v, message) ==
            BytesOf(Numbers32(Sha256Traces.States(e, Sha256Traces.ROWS + 1)), 4)[..v.DigestSize()]
  {
    hide BytesOf, Numbers32, Zeros, Copies, Pow256, Digest, Output, Compress, Holds, AreWords, CounterBlock, RestFront,
      Sha256Traces.Block, Sha256Traces.States, Sha256Traces.MessageOf, Variant.BlockSize, Variant.CounterSize,
      Variant.DigestSize;
    LastBlock(v, front, n, rest, zeros, |message|);
    DigestShort(v, Numbers32(Sha256Traces.States(e, 0)), rest, message);
    Compressed32(v, e);
    OutputOf(v, Numbers32(Sha256Traces.States(e, Sha256Traces.ROWS + 1)));
  }

  lemma Traced64(v: Variant, e: Sha512Traces.Example, front: seq<nat>, n: nat, rest: seq<Byte>, zeros: nat,
      message: seq<Byte>)
    requires v.Wide() && Holds(v, Numbers64(Sha512Traces.States(e, 0)), rest, message)
    requires |front| + n + 1 == 16 && 0 < n && 8 * |message| < Pow256(8)
    requires BytesOf(front, 8) == rest + [0x80] + Zeros(zeros)
    requires Numbers64(Sha512Traces.Block(Sha512Traces.MessageOf(e))) == front + Copies(n) + [8 * |message|]
    ensures Digest(v, message) ==
            BytesOf(Numbers64(Sha512Traces.States(e, Sha512Traces.ROWS + 1)), 8)[..v.DigestSize()]
  {
    hide BytesOf, Numbers64, Zeros, Copies, Pow256, Digest, Output, Compress, Holds, AreWords, CounterBlock, RestFront,
      Sha512Traces.Block, Sha512Traces.States, Sha512Traces.MessageOf, Variant.BlockSize, Variant.CounterSize,
      Variant.DigestSize;
    LastBlock(v, front, n, rest, zeros, |message|);
    DigestShort(v, Numbers64(Sha512Traces.States(e, 0)), rest, message);
    Compressed64(v, e);
    OutputOf(v, Numbers64(Sha512Traces.States(e, Sha512Traces.ROWS + 1)));
  }

  // Numbers written out

  function OfBytes(a: nat, b: nat, c: nat, d: nat): nat
  {
    0x1000000 * a + 0x10000 * b + 0x100 * c + d
  }

  function Four(bytes: seq<Byte>, i: nat): nat
    requires i + 4 <= |bytes|
  {
    OfBytes(bytes[i], bytes[i + 1], bytes[i + 2], bytes[i + 3])
  }

  lemma StoreMore(n: nat, last: Byte, size: nat)
    ensures Store(256 * n + last, size + 1) == Store(n, size) + [last]
  {
    assert (256 * n + last) / 256 == n && (256 * n + last) % 256 == last;
  }

  lemma MoreBytes(n: nat, size: nat, a: Byte, b: Byte, c: Byte, d: Byte)
    ensures Store(0x1_0000_0000 * n + 0x1000000 * a + 0x10000 * b + 0x100 * c + d, size + 4) ==
            Store(n, size) + [a, b, c, d]
  {
    hide Store;
    var n1, n2, n3 := 256 * n + a, 256 * (256 * n + a) + b, 256 * (256 * (256 * n + a) + b) + c;
    StoreMore(n, a, size);
    StoreMore(n1, b, size + 1);
    StoreMore(n2, c, size + 2);
    StoreMore(n3, d, size + 3);
    assert Store(n, size) + [a] + [b] + [c] + [d] == Store(n, size) + [a, b, c, d];
  }

  lemma FourBytes(bytes: seq<Byte>, i: nat)
    requires i + 4 <= |bytes|
    ensures Store(Four(bytes, i), 4) == bytes[i..i + 4]
  {
    hide Store;
    MoreBytes(0, 0, bytes[i], bytes[i + 1], bytes[i + 2], bytes[i + 3]);
    assert |Store(0, 0)| == 0;
  }

  lemma EightBytes(bytes: seq<Byte>, i: nat)
    requires i + 8 <= |bytes|
    ensures Store(0x1_0000_0000 * Four(bytes, i) + Four(bytes, i + 4), 8) == bytes[i..i + 8]
  {
    hide Store;
    FourBytes(bytes, i);
    MoreBytes(Four(bytes, i), 4, bytes[i + 4], bytes[i + 5], bytes[i + 6], bytes[i + 7]);
  }

  lemma FourWithin(bytes: seq<Byte>, n: nat, i: nat)
    requires i + 4 <= n <= |bytes|
    ensures Four(bytes[..n], i) == Four(bytes, i)
  {
  }

  lemma {:induction false} Written32(numbers: seq<nat>, bytes: seq<Byte>)
    requires |bytes| == 4 * |numbers|
    requires forall i :: 0 <= i < |numbers| ==> numbers[i] == Four(bytes, 4 * i)
    ensures BytesOf(numbers, 4) == bytes
  {
    hide Store, Four;
    if numbers != [] {
      var n := |numbers| - 1;
      forall i | 0 <= i < n ensures numbers[..n][i] == Four(bytes[..4 * n], 4 * i) { FourWithin(bytes, 4 * n, 4 * i); }
      Written32(numbers[..n], bytes[..4 * n]);
      FourBytes(bytes, 4 * n);
      assert bytes == bytes[..4 * n] + bytes[4 * n..4 * n + 4];
    }
  }

  lemma {:induction false} Written64(numbers: seq<nat>, bytes: seq<Byte>)
    requires |bytes| == 8 * |numbers|
    requires forall i :: 0 <= i < |numbers| ==>
                           numbers[i] == 0x1_0000_0000 * Four(bytes, 8 * i) + Four(bytes, 8 * i + 4)
    ensures BytesOf(numbers, 8) == bytes
  {
    hide Store, Four;
    if numbers != [] {
      var n := |numbers| - 1;
      var front := bytes[..8 * n];
      forall i | 0 <= i < n
        ensures numbers[..n][i] == 0x1_0000_0000 * Four(front, 8 * i) + Four(front, 8 * i + 4)
      {
        FourWithin(bytes, 8 * n, 8 * i);
        FourWithin(bytes, 8 * n, 8 * i + 4);
      }
      Written64(numbers[..n], front);
      EightBytes(bytes, 8 * n);
      assert bytes == front + bytes[8 * n..8 * n + 8];
    }
  }

  // "abc"

  const ABC: seq<Byte> := [0x61, 0x62, 0x63]

  lemma HoldsAbc(v: Variant)
    ensures Holds(v, Initial(v), ABC, ABC)
  {
    hide Holds, Initial;
    Nothing(v);
    HoldsMore(v, Initial(v), [], [], ABC);
    assert [] + ABC == ABC;
  }

  lemma AbcRows32()
    ensures Numbers32(Sha256Traces.AbcWords(0)) == [0x61626380, 0, 0, 0, 0, 0, 0, 0]
    ensures Numbers32(Sha256Traces.AbcWords(1)) == [0, 0, 0, 0, 0, 0, 0, 24]
  {
    hide Pow256;
  }

  lemma AbcNumbers32()
    ensures Numbers32(Sha256Traces.Block(Sha256Traces.Abc)) == [0x61626380] + Copies(14) + [24]
  {
    hide Pow256, Number32, Sha256Traces.AbcWords;
    AbcRows32();
    assert Numbers32(Sha256Traces.AbcWords(0) + Sha256Traces.AbcWords(1)) ==
           Numbers32(Sha256Traces.AbcWords(0)) + Numbers32(Sha256Traces.AbcWords(1));
  }

  lemma AbcBlock32()
    ensures Numbers32(Sha256Traces.Block(Sha256Traces.Abc)) == [0x61626380] + Copies(14) + [24]
    ensures BytesOf([0x61626380], 4) == ABC + [0x80] + Zeros(0)
  {
    hide Pow256, BytesOf, Numbers32, Sha256Traces.Block;
    AbcNumbers32();
    Written32([0x61626380], ABC + [0x80] + Zeros(0));
  }

  lemma Begins224()
    ensures Numbers32(Sha256Traces.Abc224States(0)) == Initial(SHA224)
  {
    hide Pow256;
    assert Numbers32(Sha256Traces.Abc224States(0)) ==
           [0xC1059ED8, 0x367CD507, 0x3070DD17, 0xF70E5939, 0xFFC00B31, 0x68581511, 0x64F98FA7, 0xBEFA4FA4];
  }

  lemma Ends224()
    ensures Numbers32(Sha256Traces.Abc224States(Sha256Traces.ROWS + 1)) ==
            [0x23097D22, 0x3405D822, 0x8642A477, 0xBDA255B3, 0x2AADBCE4, 0xBDA0B3F7, 0xE36C9DA7, 0xD2DA082D]
  {
    hide Pow256;
  }

  lemma Written224()
    ensures BytesOf([0x23097D22, 0x3405D822, 0x8642A477, 0xBDA255B3,
                     0x2AADBCE4, 0xBDA0B3F7, 0xE36C9DA7, 0xD2DA082D], 4) ==
            [0x23, 0x09, 0x7D, 0x22, 0x34, 0x05, 0xD8, 0x22, 0x86, 0x42, 0xA4, 0x77, 0xBD, 0xA2, 0x55, 0xB3,
             0x2A, 0xAD, 0xBC, 0xE4, 0xBD, 0xA0, 0xB3, 0xF7, 0xE3, 0x6C, 0x9D, 0xA7, 0xD2, 0xDA, 0x08, 0x2D]
  {
    hide BytesOf;
    Written32([0x23097D22, 0x3405D822, 0x8642A477, 0xBDA255B3, 0x2AADBCE4, 0xBDA0B3F7, 0xE36C9DA7, 0xD2DA082D],
      [0x23, 0x09, 0x7D, 0x22, 0x34, 0x05, 0xD8, 0x22, 0x86, 0x42, 0xA4, 0x77, 0xBD, 0xA2, 0x55, 0xB3,
       0x2A, 0xAD, 0xBC, 0xE4, 0xBD, 0xA0, 0xB3, 0xF7, 0xE3, 0x6C, 0x9D, 0xA7, 0xD2, 0xDA, 0x08, 0x2D]);
  }

  lemma DigestOfAbc224()
    ensures Digest(SHA224, ABC) ==
            [0x23, 0x09, 0x7D, 0x22, 0x34, 0x05, 0xD8, 0x22, 0x86, 0x42, 0xA4, 0x77, 0xBD, 0xA2, 0x55, 0xB3,
             0x2A, 0xAD, 0xBC, 0xE4, 0xBD, 0xA0, 0xB3, 0xF7, 0xE3, 0x6C, 0x9D, 0xA7]
  {
    hide BytesOf, Numbers32, Zeros, Copies, Digest, Holds, Initial, Sha256Traces.Block;
    HoldsAbc(SHA224);
    Begins224();
    AbcBlock32();
    Traced32(SHA224, Sha256Traces.Abc224Trace, [0x61626380], 14, ABC, 0, ABC);
    Ends224();
    Written224();
  }

  lemma Begins256()
    ensures Numbers32(Sha256Traces.Abc256States(0)) == Initial(SHA256)
  {
    hide Pow256;
    assert Numbers32(Sha256Traces.Abc256States(0)) ==
           [0x6A09E667, 0xBB67AE85, 0x3C6EF372, 0xA54FF53A, 0x510E527F, 0x9B05688C, 0x1F83D9AB, 0x5BE0CD19];
  }

  lemma Ends256()
    ensures Numbers32(Sha256Traces.Abc256States(Sha256Traces.ROWS + 1)) ==
            [0xBA7816BF, 0x8F01CFEA, 0x414140DE, 0x5DAE2223, 0xB00361A3, 0x96177A9C, 0xB410FF61, 0xF20015AD]
  {
    hide Pow256;
  }

  lemma Written256()
    ensures BytesOf([0xBA7816BF, 0x8F01CFEA, 0x414140DE, 0x5DAE2223,
                     0xB00361A3, 0x96177A9C, 0xB410FF61, 0xF20015AD], 4) ==
            [0xBA, 0x78, 0x16, 0xBF, 0x8F, 0x01, 0xCF, 0xEA, 0x41, 0x41, 0x40, 0xDE, 0x5D, 0xAE, 0x22, 0x23,
             0xB0, 0x03, 0x61, 0xA3, 0x96, 0x17, 0x7A, 0x9C, 0xB4, 0x10, 0xFF, 0x61, 0xF2, 0x00, 0x15, 0xAD]
  {
    hide BytesOf;
    Written32([0xBA7816BF, 0x8F01CFEA, 0x414140DE, 0x5DAE2223, 0xB00361A3, 0x96177A9C, 0xB410FF61, 0xF20015AD],
      [0xBA, 0x78, 0x16, 0xBF, 0x8F, 0x01, 0xCF, 0xEA, 0x41, 0x41, 0x40, 0xDE, 0x5D, 0xAE, 0x22, 0x23,
       0xB0, 0x03, 0x61, 0xA3, 0x96, 0x17, 0x7A, 0x9C, 0xB4, 0x10, 0xFF, 0x61, 0xF2, 0x00, 0x15, 0xAD]);
  }

  lemma DigestOfAbc256()
    ensures Digest(SHA256, ABC) ==
            [0xBA, 0x78, 0x16, 0xBF, 0x8F, 0x01, 0xCF, 0xEA, 0x41, 0x41, 0x40, 0xDE, 0x5D, 0xAE, 0x22, 0x23,
             0xB0, 0x03, 0x61, 0xA3, 0x96, 0x17, 0x7A, 0x9C, 0xB4, 0x10, 0xFF, 0x61, 0xF2, 0x00, 0x15, 0xAD]
  {
    hide BytesOf, Numbers32, Zeros, Copies, Digest, Holds, Initial, Sha256Traces.Block;
    HoldsAbc(SHA256);
    Begins256();
    AbcBlock32();
    Traced32(SHA256, Sha256Traces.Abc256Trace, [0x61626380], 14, ABC, 0, ABC);
    Ends256();
    Written256();
  }

  lemma AbcRows64()
    ensures Numbers64(Sha512Traces.AbcWords(0)) == [0x6162638000000000, 0, 0, 0, 0, 0, 0, 0]
    ensures Numbers64(Sha512Traces.AbcWords(1)) == [0, 0, 0, 0, 0, 0, 0, 24]
  {
    hide Pow256;
  }

  lemma AbcNumbers64()
    ensures Numbers64(Sha512Traces.Block(Sha512Traces.Abc)) == [0x6162638000000000] + Copies(14) + [24]
  {
    hide Pow256, Number64, Sha512Traces.AbcWords;
    AbcRows64();
    assert Numbers64(Sha512Traces.AbcWords(0) + Sha512Traces.AbcWords(1)) ==
           Numbers64(Sha512Traces.AbcWords(0)) + Numbers64(Sha512Traces.AbcWords(1));
  }

  lemma AbcBlock64()
    ensures Numbers64(Sha512Traces.Block(Sha512Traces.Abc)) == [0x6162638000000000] + Copies(14) + [24]
    ensures BytesOf([0x6162638000000000], 8) == ABC + [0x80] + Zeros(4)
  {
    hide Pow256, BytesOf, Numbers64, Sha512Traces.Block;
    AbcNumbers64();
    Written64([0x6162638000000000], ABC + [0x80] + Zeros(4));
  }

  lemma Written384First()
    ensures BytesOf([0xCB00753F45A35E8B, 0xB5A03D699AC65007, 0x272C32AB0EDED163, 0x1A8B605A43FF5BED], 8) ==
            [0xCB, 0x00, 0x75, 0x3F, 0x45, 0xA3, 0x5E, 0x8B, 0xB5, 0xA0, 0x3D, 0x69, 0x9A, 0xC6, 0x50, 0x07,
             0x27, 0x2C, 0x32, 0xAB, 0x0E, 0xDE, 0xD1, 0x63, 0x1A, 0x8B, 0x60, 0x5A, 0x43, 0xFF, 0x5B, 0xED]
  {
    hide BytesOf;
    Written64([0xCB00753F45A35E8B, 0xB5A03D699AC65007, 0x272C32AB0EDED163, 0x1A8B605A43FF5BED],
      [0xCB, 0x00, 0x75, 0x3F, 0x45, 0xA3, 0x5E, 0x8B, 0xB5, 0xA0, 0x3D, 0x69, 0x9A, 0xC6, 0x50, 0x07,
       0x27, 0x2C, 0x32, 0xAB, 0x0E, 0xDE, 0xD1, 0x63, 0x1A, 0x8B, 0x60, 0x5A, 0x43, 0xFF, 0x5B, 0xED]);
  }

  lemma Written384Last()
    ensures BytesOf([0x8086072BA1E7CC23, 0x58BAECA134C825A7, 0xA303EDFDF3B89CD7, 0x0C66918ECE57BA15], 8) ==
            [0x80, 0x86, 0x07, 0x2B, 0xA1, 0xE7, 0xCC, 0x23, 0x58, 0xBA, 0xEC, 0xA1, 0x34, 0xC8, 0x25, 0xA7,
             0xA3, 0x03, 0xED, 0xFD, 0xF3, 0xB8, 0x9C, 0xD7, 0x0C, 0x66, 0x91, 0x8E, 0xCE, 0x57, 0xBA, 0x15]
  {
    hide BytesOf;
    Written64([0x8086072BA1E7CC23, 0x58BAECA134C825A7, 0xA303EDFDF3B89CD7, 0x0C66918ECE57BA15],
      [0x80, 0x86, 0x07, 0x2B, 0xA1, 0xE7, 0xCC, 0x23, 0x58, 0xBA, 0xEC, 0xA1, 0x34, 0xC8, 0x25, 0xA7,
       0xA3, 0x03, 0xED, 0xFD, 0xF3, 0xB8, 0x9C, 0xD7, 0x0C, 0x66, 0x91, 0x8E, 0xCE, 0x57, 0xBA, 0x15]);
  }

  lemma Begins384()
    ensures Numbers64(Sha512Traces.Abc384States(0)) == Initial(SHA384)
  {
    hide Pow256;
    assert Numbers64(Sha512Traces.Abc384States(0)) ==
           [0xCBBB9D5DC1059ED8, 0x629A292A367CD507, 0x9159015A3070DD17, 0x152FECD8F70E5939,
            0x67332667FFC00B31, 0x8EB44A8768581511, 0xDB0C2E0D64F98FA7, 0x47B5481DBEFA4FA4];
  }

  lemma Ends384()
    ensures Numbers64(Sha512Traces.Abc384States(Sha512Traces.ROWS + 1)) ==
            [0xCB00753F45A35E8B, 0xB5A03D699AC65007, 0x272C32AB0EDED163, 0x1A8B605A43FF5BED,
             0x8086072BA1E7CC23, 0x58BAECA134C825A7, 0xA303EDFDF3B89CD7, 0x0C66918ECE57BA15]
  {
    hide Pow256;
  }

  lemma Written384()
    ensures BytesOf([0xCB00753F45A35E8B, 0xB5A03D699AC65007, 0x272C32AB0EDED163, 0x1A8B605A43FF5BED,
                     0x8086072BA1E7CC23, 0x58BAECA134C825A7, 0xA303EDFDF3B89CD7, 0x0C66918ECE57BA15], 8) ==
            [0xCB, 0x00, 0x75, 0x3F, 0x45, 0xA3, 0x5E, 0x8B, 0xB5, 0xA0, 0x3D, 0x69, 0x9A, 0xC6, 0x50, 0x07,
             0x27, 0x2C, 0x32, 0xAB, 0x0E, 0xDE, 0xD1, 0x63, 0x1A, 0x8B, 0x60, 0x5A, 0x43, 0xFF, 0x5B, 0xED]
            + [0x80, 0x86, 0x07, 0x2B, 0xA1, 0xE7, 0xCC, 0x23, 0x58, 0xBA, 0xEC, 0xA1, 0x34, 0xC8, 0x25, 0xA7,
               0xA3, 0x03, 0xED, 0xFD, 0xF3, 0xB8, 0x9C, 0xD7, 0x0C, 0x66, 0x91, 0x8E, 0xCE, 0x57, 0xBA, 0x15]
  {
    hide BytesOf, Four;
    Written384First();
    Written384Last();
    BytesJoin([0xCB00753F45A35E8B, 0xB5A03D699AC65007, 0x272C32AB0EDED163, 0x1A8B605A43FF5BED],
      [0x8086072BA1E7CC23, 0x58BAECA134C825A7, 0xA303EDFDF3B89CD7, 0x0C66918ECE57BA15], 8);
    assert [0xCB00753F45A35E8B, 0xB5A03D699AC65007, 0x272C32AB0EDED163, 0x1A8B605A43FF5BED,
            0x8086072BA1E7CC23, 0x58BAECA134C825A7, 0xA303EDFDF3B89CD7, 0x0C66918ECE57BA15] ==
           [0xCB00753F45A35E8B, 0xB5A03D699AC65007, 0x272C32AB0EDED163, 0x1A8B605A43FF5BED]
           + [0x8086072BA1E7CC23, 0x58BAECA134C825A7, 0xA303EDFDF3B89CD7, 0x0C66918ECE57BA15];
  }

  lemma DigestOfAbc384()
    ensures Digest(SHA384, ABC) ==
            [0xCB, 0x00, 0x75, 0x3F, 0x45, 0xA3, 0x5E, 0x8B, 0xB5, 0xA0, 0x3D, 0x69, 0x9A, 0xC6, 0x50, 0x07,
             0x27, 0x2C, 0x32, 0xAB, 0x0E, 0xDE, 0xD1, 0x63, 0x1A, 0x8B, 0x60, 0x5A, 0x43, 0xFF, 0x5B, 0xED]
            + [0x80, 0x86, 0x07, 0x2B, 0xA1, 0xE7, 0xCC, 0x23, 0x58, 0xBA, 0xEC, 0xA1, 0x34, 0xC8, 0x25, 0xA7]
  {
    hide BytesOf, Numbers64, Zeros, Copies, Digest, Holds, Initial, Sha512Traces.Block;
    HoldsAbc(SHA384);
    Begins384();
    AbcBlock64();
    Traced64(SHA384, Sha512Traces.Abc384Trace, [0x6162638000000000], 14, ABC, 4, ABC);
    Ends384();
    Written384();
  }

  lemma Written512First()
    ensures BytesOf([0xDDAF35A193617ABA, 0xCC417349AE204131, 0x12E6FA4E89A97EA2, 0x0A9EEEE64B55D39A], 8) ==
            [0xDD, 0xAF, 0x35, 0xA1, 0x93, 0x61, 0x7A, 0xBA, 0xCC, 0x41, 0x73, 0x49, 0xAE, 0x20, 0x41, 0x31,
             0x12, 0xE6, 0xFA, 0x4E, 0x89, 0xA9, 0x7E, 0xA2, 0x0A, 0x9E, 0xEE, 0xE6, 0x4B, 0x55, 0xD3, 0x9A]
  {
    hide BytesOf;
    Written64([0xDDAF35A193617ABA, 0xCC417349AE204131, 0x12E6FA4E89A97EA2, 0x0A9EEEE64B55D39A],
      [0xDD, 0xAF, 0x35, 0xA1, 0x93, 0x61, 0x7A, 0xBA, 0xCC, 0x41, 0x73, 0x49, 0xAE, 0x20, 0x41, 0x31,
       0x12, 0xE6, 0xFA, 0x4E, 0x89, 0xA9, 0x7E, 0xA2, 0x0A, 0x9E, 0xEE, 0xE6, 0x4B, 0x55, 0xD3, 0x9A]);
  }

  lemma Written512Last()
    ensures BytesOf([0x2192992A274FC1A8, 0x36BA3C23A3FEEBBD, 0x454D4423643CE80E, 0x2A9AC94FA54CA49F], 8) ==
            [0x21, 0x92, 0x99, 0x2A, 0x27, 0x4F, 0xC1, 0xA8, 0x36, 0xBA, 0x3C, 0x23, 0xA3, 0xFE, 0xEB, 0xBD,
             0x45, 0x4D, 0x44, 0x23, 0x64, 0x3C, 0xE8, 0x0E, 0x2A, 0x9A, 0xC9, 0x4F, 0xA5, 0x4C, 0xA4, 0x9F]
  {
    hide BytesOf;
    Written64([0x2192992A274FC1A8, 0x36BA3C23A3FEEBBD, 0x454D4423643CE80E, 0x2A9AC94FA54CA49F],
      [0x21, 0x92, 0x99, 0x2A, 0x27, 0x4F, 0xC1, 0xA8, 0x36, 0xBA, 0x3C, 0x23, 0xA3, 0xFE, 0xEB, 0xBD,
       0x45, 0x4D, 0x44, 0x23, 0x64, 0x3C, 0xE8, 0x0E, 0x2A, 0x9A, 0xC9, 0x4F, 0xA5, 0x4C, 0xA4, 0x9F]);
  }

  lemma Begins512()
    ensures Numbers64(Sha512Traces.Abc512States(0)) == Initial(SHA512)
  {
    hide Pow256;
    assert Numbers64(Sha512Traces.Abc512States(0)) ==
           [0x6A09E667F3BCC908, 0xBB67AE8584CAA73B, 0x3C6EF372FE94F82B, 0xA54FF53A5F1D36F1,
            0x510E527FADE682D1, 0x9B05688C2B3E6C1F, 0x1F83D9ABFB41BD6B, 0x5BE0CD19137E2179];
  }

  lemma Ends512()
    ensures Numbers64(Sha512Traces.Abc512States(Sha512Traces.ROWS + 1)) ==
            [0xDDAF35A193617ABA, 0xCC417349AE204131, 0x12E6FA4E89A97EA2, 0x0A9EEEE64B55D39A,
             0x2192992A274FC1A8, 0x36BA3C23A3FEEBBD, 0x454D4423643CE80E, 0x2A9AC94FA54CA49F]
  {
    hide Pow256;
  }

  lemma Written512()
    ensures BytesOf([0xDDAF35A193617ABA, 0xCC417349AE204131, 0x12E6FA4E89A97EA2, 0x0A9EEEE64B55D39A,
                     0x2192992A274FC1A8, 0x36BA3C23A3FEEBBD, 0x454D4423643CE80E, 0x2A9AC94FA54CA49F], 8) ==
            [0xDD, 0xAF, 0x35, 0xA1, 0x93, 0x61, 0x7A, 0xBA, 0xCC, 0x41, 0x73, 0x49, 0xAE, 0x20, 0x41, 0x31,
             0x12, 0xE6, 0xFA, 0x4E, 0x89, 0xA9, 0x7E, 0xA2, 0x0A, 0x9E, 0xEE, 0xE6, 0x4B, 0x55, 0xD3, 0x9A]
            + [0x21, 0x92, 0x99, 0x2A, 0x27, 0x4F, 0xC1, 0xA8, 0x36, 0xBA, 0x3C, 0x23, 0xA3, 0xFE, 0xEB, 0xBD,
               0x45, 0x4D, 0x44, 0x23, 0x64, 0x3C, 0xE8, 0x0E, 0x2A, 0x9A, 0xC9, 0x4F, 0xA5, 0x4C, 0xA4, 0x9F]
  {
    hide BytesOf, Four;
    Written512First();
    Written512Last();
    BytesJoin([0xDDAF35A193617ABA, 0xCC417349AE204131, 0x12E6FA4E89A97EA2, 0x0A9EEEE64B55D39A],
      [0x2192992A274FC1A8, 0x36BA3C23A3FEEBBD, 0x454D4423643CE80E, 0x2A9AC94FA54CA49F], 8);
    assert [0xDDAF35A193617ABA, 0xCC417349AE204131, 0x12E6FA4E89A97EA2, 0x0A9EEEE64B55D39A,
            0x2192992A274FC1A8, 0x36BA3C23A3FEEBBD, 0x454D4423643CE80E, 0x2A9AC94FA54CA49F] ==
           [0xDDAF35A193617ABA, 0xCC417349AE204131, 0x12E6FA4E89A97EA2, 0x0A9EEEE64B55D39A]
           + [0x2192992A274FC1A8, 0x36BA3C23A3FEEBBD, 0x454D4423643CE80E, 0x2A9AC94FA54CA49F];
  }

  lemma DigestOfAbc512()
    ensures Digest(SHA512, ABC) ==
            [0xDD, 0xAF, 0x35, 0xA1, 0x93, 0x61, 0x7A, 0xBA, 0xCC, 0x41, 0x73, 0x49, 0xAE, 0x20, 0x41, 0x31,
             0x12, 0xE6, 0xFA, 0x4E, 0x89, 0xA9, 0x7E, 0xA2, 0x0A, 0x9E, 0xEE, 0xE6, 0x4B, 0x55, 0xD3, 0x9A]
            + [0x21, 0x92, 0x99, 0x2A, 0x27, 0x4F, 0xC1, 0xA8, 0x36, 0xBA, 0x3C, 0x23, 0xA3, 0xFE, 0xEB, 0xBD,
               0x45, 0x4D, 0x44, 0x23, 0x64, 0x3C, 0xE8, 0x0E, 0x2A, 0x9A, 0xC9, 0x4F, 0xA5, 0x4C, 0xA4, 0x9F]
  {
    hide BytesOf, Numbers64, Zeros, Copies, Digest, Holds, Initial, Sha512Traces.Block;
    HoldsAbc(SHA512);
    Begins512();
    AbcBlock64();
    Traced64(SHA512, Sha512Traces.Abc512Trace, [0x6162638000000000], 14, ABC, 4, ABC);
    Ends512();
    Written512();
  }
}
