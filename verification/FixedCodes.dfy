// The codes of section 3.2.6 of RFC 1951 have a place for every symbol.

module FixedCodes {
  import opened Bits
  import opened Deflate
  import opened Huffman

  lemma {:induction false} CountCopies(value: nat, n: nat, length: nat)
    ensures Count(Copies(value, n), length) == if value == length then n else 0
  {
    if n > 0 {
      assert Copies(value, n)[..n - 1] == Copies(value, n - 1);
      CountCopies(value, n - 1, length);
    }
  }

  lemma {:induction false} CountTogether(a: seq<nat>, b: seq<nat>, length: nat)
    ensures Count(a + b, length) == Count(a, length) + Count(b, length)
    decreases |b|
  {
    if b == [] {
      assert a + b == a;
    } else {
      assert (a + b)[..|a + b| - 1] == a + b[..|b| - 1];
      CountTogether(a, b[..|b| - 1], length);
    }
  }

  lemma {:induction false} FixedLengthAt(i: nat, k: nat)
    requires i + k < 288
    ensures |FixedLengths(i)| == 288 - i && FixedLengths(i)[k] == FixedLength(i + k)
    decreases k
  {
    if k > 0 { FixedLengthAt(i + 1, k - 1); } else { FixedLengthsSize(i); }
  }

  lemma {:induction false} FixedLengthsSize(i: nat)
    requires i <= 288
    ensures |FixedLengths(i)| == 288 - i
    decreases 288 - i
  {
    if i < 288 { FixedLengthsSize(i + 1); }
  }

  /** The table of section 3.2.6 */
  function Table(): seq<nat>
  {
    Copies(8, 144) + (Copies(9, 112) + (Copies(7, 24) + Copies(8, 8)))
  }

  lemma FixedLengthsAre()
    ensures FixedLengths(0) == Table()
  {
    FixedLengthsSize(0);
    forall k | 0 <= k < 288 ensures FixedLengths(0)[k] == Table()[k] {
      FixedLengthAt(0, k);
    }
  }

  lemma FixedCounts(length: nat)
    ensures Count(FixedLengths(0), length) ==
            if length == 7 then 24 else if length == 8 then 152 else if length == 9 then 112 else 0
  {
    hide FixedLengths, Count, Copies;
    FixedLengthsAre();
    CountTogether(Copies(8, 144), Copies(9, 112) + (Copies(7, 24) + Copies(8, 8)), length);
    CountTogether(Copies(9, 112), Copies(7, 24) + Copies(8, 8), length);
    CountTogether(Copies(7, 24), Copies(8, 8), length);
    CountCopies(8, 144, length);
    CountCopies(9, 112, length);
    CountCopies(7, 24, length);
    CountCopies(8, 8, length);
  }

  /** The literal codes fill their lengths exactly. */
  lemma {:induction false} FixedFirstCodes(length: nat)
    ensures length <= 7 ==> FirstCode(FixedLengths(0), length) == 0
    ensures length == 8 ==> FirstCode(FixedLengths(0), length) == 48
    ensures length == 9 ==> FirstCode(FixedLengths(0), length) == 400
    ensures length >= 10 ==> FirstCode(FixedLengths(0), length) == Pow2(length)
  {
    hide FixedLengths, Count;
    if length > 1 {
      FixedFirstCodes(length - 1);
      FixedCounts(length - 1);
      if length == 10 { assert Pow2(10) == 1024; }
    }
  }

  lemma FixedLiteralsFit()
    ensures |FixedLengths(0)| == 288 && NotOversubscribed(FixedLengths(0))
    ensures forall s :: 0 <= s < 288 ==> FixedLengths(0)[s] > 0
  {
    FixedLengthsSize(0);
    forall s | 0 <= s < 288 ensures FixedLengths(0)[s] > 0 {
      FixedLengthAt(0, s);
    }
    hide FixedLengths;
    forall l: nat | l > 0 ensures FirstCode(FixedLengths(0), l) + Count(FixedLengths(0), l) <= Pow2(l) {
      FixedFirstCodes(l);
      FixedCounts(l);
      assert Pow2(7) == 128 && Pow2(8) == 256 && Pow2(9) == 512;
    }
  }

  lemma FixedDistanceCount(length: nat)
    ensures Count(FixedDistances(), length) == if length == 5 then 32 else 0
  {
    CountCopies(5, 32, length);
    assert FixedDistances() == Copies(5, 32);
  }

  lemma {:induction false} FixedFirstDistances(length: nat)
    ensures FirstCode(FixedDistances(), length) == if length <= 5 then 0 else Pow2(length)
  {
    hide FixedDistances;
    if length > 1 {
      FixedFirstDistances(length - 1);
      FixedDistanceCount(length - 1);
      if length == 6 { assert Pow2(6) == 64; }
    }
  }

  lemma AllFive()
    ensures forall d :: 0 <= d < 32 ==> FixedDistances()[d] == 5
  {
  }

  lemma FixedDistancesFit()
    ensures NotOversubscribed(FixedDistances()) && forall d :: 0 <= d < 32 ==> FixedDistances()[d] == 5
  {
    AllFive();
    hide FixedDistances;
    forall l: nat | l > 0 ensures FirstCode(FixedDistances(), l) + Count(FixedDistances(), l) <= Pow2(l) {
      FixedFirstDistances(l);
      FixedDistanceCount(l);
      assert Pow2(5) == 32;
    }
  }

  /** How many symbols below `s` have the fixed length of `s` */
  lemma FixedRank(s: nat)
    requires s < 288
    ensures |FixedLengths(0)| == 288 && FixedLengths(0)[s] == FixedLength(s)
    ensures Count(FixedLengths(0)[..s], FixedLength(s)) ==
            if s <= 143 then s else if s <= 255 then s - 144 else if s <= 279 then s - 256 else 144 + (s - 280)
  {
    hide Count, Copies, FixedLengths;
    FixedLengthAt(0, s);
    FixedLengthsAre();
    var l := FixedLength(s);
    if s <= 143 {
      BelowFixed(s, 0, 0, 0);
      CountCopies(8, s, l);
    } else if s <= 255 {
      BelowFixed(144, s - 144, 0, 0);
      CountTogether(Copies(8, 144), Copies(9, s - 144), l);
      CountCopies(8, 144, l);
      CountCopies(9, s - 144, l);
    } else if s <= 279 {
      BelowFixed(144, 112, s - 256, 0);
      CountTogether(Copies(8, 144), Copies(9, 112), l);
      CountTogether(Copies(8, 144) + Copies(9, 112), Copies(7, s - 256), l);
      CountCopies(8, 144, l);
      CountCopies(9, 112, l);
      CountCopies(7, s - 256, l);
    } else {
      BelowFixed(144, 112, 24, s - 280);
      CountTogether(Copies(8, 144), Copies(9, 112), l);
      CountTogether(Copies(8, 144) + Copies(9, 112), Copies(7, 24), l);
      CountTogether(Copies(8, 144) + Copies(9, 112) + Copies(7, 24), Copies(8, s - 280), l);
      CountCopies(8, 144, l);
      CountCopies(9, 112, l);
      CountCopies(7, 24, l);
      CountCopies(8, s - 280, l);
    }
  }

  lemma BelowFixed(a: nat, b: nat, c: nat, d: nat)
    requires a <= 144 && b <= 112 && c <= 24 && d <= 8
    requires (b > 0 ==> a == 144) && (c > 0 ==> a == 144 && b == 112) && (d > 0 ==> a == 144 && b == 112 && c == 24)
    ensures Table()[..a] == Copies(8, a)
    ensures a == 144 ==> Table()[..a + b] == Copies(8, a) + Copies(9, b)
    ensures a == 144 && b == 112 ==> Table()[..a + b + c] == Copies(8, a) + Copies(9, b) + Copies(7, c)
    ensures a == 144 && b == 112 && c == 24 ==>
              Table()[..a + b + c + d] == Copies(8, a) + Copies(9, b) + Copies(7, c) + Copies(8, d)
  {
  }

  /** The codes as section 3.2.6 lists them */
  lemma FixedCodesAre(s: nat)
    requires s < 288
    ensures |FixedLengths(0)| == 288
    ensures CodeBits(FixedLengths(0), s) ==
            if s <= 143 then Msb(0x30 + s, 8) else if s <= 255 then Msb(0x190 + (s - 144), 9)
            else if s <= 279 then Msb(s - 256, 7) else Msb(0xC0 + (s - 280), 8)
  {
    hide Count, FixedLengths, FirstCode, Msb;
    FixedRank(s);
    FixedFirstCodes(FixedLength(s));
  }

  lemma FixedDistanceCodesAre(d: nat)
    requires d < 32
    ensures CodeBits(FixedDistances(), d) == Msb(d, 5)
  {
    hide Count, FirstCode, Msb;
    FixedFirstDistances(5);
    assert FixedDistances()[..d] == Copies(5, d);
    CountCopies(5, d, 5);
  }
}
