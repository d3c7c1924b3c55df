// Bit strings and the two ways numbers are laid out in them.
//
// Deflate packs plain numbers least significant bit first and Huffman codes most significant bit
// first (section 3.1.1 of RFC 1951). Shifts and masks of the C code are written as products,
// quotients and remainders of powers of two.

module Bits {

  type Bit = b: int | 0 <= b < 2

  function Pow2(n: nat): (p: nat)
    ensures p >= 1
  {
    if n == 0 then 1 else 2 * Pow2(n - 1)
  }

  function BitAt(code: nat, position: nat): Bit
  {
    (code / Pow2(position)) % 2
  }

  /** Lexicographic order: a sequence comes before what it is a proper prefix of. */
  predicate Less(a: seq<nat>, b: seq<nat>)
  {
    b != [] && (a == [] || a[0] < b[0] || (a[0] == b[0] && Less(a[1..], b[1..])))
  }

  /** The low `length` bits of `code`, most significant first. */
  function Msb(code: nat, length: nat): (bits: seq<Bit>)
    ensures |bits| == length
  {
    if length == 0 then []
    else [BitAt(code, length - 1)] + Msb(code, length - 1)
  }

  /** The number whose bits are given, least significant first. */
  function FromLsb(bits: seq<Bit>): (n: nat)
    ensures n < Pow2(|bits|)
  {
    if bits == [] then 0 else bits[0] + 2 * FromLsb(bits[1..])
  }

  lemma {:induction false} MsbIndex(code: nat, length: nat, k: nat)
    requires k < length
    ensures Msb(code, length)[k] == BitAt(code, length - 1 - k)
  {
    if k > 0 { MsbIndex(code, length - 1, k - 1); }
  }

  lemma {:induction false} Pow2Add(m: nat, n: nat)
    ensures Pow2(m + n) == Pow2(m) * Pow2(n)
  {
    if m > 0 {
      Pow2Add(m - 1, n);
      calc {
        Pow2(m + n);
        2 * (Pow2(m - 1) * Pow2(n));
        Pow2(m) * Pow2(n);
      }
    }
  }

  lemma DivMul(x: nat, a: nat, b: nat)
    requires a > 0 && b > 0
    ensures a * b > 0
    ensures x / (a * b) == (x / a) / b
  {
    var q, r := x / a, x % a;
    var q2, r2 := q / b, q % b;
    assert x == q * a + r && q == q2 * b + r2;
    var low := r2 * a + r;
    assert low <= (b - 1) * a + a - 1 by { Monotone(r2, b - 1, a); }
    assert x == q2 * (a * b) + low by {
      assert q * a == (q2 * b) * a + r2 * a;
      assert (q2 * b) * a == q2 * (a * b);
    }
    assert 0 <= low by { Monotone(0, r2, a); }
    assert low < a * b;
    DivUnique(x, a * b, q2, low);
  }

  lemma Monotone(x: int, y: int, a: int)
    requires x <= y && 0 <= a
    ensures x * a <= y * a
  {
  }

  lemma DivUnique(x: int, d: int, q: int, r: int)
    requires d > 0 && 0 <= r < d && x == q * d + r
    ensures x / d == q && x % d == r
  {
    var q', r' := x / d, x % d;
    assert x == q' * d + r';
    if q' < q {
      Monotone(q' + 1, q, d);
    } else if q < q' {
      Monotone(q + 1, q', d);
    }
  }

  lemma DivShift(a: int, b: int, k: int, p: int)
    requires p > 0 && a == b + k * p
    ensures a / p == b / p + k
  {
    assert (b / p + k) * p == (b / p) * p + k * p;
    DivUnique(a, p, b / p + k, b % p);
  }

  lemma Doubled(p: int, x: int)
    ensures x * (2 * p) == (2 * x) * p
    ensures (2 * p) * x == 2 * (p * x)
  {
  }

  lemma SameParity(x: int, y: int, k: int)
    requires x == y + 2 * k
    ensures x % 2 == y % 2
  {
  }

  /** Only the value modulo `Pow2(length)` decides the low `length` bits. */
  lemma {:induction false} MsbCongruent(a: nat, b: nat, k: nat, length: nat)
    requires a == b + k * Pow2(length)
    ensures Msb(a, length) == Msb(b, length)
    decreases length
  {
    if length > 0 {
      Doubled(Pow2(length - 1), k);
      DivShift(a, b, 2 * k, Pow2(length - 1));
      SameParity(a / Pow2(length - 1), b / Pow2(length - 1), k);
      MsbCongruent(a, b, 2 * k, length - 1);
    }
  }

  /** The first `m` of `m + n` bits are the bits of the quotient. */
  lemma {:induction false} MsbPrefix(code: nat, m: nat, n: nat)
    ensures Msb(code, m + n)[..m] == Msb(code / Pow2(n), m)
  {
    if m > 0 {
      DivMul(code, Pow2(n), Pow2(m - 1));
      Pow2Add(n, m - 1);
      MsbPrefix(code, m - 1, n);
      assert Msb(code, m + n)[1..][..m - 1] == Msb(code, m + n)[1..m];
    }
  }

  /** Numbers below `Pow2(length)` are told apart by their bits. */
  lemma {:induction false} MsbInjective(a: nat, b: nat, length: nat)
    requires a < Pow2(length) && b < Pow2(length)
    requires Msb(a, length) == Msb(b, length)
    ensures a == b
  {
    if length > 0 {
      var p := Pow2(length - 1);
      assert Msb(a, length)[0] == Msb(b, length)[0];
      assert Msb(a, length)[1..] == Msb(a, length - 1) && Msb(b, length)[1..] == Msb(b, length - 1);
      TopBit(a, p);
      TopBit(b, p);
      var ra, rb := a - (a / p) * p, b - (b / p) * p;
      MsbCongruent(a, ra, a / p, length - 1);
      MsbCongruent(b, rb, b / p, length - 1);
      MsbInjective(ra, rb, length - 1);
    }
  }

  lemma TopBit(a: nat, p: nat)
    requires p > 0 && a < 2 * p
    ensures a / p < 2 && (a / p) % 2 == a / p && 0 <= a - (a / p) * p < p
  {
    if a < p { DivUnique(a, p, 0, a); } else { DivUnique(a, p, 1, a - p); }
  }

  lemma {:induction false} MsbZero(length: nat)
    ensures forall k :: 0 <= k < length ==> Msb(0, length)[k] == 0
  {
    if length > 0 {
      MsbZero(length - 1);
      DivUnique(0, Pow2(length - 1), 0, 0);
    }
  }

  lemma {:induction false} FromLsbSplit(low: seq<Bit>, high: seq<Bit>)
    ensures FromLsb(low + high) == FromLsb(low) + Pow2(|low|) * FromLsb(high)
  {
    if low == [] {
      assert low + high == high;
    } else {
      assert (low + high)[1..] == low[1..] + high;
      FromLsbSplit(low[1..], high);
      OneMoreBit(low[0], FromLsb(low[1..]), Pow2(|low| - 1), FromLsb(high));
    }
  }

  lemma OneMoreBit(bit: int, low: int, p: int, high: int)
    ensures bit + 2 * (low + p * high) == (bit + 2 * low) + (2 * p) * high
  {
  }
}
