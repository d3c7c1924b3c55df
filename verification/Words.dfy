// Machine words as numbers: rotation and exclusive or.

module Words {
  import opened Bits

  const WORD_BITS: nat := 64
  const WORD_LIMIT: nat := 0x1_0000_0000_0000_0000

  type Word = n: nat | n < WORD_LIMIT

  lemma Pow2Of8()
    ensures Pow2(8) == 0x100
  {
  }

  lemma Pow2OfWord()
    ensures Pow2(WORD_BITS) == WORD_LIMIT
  {
    hide Pow2;
    Pow2Of8();
    Pow2Add(8, 8);
    Pow2Add(16, 16);
    Pow2Add(32, 32);
  }

  lemma Divided(bits: nat)
    requires bits <= WORD_BITS
    ensures Pow2(bits) * Pow2(WORD_BITS - bits) == WORD_LIMIT
  {
    Pow2Add(bits, WORD_BITS - bits);
    Pow2OfWord();
  }

  /** The part below `q` moves up by the factor `p`, and the part above it comes to the lower end. */
  function Turned(value: nat, p: nat, q: nat): nat
    requires q > 0
  {
    (value % q) * p + value / q
  }

  /** `OF_ROL`: the upper bits reappear at the lower end. */
  function Rol(value: Word, bits: nat): Word
    requires bits <= WORD_BITS
  {
    Divided(bits);
    Fits(value, Pow2(bits), Pow2(WORD_BITS - bits));
    Turned(value, Pow2(bits), Pow2(WORD_BITS - bits))
  }

  /** `OF_ROR` */
  function Ror(value: Word, bits: nat): Word
    requires bits <= WORD_BITS
  {
    Rol(value, WORD_BITS - bits)
  }

  lemma Fits(value: nat, p: nat, q: nat)
    requires p * q == WORD_LIMIT && value < WORD_LIMIT && q > 0
    ensures value / q < p && Turned(value, p, q) < WORD_LIMIT
  {
    var high, low := value / q, value % q;
    assert value == high * q + low;
    if high >= p { Monotone(p, high, q); }
    Monotone(low, q - 1, p);
    assert (q - 1) * p == q * p - p;
  }

  lemma TurnedBack(value: nat, p: nat, q: nat)
    requires p * q == WORD_LIMIT && value < WORD_LIMIT && q > 0 && p > 0
    ensures Turned(Turned(value, p, q), q, p) == value
  {
    Fits(value, p, q);
    DivUnique(Turned(value, p, q), p, value % q, value / q);
  }

  lemma RorRol(value: Word, bits: nat)
    requires bits <= WORD_BITS
    ensures Ror(Rol(value, bits), bits) == value
  {
    hide Pow2, Turned;
    Divided(bits);
    TurnedBack(value, Pow2(bits), Pow2(WORD_BITS - bits));
    assert WORD_BITS - (WORD_BITS - bits) == bits;
  }

  function Xor(a: nat, b: nat): nat
    decreases a + b
  {
    if a == 0 && b == 0 then 0
    else (if a % 2 == b % 2 then 0 else 1) + 2 * Xor(a / 2, b / 2)
  }

  lemma {:induction false} XorCommutes(a: nat, b: nat)
    ensures Xor(a, b) == Xor(b, a)
    decreases a + b
  {
    if a != 0 || b != 0 { XorCommutes(a / 2, b / 2); }
  }

  lemma XorHalves(a: nat, b: nat)
    ensures Xor(a, b) / 2 == Xor(a / 2, b / 2)
    ensures Xor(a, b) % 2 == if a % 2 == b % 2 then 0 else 1
  {
  }

  lemma {:induction false} XorAssociates(a: nat, b: nat, c: nat)
    ensures Xor(Xor(a, b), c) == Xor(a, Xor(b, c))
    decreases a + b + c
  {
    if a != 0 || b != 0 || c != 0 {
      XorHalves(a, b);
      XorHalves(b, c);
      XorAssociates(a / 2, b / 2, c / 2);
      XorHalves(Xor(a, b), c);
      XorHalves(a, Xor(b, c));
      SameHalves(Xor(Xor(a, b), c), Xor(a, Xor(b, c)));
    }
  }

  lemma SameHalves(a: nat, b: nat)
    requires a / 2 == b / 2 && a % 2 == b % 2
    ensures a == b
  {
  }

  lemma {:induction false} XorBelow(a: nat, b: nat, e: nat)
    requires a < Pow2(e) && b < Pow2(e)
    ensures Xor(a, b) < Pow2(e)
  {
    if e > 0 { XorBelow(a / 2, b / 2, e - 1); }
  }

  lemma {:induction false} XorBits(a: nat, b: nat, i: nat)
    ensures BitAt(Xor(a, b), i) == if BitAt(a, i) == BitAt(b, i) then 0 else 1
  {
    if i == 0 {
      XorHalves(a, b);
    } else {
      XorHalves(a, b);
      XorBits(a / 2, b / 2, i - 1);
      LowerBit(a, i);
      LowerBit(b, i);
      LowerBit(Xor(a, b), i);
    }
  }

  lemma LowerBit(n: nat, i: nat)
    requires i > 0
    ensures BitAt(n, i) == BitAt(n / 2, i - 1)
  {
    DivMul(n, 2, Pow2(i - 1));
  }

  function XorWord(a: Word, b: Word): Word
  {
    Pow2OfWord();
    XorBelow(a, b, WORD_BITS);
    Xor(a, b)
  }
}
