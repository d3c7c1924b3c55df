// Canonical Huffman codes as section 3.2.2 of RFC 1951 puts them in words: an order of bit strings without gaps.

module HuffmanOrders {
  import opened Bits
  import opened Huffman

  /** The number that bits spell, most significant first */
  function Number(bits: seq<Bit>): (n: nat)
  {
    if bits == [] then 0 else bits[0] * Pow2(|bits| - 1) + Number(bits[1..])
  }

  lemma {:induction false} NumberBelow(bits: seq<Bit>)
    ensures Number(bits) < Pow2(|bits|)
  {
    if bits != [] { NumberBelow(bits[1..]); }
  }

  lemma {:induction false} NumberOfMsb(code: nat, length: nat)
    requires code < Pow2(length)
    ensures Number(Msb(code, length)) == code
  {
    if length > 0 {
      var p := Pow2(length - 1);
      TopBit(code, p);
      var low := code - (code / p) * p;
      MsbCongruent(code, low, code / p, length - 1);
      NumberOfMsb(low, length - 1);
      assert Msb(code, length)[1..] == Msb(code, length - 1);
    }
  }

  /** Of equally many bits, those that spell less come first. */
  lemma {:induction false} LessByNumber(a: seq<Bit>, b: seq<Bit>)
    requires |a| == |b| && Number(a) < Number(b)
    ensures Less(a, b)
  {
    if a != [] {
      NumberBelow(a[1..]);
      NumberBelow(b[1..]);
      if a[0] == b[0] { LessByNumber(a[1..], b[1..]); }
    }
  }

  lemma {:induction false} LessBefore(a: seq<Bit>, b: seq<Bit>, n: nat)
    requires n <= |b| && Less(a, b[..n])
    ensures Less(a, b)
  {
    if a != [] && a[0] == b[0] {
      assert b[..n][1..] == b[1..][..n - 1];
      LessBefore(a[1..], b[1..], n - 1);
    }
  }

  /** The order of symbols by length of code, and by symbol within a length */
  predicate Before(lengths: seq<nat>, s: nat, t: nat)
    requires s < |lengths| && t < |lengths|
  {
    lengths[s] < lengths[t] || (lengths[s] == lengths[t] && s < t)
  }

  predicate Used(lengths: seq<nat>, s: nat)
  {
    s < |lengths| && 0 < lengths[s]
  }

  lemma CodeFits(lengths: seq<nat>, s: nat)
    requires NotOversubscribed(lengths) && Used(lengths, s)
    ensures Code(lengths, s) < Pow2(lengths[s]) && Number(CodeBits(lengths, s)) == Code(lengths, s)
  {
    CodeRange(lengths, s);
    assert FirstCode(lengths, lengths[s]) + Count(lengths, lengths[s]) <= Pow2(lengths[s]);
    NumberOfMsb(Code(lengths, s), lengths[s]);
  }

  /** Shorter codes come before longer ones, and codes of one length come in the order of their symbols. */
  lemma CodesInOrder(lengths: seq<nat>, s: nat, t: nat)
    requires NotOversubscribed(lengths) && Used(lengths, s) && Used(lengths, t) && Before(lengths, s, t)
    ensures Less(CodeBits(lengths, s), CodeBits(lengths, t))
  {
    hide FirstCode, Count, NotOversubscribed, Pow2, Less, Number;
    var cs, ct, ls, lt := Code(lengths, s), Code(lengths, t), lengths[s], lengths[t];
    CodeFits(lengths, s);
    CodeFits(lengths, t);
    if ls == lt {
      SmallerSymbol(lengths, s, t);
      LessByNumber(CodeBits(lengths, s), CodeBits(lengths, t));
    } else {
      ShorterCode(lengths, s, t);
      MsbPrefix(ct, ls, lt - ls);
      NumberOfMsb(ct / Pow2(lt - ls), ls);
      LessByNumber(CodeBits(lengths, s), Msb(ct / Pow2(lt - ls), ls));
      LessBefore(CodeBits(lengths, s), CodeBits(lengths, t), ls);
    }
  }

  lemma SmallerSymbol(lengths: seq<nat>, s: nat, t: nat)
    requires s < t < |lengths| && lengths[s] == lengths[t]
    ensures Code(lengths, s) < Code(lengths, t)
  {
    CountGrows(lengths, s, t, lengths[s]);
  }

  lemma ShorterCode(lengths: seq<nat>, s: nat, t: nat)
    requires NotOversubscribed(lengths) && Used(lengths, s) && Used(lengths, t) && lengths[s] < lengths[t]
    ensures Code(lengths, s) < Code(lengths, t) / Pow2(lengths[t] - lengths[s]) < Pow2(lengths[s])
  {
    var ls, lt, d := lengths[s], lengths[t], lengths[t] - lengths[s];
    CodeRange(lengths, s);
    CodeRange(lengths, t);
    CodeFits(lengths, t);
    Pow2Add(ls, d);
    FirstCodeGrows(lengths, ls, lt);
    QuotientBetween(Code(lengths, s), Code(lengths, t), FirstCode(lengths, ls) + Count(lengths, ls), Pow2(d), Pow2(ls));
  }

  // Without gaps

  /** No used symbol comes before `s`. */
  ghost predicate First(lengths: seq<nat>, s: nat)
  {
    Used(lengths, s) && forall u :: Used(lengths, u) ==> !Before(lengths, u, s)
  }

  /** No used symbol comes between `s` and `t`. */
  ghost predicate Adjacent(lengths: seq<nat>, s: nat, t: nat)
  {
    && Used(lengths, s) && Used(lengths, t) && Before(lengths, s, t)
    && forall u :: Used(lengths, u) ==> !(Before(lengths, s, u) && Before(lengths, u, t))
  }

  lemma {:induction false} NoneOfLength(lengths: seq<nat>, m: nat, n: nat, length: nat)
    requires m <= n <= |lengths| && forall u :: m <= u < n ==> lengths[u] != length
    ensures Count(lengths[..n], length) == Count(lengths[..m], length)
    decreases n
  {
    if m < n {
      assert lengths[..n][..n - 1] == lengths[..n - 1];
      NoneOfLength(lengths, m, n - 1, length);
    }
  }

  lemma CountWith(lengths: seq<nat>, s: nat)
    requires s < |lengths|
    ensures Count(lengths[..s + 1], lengths[s]) == Count(lengths[..s], lengths[s]) + 1
  {
    assert lengths[..s + 1][..s] == lengths[..s];
  }

  /** Lengths that are not used only double the first code. */
  lemma {:induction false} FirstCodeDoubles(lengths: seq<nat>, short: nat, long: nat)
    requires 0 < short < long && forall l :: short < l < long ==> Count(lengths, l) == 0
    ensures FirstCode(lengths, long) == (FirstCode(lengths, short) + Count(lengths, short)) * Pow2(long - short)
    decreases long
  {
    var x := FirstCode(lengths, short) + Count(lengths, short);
    if short + 1 < long {
      FirstCodeDoubles(lengths, short, long - 1);
      Doubled(Pow2(long - 1 - short), x);
      TwiceProduct(x, Pow2(long - 1 - short));
    } else {
      assert Pow2(1) == 2 * Pow2(0);
    }
  }

  lemma TwiceProduct(x: nat, p: nat)
    ensures 2 * (x * p) == x * (2 * p)
  {
  }

  /**
   * From one used symbol to the next the code goes up by one, with zeros behind it where codes get longer. With
   * FirstIsZero this leaves one choice: the codes are those of the standard.
   */
  lemma NextCode(lengths: seq<nat>, s: nat, t: nat)
    requires NotOversubscribed(lengths) && Adjacent(lengths, s, t)
    ensures Number(CodeBits(lengths, t)) ==
            (Number(CodeBits(lengths, s)) + 1) * Pow2(lengths[t] - lengths[s])
  {
    hide FirstCode, Count, NotOversubscribed, Number, CodeBits;
    CodeFits(lengths, s);
    CodeFits(lengths, t);
    var ls, lt := lengths[s], lengths[t];
    CountWith(lengths, s);
    if ls == lt {
      forall u | s < u < t ensures lengths[u] != ls {
        assert Used(lengths, u) ==> !(Before(lengths, s, u) && Before(lengths, u, t));
      }
      NoneOfLength(lengths, s + 1, t, ls);
      assert Pow2(0) == 1;
    } else {
      forall u | 0 <= u < |lengths|
        ensures (s < u ==> lengths[u] != ls) && (u < t ==> lengths[u] != lt) && !(ls < lengths[u] < lt)
      {
        assert Used(lengths, u) ==> !(Before(lengths, s, u) && Before(lengths, u, t));
      }
      NoneOfLength(lengths, s + 1, |lengths|, ls);
      assert lengths[..|lengths|] == lengths;
      NoneOfLength(lengths, 0, t, lt);
      assert Count(lengths[..0], lt) == 0 by { NoneAtAll(lengths, lt); }
      forall l | ls < l < lt ensures Count(lengths, l) == 0 {
        NoneOfLength(lengths, 0, |lengths|, l);
        NoneAtAll(lengths, l);
      }
      FirstCodeDoubles(lengths, ls, lt);
    }
  }

  lemma NoneAtAll(lengths: seq<nat>, length: nat)
    ensures Count(lengths[..0], length) == 0
  {
  }

  lemma {:induction false} FirstCodeZero(lengths: seq<nat>, length: nat)
    requires forall l :: 0 < l < length ==> Count(lengths, l) == 0
    ensures FirstCode(lengths, length) == 0
  {
    if length > 1 { FirstCodeZero(lengths, length - 1); }
  }

  /** The first code has no bit set. */
  lemma FirstIsZero(lengths: seq<nat>, s: nat)
    requires NotOversubscribed(lengths) && First(lengths, s)
    ensures Number(CodeBits(lengths, s)) == 0
  {
    hide NotOversubscribed, Number, CodeBits;
    CodeFits(lengths, s);
    forall l | 0 < l < lengths[s] ensures Count(lengths, l) == 0 {
      forall u | 0 <= u < |lengths| ensures lengths[u] != l {
        assert Used(lengths, u) ==> !Before(lengths, u, s);
      }
      NoneOfLength(lengths, 0, |lengths|, l);
      assert lengths[..|lengths|] == lengths;
      NoneAtAll(lengths, l);
    }
    FirstCodeZero(lengths, lengths[s]);
    forall u | 0 <= u < s ensures lengths[u] != lengths[s] {
      assert Used(lengths, u) ==> !Before(lengths, u, s);
    }
    NoneOfLength(lengths, 0, s, lengths[s]);
    NoneAtAll(lengths, lengths[s]);
  }
}
