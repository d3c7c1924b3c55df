// What the tables of section 3.2.5 of RFC 1951 are for: one code for every length and every distance.

module DeflateTables {
  import opened Bits
  import opened Deflate

  const SHORTEST: nat := 3
  const LONGEST: nat := 258
  const FARTHEST: nat := 32768

  lemma Powers()
    ensures Pow2(0) == 1 && Pow2(1) == 2 && Pow2(2) == 4 && Pow2(3) == 8 && Pow2(4) == 16 && Pow2(5) == 32
    ensures Pow2(6) == 64 && Pow2(7) == 128 && Pow2(8) == 256 && Pow2(9) == 512 && Pow2(10) == 1024
    ensures Pow2(11) == 2048 && Pow2(12) == 4096 && Pow2(13) == 8192
  {
  }

  lemma ExtraBits(i: nat)
    ensures i < 29 ==> LengthExtraBits(i) == if i < 8 || i == 28 then 0 else i / 4 - 1
    ensures i < 30 ==> DistanceExtraBits(i) == if i < 2 then 0 else i / 2 - 1
  {
  }

  /** Each code starts where the codes before it end; the last one stands for the greatest length alone. */
  lemma LengthsTile(i: nat)
    requires i < 29
    ensures LengthCode(0) == 0 && SHORTEST + LengthCode(28) == LONGEST
    ensures i < 27 ==> LengthCode(i) + Pow2(LengthExtraBits(i)) == LengthCode(i + 1)
    ensures LengthExtraBits(i) == if i < 8 || i == 28 then 0 else i / 4 - 1
  {
    hide Pow2, LengthExtraBits;
    Powers();
    ExtraBits(i);
  }

  lemma DistancesTile(i: nat)
    requires i < 30
    ensures DistanceCode(0) == 1 && DistanceCode(29) + Pow2(DistanceExtraBits(29)) == FARTHEST + 1
    ensures i < 29 ==> DistanceCode(i) + Pow2(DistanceExtraBits(i)) == DistanceCode(i + 1)
    ensures DistanceExtraBits(i) == if i < 2 then 0 else i / 2 - 1
  {
    hide Pow2, DistanceExtraBits;
    Powers();
    ExtraBits(i);
    ExtraBits(29);
  }

  /**
   * Section 3.2.7: the lengths of the code length codes are sent for the three kinds of run, for length zero, and then
   * from the middle outwards, so that those of the rarest lengths come last and can be left out.
   */
  lemma OrderIs(i: nat)
    requires i < |CODE_LENGTHS_ORDER|
    ensures |CODE_LENGTHS_ORDER| == 19
    ensures CODE_LENGTHS_ORDER[i] == if i < 3 then 16 + i else if i == 3 then 0
                                     else if i % 2 == 0 then 8 + (i - 4) / 2 else 7 - (i - 5) / 2
  {
  }

  /** Code `i` and so many extra bits with the value `extra` stand for a length. */
  predicate LengthIs(i: nat, extra: nat, length: nat)
  {
    i < 29 && extra < Pow2(LengthExtraBits(i)) && SHORTEST + LengthCode(i) + extra == length
  }

  predicate DistanceIs(i: nat, extra: nat, distance: nat)
  {
    i < 30 && extra < Pow2(DistanceExtraBits(i)) && DistanceCode(i) + extra == distance
  }

  /** From code 0 on, the codes up to `i` reach every length below where the next one starts. */
  lemma {:induction false} LengthsReached(length: nat, i: nat) returns (j: nat, extra: nat)
    requires SHORTEST <= length && i < 28 && length - SHORTEST < LengthCode(i) + Pow2(LengthExtraBits(i))
    ensures LengthIs(j, extra, length)
  {
    hide LengthCode, LengthExtraBits, Pow2;
    LengthsTile(i);
    if LengthCode(i) <= length - SHORTEST {
      j, extra := i, length - SHORTEST - LengthCode(i);
    } else {
      LengthsTile(i - 1);
      j, extra := LengthsReached(length, i - 1);
    }
  }

  /** Every length from 3 to 258 has a code. */
  lemma EveryLength(length: nat)
    requires SHORTEST <= length <= LONGEST
    ensures exists i, extra :: LengthIs(i, extra, length)
  {
    assert LengthCode(27) + Pow2(LengthExtraBits(27)) == 256;
    var i, extra := LengthsReached(length, 27);
  }

  lemma {:induction false} DistancesReached(distance: nat, i: nat) returns (j: nat, extra: nat)
    requires 0 < distance && i < 30 && distance < DistanceCode(i) + Pow2(DistanceExtraBits(i))
    ensures DistanceIs(j, extra, distance)
  {
    hide DistanceCode, DistanceExtraBits, Pow2;
    DistancesTile(i);
    if DistanceCode(i) <= distance {
      j, extra := i, distance - DistanceCode(i);
    } else {
      DistancesTile(i - 1);
      j, extra := DistancesReached(distance, i - 1);
    }
  }

  lemma {:induction false} DistancesGrow(i: nat, j: nat)
    requires i < j < 30
    ensures DistanceCode(i) + Pow2(DistanceExtraBits(i)) <= DistanceCode(j)
    decreases j
  {
    hide DistanceCode, DistanceExtraBits, Pow2;
    DistancesTile(j - 1);
    if i < j - 1 {
      DistancesGrow(i, j - 1);
      assert Pow2(DistanceExtraBits(j - 1)) > 0;
    }
  }

  /** Every distance from 1 to 32768 has exactly one code. */
  lemma EveryDistance(distance: nat)
    requires 1 <= distance <= FARTHEST
    ensures exists i, extra :: DistanceIs(i, extra, distance)
    ensures forall i, extra, j, other ::
              DistanceIs(i, extra, distance) && DistanceIs(j, other, distance) ==> i == j && extra == other
  {
    hide DistanceCode, DistanceExtraBits, Pow2;
    DistancesTile(29);
    var i, extra := DistancesReached(distance, 29);
    forall i, extra, j, other | DistanceIs(i, extra, distance) && DistanceIs(j, other, distance)
      ensures i == j && extra == other
    {
      if i < j { DistancesGrow(i, j); }
      if j < i { DistancesGrow(j, i); }
    }
  }
}
