// `processBlock` of src/OFSHA384Or512Hash.m against section 6.4.2 of FIPS 180-4.

module Sha512Blocks {
  type Word = bv64

  const ROUNDS: nat := 80

  /** Eight constants of the table */
  function Row(r: nat): (row: seq<Word>)
    requires r < 10
    ensures |row| == 8
  {
    match r
    case 0 =>
      [0x428A2F98D728AE22, 0x7137449123EF65CD, 0xB5C0FBCFEC4D3B2F, 0xE9B5DBA58189DBBC,
       0x3956C25BF348B538, 0x59F111F1B605D019, 0x923F82A4AF194F9B, 0xAB1C5ED5DA6D8118]
    case 1 =>
      [0xD807AA98A3030242, 0x12835B0145706FBE, 0x243185BE4EE4B28C, 0x550C7DC3D5FFB4E2,
       0x72BE5D74F27B896F, 0x80DEB1FE3B1696B1, 0x9BDC06A725C71235, 0xC19BF174CF692694]
    case 2 =>
      [0xE49B69C19EF14AD2, 0xEFBE4786384F25E3, 0x0FC19DC68B8CD5B5, 0x240CA1CC77AC9C65,
       0x2DE92C6F592B0275, 0x4A7484AA6EA6E483, 0x5CB0A9DCBD41FBD4, 0x76F988DA831153B5]
    case 3 =>
      [0x983E5152EE66DFAB, 0xA831C66D2DB43210, 0xB00327C898FB213F, 0xBF597FC7BEEF0EE4,
       0xC6E00BF33DA88FC2, 0xD5A79147930AA725, 0x06CA6351E003826F, 0x142929670A0E6E70]
    case 4 =>
      [0x27B70A8546D22FFC, 0x2E1B21385C26C926, 0x4D2C6DFC5AC42AED, 0x53380D139D95B3DF,
       0x650A73548BAF63DE, 0x766A0ABB3C77B2A8, 0x81C2C92E47EDAEE6, 0x92722C851482353B]
    case 5 =>
      [0xA2BFE8A14CF10364, 0xA81A664BBC423001, 0xC24B8B70D0F89791, 0xC76C51A30654BE30,
       0xD192E819D6EF5218, 0xD69906245565A910, 0xF40E35855771202A, 0x106AA07032BBD1B8]
    case 6 =>
      [0x19A4C116B8D2D0C8, 0x1E376C085141AB53, 0x2748774CDF8EEB99, 0x34B0BCB5E19B48A8,
       0x391C0CB3C5C95A63, 0x4ED8AA4AE3418ACB, 0x5B9CCA4F7763E373, 0x682E6FF3D6B2B8A3]
    case 7 =>
      [0x748F82EE5DEFB2FC, 0x78A5636F43172F60, 0x84C87814A1F0AB72, 0x8CC702081A6439EC,
       0x90BEFFFA23631E28, 0xA4506CEBDE82BDE9, 0xBEF9A3F7B2C67915, 0xC67178F2E372532B]
    case 8 =>
      [0xCA273ECEEA26619C, 0xD186B8C721C0C207, 0xEADA7DD6CDE0EB1E, 0xF57D4F7FEE6ED178,
       0x06F067AA72176FBA, 0x0A637DC5A2C898A6, 0x113F9804BEF90DAE, 0x1B710B35131C471B]
    case _ =>
      [0x28DB77F523047D84, 0x32CAAB7B40C72493, 0x3C9EBE0A15C9BEBC, 0x431D67C49C100D4C,
       0x4CC5D4BECB3E42B6, 0x597F299CFC657E2A, 0x5FCB6FAB3AD6FAEC, 0x6C44198C4A475817]
  }

  function Table(i: nat): Word
    requires i < ROUNDS
  {
    Row(i / 8)[i % 8]
  }

  /** `OF_ROR` */
  function Rotr(x: Word, n: Word): Word
    requires n <= 64
  {
    (x >> n) | (x << (64 - n))
  }

  function Plus(x: Word, y: Word): Word { x + y }

  function BigSigma0(x: Word): Word { Rotr(x, 28) ^ Rotr(x, 34) ^ Rotr(x, 39) }

  function BigSigma1(x: Word): Word { Rotr(x, 14) ^ Rotr(x, 18) ^ Rotr(x, 41) }

  function SmallSigma0(x: Word): Word { Rotr(x, 1) ^ Rotr(x, 8) ^ (x >> (7 as Word)) }

  function SmallSigma1(x: Word): Word { Rotr(x, 19) ^ Rotr(x, 61) ^ (x >> (6 as Word)) }

  // The standard

  function Ch(x: Word, y: Word, z: Word): Word { (x & y) ^ (!x & z) }

  function Maj(x: Word, y: Word, z: Word): Word { (x & y) ^ (x & z) ^ (y & z) }

  /** The message schedule */
  function W(block: seq<Word>, t: nat): Word
    requires |block| == 16
  {
    if t < 16 then block[t]
    else Plus(Plus(SmallSigma1(W(block, t - 2)), W(block, t - 7)),
      Plus(SmallSigma0(W(block, t - 15)), W(block, t - 16)))
  }

  /** The working variables before round `t` */
  function Rounds(block: seq<Word>, state: seq<Word>, t: nat): (v: seq<Word>)
    requires |block| == 16 && |state| == 8 && t <= ROUNDS
    ensures |v| == 8
  {
    if t == 0 then state else Turn(Rounds(block, state, t - 1), Table(t - 1), W(block, t - 1))
  }

  function Turn(v: seq<Word>, k: Word, w: Word): (u: seq<Word>)
    requires |v| == 8
    ensures |u| == 8
  {
    var t1 := Plus(Plus(Plus(Plus(v[7], BigSigma1(v[4])), Ch(v[4], v[5], v[6])), k), w);
    var t2 := Plus(BigSigma0(v[0]), Maj(v[0], v[1], v[2]));
    [Plus(t1, t2), v[0], v[1], v[2], Plus(v[3], t1), v[4], v[5], v[6]]
  }

  function Sums(v: seq<Word>, u: seq<Word>): (r: seq<Word>)
    requires |v| == |u|
    ensures |r| == |v| && forall i :: 0 <= i < |r| ==> r[i] == Plus(v[i], u[i])
  {
    if v == [] then [] else Sums(v[..|v| - 1], u[..|u| - 1]) + [Plus(v[|v| - 1], u[|u| - 1])]
  }

  function Compress(state: seq<Word>, block: seq<Word>): (r: seq<Word>)
    requires |state| == 8 && |block| == 16
    ensures |r| == 8
  {
    Sums(state, Rounds(block, state, ROUNDS))
  }

  // The code

  lemma ChoiceBits(x: Word, y: Word, z: Word)
    ensures (x & (y ^ z)) ^ z == (x & y) ^ (!x & z)
  {
  }

  lemma MajorityBits(x: Word, y: Word, z: Word)
    ensures (x & (y | z)) | (y & z) == (x & y) ^ (x & z) ^ (y & z)
  {
  }

  function Choose(x: Word, y: Word, z: Word): Word { (x & (y ^ z)) ^ z }

  function Majority(x: Word, y: Word, z: Word): Word { (x & (y | z)) | (y & z) }

  lemma ChoiceAgrees(x: Word, y: Word, z: Word)
    ensures Choose(x, y, z) == Ch(x, y, z)
  {
    ChoiceBits(x, y, z);
  }

  lemma MajorityAgrees(x: Word, y: Word, z: Word)
    ensures Majority(x, y, z) == Maj(x, y, z)
  {
    MajorityBits(x, y, z);
  }

  /** The first loop extends the block in place. */
  method Extend(buffer: array<Word>, ghost block: seq<Word>)
    requires buffer.Length == ROUNDS && |block| == 16 && buffer[..16] == block
    modifies buffer
    ensures forall t :: 0 <= t < ROUNDS ==> buffer[t] == W(block, t)
  {
    hide Plus, SmallSigma0, SmallSigma1;
    assert forall t :: 0 <= t < 16 ==> buffer[t] == buffer[..16][t];
    var i := 16;
    while i < ROUNDS
      invariant 16 <= i <= ROUNDS
      invariant forall t :: 0 <= t < i ==> buffer[t] == W(block, t)
    {
      var tmp := buffer[i - 2];
      buffer[i] := Plus(SmallSigma1(tmp), buffer[i - 7]);
      tmp := buffer[i - 15];
      buffer[i] := Plus(buffer[i], Plus(SmallSigma0(tmp), buffer[i - 16]));
      i := i + 1;
    }
  }

  /** One turn of the second loop */
  method Round(v: array<Word>, k: Word, w: Word)
    requires v.Length == 8
    modifies v
    ensures v[..] == Turn(old(v[..]), k, w)
  {
    hide Plus, BigSigma0, BigSigma1, Ch, Maj, Choose, Majority;
    ghost var u := v[..];
    ChoiceAgrees(v[4], v[5], v[6]);
    MajorityAgrees(v[0], v[1], v[2]);
    var tmp1 := Plus(Plus(Plus(Plus(v[7], BigSigma1(v[4])), Choose(v[4], v[5], v[6])), k), w);
    var tmp2 := Plus(BigSigma0(v[0]), Majority(v[0], v[1], v[2]));
    Shift(v, tmp1, tmp2);
  }

  method Shift(v: array<Word>, tmp1: Word, tmp2: Word)
    requires v.Length == 8
    modifies v
    ensures v[0] == Plus(tmp1, tmp2) && v[1] == old(v[0]) && v[2] == old(v[1]) && v[3] == old(v[2])
    ensures v[4] == Plus(old(v[3]), tmp1) && v[5] == old(v[4]) && v[6] == old(v[5]) && v[7] == old(v[6])
  {
    hide Plus;
    v[7] := v[6];
    v[6] := v[5];
    v[5] := v[4];
    v[4] := Plus(v[3], tmp1);
    v[3] := v[2];
    v[2] := v[1];
    v[1] := v[0];
    v[0] := Plus(tmp1, tmp2);
  }

  /** The state becomes that of the standard; the buffer is used up. */
  method ProcessBlock(state: array<Word>, buffer: array<Word>)
    requires state.Length == 8 && buffer.Length == ROUNDS && state != buffer
    modifies state, buffer
    ensures state[..] == Compress(old(state[..]), old(buffer[..16]))
  {
    hide Plus, Turn, W, Table, Sums;
    ghost var block, start := buffer[..16], state[..];
    var v := new Word[8](i requires 0 <= i < 8 reads state => state[i]);
    assert v[..] == start;
    Extend(buffer, block);
    var i := 0;
    while i < ROUNDS
      invariant 0 <= i <= ROUNDS && state[..] == start
      invariant v[..] == Rounds(block, start, i)
      invariant forall t :: 0 <= t < ROUNDS ==> buffer[t] == W(block, t)
    {
      Round(v, Table(i), buffer[i]);
      i := i + 1;
    }
    i := 0;
    while i < 8
      invariant 0 <= i <= 8 && v[..] == Rounds(block, start, ROUNDS)
      invariant forall j :: 0 <= j < 8 ==> state[j] == if j < i then Plus(start[j], v[..][j]) else start[j]
    {
      state[i] := Plus(state[i], v[i]);
      i := i + 1;
    }
  }
}
