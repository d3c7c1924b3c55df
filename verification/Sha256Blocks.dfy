// `processBlock` of src/OFSHA224Or256Hash.m against section 6.2.2 of FIPS 180-4.

module Sha256Blocks {
  type Word = bv32

  const ROUNDS: nat := 64

  /** Eight constants of the table */
  function Row(r: nat): (row: seq<Word>)
    requires r < 8
    ensures |row| == 8
  {
    match r
    case 0 => [0x428A2F98, 0x71374491, 0xB5C0FBCF, 0xE9B5DBA5, 0x3956C25B, 0x59F111F1, 0x923F82A4, 0xAB1C5ED5]
    case 1 => [0xD807AA98, 0x12835B01, 0x243185BE, 0x550C7DC3, 0x72BE5D74, 0x80DEB1FE, 0x9BDC06A7, 0xC19BF174]
    case 2 => [0xE49B69C1, 0xEFBE4786, 0x0FC19DC6, 0x240CA1CC, 0x2DE92C6F, 0x4A7484AA, 0x5CB0A9DC, 0x76F988DA]
    case 3 => [0x983E5152, 0xA831C66D, 0xB00327C8, 0xBF597FC7, 0xC6E00BF3, 0xD5A79147, 0x06CA6351, 0x14292967]
    case 4 => [0x27B70A85, 0x2E1B2138, 0x4D2C6DFC, 0x53380D13, 0x650A7354, 0x766A0ABB, 0x81C2C92E, 0x92722C85]
    case 5 => [0xA2BFE8A1, 0xA81A664B, 0xC24B8B70, 0xC76C51A3, 0xD192E819, 0xD6990624, 0xF40E3585, 0x106AA070]
    case 6 => [0x19A4C116, 0x1E376C08, 0x2748774C, 0x34B0BCB5, 0x391C0CB3, 0x4ED8AA4A, 0x5B9CCA4F, 0x682E6FF3]
    case _ => [0x748F82EE, 0x78A5636F, 0x84C87814, 0x8CC70208, 0x90BEFFFA, 0xA4506CEB, 0xBEF9A3F7, 0xC67178F2]
  }

  function Table(i: nat): Word
    requires i < ROUNDS
  {
    Row(i / 8)[i % 8]
  }

  /** `OF_ROR` */
  function Rotr(x: Word, n: Word): Word
    requires n <= 32
  {
    (x >> n) | (x << (32 - n))
  }

  function Plus(x: Word, y: Word): Word { x + y }

  function BigSigma0(x: Word): Word { Rotr(x, 2) ^ Rotr(x, 13) ^ Rotr(x, 22) }

  function BigSigma1(x: Word): Word { Rotr(x, 6) ^ Rotr(x, 11) ^ Rotr(x, 25) }

  function SmallSigma0(x: Word): Word { Rotr(x, 7) ^ Rotr(x, 18) ^ (x >> (3 as Word)) }

  function SmallSigma1(x: Word): Word { Rotr(x, 17) ^ Rotr(x, 19) ^ (x >> (10 as Word)) }

  // The standard

  function Ch(x: Word, y: Word, z: Word): Word { (x & y) ^ (!x & z) }

  function Maj(x: Word, y: Word, z: Word): Word { (x & y) ^ (x & z) ^ (y & z) }

  /** The message schedule */
  function W(block: seq<Word>, t: nat): Word
    requires |block| == 16
  {
    if t < 16 then block[t]
    else Plus(Plus(SmallSigma1(W(block, t - 2)), W(block, t - 7)),
      Plus(SmallSigma0(W(block, t - 15)), W(block, t - 16)))
  }

  /** The working variables before round `t` */
  function Rounds(block: seq<Word>, state: seq<Word>, t: nat): (v: seq<Word>)
    requires |block| == 16 && |state| == 8 && t <= ROUNDS
    ensures |v| == 8
  {
    if t == 0 then state else Turn(Rounds(block, state, t - 1), Table(t - 1), W(block, t - 1))
  }

  function Turn(v: seq<Word>, k: Word, w: Word): (u: seq<Word>)
    requires |v| == 8
    ensures |u| == 8
  {
    var t1 := Plus(Plus(Plus(Plus(v[7], BigSigma1(v[4])), Ch(v[4], v[5], v[6])), k), w);
    var t2 := Plus(BigSigma0(v[0]), Maj(v[0], v[1], v[2]));
    [Plus(t1, t2), v[0], v[1], v[2], Plus(v[3], t1), v[4], v[5], v[6]]
  }

  function Sums(v: seq<Word>, u: seq<Word>): (r: seq<Word>)
    requires |v| == |u|
    ensures |r| == |v| && forall i :: 0 <= i < |r| ==> r[i] == Plus(v[i], u[i])
  {
    if v == [] then [] else Sums(v[..|v| - 1], u[..|u| - 1]) + [Plus(v[|v| - 1], u[|u| - 1])]
  }

  function Compress(state: seq<Word>, block: seq<Word>): (r: seq<Word>)
    requires |state| == 8 && |block| == 16
    ensures |r| == 8
  {
    Sums(state, Rounds(block, state, ROUNDS))
  }

  // The code

  lemma ChoiceBits(x: Word, y: Word, z: Word)
    ensures (x & (y ^ z)) ^ z == (x & y) ^ (!x & z)
  {
  }

  lemma MajorityBits(x: Word, y: Word, z: Word)
    ensures (x & (y | z)) | (y & z) == (x & y) ^ (x & z) ^ (y & z)
  {
  }

  function Choose(x: Word, y: Word, z: Word): Word { (x & (y ^ z)) ^ z }

  function Majority(x: Word, y: Word, z: Word): Word { (x & (y | z)) | (y & z) }

  lemma ChoiceAgrees(x: Word, y: Word, z: Word)
    ensures Choose(x, y, z) == Ch(x, y, z)
  {
    ChoiceBits(x, y, z);
  }

  lemma MajorityAgrees(x: Word, y: Word, z: Word)
    ensures Majority(x, y, z) == Maj(x, y, z)
  {
    MajorityBits(x, y, z);
  }

  /** The first loop extends the block in place. */
  method Extend(buffer: array<Word>, ghost block: seq<Word>)
    requires buffer.Length == ROUNDS && |block| == 16 && buffer[..16] == block
    modifies buffer
    ensures forall t :: 0 <= t < ROUNDS ==> buffer[t] == W(block, t)
  {
    hide Plus, SmallSigma0, SmallSigma1;
    assert forall t :: 0 <= t < 16 ==> buffer[t] == buffer[..16][t];
    var i := 16;
    while i < ROUNDS
      invariant 16 <= i <= ROUNDS
      invariant forall t :: 0 <= t < i ==> buffer[t] == W(block, t)
    {
      var tmp := buffer[i - 2];
      buffer[i] := Plus(SmallSigma1(tmp), buffer[i - 7]);
      tmp := buffer[i - 15];
      buffer[i] := Plus(buffer[i], Plus(SmallSigma0(tmp), buffer[i - 16]));
      i := i + 1;
    }
  }

  /** One turn of the second loop */
  method Round(v: array<Word>, k: Word, w: Word)
    requires v.Length == 8
    modifies v
    ensures v[..] == Turn(old(v[..]), k, w)
  {
    hide Plus, BigSigma0, BigSigma1, Ch, Maj, Choose, Majority;
    ghost var u := v[..];
    ChoiceAgrees(v[4], v[5], v[6]);
    MajorityAgrees(v[0], v[1], v[2]);
    var tmp1 := Plus(Plus(Plus(Plus(v[7], BigSigma1(v[4])), Choose(v[4], v[5], v[6])), k), w);
    var tmp2 := Plus(BigSigma0(v[0]), Majority(v[0], v[1], v[2]));
    Shift(v, tmp1, tmp2);
  }

  method Shift(v: array<Word>, tmp1: Word, tmp2: Word)
    requires v.Length == 8
    modifies v
    ensures v[0] == Plus(tmp1, tmp2) && v[1] == old(v[0]) && v[2] == old(v[1]) && v[3] == old(v[2])
    ensures v[4] == Plus(old(v[3]), tmp1) && v[5] == old(v[4]) && v[6] == old(v[5]) && v[7] == old(v[6])
  {
    hide Plus;
    v[7] := v[6];
    v[6] := v[5];
    v[5] := v[4];
    v[4] := Plus(v[3], tmp1);
    v[3] := v[2];
    v[2] := v[1];
    v[1] := v[0];
    v[0] := Plus(tmp1, tmp2);
  }

  /** The state becomes that of the standard; the buffer is used up. */
  method ProcessBlock(state: array<Word>, buffer: array<Word>)
    requires state.Length == 8 && buffer.Length == ROUNDS && state != buffer
    modifies state, buffer
    ensures state[..] == Compress(old(state[..]), old(buffer[..16]))
  {
    hide Plus, Turn, W, Table, Sums;
    ghost var block, start := buffer[..16], state[..];
    var v := new Word[8](i requires 0 <= i < 8 reads state => state[i]);
    assert v[..] == start;
    Extend(buffer, block);
    var i := 0;
    while i < ROUNDS
      invariant 0 <= i <= ROUNDS && state[..] == start
      invariant v[..] == Rounds(block, start, i)
      invariant forall t :: 0 <= t < ROUNDS ==> buffer[t] == W(block, t)
    {
      Round(v, Table(i), buffer[i]);
      i := i + 1;
    }
    i := 0;
    while i < 8
      invariant 0 <= i <= 8 && v[..] == Rounds(block, start, ROUNDS)
      invariant forall j :: 0 <= j < 8 ==> state[j] == if j < i then Plus(start[j], v[..][j]) else start[j]
    {
      state[i] := Plus(state[i], v[i]);
      i := i + 1;
    }
  }
}
