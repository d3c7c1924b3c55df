// Two streams byte by byte: what OFInflateStream makes of a block with the fixed codes and of one with its own.
// Strings of bits are compared as the numbers that they spell, least significant bit first.

module DeflateExamples {
  import opened BitReader
  import opened Bits
  import opened Bytes
  import opened Deflate
  import opened DeflateBlocks
  import opened DeflateEncoding
  import opened DeflateTables
  import opened FixedCodes
  import opened Huffman
  import SlidingWindows

  // Bits as numbers

  predicate Packs(bits: seq<Bit>, n: nat, length: nat)
  {
    |bits| == length && FromLsb(bits) == n
  }

  lemma PacksTogether(a: seq<Bit>, m: nat, k: nat, b: seq<Bit>, n: nat, l: nat)
    requires Packs(a, m, k) && Packs(b, n, l)
    ensures Packs(a + b, m + Pow2(k) * n, k + l)
  {
    FromLsbSplit(a, b);
  }

  lemma PacksNumber(n: nat, length: nat)
    requires n < Pow2(length)
    ensures Packs(Lsb(n, length), n, length)
  {
    FromLsbOfLsb(n, length);
  }

  lemma SamePacked(a: seq<Bit>, b: seq<Bit>, n: nat, length: nat)
    requires Packs(a, n, length) && Packs(b, n, length)
    ensures a == b
  {
    LsbOfFromLsb(a);
    LsbOfFromLsb(b);
  }

  lemma ByteStep(bytes: seq<Byte>, i: nat, b: Byte, n: nat, length: nat, m: nat)
    requires i < |bytes| && bytes[i] == b && m == b + 256 * n
    requires Packs(BytesBits(bytes[i + 1..]), n, length)
    ensures Packs(BytesBits(bytes[i..]), m, 8 + length)
  {
    hide ByteBits;
    assert Pow2(8) == 256;
    ByteFromBits(b);
    PacksTogether(ByteBits(b), b, 8, BytesBits(bytes[i + 1..]), n, length);
    assert bytes[i..][1..] == bytes[i + 1..];
  }

  lemma PacksNothing()
    ensures Packs([], 0, 0)
  {
  }

  lemma PacksZero()
    ensures Packs([0], 0, 1)
  {
    assert FromLsb([]) == 0 && FromLsb([0]) == 0 + 2 * FromLsb([0][1..]);
  }

  // Tokens

  ghost predicate CodePacks(lengths: seq<nat>, s: nat, n: nat, length: nat)
  {
    s < |lengths| && lengths[s] > 0 && Packs(CodeBits(lengths, s), n, length)
  }

  /** The bits of a block from its token `i` on */
  ghost predicate Tail(ts: seq<Token>, lit: seq<nat>, dist: seq<nat>, after: seq<Bit>, i: nat, n: nat, length: nat)
  {
    && i <= |ts| && Codes(lit, dist) && AllLegal(ts[i..], lit, dist)
    && Packs(BlockBits(ts[i..], lit, dist, after), n, length)
  }

  lemma EndTail(ts: seq<Token>, lit: seq<nat>, dist: seq<nat>, after: seq<Bit>, c: nat, k: nat, n: nat, length: nat,
      m: nat)
    requires Codes(lit, dist) && CodePacks(lit, END_OF_BLOCK, c, k) && Packs(after, n, length)
    requires m == c + Pow2(k) * n
    ensures Tail(ts, lit, dist, after, |ts|, m, k + length)
  {
    hide CodeBits, Codes, Packs;
    assert ts[|ts|..] == [];
    FirstOfBlock([], lit, dist, after);
    PacksTogether(CodeBits(lit, END_OF_BLOCK), c, k, after, n, length);
  }

  ghost predicate TokenPacks(t: Token, lit: seq<nat>, dist: seq<nat>, n: nat, length: nat)
  {
    Legal(t, lit, dist) && Packs(Encoded(t, lit, dist), n, length)
  }

  lemma TailStep(ts: seq<Token>, lit: seq<nat>, dist: seq<nat>, after: seq<Bit>, i: nat, c: nat, k: nat, n: nat,
      length: nat, m: nat)
    requires i < |ts| && TokenPacks(ts[i], lit, dist, c, k)
    requires Tail(ts, lit, dist, after, i + 1, n, length)
    requires m == c + Pow2(k) * n
    ensures Tail(ts, lit, dist, after, i, m, k + length)
  {
    hide Codes, Legal, Encoded, Packs, BlockBits;
    assert ts[i..][0] == ts[i] && ts[i..][1..] == ts[i + 1..];
    MoreLegal(ts, lit, dist, i);
    FirstOfBlock(ts[i..], lit, dist, after);
    PacksTogether(Encoded(ts[i], lit, dist), c, k, BlockBits(ts[i + 1..], lit, dist, after), n, length);
  }

  lemma WholeTail(ts: seq<Token>, lit: seq<nat>, dist: seq<nat>, after: seq<Bit>, n: nat, length: nat)
    requires Tail(ts, lit, dist, after, 0, n, length)
    ensures Codes(lit, dist) && AllLegal(ts, lit, dist) && Packs(BlockBits(ts, lit, dist, after), n, length)
  {
    hide Codes, Legal, Packs, BlockBits;
    assert ts[0..] == ts;
  }

  lemma MoreLegal(ts: seq<Token>, lit: seq<nat>, dist: seq<nat>, i: nat)
    requires i < |ts| && Legal(ts[i], lit, dist) && AllLegal(ts[i + 1..], lit, dist)
    ensures AllLegal(ts[i..], lit, dist)
  {
    hide Legal;
    forall j | 0 <= j < |ts[i..]| ensures Legal(ts[i..][j], lit, dist) {
      if j > 0 { assert ts[i..][j] == ts[i + 1..][j - 1]; }
    }
  }

  lemma FourPacked(a: seq<Bit>, ka: nat, b: seq<Bit>, kb: nat, c: seq<Bit>, kc: nat, d: seq<Bit>, kd: nat,
      n: seq<nat>)
    requires |n| == 7 && Packs(a, n[0], ka) && Packs(b, n[1], kb) && Packs(c, n[2], kc) && Packs(d, n[3], kd)
    requires n[4] == n[2] + Pow2(kc) * n[3] && n[5] == n[1] + Pow2(kb) * n[4] && n[6] == n[0] + Pow2(ka) * n[5]
    ensures Packs(a + (b + (c + d)), n[6], ka + (kb + (kc + kd)))
  {
    hide Packs, Pow2;
    PacksTogether(c, n[2], kc, d, n[3], kd);
    PacksTogether(b, n[1], kb, c + d, n[4], kc + kd);
    PacksTogether(a, n[0], ka, b + (c + d), n[5], kb + (kc + kd));
  }

  // What tokens spell

  /** From token `i` on the tokens stand for the text from `k` on. */
  ghost predicate Spells(ts: seq<Token>, i: nat, text: seq<Byte>, k: nat)
  {
    && i <= |ts| && k <= |text|
    && AllExpanded(ts[i..], text[..k]) == text[k..] && AllInReach(ts[i..], text[..k])
  }

  lemma SpellsEnd(ts: seq<Token>, text: seq<Byte>)
    ensures Spells(ts, |ts|, text, |text|)
  {
  }

  lemma SpellsStep(ts: seq<Token>, i: nat, text: seq<Byte>, k: nat, length: nat)
    requires i < |ts| && k + length <= |text| && InReach(ts[i], text[..k])
    requires Expanded(ts[i], text[..k]) == text[k..k + length]
    requires Spells(ts, i + 1, text, k + length)
    ensures Spells(ts, i, text, k)
  {
    hide Expanded, InReach;
    assert ts[i..][0] == ts[i] && ts[i..][1..] == ts[i + 1..];
    assert text[..k] + text[k..k + length] == text[..k + length];
    assert text[k..k + length] + text[k + length..] == text[k..];
  }

  lemma LiteralSpells(ts: seq<Token>, i: nat, text: seq<Byte>, k: nat)
    requires i < |ts| && k < |text| && ts[i] == Literal(text[k]) && Spells(ts, i + 1, text, k + 1)
    ensures Spells(ts, i, text, k)
  {
    hide Spells;
    assert text[k..k + 1] == [text[k]];
    SpellsStep(ts, i, text, k, 1);
  }

  lemma ReferenceSpells(ts: seq<Token>, i: nat, text: seq<Byte>, k: nat, distance: nat, length: nat)
    requires i < |ts| && ts[i].Reference? && 0 < distance <= k && k + length <= |text|
    requires LengthIs(ts[i].lengthCode, ts[i].lengthExtra, length)
    requires DistanceIs(ts[i].distanceCode, ts[i].distanceExtra, distance)
    requires forall j :: k <= j < k + length ==> text[j] == text[j - distance]
    requires Spells(ts, i + 1, text, k + length)
    ensures Spells(ts, i, text, k)
  {
    hide Spells, LengthCode, DistanceCode, LengthExtraBits, DistanceExtraBits, Copy;
    Repeats(text, k, distance, length);
    SpellsStep(ts, i, text, k, length);
  }

  lemma {:induction false} Repeats(text: seq<Byte>, k: nat, distance: nat, length: nat)
    requires 0 < distance <= k && k + length <= |text|
    requires forall j :: k <= j < k + length ==> text[j] == text[j - distance]
    ensures Copy(text[..k], distance, length) == text[k..k + length]
    decreases length
  {
    if length > 0 {
      assert text[..k] + [text[k]] == text[..k + 1];
      Repeats(text, k + 1, distance, length - 1);
      assert [text[k]] + text[k + 1..k + length] == text[k..k + length];
    }
  }

  /** A stream of one block is its header and its body. */
  lemma OneBlock(block: Block, after: seq<Bit>, n: nat, length: nat)
    requires LegalBlock(block) && Packs(BodyBits(block, after), n, length)
    ensures AllLegalBlocks([block]) && Packs(StreamBits([block], after), 1 + 2 * Kind(block) + 8 * n, 3 + length)
  {
    hide LegalBlock, BodyBits, Lsb, Packs;
    assert Pow2(3) == 8;
    PacksNumber(1 + 2 * Kind(block), 3);
    PacksTogether(Lsb(1 + 2 * Kind(block), 3), 1 + 2 * Kind(block), 3, BodyBits(block, after), n, length);
    assert [block][1..] == [];
  }

  /** What a stream of one block means, when its bytes spell the same number */
  lemma OneBlockMeans(rules: Rules, block: Block, after: seq<Bit>, bytes: seq<Byte>, n: nat, length: nat)
    requires LegalBlock(block) && !block.StoredBlock? && BlockInReach(block, [])
    requires Packs(BodyBits(block, after), n, length) && |after| < 8
    requires Packs(BytesBits(bytes), 1 + 2 * Kind(block) + 8 * n, 3 + length)
    ensures Inflate(rules, BytesBits(bytes)) == Meaning(BlockBytes(block, []), Finished([]))
  {
    hide LegalBlock, BodyBits, BytesBits, Packs, BlockBytes, BlockInReach, Inflate;
    OneBlock(block, after, n, length);
    SamePacked(BytesBits(bytes), StreamBits([block], after), 1 + 2 * Kind(block) + 8 * n, 3 + length);
    assert [block][1..] == [];
    hide StreamBits;
    RoundTrip(rules, [block], after);
    assert StreamBytes([block], []) == BlockBytes(block, []) + [];
    assert |after| % 8 == |after| && Align(after) == [];
  }

  // Codes, most significant bit first, as numbers

  function Reversed(code: nat, length: nat): (n: nat)
  {
    if length == 0 then 0 else BitAt(code, length - 1) + 2 * Reversed(code, length - 1)
  }

  lemma {:induction false} PacksCode(code: nat, length: nat)
    ensures Packs(Msb(code, length), Reversed(code, length), length)
  {
    hide BitAt;
    if length > 0 {
      PacksCode(code, length - 1);
      assert Msb(code, length)[1..] == Msb(code, length - 1);
    }
  }

  lemma LiteralPacks(b: Byte, lit: seq<nat>, dist: seq<nat>, c: nat, k: nat)
    requires CodePacks(lit, b, c, k)
    ensures TokenPacks(Literal(b), lit, dist, c, k)
  {
    hide CodeBits, Packs;
  }

  /** `n` holds the numbers of the four parts, and then the parts put together from the last one on. */
  lemma ReferencePacks(l: nat, e: nat, d: nat, f: nat, lit: seq<nat>, dist: seq<nat>, lengths: seq<nat>, n: seq<nat>)
    requires |lengths| == 4 && |n| == 7 && l < 29 && d < 30
    requires CodePacks(lit, 257 + l, n[0], lengths[0]) && CodePacks(dist, d, n[2], lengths[2])
    requires lengths[1] == LengthExtraBits(l) && lengths[3] == DistanceExtraBits(d)
    requires n[1] == e < Pow2(lengths[1]) && n[3] == f < Pow2(lengths[3])
    requires n[4] == n[2] + Pow2(lengths[2]) * n[3] && n[5] == n[1] + Pow2(lengths[1]) * n[4]
    requires n[6] == n[0] + Pow2(lengths[0]) * n[5]
    ensures TokenPacks(Reference(l, e, d, f), lit, dist, n[6], lengths[0] + (lengths[1] + (lengths[2] + lengths[3])))
  {
    hide CodeBits, Packs, Lsb, Pow2, LengthExtraBits, DistanceExtraBits;
    PacksNumber(e, lengths[1]);
    PacksNumber(f, lengths[3]);
    FourPacked(CodeBits(lit, 257 + l), lengths[0], Lsb(e, lengths[1]), lengths[1], CodeBits(dist, d), lengths[2],
      Lsb(f, lengths[3]), lengths[3], n);
  }

  // Thirteen times "a" with the fixed codes

  /** Two literals, and eleven bytes from a distance of one: length code 265 with its extra bit clear */
  const A_TOKENS: seq<Token> := [Literal(0x61), Literal(0x61), Reference(8, 0, 0, 0)]

  const A_BYTES: seq<Byte> := [0x4B, 0x4C, 0x44, 0x02, 0x00]

  lemma FixedCodePacks(s: nat, code: nat, length: nat)
    requires s < |FixedLengths(0)| == 288 && CodeBits(FixedLengths(0), s) == Msb(code, length)
    ensures CodePacks(FixedLengths(0), s, Reversed(code, length), length)
  {
    hide CodeBits, FixedLengths, Msb, Reversed, Packs;
    FixedLiteralsFit();
    PacksCode(code, length);
  }

  lemma LetterReversed()
    ensures Reversed(0x91, 8) == 0x89
  {
    hide Pow2;
    Powers();
  }

  lemma LengthReversed()
    ensures Reversed(9, 7) == 0x48
  {
    hide Pow2;
    Powers();
  }

  lemma {:induction false} ZeroReversed(length: nat)
    ensures Reversed(0, length) == 0
  {
    if length > 0 {
      DivUnique(0, Pow2(length - 1), 0, 0);
      ZeroReversed(length - 1);
    }
  }

  lemma ACodes()
    ensures CodePacks(FixedLengths(0), 0x61, 0x89, 8) && CodePacks(FixedLengths(0), 265, 0x48, 7)
    ensures CodePacks(FixedLengths(0), END_OF_BLOCK, 0, 7) && CodePacks(FixedDistances(), 0, 0, 5)
  {
    hide Packs, CodePacks, CodeBits, FixedLengths, FixedDistances, Msb, Reversed;
    FixedCodesAre(0x61);
    FixedCodesAre(265);
    FixedCodesAre(END_OF_BLOCK);
    FixedCodePacks(0x61, 0x91, 8);
    FixedCodePacks(265, 9, 7);
    FixedCodePacks(END_OF_BLOCK, 0, 7);
    LetterReversed();
    LengthReversed();
    ZeroReversed(7);
    NearestPacks();
  }

  lemma NearestPacks()
    ensures CodePacks(FixedDistances(), 0, 0, 5)
  {
    hide Packs, CodeBits, FixedDistances, Msb, Reversed;
    FixedDistancesFit();
    FixedDistanceCodesAre(0);
    PacksCode(0, 5);
    ZeroReversed(5);
  }

  lemma AReference()
    ensures TokenPacks(Reference(8, 0, 0, 0), FixedLengths(0), FixedDistances(), 0x48, 13)
  {
    hide CodePacks, TokenPacks, FixedLengths, FixedDistances;
    ACodes();
    assert Pow2(0) == 1 && Pow2(1) == 2 && Pow2(5) == 32 && Pow2(7) == 128;
    ReferencePacks(8, 0, 0, 0, FixedLengths(0), FixedDistances(), [7, 1, 5, 0], [0x48, 0, 0, 0, 0, 0, 0x48]);
  }

  /** The three tokens, the end of the block, and a bit to fill the last byte */
  lemma ABits()
    ensures Codes(FixedLengths(0), FixedDistances()) && AllLegal(A_TOKENS, FixedLengths(0), FixedDistances())
    ensures Packs(BlockBits(A_TOKENS, FixedLengths(0), FixedDistances(), [0]), 0x488989, 37)
  {
    hide Packs, CodePacks, TokenPacks, FixedLengths, FixedDistances, Codes, Tail;
    ACodes();
    FixedCodesFit();
    AReference();
    LiteralPacks(0x61, FixedLengths(0), FixedDistances(), 0x89, 8);
    PacksZero();
    Powers();
    EndTail(A_TOKENS, FixedLengths(0), FixedDistances(), [0], 0, 7, 0, 1, 0);
    TailStep(A_TOKENS, FixedLengths(0), FixedDistances(), [0], 2, 0x48, 13, 0, 8, 0x48);
    TailStep(A_TOKENS, FixedLengths(0), FixedDistances(), [0], 1, 0x89, 8, 0x48, 21, 0x4889);
    TailStep(A_TOKENS, FixedLengths(0), FixedDistances(), [0], 0, 0x89, 8, 0x4889, 29, 0x488989);
    WholeTail(A_TOKENS, FixedLengths(0), FixedDistances(), [0], 0x488989, 37);
  }

  lemma ABytes()
    ensures Packs(BytesBits(A_BYTES), 0x02444C4B, 40)
  {
    hide Packs, BytesBits;
    assert Packs(BytesBits(A_BYTES[5..]), 0, 0) by { PacksNothing(); NoBytes(A_BYTES); }
    ByteStep(A_BYTES, 4, 0x00, 0, 0, 0x0);
    ByteStep(A_BYTES, 3, 0x02, 0, 8, 0x2);
    ByteStep(A_BYTES, 2, 0x44, 0x02, 16, 0x244);
    ByteStep(A_BYTES, 1, 0x4C, 0x0244, 24, 0x2444C);
    ByteStep(A_BYTES, 0, 0x4B, 0x02444C, 32, 0x2444C4B);
    assert A_BYTES[0..] == A_BYTES;
  }

  lemma NoBytes(bytes: seq<Byte>)
    ensures BytesBits(bytes[|bytes|..]) == []
  {
  }

  lemma ASpells()
    ensures AllExpanded(A_TOKENS, []) == seq(13, _ => 0x61) && AllInReach(A_TOKENS, [])
  {
    hide Spells, LengthCode, DistanceCode, LengthExtraBits, DistanceExtraBits;
    var text: seq<Byte> := seq(13, _ => 0x61);
    SpellsEnd(A_TOKENS, text);
    assert LengthIs(8, 0, 11) && DistanceIs(0, 0, 1) by { ALengths(); }
    ReferenceSpells(A_TOKENS, 2, text, 2, 1, 11);
    LiteralSpells(A_TOKENS, 1, text, 1);
    LiteralSpells(A_TOKENS, 0, text, 0);
    SpellsAll(A_TOKENS, text);
  }

  lemma ALengths()
    ensures LengthIs(8, 0, 11) && DistanceIs(0, 0, 1)
  {
  }

  lemma SpellsAll(ts: seq<Token>, text: seq<Byte>)
    requires Spells(ts, 0, text, 0)
    ensures AllExpanded(ts, []) == text && AllInReach(ts, [])
  {
    assert ts[0..] == ts && text[..0] == [] && text[0..] == text;
  }

  /** The bytes 4B 4C 44 02 00 are thirteen times "a". */
  lemma InflatesA(rules: Rules)
    ensures Inflate(rules, BytesBits(A_BYTES)) == Meaning(seq(13, _ => 0x61), Finished([]))
  {
    hide Packs, BytesBits, Inflate, AllExpanded, AllInReach, AllLegal, BlockBits, FixedLengths, FixedDistances, Codes;
    ABits();
    ABytes();
    ASpells();
    var block := FixedBlock(A_TOKENS);
    OneBlockMeans(rules, block, [0], A_BYTES, 0x488989, 37);
  }

  // A block with codes of its own

  function BStream(): (bytes: seq<Byte>)
    ensures |bytes| == 23
  {
    [0x1D, 0xC6, 0x49, 0x01, 0x00, 0x00, 0x10, 0x40, 0xC0, 0xAC, 0xA3, 0x7F, 0x88, 0x3D, 0x3C, 0x20,
     0x2A, 0x97, 0x9D, 0x37, 0x5E, 0x1D, 0x0C]
  }

  /** "abaabbbabaababbaababaaaabaaabbbbbaa" */
  const B_TEXT: seq<Byte> :=
    [0x61, 0x62, 0x61, 0x61, 0x62, 0x62, 0x62, 0x61, 0x62, 0x61, 0x61, 0x62, 0x61, 0x62, 0x62, 0x61,
     0x61, 0x62, 0x61, 0x62, 0x61, 0x61, 0x61, 0x61, 0x62, 0x61, 0x61, 0x61, 0x62, 0x62, 0x62, 0x62,
     0x62, 0x61, 0x61]

  /** One bit for "a", two for "b", four for the end of the block and for each of the three shortest lengths */
  function BLit(): (lengths: seq<nat>)
    ensures |lengths| == 260
  {
    Copies(0, 97) + [1, 2] + Copies(0, 157) + [4, 4, 4, 4]
  }

  function BDist(): (lengths: seq<nat>)
    ensures |lengths| == 7
  {
    [2, 0, 0, 0] + [2, 2, 2]
  }

  /** The lengths of the codes in which these lengths are sent: symbols 1, 2, 4 and the three kinds of run */
  function BLengths(): (lengths: seq<nat>)
    ensures |lengths| == 19
  {
    [0, 4, 1, 0] + [4] + Copies(0, 11) + [4, 4, 2]
  }

  const B_RUNS: seq<Run> := [
    Run(18, 86), Run(1, 0), Run(2, 0), Run(18, 127), Run(18, 8), Run(4, 0),
    Run(16, 0), Run(2, 0), Run(17, 0), Run(2, 0), Run(2, 0), Run(2, 0)
  ]

  const B_TOKENS: seq<Token> := [
    Literal(0x61), Literal(0x62), Literal(0x61), Literal(0x61), Literal(0x62),
    Literal(0x62), Literal(0x62), Literal(0x61), Reference(1, 0, 5, 0), Reference(0, 0, 6, 0),
    Reference(2, 0, 4, 1), Literal(0x61), Literal(0x61), Literal(0x61), Reference(2, 0, 4, 0),
    Literal(0x62), Reference(1, 0, 0, 0), Literal(0x61), Literal(0x61)
  ]

  // Its codes

  function One(x: nat, y: nat): nat
  {
    if x == y then 1 else 0
  }

  lemma CountFew(a: nat, b: nat, c: nat, d: nat, length: nat)
    ensures Count([], length) == 0 && Count([a], length) == One(a, length)
    ensures Count([a, b], length) == One(a, length) + One(b, length)
    ensures Count([a, b, c], length) == One(a, length) + One(b, length) + One(c, length)
    ensures Count([a, b, c, d], length) == One(a, length) + One(b, length) + One(c, length) + One(d, length)
  {
    assert [a][..0] == [] && [a, b][..1] == [a] && [a, b, c][..2] == [a, b] && [a, b, c, d][..3] == [a, b, c];
    assert Count([], length) == 0;
    assert Count([a], length) == One(a, length);
    assert Count([a, b], length) == Count([a], length) + One(b, length);
    assert Count([a, b, c], length) == Count([a, b], length) + One(c, length);
    assert Count([a, b, c, d], length) == Count([a, b, c], length) + One(d, length);
  }

  /** One code of one bit, one of two and four of four bits */
  ghost predicate Six(lengths: seq<nat>)
  {
    forall l: nat :: l > 0 ==> Count(lengths, l) == One(1, l) + One(2, l) + 4 * One(4, l)
  }

  lemma {:induction false} SixFit(lengths: seq<nat>, l: nat)
    requires Six(lengths)
    ensures FirstCode(lengths, 1) == 0 && FirstCode(lengths, 2) == 2 && FirstCode(lengths, 4) == 12
    ensures l >= 5 ==> FirstCode(lengths, l) == Pow2(l)
    ensures FirstCode(lengths, 3) == 6
  {
    hide Count;
    assert FirstCode(lengths, 1) == 0;
    assert FirstCode(lengths, 2) == 2 * (FirstCode(lengths, 1) + Count(lengths, 1));
    assert FirstCode(lengths, 3) == 2 * (FirstCode(lengths, 2) + Count(lengths, 2));
    assert FirstCode(lengths, 4) == 2 * (FirstCode(lengths, 3) + Count(lengths, 3));
    if l > 5 {
      SixFit(lengths, l - 1);
    } else if l == 5 {
      assert FirstCode(lengths, 5) == 2 * (FirstCode(lengths, 4) + Count(lengths, 4));
      assert Pow2(5) == 32;
    }
  }

  lemma SixNotOversubscribed(lengths: seq<nat>)
    requires Six(lengths)
    ensures NotOversubscribed(lengths)
  {
    hide Count, FirstCode;
    forall l: nat | l > 0 ensures FirstCode(lengths, l) + Count(lengths, l) <= Pow2(l) {
      SixFit(lengths, l);
      assert Pow2(1) == 2 && Pow2(2) == 4 && Pow2(3) == 8 && Pow2(4) == 16;
    }
  }

  lemma LitAreSix()
    ensures Six(BLit()) && NotOversubscribed(BLit())
  {
    hide Count, Copies, NotOversubscribed;
    forall l: nat | l > 0 ensures Count(BLit(), l) == One(1, l) + One(2, l) + 4 * One(4, l) {
      CountTogether(Copies(0, 97) + [1, 2] + Copies(0, 157), [4, 4, 4, 4], l);
      CountTogether(Copies(0, 97) + [1, 2], Copies(0, 157), l);
      CountTogether(Copies(0, 97), [1, 2], l);
      CountCopies(0, 97, l);
      CountCopies(0, 157, l);
      CountFew(1, 2, 0, 0, l);
      CountFew(4, 4, 4, 4, l);
    }
    SixNotOversubscribed(BLit());
  }

  lemma LengthsAreSix()
    ensures Six(BLengths()) && NotOversubscribed(BLengths())
  {
    hide Count, Copies, NotOversubscribed;
    forall l: nat | l > 0 ensures Count(BLengths(), l) == One(1, l) + One(2, l) + 4 * One(4, l) {
      CountTogether([0, 4, 1, 0] + [4] + Copies(0, 11), [4, 4, 2], l);
      CountTogether([0, 4, 1, 0] + [4], Copies(0, 11), l);
      CountTogether([0, 4, 1, 0], [4], l);
      CountCopies(0, 11, l);
      CountFew(0, 4, 1, 0, l);
      CountFew(4, 0, 0, 0, l);
      CountFew(4, 4, 2, 0, l);
    }
    SixNotOversubscribed(BLengths());
  }

  /** A symbol behind `before`, where so many symbols have a code of the same length */
  lemma CodeBehind(lengths: seq<nat>, before: seq<nat>, s: nat, length: nat, first: nat, rank: nat)
    requires s == |before| < |lengths| && before <= lengths && lengths[s] == length > 0
    requires FirstCode(lengths, length) == first && Count(before, length) == rank
    ensures CodePacks(lengths, s, Reversed(first + rank, length), length)
  {
    hide Count, FirstCode, Reversed, Msb, Packs;
    assert lengths[..s] == before;
    PacksCode(first + rank, length);
  }

  lemma SmallReversed()
    ensures Reversed(0, 1) == 0 && Reversed(2, 2) == 1
    ensures Reversed(12, 4) == 3 && Reversed(13, 4) == 11 && Reversed(14, 4) == 7 && Reversed(15, 4) == 15
  {
    hide Pow2;
    Powers();
  }

  lemma LetterCodes()
    ensures CodePacks(BLit(), 0x61, 0, 1) && CodePacks(BLit(), 0x62, 1, 2)
  {
    hide Count, FirstCode, Reversed, CodePacks, Six, NotOversubscribed;
    LitAreSix();
    SixFit(BLit(), 0);
    SmallReversed();
    CountCopies(0, 97, 1);
    CodeBehind(BLit(), Copies(0, 97), 97, 1, 0, 0);
    CountTogether(Copies(0, 97), [1], 2);
    CountCopies(0, 97, 2);
    CountFew(1, 0, 0, 0, 2);
    CodeBehind(BLit(), Copies(0, 97) + [1], 98, 2, 2, 0);
  }

  lemma FrontCount(l: nat)
    requires l == 4
    ensures Count(Copies(0, 97) + [1, 2] + Copies(0, 157), l) == 0
  {
    hide Count, Copies;
    CountTogether(Copies(0, 97) + [1, 2], Copies(0, 157), l);
    CountTogether(Copies(0, 97), [1, 2], l);
    CountCopies(0, 97, l);
    CountCopies(0, 157, l);
    CountFew(1, 2, 0, 0, l);
  }

  lemma LengthCodes()
    ensures CodePacks(BLit(), END_OF_BLOCK, 3, 4) && CodePacks(BLit(), 257, 11, 4)
    ensures CodePacks(BLit(), 258, 7, 4) && CodePacks(BLit(), 259, 15, 4)
  {
    hide Count, FirstCode, Reversed, CodePacks, Six, NotOversubscribed;
    LitAreSix();
    SixFit(BLit(), 0);
    SmallReversed();
    var front := Copies(0, 97) + [1, 2] + Copies(0, 157);
    FrontCount(4);
    CountFew(4, 4, 4, 4, 4);
    CodeBehind(BLit(), front, 256, 4, 12, 0);
    CountTogether(front, [4], 4);
    CodeBehind(BLit(), front + [4], 257, 4, 12, 1);
    CountTogether(front, [4, 4], 4);
    CodeBehind(BLit(), front + [4, 4], 258, 4, 12, 2);
    CountTogether(front, [4, 4, 4], 4);
    CodeBehind(BLit(), front + [4, 4, 4], 259, 4, 12, 3);
  }

  lemma RunCodes()
    ensures CodePacks(BLengths(), 2, 0, 1) && CodePacks(BLengths(), 18, 1, 2)
    ensures CodePacks(BLengths(), 1, 3, 4) && CodePacks(BLengths(), 4, 11, 4)
    ensures CodePacks(BLengths(), 16, 7, 4) && CodePacks(BLengths(), 17, 15, 4)
  {
    hide Count, FirstCode, Reversed, CodePacks, Six, NotOversubscribed;
    LengthsAreSix();
    SixFit(BLengths(), 0);
    SmallReversed();
    CountFew(0, 4, 0, 0, 1);
    CodeBehind(BLengths(), [0, 4], 2, 1, 0, 0);
    CountFew(0, 0, 0, 0, 4);
    CodeBehind(BLengths(), [0], 1, 4, 12, 0);
    CountFew(0, 4, 1, 0, 4);
    CodeBehind(BLengths(), [0, 4, 1, 0], 4, 4, 12, 1);
    RunRanks();
    var front := [0, 4, 1, 0] + [4] + Copies(0, 11);
    CodeBehind(BLengths(), front, 16, 4, 12, 2);
    CodeBehind(BLengths(), front + [4], 17, 4, 12, 3);
    CodeBehind(BLengths(), front + [4, 4], 18, 2, 2, 0);
  }

  lemma RunRanks()
    ensures var front := [0, 4, 1, 0] + [4] + Copies(0, 11);
            Count(front, 4) == 2 && Count(front + [4], 4) == 3 && Count(front + [4, 4], 2) == 0
  {
    hide Count, Copies;
    var front := [0, 4, 1, 0] + [4] + Copies(0, 11);
    forall l: nat
      ensures Count(front, l) == One(0, l) + One(4, l) + One(1, l) + One(0, l) + One(4, l) + 11 * One(0, l)
    {
      CountTogether([0, 4, 1, 0] + [4], Copies(0, 11), l);
      CountTogether([0, 4, 1, 0], [4], l);
      CountFew(0, 4, 1, 0, l);
      CountFew(4, 0, 0, 0, l);
      CountCopies(0, 11, l);
    }
    CountTogether(front, [4], 4);
    CountFew(4, 4, 0, 0, 4);
    CountTogether(front, [4, 4], 2);
    CountFew(4, 4, 0, 0, 2);
  }

  lemma DistCount(l: nat)
    ensures l > 0 ==> Count(BDist(), l) == 4 * One(2, l)
    ensures Count([2, 0, 0, 0], 2) == 1 && Count([2, 0, 0, 0] + [2], 2) == 2 && Count([2, 0, 0, 0] + [2, 2], 2) == 3
  {
    hide Count;
    CountTogether([2, 0, 0, 0], [2, 2, 2], l);
    CountFew(2, 0, 0, 0, l);
    CountFew(2, 2, 2, 0, l);
    CountFew(2, 0, 0, 0, 2);
    CountFew(2, 2, 0, 0, 2);
    CountTogether([2, 0, 0, 0], [2], 2);
    CountTogether([2, 0, 0, 0], [2, 2], 2);
  }

  lemma {:induction false} DistFirstCodes(l: nat)
    ensures FirstCode(BDist(), l) == if l <= 2 then 0 else Pow2(l)
  {
    hide Count, BDist;
    if l > 1 {
      DistFirstCodes(l - 1);
      DistCount(l - 1);
      if l == 3 { assert Pow2(3) == 8; }
    }
  }

  lemma DistFit()
    ensures NotOversubscribed(BDist())
  {
    hide Count, BDist, FirstCode;
    forall l: nat | l > 0 ensures FirstCode(BDist(), l) + Count(BDist(), l) <= Pow2(l) {
      DistFirstCodes(l);
      DistCount(l);
      assert Pow2(2) == 4;
    }
  }

  lemma DistanceCodes()
    ensures CodePacks(BDist(), 0, 0, 2) && CodePacks(BDist(), 4, 2, 2)
    ensures CodePacks(BDist(), 5, 1, 2) && CodePacks(BDist(), 6, 3, 2)
  {
    hide Count, FirstCode, Reversed, CodePacks;
    DistFirstCodes(2);
    DistCount(2);
    TwoBits();
    CountFew(2, 0, 0, 0, 2);
    CodeBehind(BDist(), [], 0, 2, 0, 0);
    CodeBehind(BDist(), [2, 0, 0, 0], 4, 2, 0, 1);
    CodeBehind(BDist(), [2, 0, 0, 0] + [2], 5, 2, 0, 2);
    CodeBehind(BDist(), [2, 0, 0, 0] + [2, 2], 6, 2, 0, 3);
  }

  lemma TwoBits()
    ensures Reversed(0, 2) == 0 && Reversed(1, 2) == 2 && Reversed(2, 2) == 1 && Reversed(3, 2) == 3
  {
  }

  // Its bits

  /** The lengths of the code lengths from place `i` on */
  lemma LengthStep(cl: seq<nat>, count: nat, i: nat, c: nat, n: nat, length: nat, m: nat)
    requires i < count <= 19 == |cl| && CODE_LENGTHS_ORDER[i] < 19 && cl[CODE_LENGTHS_ORDER[i]] == c < 8
    requires Packs(CodeLengthBits(cl, i + 1, count), n, length) && m == c + 8 * n
    ensures Packs(CodeLengthBits(cl, i, count), m, 3 + length)
  {
    hide Packs, Lsb;
    assert Pow2(3) == 8;
    PacksNumber(c, 3);
    PacksTogether(Lsb(c, 3), c, 3, CodeLengthBits(cl, i + 1, count), n, length);
  }

  lemma BLengthsAre()
    ensures forall k :: 0 <= k < 19 ==>
                          BLengths()[k] == if k == 2 then 1 else if k == 18 then 2
                                           else if k == 1 || k == 4 || k == 16 || k == 17 then 4 else 0
  {
  }

  lemma LengthsPack()
    ensures Packs(CodeLengthBits(BLengths(), 0, 18), 0x202008000000a4, 54)
  {
    hide Packs, CodeLengthBits, BLengths;
    BLengthsAre();
    assert Packs(CodeLengthBits(BLengths(), 18, 18), 0, 0) by { NoLengths(); }
    LengthStep(BLengths(), 18, 17, 4, 0, 0, 4);
    LengthStep(BLengths(), 18, 16, 0, 4, 3, 0x20);
    LengthStep(BLengths(), 18, 15, 1, 0x20, 6, 0x101);
    LengthStep(BLengths(), 18, 14, 0, 0x101, 9, 0x808);
    LengthStep(BLengths(), 18, 13, 0, 0x808, 12, 0x4040);
    LengthStep(BLengths(), 18, 12, 0, 0x4040, 15, 0x20200);
    LengthStep(BLengths(), 18, 11, 4, 0x20200, 18, 0x101004);
    LengthStep(BLengths(), 18, 10, 0, 0x101004, 21, 0x808020);
    LengthStep(BLengths(), 18, 9, 0, 0x808020, 24, 0x4040100);
    LengthStep(BLengths(), 18, 8, 0, 0x4040100, 27, 0x20200800);
    LengthStep(BLengths(), 18, 7, 0, 0x20200800, 30, 0x101004000);
    LengthStep(BLengths(), 18, 6, 0, 0x101004000, 33, 0x808020000);
    LengthStep(BLengths(), 18, 5, 0, 0x808020000, 36, 0x4040100000);
    LengthStep(BLengths(), 18, 4, 0, 0x4040100000, 39, 0x20200800000);
    LengthStep(BLengths(), 18, 3, 0, 0x20200800000, 42, 0x101004000000);
    LengthStep(BLengths(), 18, 2, 2, 0x101004000000, 45, 0x808020000002);
    LengthStep(BLengths(), 18, 1, 4, 0x808020000002, 48, 0x4040100000014);
    LengthStep(BLengths(), 18, 0, 4, 0x4040100000014, 51, 0x202008000000a4);
  }

  lemma NoLengths()
    ensures Packs(CodeLengthBits(BLengths(), 18, 18), 0, 0)
  {
    hide BLengths;
    PacksNothing();
  }

  /** The runs from run `i` on, behind whatever lengths */
  ghost predicate RunTail(runs: seq<Run>, cl: seq<nat>, i: nat, n: nat, length: nat)
  {
    && i <= |runs|
    && forall before: seq<nat> ::
         before != [] ==> LegalRuns(runs[i..], before, cl) && Packs(AllRunBits(runs[i..], before, cl), n, length)
  }

  lemma RunEnd(runs: seq<Run>, cl: seq<nat>)
    ensures RunTail(runs, cl, |runs|, 0, 0)
  {
  }

  /** A code and its extra bits */
  ghost predicate RunPacks(run: Run, cl: seq<nat>, n: nat, length: nat)
  {
    && |cl| == 19 && run.symbol < 19 && cl[run.symbol] > 0
    && (run.symbol >= 16 ==> run.extra < Pow2(RepeatBits(run.symbol)))
    && Packs(RunBits(run, cl), n, length)
  }

  lemma RunIs(run: Run, cl: seq<nat>, c: nat, k: nat, bits: nat, n: nat)
    requires |cl| == 19 && run.symbol < 19 && CodePacks(cl, run.symbol, c, k)
    requires bits == if run.symbol < 16 then 0 else RepeatBits(run.symbol)
    requires n == c + Pow2(k) * run.extra && run.extra < Pow2(bits)
    ensures RunPacks(run, cl, n, k + bits)
  {
    hide Packs, Lsb, CodeBits, Pow2;
    var code := CodeBits(cl, run.symbol);
    if run.symbol < 16 {
      assert Pow2(0) == 1 by { Powers(); }
      assert code + [] == code;
    } else {
      PacksNumber(run.extra, bits);
      PacksTogether(code, c, k, Lsb(run.extra, bits), run.extra, bits);
    }
  }

  /** A run with runs behind it */
  lemma RunBehind(runs: seq<Run>, cl: seq<nat>, before: seq<nat>, i: nat, c: nat, k: nat, n: nat, length: nat, m: nat)
    requires i < |runs| && RunPacks(runs[i], cl, c, k) && RunTail(runs, cl, i + 1, n, length) && m == c + Pow2(k) * n
    requires before == [] ==> runs[i].symbol != 16
    ensures LegalRuns(runs[i..], before, cl) && Packs(AllRunBits(runs[i..], before, cl), m, k + length)
  {
    hide Packs, RunBits, Spread, RepeatBits;
    var longer := before + Spread(runs[i], before);
    assert runs[i..][0] == runs[i] && runs[i..][1..] == runs[i + 1..] && longer != [];
    PacksTogether(RunBits(runs[i], cl), c, k, AllRunBits(runs[i + 1..], longer, cl), n, length);
  }

  lemma RunStep(runs: seq<Run>, cl: seq<nat>, i: nat, c: nat, k: nat, n: nat, length: nat, m: nat)
    requires i < |runs| && RunPacks(runs[i], cl, c, k) && RunTail(runs, cl, i + 1, n, length) && m == c + Pow2(k) * n
    ensures RunTail(runs, cl, i, m, k + length)
  {
    hide Packs, RunPacks, LegalRuns, AllRunBits, Pow2;
    forall before: seq<nat> | before != []
      ensures LegalRuns(runs[i..], before, cl) && Packs(AllRunBits(runs[i..], before, cl), m, k + length)
    {
      RunBehind(runs, cl, before, i, c, k, n, length, m);
    }
  }

  lemma EachRun()
    ensures RunPacks(Run(18, 86), BLengths(), 345, 9)
    ensures RunPacks(Run(1, 0), BLengths(), 3, 4)
    ensures RunPacks(Run(2, 0), BLengths(), 0, 1)
    ensures RunPacks(Run(18, 127), BLengths(), 509, 9)
    ensures RunPacks(Run(18, 8), BLengths(), 33, 9)
    ensures RunPacks(Run(4, 0), BLengths(), 11, 4)
    ensures RunPacks(Run(16, 0), BLengths(), 7, 6)
    ensures RunPacks(Run(17, 0), BLengths(), 15, 7)
  {
    hide CodePacks, RunPacks, BLengths, Pow2;
    Powers();
    RunCodes();
    RunIs(Run(18, 86), BLengths(), 1, 2, 7, 345);
    RunIs(Run(1, 0), BLengths(), 3, 4, 0, 3);
    RunIs(Run(2, 0), BLengths(), 0, 1, 0, 0);
    RunIs(Run(18, 127), BLengths(), 1, 2, 7, 509);
    RunIs(Run(18, 8), BLengths(), 1, 2, 7, 33);
    RunIs(Run(4, 0), BLengths(), 11, 4, 0, 11);
    RunIs(Run(16, 0), BLengths(), 7, 4, 2, 7);
    RunIs(Run(17, 0), BLengths(), 15, 4, 3, 15);
  }

  lemma RunsPack()
    ensures LegalRuns(B_RUNS, [], BLengths()) && Packs(AllRunBits(B_RUNS, [], BLengths()), 0x787b10ff4759, 53)
  {
    hide RunPacks, RunTail, BLengths, LegalRuns, AllRunBits, Packs, Pow2;
    Powers();
    EachRun();
    RunEnd(B_RUNS, BLengths());
    RunStep(B_RUNS, BLengths(), 11, 0, 1, 0, 0, 0);
    RunStep(B_RUNS, BLengths(), 10, 0, 1, 0, 1, 0);
    RunStep(B_RUNS, BLengths(), 9, 0, 1, 0, 2, 0);
    RunStep(B_RUNS, BLengths(), 8, 15, 7, 0, 3, 0xf);
    RunStep(B_RUNS, BLengths(), 7, 0, 1, 0xf, 10, 0x1e);
    RunStep(B_RUNS, BLengths(), 6, 7, 6, 0x1e, 11, 0x787);
    RunStep(B_RUNS, BLengths(), 5, 11, 4, 0x787, 17, 0x787b);
    RunStep(B_RUNS, BLengths(), 4, 33, 9, 0x787b, 21, 0xf0f621);
    RunStep(B_RUNS, BLengths(), 3, 509, 9, 0xf0f621, 30, 0x1e1ec43fd);
    RunStep(B_RUNS, BLengths(), 2, 0, 1, 0x1e1ec43fd, 39, 0x3c3d887fa);
    RunStep(B_RUNS, BLengths(), 1, 3, 4, 0x3c3d887fa, 40, 0x3c3d887fa3);
    assert B_RUNS[0..] == B_RUNS;
    RunBehind(B_RUNS, BLengths(), [], 0, 345, 9, 0x3c3d887fa3, 44, 0x787b10ff4759);
  }

  lemma SpreadStep(runs: seq<Run>, i: nat, before: seq<nat>, lengths: seq<nat>)
    requires i < |runs| && Spread(runs[i], before) == lengths
    ensures Spreads(runs[i..], before) == Spreads(runs[i + 1..], before + lengths)
  {
    hide Spread;
    assert runs[i..][0] == runs[i] && runs[i..][1..] == runs[i + 1..];
  }

  lemma SpreadsEnd(runs: seq<Run>, before: seq<nat>)
    ensures Spreads(runs[|runs|..], before) == before
  {
  }

  lemma BSpreads()
    ensures Spreads(B_RUNS, []) == BLit() + BDist()
  {
    hide Spreads, BLit, BDist, Copies;
    var s0: seq<nat> := [];
    SpreadStep(B_RUNS, 0, s0, Copies(0, 97));
    var s1 := s0 + Copies(0, 97);
    SpreadStep(B_RUNS, 1, s1, [1]);
    var s2 := s1 + [1];
    SpreadStep(B_RUNS, 2, s2, [2]);
    var s3 := s2 + [2];
    SpreadStep(B_RUNS, 3, s3, Copies(0, 138));
    var s4 := s3 + Copies(0, 138);
    SpreadStep(B_RUNS, 4, s4, Copies(0, 19));
    var s5 := s4 + Copies(0, 19);
    SpreadStep(B_RUNS, 5, s5, [4]);
    var s6 := s5 + [4];
    SpreadStep(B_RUNS, 6, s6, Copies(4, 3));
    var s7 := s6 + Copies(4, 3);
    SpreadStep(B_RUNS, 7, s7, [2]);
    var s8 := s7 + [2];
    SpreadStep(B_RUNS, 8, s8, Copies(0, 3));
    var s9 := s8 + Copies(0, 3);
    SpreadStep(B_RUNS, 9, s9, [2]);
    var s10 := s9 + [2];
    SpreadStep(B_RUNS, 10, s10, [2]);
    var s11 := s10 + [2];
    SpreadStep(B_RUNS, 11, s11, [2]);
    var s12 := s11 + [2];
    SpreadsEnd(B_RUNS, s12);
    assert B_RUNS[0..] == B_RUNS;
    Regrouped();
  }

  lemma Regrouped()
    ensures [] + Copies(0, 97) + [1] + [2] + Copies(0, 138) + Copies(0, 19) + [4] + Copies(4, 3)
            + [2] + Copies(0, 3) + [2] + [2] + [2] ==
            BLit() + BDist()
  {
  }

  lemma EachToken()
    ensures TokenPacks(Literal(0x61), BLit(), BDist(), 0, 1)
    ensures TokenPacks(Literal(0x62), BLit(), BDist(), 1, 2)
    ensures TokenPacks(Reference(1, 0, 5, 0), BLit(), BDist(), 23, 7)
    ensures TokenPacks(Reference(0, 0, 6, 0), BLit(), BDist(), 59, 8)
    ensures TokenPacks(Reference(2, 0, 4, 1), BLit(), BDist(), 111, 7)
    ensures TokenPacks(Reference(2, 0, 4, 0), BLit(), BDist(), 47, 7)
    ensures TokenPacks(Reference(1, 0, 0, 0), BLit(), BDist(), 7, 6)
  {
    hide CodePacks, TokenPacks, BLit, BDist, Pow2, LengthExtraBits, DistanceExtraBits;
    Powers();
    LetterCodes();
    LengthCodes();
    DistanceCodes();
    ExtraBits(0);
    ExtraBits(1);
    ExtraBits(2);
    ExtraBits(4);
    ExtraBits(5);
    ExtraBits(6);
    LiteralPacks(0x61, BLit(), BDist(), 0, 1);
    LiteralPacks(0x62, BLit(), BDist(), 1, 2);
    ReferencePacks(1, 0, 5, 0, BLit(), BDist(), [4, 0, 2, 1], [7, 0, 1, 0, 1, 1, 23]);
    ReferencePacks(0, 0, 6, 0, BLit(), BDist(), [4, 0, 2, 2], [11, 0, 3, 0, 3, 3, 59]);
    ReferencePacks(2, 0, 4, 1, BLit(), BDist(), [4, 0, 2, 1], [15, 0, 2, 1, 6, 6, 111]);
    ReferencePacks(2, 0, 4, 0, BLit(), BDist(), [4, 0, 2, 1], [15, 0, 2, 0, 2, 2, 47]);
    ReferencePacks(1, 0, 0, 0, BLit(), BDist(), [4, 0, 2, 0], [7, 0, 0, 0, 0, 0, 7]);
  }

  lemma BCodes()
    ensures Codes(BLit(), BDist())
  {
    hide NotOversubscribed, Six;
    LitAreSix();
    DistFit();
  }

  lemma TokensPack()
    ensures Codes(BLit(), BDist()) && AllLegal(B_TOKENS, BLit(), BDist())
    ensures Packs(BlockBits(B_TOKENS, BLit(), BDist(), [0, 0]), 0xc1d5e379d972a2, 60)
  {
    hide TokenPacks, CodePacks, Codes, Tail, BLit, BDist, Packs, Pow2;
    Powers();
    BCodes();
    LengthCodes();
    EachToken();
    assert Packs([0, 0], 0, 2) by { TwoZeros(); }
    EndTail(B_TOKENS, BLit(), BDist(), [0, 0], 3, 4, 0, 2, 3);
    TailStep(B_TOKENS, BLit(), BDist(), [0, 0], 18, 0, 1, 3, 6, 6);
    TailStep(B_TOKENS, BLit(), BDist(), [0, 0], 17, 0, 1, 6, 7, 0xc);
    TailStep(B_TOKENS, BLit(), BDist(), [0, 0], 16, 7, 6, 0xc, 8, 0x307);
    TailStep(B_TOKENS, BLit(), BDist(), [0, 0], 15, 1, 2, 0x307, 14, 0xc1d);
    TailStep(B_TOKENS, BLit(), BDist(), [0, 0], 14, 47, 7, 0xc1d, 16, 0x60eaf);
    TailStep(B_TOKENS, BLit(), BDist(), [0, 0], 13, 0, 1, 0x60eaf, 23, 0xc1d5e);
    TailStep(B_TOKENS, BLit(), BDist(), [0, 0], 12, 0, 1, 0xc1d5e, 24, 0x183abc);
    TailStep(B_TOKENS, BLit(), BDist(), [0, 0], 11, 0, 1, 0x183abc, 25, 0x307578);
    TailStep(B_TOKENS, BLit(), BDist(), [0, 0], 10, 111, 7, 0x307578, 26, 0x183abc6f);
    TailStep(B_TOKENS, BLit(), BDist(), [0, 0], 9, 59, 8, 0x183abc6f, 33, 0x183abc6f3b);
    TailStep(B_TOKENS, BLit(), BDist(), [0, 0], 8, 23, 7, 0x183abc6f3b, 41, 0xc1d5e379d97);
    TailStep(B_TOKENS, BLit(), BDist(), [0, 0], 7, 0, 1, 0xc1d5e379d97, 48, 0x183abc6f3b2e);
    TailStep(B_TOKENS, BLit(), BDist(), [0, 0], 6, 1, 2, 0x183abc6f3b2e, 49, 0x60eaf1bcecb9);
    TailStep(B_TOKENS, BLit(), BDist(), [0, 0], 5, 1, 2, 0x60eaf1bcecb9, 51, 0x183abc6f3b2e5);
    TailStep(B_TOKENS, BLit(), BDist(), [0, 0], 4, 1, 2, 0x183abc6f3b2e5, 53, 0x60eaf1bcecb95);
    TailStep(B_TOKENS, BLit(), BDist(), [0, 0], 3, 0, 1, 0x60eaf1bcecb95, 55, 0xc1d5e379d972a);
    TailStep(B_TOKENS, BLit(), BDist(), [0, 0], 2, 0, 1, 0xc1d5e379d972a, 56, 0x183abc6f3b2e54);
    TailStep(B_TOKENS, BLit(), BDist(), [0, 0], 1, 1, 2, 0x183abc6f3b2e54, 57, 0x60eaf1bcecb951);
    TailStep(B_TOKENS, BLit(), BDist(), [0, 0], 0, 0, 1, 0x60eaf1bcecb951, 59, 0xc1d5e379d972a2);
    WholeTail(B_TOKENS, BLit(), BDist(), [0, 0], 0xc1d5e379d972a2, 60);
  }

  lemma TwoZeros()
    ensures Packs([0, 0], 0, 2)
  {
    PacksZero();
    assert [0, 0] == [0] + [0] && Pow2(1) == 2;
    PacksTogether([0], 0, 1, [0], 0, 1);
  }

  lemma SpellsLast()
    ensures Spells(B_TOKENS, 16, B_TEXT, 29)
  {
    hide Spells, LengthIs, DistanceIs;
    BReferences();
    SpellsEnd(B_TOKENS, B_TEXT);
    LiteralSpells(B_TOKENS, 18, B_TEXT, 34);
    LiteralSpells(B_TOKENS, 17, B_TEXT, 33);
    ReferenceSpells(B_TOKENS, 16, B_TEXT, 29, 1, 4);
  }

  lemma SpellsFifth()
    ensures Spells(B_TOKENS, 14, B_TEXT, 23)
  {
    hide Spells, LengthIs, DistanceIs;
    BReferences();
    SpellsLast();
    LiteralSpells(B_TOKENS, 15, B_TEXT, 28);
    ReferenceSpells(B_TOKENS, 14, B_TEXT, 23, 5, 5);
  }

  lemma SpellsFourth()
    ensures Spells(B_TOKENS, 11, B_TEXT, 20)
  {
    hide Spells, LengthIs, DistanceIs;
    BReferences();
    SpellsFifth();
    LiteralSpells(B_TOKENS, 13, B_TEXT, 22);
    LiteralSpells(B_TOKENS, 12, B_TEXT, 21);
    LiteralSpells(B_TOKENS, 11, B_TEXT, 20);
  }

  lemma SpellsThird()
    ensures Spells(B_TOKENS, 9, B_TEXT, 12)
  {
    hide Spells, LengthIs, DistanceIs;
    BReferences();
    SpellsFourth();
    ReferenceSpells(B_TOKENS, 10, B_TEXT, 15, 6, 5);
    ReferenceSpells(B_TOKENS, 9, B_TEXT, 12, 9, 3);
  }

  lemma SpellsSecond()
    ensures Spells(B_TOKENS, 5, B_TEXT, 5)
  {
    hide Spells, LengthIs, DistanceIs;
    BReferences();
    SpellsThird();
    ReferenceSpells(B_TOKENS, 8, B_TEXT, 8, 7, 4);
    LiteralSpells(B_TOKENS, 7, B_TEXT, 7);
    LiteralSpells(B_TOKENS, 6, B_TEXT, 6);
    LiteralSpells(B_TOKENS, 5, B_TEXT, 5);
  }

  lemma SpellsFirst()
    ensures Spells(B_TOKENS, 0, B_TEXT, 0)
  {
    hide Spells, LengthIs, DistanceIs;
    BReferences();
    SpellsSecond();
    LiteralSpells(B_TOKENS, 4, B_TEXT, 4);
    LiteralSpells(B_TOKENS, 3, B_TEXT, 3);
    LiteralSpells(B_TOKENS, 2, B_TEXT, 2);
    LiteralSpells(B_TOKENS, 1, B_TEXT, 1);
    LiteralSpells(B_TOKENS, 0, B_TEXT, 0);
  }

  lemma BSpells()
    ensures AllExpanded(B_TOKENS, []) == B_TEXT && AllInReach(B_TOKENS, [])
  {
    hide Spells;
    SpellsFirst();
    SpellsAll(B_TOKENS, B_TEXT);
  }

  lemma BReferences()
    ensures LengthIs(0, 0, 3) && LengthIs(1, 0, 4) && LengthIs(2, 0, 5)
    ensures DistanceIs(0, 0, 1) && DistanceIs(4, 0, 5) && DistanceIs(4, 1, 6)
    ensures DistanceIs(5, 0, 7) && DistanceIs(6, 0, 9)
  {
    hide Pow2, LengthExtraBits, DistanceExtraBits;
    Powers();
    ExtraBits(0);
    ExtraBits(1);
    ExtraBits(2);
    ExtraBits(4);
    ExtraBits(5);
    ExtraBits(6);
  }

  lemma BBody()
    ensures LegalDynamic(BLit(), BDist(), BLengths(), 18, B_RUNS) && AllLegal(B_TOKENS, BLit(), BDist())
    ensures Packs(TreeBits(BLit(), BDist(), BLengths(), 18, B_RUNS, BlockBits(B_TOKENS, BLit(), BDist(), [0, 0])),
                  0x183abc6f3b2e5440787b10ff4759808020000002938c3, 181)
  {
    hide Packs, Lsb, Pow2, BlockBits, AllRunBits, CodeLengthBits, LegalRuns, Spreads, BLengths, BLit, BDist, Codes,
      AllLegal, LegalCodeLengths;
    Powers();
    TokensPack();
    RunsPack();
    BSpreads();
    LengthsPack();
    BLegalLengths();
    var last := BlockBits(B_TOKENS, BLit(), BDist(), [0, 0]);
    var runs := AllRunBits(B_RUNS, [], BLengths());
    var lengths := CodeLengthBits(BLengths(), 0, 18);
    BPowers();
    PacksNumber(14, 4);
    PacksNumber(6, 5);
    PacksNumber(3, 5);
    PacksTogether(runs, 0x787b10ff4759, 53, last, 0xc1d5e379d972a2, 60);
    PacksTogether(lengths, 0x202008000000a4, 54, runs + last, 0x183abc6f3b2e5440787b10ff4759, 113);
    PacksTogether(Lsb(14, 4), 14, 4, lengths + (runs + last), 0x60eaf1bcecb95101e1ec43fd1d6602008000000a4, 167);
    PacksTogether(Lsb(6, 5), 6, 5, Lsb(14, 4) + (lengths + (runs + last)),
      0x60eaf1bcecb95101e1ec43fd1d6602008000000a4e, 171);
    PacksTogether(Lsb(3, 5), 3, 5, Lsb(6, 5) + (Lsb(14, 4) + (lengths + (runs + last))),
      0xc1d5e379d972a203c3d887fa3acc0401000000149c6, 176);
  }

  lemma BPowers()
    ensures Pow2(53) == 0x20000000000000 && Pow2(54) == 0x40000000000000
  {
    assert Pow2(54) == 2 * Pow2(53);
    hide Pow2;
    Powers();
    Pow2Add(13, 13);
    Pow2Add(13, 1);
    Pow2Add(26, 14);
    Pow2Add(40, 13);
  }

  lemma BLegalLengths()
    ensures LegalCodeLengths(BLengths(), 18)
  {
    hide NotOversubscribed, BLengths, Six;
    BLengthsAre();
    LengthsAreSix();
  }

  lemma BStreamFront()
    ensures BStream()[0] == 0x1D && BStream()[1] == 0xC6 && BStream()[2] == 0x49 && BStream()[3] == 0x01
    ensures BStream()[4] == 0x00 && BStream()[5] == 0x00 && BStream()[6] == 0x10 && BStream()[7] == 0x40
  {
  }

  lemma BStreamMiddle()
    ensures BStream()[8] == 0xC0 && BStream()[9] == 0xAC && BStream()[10] == 0xA3 && BStream()[11] == 0x7F
    ensures BStream()[12] == 0x88 && BStream()[13] == 0x3D && BStream()[14] == 0x3C && BStream()[15] == 0x20
  {
  }

  lemma BStreamBack()
    ensures BStream()[16] == 0x2A && BStream()[17] == 0x97 && BStream()[18] == 0x9D && BStream()[19] == 0x37
    ensures BStream()[20] == 0x5E && BStream()[21] == 0x1D && BStream()[22] == 0x0C
  {
  }

  lemma BytesFrom16()
    ensures Packs(BytesBits(BStream()[16..]), 0xc1d5e379d972a, 56)
  {
    hide Packs, BytesBits, BStream;
    BStreamBack();
    assert Packs(BytesBits(BStream()[23..]), 0, 0) by { PacksNothing(); NoBytes(BStream()); }
    ByteStep(BStream(), 22, 0x0C, 0, 0, 0xc);
    ByteStep(BStream(), 21, 0x1D, 0xc, 8, 0xc1d);
    ByteStep(BStream(), 20, 0x5E, 0xc1d, 16, 0xc1d5e);
    ByteStep(BStream(), 19, 0x37, 0xc1d5e, 24, 0xc1d5e37);
    ByteStep(BStream(), 18, 0x9D, 0xc1d5e37, 32, 0xc1d5e379d);
    ByteStep(BStream(), 17, 0x97, 0xc1d5e379d, 40, 0xc1d5e379d97);
    ByteStep(BStream(), 16, 0x2A, 0xc1d5e379d97, 48, 0xc1d5e379d972a);
  }

  lemma BytesFrom8()
    ensures Packs(BytesBits(BStream()[8..]), 0xc1d5e379d972a203c3d887fa3acc0, 120)
  {
    hide Packs, BytesBits, BStream;
    BStreamMiddle();
    BytesFrom16();
    ByteStep(BStream(), 15, 0x20, 0xc1d5e379d972a, 56, 0xc1d5e379d972a20);
    ByteStep(BStream(), 14, 0x3C, 0xc1d5e379d972a20, 64, 0xc1d5e379d972a203c);
    ByteStep(BStream(), 13, 0x3D, 0xc1d5e379d972a203c, 72, 0xc1d5e379d972a203c3d);
    ByteStep(BStream(), 12, 0x88, 0xc1d5e379d972a203c3d, 80, 0xc1d5e379d972a203c3d88);
    ByteStep(BStream(), 11, 0x7F, 0xc1d5e379d972a203c3d88, 88, 0xc1d5e379d972a203c3d887f);
    ByteStep(BStream(), 10, 0xA3, 0xc1d5e379d972a203c3d887f, 96, 0xc1d5e379d972a203c3d887fa3);
    ByteStep(BStream(), 9, 0xAC, 0xc1d5e379d972a203c3d887fa3, 104, 0xc1d5e379d972a203c3d887fa3ac);
    ByteStep(BStream(), 8, 0xC0, 0xc1d5e379d972a203c3d887fa3ac, 112, 0xc1d5e379d972a203c3d887fa3acc0);
  }

  lemma BytesFrom0()
    ensures Packs(BytesBits(BStream()[0..]), 0xc1d5e379d972a203c3d887fa3acc0401000000149c61d, 184)
  {
    hide Packs, BytesBits, BStream;
    BStreamFront();
    BytesFrom8();
    ByteStep(BStream(), 7, 0x40, 0xc1d5e379d972a203c3d887fa3acc0, 120, 0xc1d5e379d972a203c3d887fa3acc040);
    ByteStep(BStream(), 6, 0x10, 0xc1d5e379d972a203c3d887fa3acc040, 128, 0xc1d5e379d972a203c3d887fa3acc04010);
    ByteStep(BStream(), 5, 0x00, 0xc1d5e379d972a203c3d887fa3acc04010, 136, 0xc1d5e379d972a203c3d887fa3acc0401000);
    ByteStep(BStream(), 4, 0x00, 0xc1d5e379d972a203c3d887fa3acc0401000, 144, 0xc1d5e379d972a203c3d887fa3acc040100000);
    ByteStep(BStream(), 3, 0x01, 0xc1d5e379d972a203c3d887fa3acc040100000, 152,
      0xc1d5e379d972a203c3d887fa3acc04010000001);
    ByteStep(BStream(), 2, 0x49, 0xc1d5e379d972a203c3d887fa3acc04010000001, 160,
      0xc1d5e379d972a203c3d887fa3acc0401000000149);
    ByteStep(BStream(), 1, 0xC6, 0xc1d5e379d972a203c3d887fa3acc0401000000149, 168,
      0xc1d5e379d972a203c3d887fa3acc0401000000149c6);
    ByteStep(BStream(), 0, 0x1D, 0xc1d5e379d972a203c3d887fa3acc0401000000149c6, 176,
      0xc1d5e379d972a203c3d887fa3acc0401000000149c61d);
  }

  lemma BBytes()
    ensures Packs(BytesBits(BStream()), 0xc1d5e379d972a203c3d887fa3acc0401000000149c61d, 184)
  {
    hide Packs, BytesBits, BStream;
    BytesFrom0();
    assert BStream()[0..] == BStream();
  }

  /** A block of 23 bytes with codes of its own, in which all three kinds of run occur */
  lemma InflatesB(rules: Rules)
    ensures Inflate(rules, BytesBits(BStream())) == Meaning(B_TEXT, Finished([]))
  {
    hide Packs, BytesBits, Inflate, AllExpanded, AllInReach, AllLegal, BlockBits, LegalDynamic, TreeBits, Codes,
      BStream;
    BBody();
    BBytes();
    BSpells();
    var block := DynamicBlock(BLit(), BDist(), BLengths(), 18, B_RUNS, B_TOKENS);
    OneBlockMeans(rules, block, [0, 0], BStream(), 0x183abc6f3b2e5440787b10ff4759808020000002938c3, 181);
  }
}
