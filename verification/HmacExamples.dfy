// What the padded keys are, byte by byte and bit by bit, and a published value: test case 1 of RFC 4231.

module HmacExamples {
  import Bits
  import opened Bytes
  import opened Hmacs
  import opened Options
  import opened Sha2
  import opened Sha2Hashes
  import opened Sha2Examples
  import Sha256Traces
  import Words

  // The padded keys

  /** Inverting the bits of the inner pad */
  function Inverted(b: Byte, positions: set<nat>, k: nat): nat
  {
    if k in positions then 1 - Bits.BitAt(b, k) else Bits.BitAt(b, k)
  }

  const INNER_BITS: set<nat> := {1, 2, 4, 5}
  const OUTER_BITS: set<nat> := {2, 3, 4, 6}

  function KeyByte(key: seq<Byte>, i: nat): Byte
  {
    if i < |key| then key[i] else 0
  }

  lemma PadBits(k: nat)
    requires k < 8
    ensures Bits.BitAt(0x36, k) == if k in INNER_BITS then 1 else 0
    ensures Bits.BitAt(0x5C, k) == if k in OUTER_BITS then 1 else 0
  {
    assert Bits.Pow2(0) == 1 && Bits.Pow2(1) == 2 && Bits.Pow2(2) == 4 && Bits.Pow2(3) == 8;
    assert Bits.Pow2(4) == 16 && Bits.Pow2(5) == 32 && Bits.Pow2(6) == 64 && Bits.Pow2(7) == 128;
  }

  lemma BlockByte(v: Variant, key: seq<Byte>, i: nat)
    requires |key| <= v.BlockSize() && i < v.BlockSize()
    ensures KeyBlock(v, key)[i] == KeyByte(key, i)
  {
    hide Digest, Zeros, Variant.BlockSize;
  }

  /** A key of at most a block: byte by byte, some bits of it are inverted in the pads. */
  lemma PadBytes(v: Variant, key: seq<Byte>, i: nat, k: nat)
    requires |key| <= v.BlockSize() && i < v.BlockSize() && k < 8
    ensures |InnerPad(v, key)| == |OuterPad(v, key)| == v.BlockSize()
    ensures Bits.BitAt(InnerPad(v, key)[i], k) == Inverted(KeyByte(key, i), INNER_BITS, k)
    ensures Bits.BitAt(OuterPad(v, key)[i], k) == Inverted(KeyByte(key, i), OUTER_BITS, k)
  {
    hide InnerPad, OuterPad, Variant.BlockSize, Bits.BitAt, Words.Xor;
    PadByte(v, key, i);
    PadBits(k);
    Words.XorBits(KeyByte(key, i), 0x36, k);
    Words.XorBits(KeyByte(key, i), 0x5C, k);
  }

  /** The empty key: the hashes that a keyed object starts from have absorbed these bytes and nothing else. */
  lemma EmptyKeyAbsorbed(h: OFHMAC)
    requires h.Valid() && h.model == Mac(Some([]), [], false)
    ensures h.innerHash != null && |h.innerHash.message| == h.hashClass.BlockSize()
    ensures forall i :: 0 <= i < h.hashClass.BlockSize() ==> h.innerHash.message[i] == 0x36
    ensures h.outerHash != null && |h.outerHash.message| == h.hashClass.BlockSize()
    ensures forall i :: 0 <= i < h.hashClass.BlockSize() ==> h.outerHash.message[i] == 0x5C
  {
    hide OFSHA2Hash.Valid, InnerPad, OuterPad, Digest, Variant.BlockSize;
    EmptyKeyPads(h.hashClass);
    assert InnerPad(h.hashClass, []) + [] == InnerPad(h.hashClass, []);
  }

  lemma PaddedBytes()
    ensures XorByte(0, 0x36) == 0x36 && XorByte(0x0B, 0x36) == 0x3D
    ensures XorByte(0, 0x5C) == 0x5C && XorByte(0x0B, 0x5C) == 0x57
  {
    assert Words.Xor(0, 0x36) == 0x36 && Words.Xor(0x0B, 0x36) == 0x3D;
    assert Words.Xor(0, 0x5C) == 0x5C && Words.Xor(0x0B, 0x5C) == 0x57;
  }

  lemma PadByte(v: Variant, key: seq<Byte>, i: nat)
    requires |key| <= v.BlockSize() && i < v.BlockSize()
    ensures |InnerPad(v, key)| == |OuterPad(v, key)| == v.BlockSize()
    ensures InnerPad(v, key)[i] == XorByte(KeyByte(key, i), 0x36)
    ensures OuterPad(v, key)[i] == XorByte(KeyByte(key, i), 0x5C)
  {
    hide KeyBlock, Variant.BlockSize, XorByte;
    BlockByte(v, key, i);
  }

  lemma BlocksHaveBytes(v: Variant)
    ensures 0 < v.BlockSize()
  {
  }

  lemma EmptyKeyPads(v: Variant)
    ensures |InnerPad(v, [])| == |OuterPad(v, [])| == v.BlockSize()
    ensures forall i :: 0 <= i < v.BlockSize() ==> InnerPad(v, [])[i] == 0x36 && OuterPad(v, [])[i] == 0x5C
  {
    hide InnerPad, OuterPad, XorByte, Variant.BlockSize;
    PaddedBytes();
    assert 0 < v.BlockSize() by { BlocksHaveBytes(v); }
    PadByte(v, [], 0);
    forall i | 0 <= i < v.BlockSize() ensures InnerPad(v, [])[i] == 0x36 && OuterPad(v, [])[i] == 0x5C {
      PadByte(v, [], i);
    }
  }

  /** A key of more than a block acts as its digest. */
  lemma LongKeyActsAsDigest(v: Variant, key: seq<Byte>, text: seq<Byte>)
    requires |key| > v.BlockSize()
    ensures Hmac(v, key, text) == Hmac(v, Digest(v, key), text)
  {
    hide Digest, Zeros;
    assert v.DigestSize() <= v.BlockSize();
  }

  // Test case 1 of RFC 4231

  /** Twenty bytes 0x0B */
  const KEY: seq<Byte> := seq(20, _ => 0x0B)

  /** "Hi There" */
  const TEXT: seq<Byte> := [0x48, 0x69, 0x20, 0x54, 0x68, 0x65, 0x72, 0x65]

  lemma PadWords()
    ensures |InnerPad(SHA256, KEY)| == |OuterPad(SHA256, KEY)| == 64
    ensures forall i :: 0 <= i < 16 ==> Four(InnerPad(SHA256, KEY), 4 * i) == if i < 5 then 0x3D3D3D3D else 0x36363636
    ensures forall i :: 0 <= i < 16 ==> Four(OuterPad(SHA256, KEY), 4 * i) == if i < 5 then 0x57575757 else 0x5C5C5C5C
  {
    hide InnerPad, OuterPad, XorByte;
    PaddedBytes();
    forall i | 0 <= i < 64
      ensures |InnerPad(SHA256, KEY)| == |OuterPad(SHA256, KEY)| == 64
      ensures InnerPad(SHA256, KEY)[i] == if i < 20 then 0x3D else 0x36
      ensures OuterPad(SHA256, KEY)[i] == if i < 20 then 0x57 else 0x5C
    {
      PadByte(SHA256, KEY, i);
    }
    PadByte(SHA256, KEY, 0);
  }

  lemma InnerKeyNumbers()
    ensures forall i :: 0 <= i < 16 ==> Numbers32(Sha256Traces.Block(Sha256Traces.InnerKey))[i] ==
                                        if i < 5 then 0x3D3D3D3D else 0x36363636
  {
    hide Pow256;
  }

  lemma OuterKeyNumbers()
    ensures forall i :: 0 <= i < 16 ==> Numbers32(Sha256Traces.Block(Sha256Traces.OuterKey))[i] ==
                                        if i < 5 then 0x57575757 else 0x5C5C5C5C
  {
    hide Pow256;
  }

  lemma PadBlocks()
    ensures BytesOf(Numbers32(Sha256Traces.Block(Sha256Traces.InnerKey)), 4) == InnerPad(SHA256, KEY)
    ensures BytesOf(Numbers32(Sha256Traces.Block(Sha256Traces.OuterKey)), 4) == OuterPad(SHA256, KEY)
  {
    hide BytesOf, Four, InnerPad, OuterPad, Numbers32, Sha256Traces.Block;
    PadWords();
    InnerKeyNumbers();
    OuterKeyNumbers();
    Written32(Numbers32(Sha256Traces.Block(Sha256Traces.InnerKey)), InnerPad(SHA256, KEY));
    Written32(Numbers32(Sha256Traces.Block(Sha256Traces.OuterKey)), OuterPad(SHA256, KEY));
  }

  lemma KeyStates()
    ensures Initial(SHA256) == Numbers32(Sha256Traces.InnerKeyStates(0)) == Numbers32(Sha256Traces.OuterKeyStates(0))
    ensures Sha256Traces.InnerKeyStates(9) == Sha256Traces.InnerTextStates(0)
    ensures Sha256Traces.OuterKeyStates(9) == Sha256Traces.OuterTextStates(0)
  {
    hide Pow256;
    Begins256();
  }

  /** After the padded key comes a shorter text. */
  lemma HoldsBehindKey(e: Sha256Traces.Example, pad: seq<Byte>, text: seq<Byte>)
    requires Numbers32(Sha256Traces.States(e, 0)) == Initial(SHA256) && |pad| == 64 && |text| < 64
    requires BytesOf(Numbers32(Sha256Traces.Block(Sha256Traces.MessageOf(e))), 4) == pad
    ensures Holds(SHA256, Numbers32(Sha256Traces.States(e, Sha256Traces.ROWS + 1)), text, pad + text)
  {
    hide BytesOf, Numbers32, Initial, Holds, Compress, AreWords, Sha256Traces.Block, Sha256Traces.States,
      Sha256Traces.MessageOf;
    Nothing(SHA256);
    Compressed32(SHA256, e);
    assert [] + pad == pad && [] + text == text;
    HoldsBlock(SHA256, Initial(SHA256), [], [], pad);
    HoldsMore(SHA256, Numbers32(Sha256Traces.States(e, Sha256Traces.ROWS + 1)), [], pad, text);
  }

  lemma TextRows()
    ensures Numbers32(Sha256Traces.InnerTextWords(0)) == [0x48692054, 0x68657265, 0x80000000, 0, 0, 0, 0, 0]
    ensures Numbers32(Sha256Traces.InnerTextWords(1)) == [0, 0, 0, 0, 0, 0, 0, 576]
  {
    hide Pow256;
  }

  lemma TextNumbers()
    ensures Numbers32(Sha256Traces.Block(Sha256Traces.InnerText)) ==
            [0x48692054, 0x68657265, 0x80000000] + Copies(12) + [576]
  {
    hide Pow256, Number32, Sha256Traces.InnerTextWords;
    TextRows();
    assert Numbers32(Sha256Traces.InnerTextWords(0) + Sha256Traces.InnerTextWords(1)) ==
           Numbers32(Sha256Traces.InnerTextWords(0)) + Numbers32(Sha256Traces.InnerTextWords(1));
  }

  lemma TextBlock()
    ensures Numbers32(Sha256Traces.Block(Sha256Traces.InnerText)) ==
            [0x48692054, 0x68657265, 0x80000000] + Copies(12) + [576]
    ensures BytesOf([0x48692054, 0x68657265, 0x80000000], 4) == TEXT + [0x80] + Zeros(3)
  {
    hide Pow256, BytesOf, Numbers32, Sha256Traces.Block;
    TextNumbers();
    Written32([0x48692054, 0x68657265, 0x80000000], TEXT + [0x80] + Zeros(3));
  }

  lemma InnerDigest()
    ensures Digest(SHA256, InnerPad(SHA256, KEY) + TEXT) == BytesOf(Numbers32(Sha256Traces.InnerTextStates(9)), 4)
  {
    hide BytesOf, Numbers32, Zeros, Copies, Digest, Holds, Initial, InnerPad, OuterPad, Sha256Traces.Block;
    KeyStates();
    PadBlocks();
    PadWords();
    HoldsBehindKey(Sha256Traces.InnerKeyTrace, InnerPad(SHA256, KEY), TEXT);
    TextBlock();
    Traced32(SHA256, Sha256Traces.InnerTextTrace, [0x48692054, 0x68657265, 0x80000000], 12, TEXT, 3,
      InnerPad(SHA256, KEY) + TEXT);
  }

  lemma DigestNumbers()
    ensures Numbers32(Sha256Traces.Block(Sha256Traces.OuterText)) ==
            Numbers32(Sha256Traces.InnerTextStates(9)) + [0x80000000] + Copies(6) + [768]
  {
    hide Pow256;
  }

  lemma DigestBlock()
    ensures Numbers32(Sha256Traces.Block(Sha256Traces.OuterText)) ==
            Numbers32(Sha256Traces.InnerTextStates(9)) + [0x80000000] + Copies(6) + [768]
    ensures BytesOf(Numbers32(Sha256Traces.InnerTextStates(9)) + [0x80000000], 4) ==
            BytesOf(Numbers32(Sha256Traces.InnerTextStates(9)), 4) + [0x80] + Zeros(3)
  {
    hide Pow256, BytesOf, Numbers32, Sha256Traces.Block, Sha256Traces.InnerTextStates;
    DigestNumbers();
    Written32([0x80000000], [0x80] + Zeros(3));
    BytesJoin(Numbers32(Sha256Traces.InnerTextStates(9)), [0x80000000], 4);
  }

  lemma OuterDigest()
    ensures Hmac(SHA256, KEY, TEXT) == BytesOf(Numbers32(Sha256Traces.OuterTextStates(9)), 4)
  {
    hide BytesOf, Numbers32, Zeros, Copies, Digest, Holds, Initial, InnerPad, OuterPad, Sha256Traces.Block;
    var inner := BytesOf(Numbers32(Sha256Traces.InnerTextStates(9)), 4);
    KeyStates();
    PadBlocks();
    PadWords();
    InnerDigest();
    HoldsBehindKey(Sha256Traces.OuterKeyTrace, OuterPad(SHA256, KEY), inner);
    DigestBlock();
    Traced32(SHA256, Sha256Traces.OuterTextTrace, Numbers32(Sha256Traces.InnerTextStates(9)) + [0x80000000], 6,
      inner, 3,
      OuterPad(SHA256, KEY) + inner);
  }

  lemma ValueNumbers()
    ensures Numbers32(Sha256Traces.OuterTextStates(9)) ==
            [0xB0344C61, 0xD8DB3853, 0x5CA8AFCE, 0xAF0BF12B, 0x881DC200, 0xC9833DA7, 0x26E9376C, 0x2E32CFF7]
  {
    hide Pow256;
  }

  lemma ValueBytes()
    ensures BytesOf([0xB0344C61, 0xD8DB3853, 0x5CA8AFCE, 0xAF0BF12B,
                     0x881DC200, 0xC9833DA7, 0x26E9376C, 0x2E32CFF7], 4) ==
            [0xB0, 0x34, 0x4C, 0x61, 0xD8, 0xDB, 0x38, 0x53, 0x5C, 0xA8, 0xAF, 0xCE, 0xAF, 0x0B, 0xF1, 0x2B,
             0x88, 0x1D, 0xC2, 0x00, 0xC9, 0x83, 0x3D, 0xA7, 0x26, 0xE9, 0x37, 0x6C, 0x2E, 0x32, 0xCF, 0xF7]
  {
    hide BytesOf;
    Written32([0xB0344C61, 0xD8DB3853, 0x5CA8AFCE, 0xAF0BF12B, 0x881DC200, 0xC9833DA7, 0x26E9376C, 0x2E32CFF7],
      [0xB0, 0x34, 0x4C, 0x61, 0xD8, 0xDB, 0x38, 0x53, 0x5C, 0xA8, 0xAF, 0xCE, 0xAF, 0x0B, 0xF1, 0x2B,
       0x88, 0x1D, 0xC2, 0x00, 0xC9, 0x83, 0x3D, 0xA7, 0x26, 0xE9, 0x37, 0x6C, 0x2E, 0x32, 0xCF, 0xF7]);
  }

  /** HMAC-SHA-256 of "Hi There" under twenty bytes 0x0B */
  lemma PublishedHmac()
    ensures Hmac(SHA256, KEY, TEXT) ==
            [0xB0, 0x34, 0x4C, 0x61, 0xD8, 0xDB, 0x38, 0x53, 0x5C, 0xA8, 0xAF, 0xCE, 0xAF, 0x0B, 0xF1, 0x2B,
             0x88, 0x1D, 0xC2, 0x00, 0xC9, 0x83, 0x3D, 0xA7, 0x26, 0xE9, 0x37, 0x6C, 0x2E, 0x32, 0xCF, 0xF7]
  {
    hide BytesOf, Hmac, Numbers32, Sha256Traces.OuterTextStates;
    OuterDigest();
    ValueNumbers();
    ValueBytes();
  }
}
