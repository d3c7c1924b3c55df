// UTF-8 in src/OFString.m and src/OFUTF8String.m: encoding, decoding, the check of a string, and the
// conversions between byte positions and character indexes. Masks and shifts are remainders and
// quotients of powers of two.

module Utf8 {
  import Bits
  import opened Bytes
  import opened Options

  type Unichar = nat

  /** `of_string_utf8_encode`: empty if there is no encoding */
  function Encode(c: Unichar): seq<Byte>
  {
    if c < 0x80 then [c]
    else if c < 0x800 then [0xC0 + c / 64, 0x80 + c % 64]
    else if c < 0x10000 then [0xE0 + c / 4096, 0x80 + c / 64 % 64, 0x80 + c % 64]
    else if c < 0x110000 then [0xF0 + c / 262144, 0x80 + c / 4096 % 64, 0x80 + c / 64 % 64, 0x80 + c % 64]
    else []
  }

  predicate Continuation(b: Byte)
  {
    b / 64 == 2
  }

  /** The bits of a byte below a power of two */
  function Below(b: Byte, power: nat): nat
    requires power > 0
  {
    b % power
  }

  /** `of_string_utf8_decode`: the number of bytes and the character; nothing is positive if it fails. */
  function Decode(s: seq<Byte>): (int, Unichar)
    requires s != []
  {
    if s[0] < 0x80 then (1, s[0])
    else if s[0] / 32 == 6 then
      if |s| < 2 then (-2, 0)
      else if !Continuation(s[1]) then (0, 0)
      else (2, Below(s[0], 32) * 64 + Below(s[1], 64))
    else if s[0] / 16 == 14 then
      if |s| < 3 then (-3, 0)
      else if !Continuation(s[1]) || !Continuation(s[2]) then (0, 0)
      else (3, Below(s[0], 16) * 4096 + Below(s[1], 64) * 64 + Below(s[2], 64))
    else if s[0] / 8 == 30 then
      if |s| < 4 then (-4, 0)
      else if !Continuation(s[1]) || !Continuation(s[2]) || !Continuation(s[3]) then (0, 0)
      else (4, Below(s[0], 8) * 262144 + Below(s[1], 64) * 4096 + Below(s[2], 64) * 64 + Below(s[3], 64))
    else (0, 0)
  }

  lemma DecodeForm4(a: nat, b: nat, c: nat, d: nat, rest: seq<Byte>)
    requires a < 5 && b < 64 && c < 64 && d < 64
    ensures Decode([0xF0 + a, 0x80 + b, 0x80 + c, 0x80 + d] + rest) == (4, a * 262144 + b * 4096 + c * 64 + d)
  {
    var s: seq<Byte> := [0xF0 + a, 0x80 + b, 0x80 + c, 0x80 + d] + rest;
    assert s[0] == 0xF0 + a && s[1] == 0x80 + b && s[2] == 0x80 + c && s[3] == 0x80 + d;
  }

  lemma DecodeForm3(a: nat, b: nat, c: nat, rest: seq<Byte>)
    requires a < 16 && b < 64 && c < 64
    ensures Decode([0xE0 + a, 0x80 + b, 0x80 + c] + rest) == (3, a * 4096 + b * 64 + c)
  {
    var s: seq<Byte> := [0xE0 + a, 0x80 + b, 0x80 + c] + rest;
    assert s[0] == 0xE0 + a && s[1] == 0x80 + b && s[2] == 0x80 + c;
  }

  lemma DecodeEncode4(c: Unichar, rest: seq<Byte>)
    requires 0x10000 <= c < 0x110000
    ensures Decode(Encode(c) + rest) == (4, c)
  {
    hide Decode;
    DecodeForm4(c / 262144, c / 4096 % 64, c / 64 % 64, c % 64, rest);
    Bits.DivMul(c, 4096, 64);
    Bits.DivMul(c, 64, 64);
  }

  lemma DecodeEncode3(c: Unichar, rest: seq<Byte>)
    requires 0x800 <= c < 0x10000
    ensures Decode(Encode(c) + rest) == (3, c)
  {
    hide Decode;
    DecodeForm3(c / 4096, c / 64 % 64, c % 64, rest);
    Bits.DivMul(c, 64, 64);
  }

  /** Decoding undoes encoding, whatever follows. */
  lemma DecodeEncode(c: Unichar, rest: seq<Byte>)
    requires c < 0x110000
    ensures Decode(Encode(c) + rest) == (|Encode(c)|, c)
  {
    if c >= 0x10000 { DecodeEncode4(c, rest); }
    else if c >= 0x800 { DecodeEncode3(c, rest); }
    else {
      var s := Encode(c) + rest;
      assert s[0] == Encode(c)[0] && (c >= 0x80 ==> s[1] == Encode(c)[1]);
    }
  }

  // The check

  /** The length of a character by its first byte, as the check reads it: 0 if it refuses the byte. */
  function Lead(b: Byte): nat
  {
    if b < 0x80 then 1
    else if b < 0xC2 then 0
    else if b < 0xE0 then 2
    else if b < 0xF0 then 3
    else if b < 0xF8 then 4
    else 0
  }

  predicate StartsCharacter(s: seq<Byte>)
  {
    && s != [] && 0 < Lead(s[0]) <= |s|
    && forall i :: 1 <= i < Lead(s[0]) ==> Continuation(s[i])
  }

  /** The strings that the check accepts */
  predicate Accepted(s: seq<Byte>)
  {
    s == [] || (StartsCharacter(s) && Accepted(s[Lead(s[0])..]))
  }

  /** The number of characters: of bytes that are no continuation */
  function Characters(s: seq<Byte>): (n: nat)
    ensures n <= |s|
  {
    if s == [] then 0 else Characters(s[..|s| - 1]) + if Continuation(s[|s| - 1]) then 0 else 1
  }

  lemma {:induction false} CharactersJoin(a: seq<Byte>, b: seq<Byte>)
    ensures Characters(a + b) == Characters(a) + Characters(b)
  {
    if b == [] {
      assert a + b == a;
    } else {
      CharactersJoin(a, b[..|b| - 1]);
      assert (a + b)[..|a + b| - 1] == a + b[..|b| - 1];
    }
  }

  lemma OneCharacter(s: seq<Byte>)
    requires StartsCharacter(s)
    ensures Characters(s[..Lead(s[0])]) == 1
  {
    var t := s[..Lead(s[0])];
    assert t == t[..1] + t[1..];
    CharactersJoin(t[..1], t[1..]);
    assert t[..1][..0] == [];
    NoCharacters(t[1..]);
  }

  lemma {:induction false} NoCharacters(s: seq<Byte>)
    requires forall i :: 0 <= i < |s| ==> Continuation(s[i])
    ensures Characters(s) == 0
  {
    if s != [] { NoCharacters(s[..|s| - 1]); }
  }

  /** One turn of the loop of `of_string_utf8_check`: the length of the character at `i`, 0 to refuse it */
  method CheckAt(s: seq<Byte>, i: nat) returns (n: nat)
    requires i < |s|
    ensures n == if StartsCharacter(s[i..]) then Lead(s[i]) else 0
  {
    ghost var t := s[i..];
    assert forall k :: 0 <= k < |t| ==> t[k] == s[i + k];
    // An ASCII character needs nothing else; a continuation byte begins no character.
    if s[i] < 0x80 { return 1; }
    if s[i] / 64 % 2 == 0 { return 0; }
    // 0xC0 and 0xC1 would be the lead of a character that fits in seven bits.
    if s[i] % 128 / 2 == 32 { return 0; }
    // From here on, each further bit of the lead that is set asks for one more continuation, up to three.
    if |s| <= i + 1 || !Continuation(s[i + 1]) { return 0; }
    if s[i] / 32 % 2 == 0 { return 2; }
    if |s| <= i + 2 || !Continuation(s[i + 2]) { return 0; }
    if s[i] / 16 % 2 == 0 { return 3; }
    if |s| <= i + 3 || !Continuation(s[i + 3]) { return 0; }
    if s[i] / 8 % 2 == 1 { return 0; }
    return 4;
  }

  lemma Refusal(s: seq<Byte>)
    requires s != []
    ensures !StartsCharacter(s) ==> !Accepted(s)
    ensures StartsCharacter(s) ==> Lead(s[0]) > 0
  {
  }

  lemma NothingIsAccepted()
    ensures Accepted([])
  {
  }

  method Check(s: seq<Byte>) returns (isUtf8: int, length: nat)
    ensures isUtf8 == -1 <==> !Accepted(s)
    ensures isUtf8 != -1 ==>
      length == Characters(s) && isUtf8 == if exists i :: 0 <= i < |s| && s[i] >= 0x80 then 1 else 0
  {
    hide Accepted, StartsCharacter, Characters, Lead, Continuation;
    var i := 0;
    isUtf8, length := 0, |s|;
    assert s[0..] == s;
    while i < |s|
      invariant 0 <= i <= |s| && (Accepted(s) <==> Accepted(s[i..]))
      invariant length == |s| - i + Characters(s[..i])
      invariant isUtf8 == if exists k :: 0 <= k < i && s[k] >= 0x80 then 1 else 0
    {
      var n := CheckAt(s, i);
      if s[i] >= 0x80 { isUtf8 := 1; }
      Refusal(s[i..]);
      if n == 0 { return -1, 0; }
      Advance(s, i);
      length := length - (n - 1);
      i := i + n;
    }
    NothingIsAccepted();
    assert s[..i] == s;
  }

  lemma Advance(s: seq<Byte>, i: nat)
    requires i < |s| && StartsCharacter(s[i..])
    ensures var n := i + Lead(s[i]);
            && i < n <= |s| && (s[i] < 0x80 <==> n == i + 1)
            && Accepted(s[i..]) == Accepted(s[n..]) && Characters(s[..n]) == Characters(s[..i]) + 1
  {
    var n := i + Lead(s[i]);
    assert s[i..][Lead(s[i])..] == s[n..];
    assert s[..n] == s[..i] + s[i..][..Lead(s[i])];
    CharactersJoin(s[..i], s[i..][..Lead(s[i])]);
    OneCharacter(s[i..]);
  }

  // Strings of characters

  function EncodeAll(cs: seq<Unichar>): seq<Byte>
  {
    if cs == [] then [] else Encode(cs[0]) + EncodeAll(cs[1..])
  }

  function DecodeAll(s: seq<Byte>): (cs: seq<Unichar>)
    requires Accepted(s)
  {
    if s == [] then [] else [Decode(s).1] + DecodeAll(s[Lead(s[0])..])
  }

  ghost predicate AllCodes(cs: seq<Unichar>)
  {
    forall i :: 0 <= i < |cs| ==> cs[i] < 0x110000
  }

  lemma EncodeStarts(c: Unichar, rest: seq<Byte>)
    requires c < 0x110000
    ensures var s := Encode(c) + rest;
            StartsCharacter(s) && Lead(s[0]) == |Encode(c)| && s[Lead(s[0])..] == rest
  {
    var s := Encode(c) + rest;
    assert forall i :: 0 <= i < |Encode(c)| ==> s[i] == Encode(c)[i];
  }

  /** What is encoded passes the check with its number of characters, and decodes to them: the
      concatenation is unambiguous. */
  lemma {:induction false} EncodedIsAccepted(cs: seq<Unichar>)
    requires AllCodes(cs)
    ensures Accepted(EncodeAll(cs)) && DecodeAll(EncodeAll(cs)) == cs && Characters(EncodeAll(cs)) == |cs|
  {
    hide Encode, Decode, Lead, StartsCharacter;
    if cs != [] {
      var s := EncodeAll(cs);
      EncodedIsAccepted(cs[1..]);
      EncodeStarts(cs[0], EncodeAll(cs[1..]));
      DecodeEncode(cs[0], EncodeAll(cs[1..]));
      Advance(s, 0);
      assert s[0..] == s && s[..0] == [];
      CharactersJoin(Encode(cs[0]), EncodeAll(cs[1..]));
      assert s[..Lead(s[0])] == Encode(cs[0]);
    }
  }

  lemma EncodeInjective(cs: seq<Unichar>, ds: seq<Unichar>)
    requires AllCodes(cs) && AllCodes(ds) && EncodeAll(cs) == EncodeAll(ds)
    ensures cs == ds
  {
    EncodedIsAccepted(cs);
    EncodedIsAccepted(ds);
  }

  // Order

  lemma LessShared(a: seq<Byte>, b: seq<Byte>, n: nat)
    requires n < |a| && n < |b| && a[..n] == b[..n] && a[n] < b[n]
    ensures Bits.Less(a, b)
    decreases n
  {
    if n > 0 {
      assert a[0] == a[..n][0] == b[..n][0] == b[0];
      assert a[1..][..n - 1] == a[..n][1..] == b[..n][1..] == b[1..][..n - 1];
      LessShared(a[1..], b[1..], n - 1);
    }
  }

  /** The parts of a character of four bytes, of three, and of two decide in this order. */
  lemma PartsInOrder(c: nat, d: nat)
    requires c < d
    ensures c / 64 < d / 64 || (c / 64 == d / 64 && c % 64 < d % 64)
    ensures c / 4096 < d / 4096 || (c / 4096 == d / 4096 && c / 64 % 64 < d / 64 % 64) ||
            (c / 4096 == d / 4096 && c / 64 % 64 == d / 64 % 64 && c % 64 < d % 64)
    ensures c / 262144 <= d / 262144
    ensures c / 262144 == d / 262144 ==>
      || c / 4096 % 64 < d / 4096 % 64
      || (c / 4096 % 64 == d / 4096 % 64 && c / 64 % 64 < d / 64 % 64)
      || (c / 4096 % 64 == d / 4096 % 64 && c / 64 % 64 == d / 64 % 64 && c % 64 < d % 64)
  {
    Bits.DivMul(c, 64, 64);
    Bits.DivMul(d, 64, 64);
    Bits.DivMul(c, 4096, 64);
    Bits.DivMul(d, 4096, 64);
  }

  /** The first bytes that differ are smaller in `a`. */
  ghost predicate SmallerSomewhere(a: seq<Byte>, b: seq<Byte>)
  {
    exists n :: 0 <= n < |a| && n < |b| && a[..n] == b[..n] && a[n] < b[n]
  }

  /** The smaller of two characters has the smaller bytes: section 1 of RFC 3629. */
  lemma CharactersInOrder(c: Unichar, d: Unichar)
    requires c < d < 0x110000
    ensures SmallerSomewhere(Encode(c), Encode(d))
  {
    PartsInOrder(c, d);
    var a, b := Encode(c), Encode(d);
    if a[0] < b[0] { assert a[..0] == b[..0]; }
    else if a[1] < b[1] { assert a[..1] == b[..1]; }
    else if a[2] < b[2] { assert a[..2] == b[..2]; }
    else { assert a[..3] == b[..3]; }
  }

  lemma LessBehind(a: seq<Byte>, b: seq<Byte>, more: seq<Byte>, rest: seq<Byte>)
    requires SmallerSomewhere(a, b)
    ensures Bits.Less(a + more, b + rest)
  {
    var n :| 0 <= n < |a| && n < |b| && a[..n] == b[..n] && a[n] < b[n];
    assert (a + more)[..n] == a[..n] && (b + rest)[..n] == b[..n];
    LessShared(a + more, b + rest, n);
  }

  lemma {:induction false} LessAfter(front: seq<Byte>, a: seq<Byte>, b: seq<Byte>)
    requires Bits.Less(a, b)
    ensures Bits.Less(front + a, front + b)
  {
    if front == [] {
      assert front + a == a && front + b == b;
    } else {
      LessAfter(front[1..], a, b);
      assert (front + a)[1..] == front[1..] + a && (front + b)[1..] == front[1..] + b;
    }
  }

  /** Encoded strings compare byte by byte as the strings do character by character. */
  lemma {:induction false} StringsInOrder(cs: seq<Unichar>, ds: seq<Unichar>)
    requires AllCodes(cs) && AllCodes(ds) && Bits.Less(cs, ds)
    ensures Bits.Less(EncodeAll(cs), EncodeAll(ds))
  {
    hide Encode;
    if cs == [] {
      EncodeStarts(ds[0], EncodeAll(ds[1..]));
    } else if cs[0] == ds[0] {
      StringsInOrder(cs[1..], ds[1..]);
      LessAfter(Encode(cs[0]), EncodeAll(cs[1..]), EncodeAll(ds[1..]));
    } else {
      CharactersInOrder(cs[0], ds[0]);
      LessBehind(Encode(cs[0]), Encode(ds[0]), EncodeAll(cs[1..]), EncodeAll(ds[1..]));
    }
  }

  /** What the check lets through although no character is encoded so: a form of three or four bytes for
      a character that has a shorter one, and numbers beyond the last character. */
  predicate Shortest(s: seq<Byte>)
    requires StartsCharacter(s)
  {
    && (s[0] == 0xE0 ==> s[1] >= 0xA0)
    && (s[0] == 0xF0 ==> s[1] >= 0x90)
    && (s[0] == 0xF4 ==> s[1] < 0x90) && s[0] <= 0xF4
  }

  predicate AllShortest(s: seq<Byte>)
    requires Accepted(s)
  {
    s == [] || (Shortest(s) && AllShortest(s[Lead(s[0])..]))
  }

  /** A character is encoded as it was, or shorter. */
  ghost predicate Reencodes(s: seq<Byte>, c: Unichar)
    requires StartsCharacter(s)
  {
    if Shortest(s) then c < 0x110000 && Encode(c) == s[..Lead(s[0])] else |Encode(c)| < Lead(s[0])
  }

  lemma Reencode(s: seq<Byte>)
    requires StartsCharacter(s)
    ensures Decode(s).0 == Lead(s[0]) && Reencodes(s, Decode(s).1)
  {
    var n, c := Lead(s[0]), Decode(s).1;
    if n == 1 {
      assert Encode(c) == s[..1];
    } else if n == 2 {
      assert c / 64 == s[0] % 32 && c % 64 == s[1] % 64;
      assert Encode(c) == s[..2];
    } else if n == 3 {
      Reencode3(s, c);
    } else {
      Reencode4(s, c);
    }
  }

  lemma Digits3(c: nat, p: nat, q: nat, r: nat)
    requires c == p * 4096 + q * 64 + r && q < 64 && r < 64
    ensures c / 4096 == p && c / 64 % 64 == q && c % 64 == r
  {
    Bits.DivUnique(c, 4096, p, q * 64 + r);
    Bits.DivUnique(c, 64, p * 64 + q, r);
    Bits.DivUnique(p * 64 + q, 64, p, q);
  }

  lemma Reencode3(s: seq<Byte>, c: nat)
    requires StartsCharacter(s) && Lead(s[0]) == 3 && c == Decode(s).1
    ensures Reencodes(s, c)
  {
    Digits3(c, s[0] % 16, s[1] % 64, s[2] % 64);
    if c >= 0x800 { SameDigits3(s, c); } else { OtherDigits3(s, c); }
  }

  lemma SameDigits3(s: seq<Byte>, c: nat)
    requires StartsCharacter(s) && Lead(s[0]) == 3 && 0x800 <= c < 0x10000
    requires c / 4096 == s[0] % 16 && c / 64 % 64 == s[1] % 64 && c % 64 == s[2] % 64
    ensures Encode(c) == s[..3] && Shortest(s)
  {
  }

  lemma OtherDigits3(s: seq<Byte>, c: nat)
    requires StartsCharacter(s) && Lead(s[0]) == 3 && c < 0x800
    requires c / 4096 == s[0] % 16 && c / 64 % 64 == s[1] % 64
    ensures |Encode(c)| < 3 && !Shortest(s)
  {
  }

  lemma Digits4(c: nat, p: nat, q: nat, r: nat, t: nat)
    requires c == p * 262144 + q * 4096 + r * 64 + t && q < 64 && r < 64 && t < 64
    ensures c / 262144 == p && c / 4096 % 64 == q && c / 64 % 64 == r && c % 64 == t
  {
  }

  lemma Reencode4(s: seq<Byte>, c: nat)
    requires StartsCharacter(s) && Lead(s[0]) == 4 && c == Decode(s).1
    ensures Reencodes(s, c)
  {
    Digits4(c, s[0] % 8, s[1] % 64, s[2] % 64, s[3] % 64);
    if 0x10000 <= c < 0x110000 { SameDigits4(s, c); } else { OtherDigits4(s, c); }
  }

  lemma SameDigits4(s: seq<Byte>, c: nat)
    requires StartsCharacter(s) && Lead(s[0]) == 4 && 0x10000 <= c < 0x110000
    requires c / 262144 == s[0] % 8 && c / 4096 % 64 == s[1] % 64 && c / 64 % 64 == s[2] % 64 && c % 64 == s[3] % 64
    ensures Encode(c) == s[..4] && Shortest(s)
  {
  }

  lemma OtherDigits4(s: seq<Byte>, c: nat)
    requires StartsCharacter(s) && Lead(s[0]) == 4 && !(0x10000 <= c < 0x110000)
    requires c / 262144 == s[0] % 8 && c / 4096 % 64 == s[1] % 64
    ensures |Encode(c)| < 4 && !Shortest(s)
  {
  }

  /** An accepted string is the encoding of its characters if and only if every form in it is the shortest. */
  lemma {:induction false} ReencodeAllIff(s: seq<Byte>)
    requires Accepted(s)
    ensures |EncodeAll(DecodeAll(s))| <= |s| && (EncodeAll(DecodeAll(s)) == s <==> AllShortest(s))
    ensures AllShortest(s) ==> AllCodes(DecodeAll(s))
  {
    hide Encode, Decode, Lead, Shortest, StartsCharacter;
    if s != [] {
      var n, c := Lead(s[0]), Decode(s).1;
      Reencode(s);
      Advance(s, 0);
      assert s[0..] == s;
      ReencodeAllIff(s[n..]);
      assert DecodeAll(s) == [c] + DecodeAll(s[n..]);
      if Shortest(s) {
        assert s == s[..n] + s[n..];
        assert EncodeAll(DecodeAll(s)) == s[..n] + EncodeAll(DecodeAll(s[n..]));
        assert EncodeAll(DecodeAll(s))[n..] == EncodeAll(DecodeAll(s[n..]));
      }
    }
  }

  /** One string that is accepted, decodes to a character, and is no encoding of it. */
  lemma OverlongIsAccepted()
    ensures Accepted([0xE0, 0x80, 0x80]) && DecodeAll([0xE0, 0x80, 0x80]) == [0] && EncodeAll([0]) == [0]
  {
    var s: seq<Byte> := [0xE0, 0x80, 0x80];
    assert StartsCharacter(s) && s[3..] == [];
  }

  // Validity

  /** Section 3 of RFC 3629: numbers up to 0x10FFFF without the surrogates */
  predicate Scalar(c: Unichar)
  {
    c < 0xD800 || 0xE000 <= c < 0x110000
  }

  predicate AllScalars(cs: seq<Unichar>)
  {
    forall i :: 0 <= i < |cs| ==> Scalar(cs[i])
  }

  /** Section 3 of RFC 3629: what encodes characters, and nothing else */
  ghost predicate Valid(s: seq<Byte>)
  {
    exists cs :: AllScalars(cs) && EncodeAll(cs) == s
  }

  /** Section 4 of RFC 3629: the length of the first character by the grammar, or 0 */
  function FormLength(s: seq<Byte>): (n: nat)
    ensures n <= |s|
  {
    if s == [] then 0
    else if s[0] <= 0x7F then 1
    else if |s| >= 2 && 0xC2 <= s[0] <= 0xDF && Continuation(s[1]) then 2
    else if |s| >= 3 && Second3(s[0], s[1]) && Continuation(s[2]) then 3
    else if |s| >= 4 && Second4(s[0], s[1]) && Continuation(s[2]) && Continuation(s[3]) then 4
    else 0
  }

  predicate Second3(a: Byte, b: Byte)
  {
    || (a == 0xE0 && 0xA0 <= b <= 0xBF)
    || ((0xE1 <= a <= 0xEC || 0xEE <= a <= 0xEF) && Continuation(b))
    || (a == 0xED && 0x80 <= b <= 0x9F)
  }

  predicate Second4(a: Byte, b: Byte)
  {
    || (a == 0xF0 && 0x90 <= b <= 0xBF)
    || (0xF1 <= a <= 0xF3 && Continuation(b))
    || (a == 0xF4 && 0x80 <= b <= 0x8F)
  }

  predicate WellFormed(s: seq<Byte>)
  {
    s == [] || (0 < FormLength(s) && WellFormed(s[FormLength(s)..]))
  }

  /** No form is one of a surrogate. */
  predicate NoSurrogates(s: seq<Byte>)
    requires Accepted(s)
  {
    s == [] || ((s[0] == 0xED ==> s[1] < 0xA0) && NoSurrogates(s[Lead(s[0])..]))
  }

  lemma SurrogateDigits(p: nat, q: nat, r: nat)
    requires p < 16 && q < 64 && r < 64
    ensures 0xD800 <= p * 4096 + q * 64 + r < 0xE000 <==> p == 13 && q >= 32
  {
  }

  lemma SurrogateForm(s: seq<Byte>)
    requires StartsCharacter(s) && Shortest(s)
    ensures Scalar(Decode(s).1) <==> !(s[0] == 0xED && s[1] >= 0xA0)
  {
    if Lead(s[0]) == 3 {
      SurrogateDigits(s[0] % 16, s[1] % 64, s[2] % 64);
    } else if Lead(s[0]) == 4 {
      LongForm(s);
    }
  }

  lemma LongForm(s: seq<Byte>)
    requires StartsCharacter(s) && Shortest(s) && Lead(s[0]) == 4
    ensures 0x10000 <= Decode(s).1 < 0x110000
  {
    hide Encode;
    Reencode4(s, Decode(s).1);
    Digits4(Decode(s).1, s[0] % 8, s[1] % 64, s[2] % 64, s[3] % 64);
  }

  lemma {:induction false} ScalarsIff(s: seq<Byte>)
    requires Accepted(s) && AllShortest(s)
    ensures AllScalars(DecodeAll(s)) <==> NoSurrogates(s)
  {
    hide Decode, Lead, Shortest, Scalar;
    if s != [] {
      var n := Lead(s[0]);
      SurrogateForm(s);
      Advance(s, 0);
      assert s[0..] == s;
      ScalarsIff(s[n..]);
      FirstScalar(Decode(s).1, DecodeAll(s[n..]));
    }
  }

  lemma FirstScalar(c: Unichar, cs: seq<Unichar>)
    ensures AllScalars([c] + cs) <==> Scalar(c) && AllScalars(cs)
  {
    if AllScalars([c] + cs) {
      assert ([c] + cs)[0] == c;
      forall i | 0 <= i < |cs| ensures Scalar(cs[i]) { assert ([c] + cs)[i + 1] == cs[i]; }
    }
  }

  /**
   * The check accepts every valid string. What it accepts is valid if and only if each form is the shortest and
   * within range, and none is that of a surrogate.
   */
  lemma ValidIff(s: seq<Byte>)
    ensures Valid(s) <==> Accepted(s) && AllShortest(s) && NoSurrogates(s)
  {
    hide Accepted, AllShortest, NoSurrogates, EncodeAll, DecodeAll;
    if Valid(s) {
      var cs :| AllScalars(cs) && EncodeAll(cs) == s;
      EncodedIsAccepted(cs);
      ReencodeAllIff(s);
      ScalarsIff(s);
    }
    if Accepted(s) && AllShortest(s) && NoSurrogates(s) {
      ReencodeAllIff(s);
      ScalarsIff(s);
    }
  }

  lemma FormIff(s: seq<Byte>)
    requires s != []
    ensures 0 < FormLength(s) <==> StartsCharacter(s) && Shortest(s) && (s[0] == 0xED ==> s[1] < 0xA0)
    ensures 0 < FormLength(s) ==> FormLength(s) == Lead(s[0])
  {
  }

  /** The grammar of section 4 says the same as section 3. */
  lemma {:induction false} WellFormedIff(s: seq<Byte>)
    ensures WellFormed(s) <==> Valid(s)
  {
    ValidIff(s);
    WellFormedForms(s);
  }

  lemma {:induction false} WellFormedForms(s: seq<Byte>)
    ensures WellFormed(s) <==> Accepted(s) && AllShortest(s) && NoSurrogates(s)
  {
    hide FormLength, StartsCharacter, Shortest, Lead;
    if s != [] {
      FormIff(s);
      Refusal(s);
      if 0 < FormLength(s) { WellFormedForms(s[FormLength(s)..]); }
    }
  }

  /** A surrogate passes the check. */
  lemma SurrogateIsAccepted()
    ensures Accepted([0xED, 0xA0, 0x80]) && DecodeAll([0xED, 0xA0, 0x80]) == [0xD800] && !Valid([0xED, 0xA0, 0x80])
  {
    var s: seq<Byte> := [0xED, 0xA0, 0x80];
    assert StartsCharacter(s) && s[3..] == [];
    ValidIff(s);
  }

  /** So does a number beyond the last character. */
  lemma BeyondIsAccepted()
    ensures Accepted([0xF4, 0x90, 0x80, 0x80]) && DecodeAll([0xF4, 0x90, 0x80, 0x80]) == [0x110000]
    ensures !Valid([0xF4, 0x90, 0x80, 0x80])
  {
    var s: seq<Byte> := [0xF4, 0x90, 0x80, 0x80];
    assert StartsCharacter(s) && s[4..] == [];
    ValidIff(s);
  }

  // Positions and indexes

  /** A position where a character begins or the string ends */
  predicate Boundary(s: seq<Byte>, p: nat)
  {
    p <= |s| && (p < |s| ==> !Continuation(s[p]))
  }

  /** `of_string_utf8_get_index` */
  method GetIndex(s: seq<Byte>, position: nat) returns (idx: nat)
    requires position <= |s|
    ensures idx == Characters(s[..position])
  {
    idx := position;
    var i := 0;
    while i < position
      invariant 0 <= i <= position && idx == position - i + Characters(s[..i])
    {
      assert s[..i + 1][..i] == s[..i];
      if Continuation(s[i]) { idx := idx - 1; }
      i := i + 1;
    }
  }

  /** `of_string_utf8_get_position`, which reads on to the zero that ends the string; `None` stands for
      its OFInvalidFormatException, thrown exactly for an index beyond the characters. */
  method GetPosition(s: seq<Byte>, index: nat) returns (r: Option<nat>)
    requires index <= |s|
    ensures r.Some? <==> index <= Characters(s)
    ensures r.Some? ==> Boundary(s, r.value) && Characters(s[..r.value]) == index
  {
    var z := s + [0];
    var idx, i := index, 0;
    assert z[..|s|] == s;
    while i <= idx
      invariant 0 <= i <= idx + 1 && i <= |z| && idx <= |s|
      invariant idx == index + i - Characters(z[..i])
      invariant i == idx + 1 ==> !Continuation(z[idx])
      decreases |z| - i
    {
      assert z[..i + 1][..i] == z[..i];
      Remaining(s, i + 1);
      if Continuation(z[i]) {
        idx := idx + 1;
        if idx > |s| { return None; }
      }
      i := i + 1;
    }
    assert z[..i][..idx] == z[..idx] == s[..idx];
    NoMoreThanAll(s, i);
    return Some(idx);
  }

  lemma Ending()
    ensures Characters([0]) == 1
  {
  }

  lemma Remaining(s: seq<Byte>, i: nat)
    requires i <= |s| + 1
    ensures Characters(s) + 1 <= Characters((s + [0])[..i]) + |s| + 1 - i
  {
    hide Characters;
    NoMoreThanAll(s, i);
  }

  lemma NoMoreThanAll(s: seq<Byte>, i: nat)
    requires i <= |s| + 1
    ensures Characters(s) + 1 - (|s| + 1 - i) <= Characters((s + [0])[..i]) <= Characters(s) + 1
  {
    hide Characters;
    var z := s + [0];
    Ending();
    CharactersJoin(s, [0]);
    assert z == z[..i] + z[i..];
    CharactersJoin(z[..i], z[i..]);
  }

  /** Positions of characters and their indexes grow together, so that each has one of the other. */
  lemma BoundariesOrdered(s: seq<Byte>, p: nat, q: nat)
    requires Boundary(s, p) && Boundary(s, q)
    ensures p < q <==> Characters(s[..p]) < Characters(s[..q])
  {
    if p < q { Grows(s, p, q); } else if q < p { Grows(s, q, p); }
  }

  lemma Grows(s: seq<Byte>, p: nat, q: nat)
    requires Boundary(s, p) && p < q <= |s|
    ensures Characters(s[..p]) < Characters(s[..q])
  {
    assert s[..q] == s[..p + 1] + s[p + 1..q];
    CharactersJoin(s[..p + 1], s[p + 1..q]);
    assert s[..p + 1][..p] == s[..p];
  }

  lemma FirstCharacter(s: seq<Byte>)
    requires Accepted(s) && s != []
    ensures var n := Lead(s[0]);
            && 0 < n <= |s| && Accepted(s[n..]) && DecodeAll(s) == [Decode(s).1] + DecodeAll(s[n..])
            && Characters(s) == 1 + Characters(s[n..])
            && Characters(s[..n]) == 1 && forall i :: 1 <= i < n ==> Continuation(s[i])
  {
    hide Characters, Decode, Lead, Continuation;
    var n := Lead(s[0]);
    assert s == s[..n] + s[n..];
    OneCharacter(s);
    CharactersJoin(s[..n], s[n..]);
  }

  /** The length of an accepted string is its number of characters. */
  lemma {:induction false} LengthIsCount(s: seq<Byte>)
    requires Accepted(s)
    ensures |DecodeAll(s)| == Characters(s)
  {
    hide Lead, Decode, Continuation, StartsCharacter;
    if s != [] {
      FirstCharacter(s);
      LengthIsCount(s[Lead(s[0])..]);
    }
  }

  /** Of an accepted string, the bytes from a position on decode to the characters from its index on. */
  lemma {:induction false} DecodeFrom(s: seq<Byte>, p: nat)
    requires Accepted(s) && Boundary(s, p)
    ensures var k := Characters(s[..p]);
            k <= |DecodeAll(s)| && Accepted(s[p..]) && DecodeAll(s[p..]) == DecodeAll(s)[k..]
    decreases |s|
  {
    hide Lead, Decode, Continuation, StartsCharacter, Characters, Accepted, DecodeAll;
    if p == 0 {
      assert s[0..] == s;
    } else {
      var n := Lead(s[0]);
      FirstCharacter(s);
      assert p >= n;
      Shift(s, n, p);
      CharactersJoin(s[..n], s[n..][..p - n]);
      DecodeFrom(s[n..], p - n);
      Tail(Decode(s).1, DecodeAll(s[n..]), Characters(s[n..][..p - n]));
    }
  }

  lemma Shift(s: seq<Byte>, n: nat, p: nat)
    requires n <= p <= |s|
    ensures s[..p] == s[..n] + s[n..][..p - n] && s[n..][p - n..] == s[p..]
  {
  }

  lemma Tail(c: Unichar, rest: seq<Unichar>, k: nat)
    requires k <= |rest|
    ensures ([c] + rest)[1 + k..] == rest[k..]
  {
  }

  /** `characterAtIndex:` of an OFUTF8String; `None` stands for either exception. Its string passed
      the check, which gave `isUtf8` and `length`. */
  method CharacterAtIndex(s: seq<Byte>, isUtf8: bool, length: nat, idx: nat) returns (c: Option<Unichar>)
    requires Accepted(s) && length == Characters(s)
    requires isUtf8 <==> exists i :: 0 <= i < |s| && s[i] >= 0x80
    ensures |DecodeAll(s)| == length
    ensures c == if idx < length then Some(DecodeAll(s)[idx]) else None
  {
    LengthIsCount(s);
    if idx >= length { return None; }
    if !isUtf8 {
      Ascii(s, idx);
      return Some(s[idx]);
    }
    var position := GetPosition(s, idx);
    var p := position.value;
    DecodeFrom(s, p);
    assert s[..|s|] == s;
    Reencode(s[p..]);
    var (n, character) := Decode(s[p..]);
    if n <= 0 { return None; }
    return Some(character);
  }

  lemma {:induction false} Ascii(s: seq<Byte>, idx: nat)
    requires Accepted(s) && forall i :: 0 <= i < |s| ==> s[i] < 0x80
    ensures DecodeAll(s) == s
  {
    if s != [] { Ascii(s[1..], 0); }
  }
}
