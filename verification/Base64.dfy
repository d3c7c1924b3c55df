// Base64 of src/base64.m against section 4 of RFC 4648.

module Base64 {
  import opened Bytes

  const PAD: Byte := 0x3D

  /** The character of a value: `of_base64_encode_table` */
  function Digit(v: nat): (c: Byte)
    requires v < 64
    ensures c != PAD && c < 0x80
  {
    if v < 26 then 0x41 + v else if v < 52 then 0x61 + (v - 26) else if v < 62 then 0x30 + (v - 52)
    else if v == 62 then 0x2B else 0x2F
  }

  /** The value of a character, 0 for the padding: `of_base64_decode_table` */
  function Value(c: Byte): (v: int)
    ensures -1 <= v < 64
  {
    if 0x41 <= c < 0x5B then Offset(c, 0x41) else if 0x61 <= c < 0x7B then Offset(c, 0x61) + 26
    else if 0x30 <= c < 0x3A then Offset(c, 0x30) + 52
    else if c == 0x2B then 62 else if c == 0x2F then 63 else if c == PAD then 0 else -1
  }

  function Offset(c: Byte, from: Byte): int
  {
    c - from
  }

  const UPPER: string := "ABCDEFGHIJKLMNOPQRSTUVWXYZ"
  const LOWER: string := "abcdefghijklmnopqrstuvwxyz"
  const FIGURES: string := "0123456789"

  /** Table 1 of RFC 4648 */
  const ALPHABET: string := UPPER + LOWER + FIGURES + "+/"

  lemma Upper(v: nat)
    requires v < 26
    ensures UPPER[v] as int == 0x41 + v
  {
  }

  lemma Lower(v: nat)
    requires v < 26
    ensures LOWER[v] as int == 0x61 + v
  {
  }

  /** The digits are those of the table, and the place of each in it is its value. */
  lemma DigitsAreTheTable(v: nat)
    requires v < 64
    ensures |ALPHABET| == 64 && Digit(v) == ALPHABET[v] as int && Value(ALPHABET[v] as int) == v
  {
    if v < 26 {
      Upper(v);
    } else if v < 52 {
      Lower(v - 26);
    } else if v < 62 {
      assert FIGURES[v - 52] as int == 0x30 + (v - 52);
    }
  }

  lemma ValueOfDigit(v: nat)
    requires v < 64
    ensures Value(Digit(v)) == v
  {
  }

  lemma DigitOfValue(c: Byte)
    requires c != PAD && Value(c) != -1
    ensures Digit(Value(c)) == c
  {
  }

  // The standard: three bytes are four digits

  function First(a: Byte): (v: nat)
    ensures v < 64
  {
    a / 4
  }

  function Second(a: Byte, b: Byte): (v: nat)
    ensures v < 64
  {
    Low2(a) * 16 + b / 16
  }

  function Third(b: Byte, c: Byte): (v: nat)
    ensures v < 64
  {
    Low4(b) * 4 + c / 64
  }

  function Fourth(c: Byte): (v: nat)
    ensures v < 64
  {
    Low6(c)
  }

  function Low2(b: Byte): nat { b % 4 }

  function Low4(b: Byte): nat { b % 16 }

  function Low6(b: Byte): nat { b % 64 }

  function Group(a: Byte, b: Byte, c: Byte): (g: seq<Byte>)
    ensures |g| == 4
  {
    [Digit(First(a)), Digit(Second(a, b)), Digit(Third(b, c)), Digit(Fourth(c))]
  }

  function Encoding(data: seq<Byte>): seq<Byte>
  {
    if data == [] then []
    else if |data| == 1 then [Digit(First(data[0])), Digit(Second(data[0], 0)), PAD, PAD]
    else if |data| == 2 then [Digit(First(data[0])), Digit(Second(data[0], data[1])), Digit(Third(data[1], 0)), PAD]
    else Group(data[0], data[1], data[2]) + Encoding(data[3..])
  }

  lemma {:induction false} EncodingJoins(a: seq<Byte>, b: seq<Byte>)
    requires |a| % 3 == 0
    ensures Encoding(a + b) == Encoding(a) + Encoding(b)
  {
    hide Digit, First, Second, Third, Fourth, Group;
    if a == [] {
      assert a + b == b;
    } else {
      var s := a + b;
      assert s[0] == a[0] && s[1] == a[1] && s[2] == a[2] && s[3..] == a[3..] + b;
      EncodingJoins(a[3..], b);
      assert Encoding(s) == Group(a[0], a[1], a[2]) + Encoding(a[3..] + b);
    }
  }

  /** `sb`, three bytes in one number */
  function Joined(a: nat, b: nat, c: nat): nat
  {
    a * 65536 + b * 256 + c
  }

  lemma Digits(a: Byte, b: Byte, c: Byte)
    ensures var sb := Joined(a, b, c);
            sb / 262144 == First(a) && sb / 4096 % 64 == Second(a, b) && sb / 64 % 64 == Third(b, c)
              && sb % 64 == Fourth(c)
  {
    Digits64(Joined(a, b, c), First(a), Second(a, b), Third(b, c), Fourth(c));
  }

  lemma Digits64(n: nat, p: nat, q: nat, r: nat, t: nat)
    requires n == p * 262144 + q * 4096 + r * 64 + t && q < 64 && r < 64 && t < 64
    ensures n / 262144 == p && n / 4096 % 64 == q && n / 64 % 64 == r && n % 64 == t
  {
  }

  /** What the loop appends for three bytes */
  lemma EncodingGrows(buffer: seq<Byte>, i: nat)
    requires i % 3 == 0 && i + 3 <= |buffer|
    ensures var sb := Joined(buffer[i], buffer[i + 1], buffer[i + 2]);
            && sb / 262144 < 64
            && Encoding(buffer[..i + 3]) ==
               Encoding(buffer[..i]) + [Digit(sb / 262144), Digit(sb / 4096 % 64), Digit(sb / 64 % 64), Digit(sb % 64)]
  {
    hide Digit, Encoding, First, Second, Third, Fourth, Joined;
    var t := buffer[i..i + 3];
    Digits(t[0], t[1], t[2]);
    EncodingJoins(buffer[..i], t);
    EncodingOfThree(t);
    assert buffer[..i] + t == buffer[..i + 3];
  }

  /** What is appended for the rest */
  lemma EncodingEnds(buffer: seq<Byte>, i: nat)
    requires i % 3 == 0 && i <= |buffer|
    ensures Encoding(buffer) == Encoding(buffer[..i]) + Encoding(buffer[i..])
  {
    hide Encoding;
    EncodingJoins(buffer[..i], buffer[i..]);
    assert buffer[..i] + buffer[i..] == buffer;
  }

  /** `of_base64_encode` */
  method Encode(buffer: seq<Byte>) returns (ret: seq<Byte>)
    ensures ret == Encoding(buffer)
  {
    hide Digit, Encoding, Joined, First, Second, Third, Fourth;
    var length := |buffer|;
    var rest := length % 3;
    ret := [];
    var i := 0;
    EncodingOfShort(0, 0);
    while i < length - rest
      invariant 0 <= i <= length - rest && i % 3 == 0
      invariant ret == Encoding(buffer[..i])
    {
      var sb := Joined(buffer[i], buffer[i + 1], buffer[i + 2]);
      EncodingGrows(buffer, i);
      var tb := [Digit(sb / 262144), Digit(sb / 4096 % 64), Digit(sb / 64 % 64), Digit(sb % 64)];
      ret := ret + tb;
      i := i + 3;
    }
    EncodingEnds(buffer, i);
    var tb := EncodeRest(buffer[i..]);
    ret := ret + tb;
  }

  /** `switch (rest)` */
  method EncodeRest(rest: seq<Byte>) returns (tb: seq<Byte>)
    requires |rest| < 3
    ensures tb == Encoding(rest)
  {
    if |rest| == 1 {
      EncodingOfShort(rest[0], 0);
      assert rest == [rest[0]];
      tb := [Digit(First(rest[0])), Digit(Low2(rest[0]) * 16), PAD, PAD];
    } else if |rest| == 2 {
      EncodingOfShort(rest[0], rest[1]);
      assert rest == [rest[0], rest[1]];
      var sb := Joined(rest[0], rest[1], 0);
      Digits(rest[0], rest[1], 0);
      tb := [Digit(sb / 262144), Digit(sb / 4096 % 64), Digit(sb / 64 % 64), PAD];
    } else {
      EncodingOfShort(0, 0);
      tb := [];
    }
  }

  lemma EncodingOfShort(a: Byte, b: Byte)
    ensures Encoding([]) == []
    ensures Encoding([a]) == [Digit(First(a)), Digit(Second(a, 0)), PAD, PAD]
    ensures Encoding([a, b]) == [Digit(First(a)), Digit(Second(a, b)), Digit(Third(b, 0)), PAD]
  {
  }

  lemma EncodingOfThree(t: seq<Byte>)
    requires |t| == 3
    ensures Encoding(t) == Group(t[0], t[1], t[2])
  {
    assert Encoding(t[3..]) == [];
  }

  // Decoding

  /** One turn of the loop of `of_base64_decode` accepts the four characters. */
  predicate Quad(q: seq<Byte>)
    requires |q| == 4
  {
    && q[0] != PAD && q[1] != PAD && (q[2] == PAD ==> q[3] == PAD)
    && Value(q[0]) != -1 && Value(q[1]) != -1 && Value(q[2]) != -1 && Value(q[3]) != -1
  }

  function Triple(q: seq<Byte>): (t: seq<Byte>)
    requires |q| == 4 && Quad(q)
    ensures 1 <= |t| <= 3
  {
    var v: seq<int> := [Value(q[0]), Value(q[1]), Value(q[2]), Value(q[3])];
    [v[0] * 4 + v[1] / 16]
    + (if q[2] == PAD then [] else [v[1] % 16 * 16 + v[2] / 4])
    + (if q[3] == PAD then [] else [v[2] % 4 * 64 + v[3]])
  }

  /** The quads of a string from its beginning, until one is refused; whether none was */
  function Decoding(s: seq<Byte>): (bool, seq<Byte>)
    requires |s| % 4 == 0
  {
    if s == [] then (true, [])
    else if !Quad(s[..4]) then (false, [])
    else
      var (ok, data) := Decoding(s[4..]);
      (ok, Triple(s[..4]) + data)
  }

  lemma BytesOfDigits(a: Byte, b: Byte, c: Byte)
    ensures First(a) * 4 + Second(a, b) / 16 == a
    ensures Second(a, b) % 16 * 16 + Third(b, c) / 4 == b
    ensures Third(b, c) % 4 * 64 + Fourth(c) == c
  {
  }

  lemma QuadOfOne(a: Byte)
    ensures var q := [Digit(First(a)), Digit(Second(a, 0)), PAD, PAD]; Quad(q) && Triple(q) == [a]
  {
    hide Digit, Value, First, Second;
    ValueOfDigit(First(a));
    ValueOfDigit(Second(a, 0));
    BytesOfDigits(a, 0, 0);
    PadValue();
  }

  lemma QuadOfTwo(a: Byte, b: Byte)
    ensures var q := [Digit(First(a)), Digit(Second(a, b)), Digit(Third(b, 0)), PAD]; Quad(q) && Triple(q) == [a, b]
  {
    hide Digit, Value, First, Second, Third;
    ValueOfDigit(First(a));
    ValueOfDigit(Second(a, b));
    ValueOfDigit(Third(b, 0));
    BytesOfDigits(a, b, 0);
    PadValue();
  }

  lemma QuadOfThree(a: Byte, b: Byte, c: Byte)
    ensures Quad(Group(a, b, c)) && Triple(Group(a, b, c)) == [a, b, c]
  {
    hide Digit, Value, First, Second, Third, Fourth;
    ValueOfDigit(First(a));
    ValueOfDigit(Second(a, b));
    ValueOfDigit(Third(b, c));
    ValueOfDigit(Fourth(c));
    BytesOfDigits(a, b, c);
  }

  /** Decoding undoes encoding, for every sequence of bytes. */
  lemma {:induction false} DecodingOfEncoding(data: seq<Byte>)
    ensures |Encoding(data)| % 4 == 0 && Decoding(Encoding(data)) == (true, data)
  {
    hide Quad, Triple, Group, Digit, First, Second, Third, Fourth;
    var s := Encoding(data);
    if |data| == 1 {
      QuadOfOne(data[0]);
      assert s[..4] == s && s[4..] == [] && data == [data[0]] + [];
    } else if |data| == 2 {
      QuadOfTwo(data[0], data[1]);
      assert s[..4] == s && s[4..] == [] && data == [data[0], data[1]] + [];
    } else if |data| > 2 {
      QuadOfThree(data[0], data[1], data[2]);
      DecodingOfEncoding(data[3..]);
      assert s[..4] == Group(data[0], data[1], data[2]) && s[4..] == Encoding(data[3..]);
      assert data == [data[0], data[1], data[2]] + data[3..];
    }
  }

  lemma PadValue()
    ensures Value(PAD) == 0
  {
  }

  /** Padding only at the end, and no bits below it */
  predicate Canonical(s: seq<Byte>)
    requires |s| % 4 == 0
  {
    s == [] ||
    (if s[3] != PAD then Canonical(s[4..])
     else |s| == 4 && if s[2] == PAD then Value(s[1]) % 16 == 0 else Value(s[2]) % 4 == 0)
  }

  /** A string that is accepted is the encoding of what it decodes to if and only if it is canonical. */
  lemma {:induction false} EncodingOfDecodingIff(s: seq<Byte>)
    requires |s| % 4 == 0 && Decoding(s).0
    ensures Encoding(Decoding(s).1) == s <==> Canonical(s)
    ensures Decoding(s).1 == [] <==> s == []
  {
    hide Digit, Value, First, Second, Third, Fourth;
    if s != [] {
      var q, t := s[..4], Triple(s[..4]);
      var data := Decoding(s[4..]).1;
      EncodingOfDecodingIff(s[4..]);
      if s[3] != PAD {
        DigitsOfQuad(q);
        assert (t + data)[3..] == data;
        assert Encoding(t + data) == q + Encoding(data);
        assert s == q + s[4..];
      } else {
        PaddedAtEnd(q);
        if data != [] { PaddedInside(q, data); }
        assert s[4..] == [] ==> s == q;
      }
    }
  }

  /** "AB==", with a bit below the padding, and "AA==AAAA", with padding inside, are accepted. */
  lemma BitsBelowPadding()
    ensures Decoding([0x41, 0x42, PAD, PAD]) == (true, [0]) && Encoding([0]) != [0x41, 0x42, PAD, PAD]
  {
    var s: seq<Byte> := [0x41, 0x42, PAD, PAD];
    assert s[..4] == s && s[4..] == [] && Value(0x41) == 0 && Value(0x42) == 1 && Value(PAD) == 0;
    assert Triple(s) == [0] && [0] + [] == [0];
    EncodingOfDecodingIff(s);
  }

  lemma PaddingInside()
    ensures var s: seq<Byte> := [0x41, 0x41, PAD, PAD, 0x41, 0x41, 0x41, 0x41];
            Decoding(s) == (true, [0, 0, 0, 0]) && Encoding([0, 0, 0, 0]) != s
  {
    var q: seq<Byte> := [0x41, 0x41, PAD, PAD];
    var r: seq<Byte> := [0x41, 0x41, 0x41, 0x41];
    var s: seq<Byte> := [0x41, 0x41, PAD, PAD, 0x41, 0x41, 0x41, 0x41];
    assert s[..4] == q && s[4..] == r && r[..4] == r && r[4..] == [];
    assert Value(0x41) == 0 && Value(PAD) == 0;
    assert Triple(q) == [0] && Triple(r) == [0, 0, 0];
    assert [0, 0, 0] + [] == [0, 0, 0] && [0] + [0, 0, 0] == [0, 0, 0, 0];
    EncodingOfDecodingIff(s);
  }

  lemma DigitsOfBytes(v0: nat, v1: nat, v2: nat, v3: nat)
    requires v0 < 64 && v1 < 64 && v2 < 64 && v3 < 64
    ensures First(v0 * 4 + v1 / 16) == v0
    ensures Second(v0 * 4 + v1 / 16, v1 % 16 * 16 + v2 / 4) == v1
    ensures Third(v1 % 16 * 16 + v2 / 4, v2 % 4 * 64 + v3) == v2
    ensures Fourth(v2 % 4 * 64 + v3) == v3
  {
  }

  lemma DigitsOfQuad(q: seq<Byte>)
    requires |q| == 4 && Quad(q) && q[3] != PAD
    ensures var t := Triple(q); |t| == 3 && Group(t[0], t[1], t[2]) == q
  {
    hide Digit, Value, First, Second, Third, Fourth;
    DigitsOfBytes(Value(q[0]), Value(q[1]), Value(q[2]), Value(q[3]));
    DigitOfValue(q[0]);
    DigitOfValue(q[1]);
    DigitOfValue(q[2]);
    DigitOfValue(q[3]);
  }

  /** What follows a padded quad makes the encoding differ from it. */
  lemma PaddedInside(q: seq<Byte>, data: seq<Byte>)
    requires |q| == 4 && Quad(q) && q[3] == PAD && data != []
    ensures |Encoding(Triple(q) + data)| >= 4 && Encoding(Triple(q) + data)[..4] != q
  {
    hide Digit, Value, First, Second, Third, Fourth;
    var s := Triple(q) + data;
    if q[2] == PAD {
      assert Encoding(s)[..4][2] != PAD;
    } else {
      assert Encoding(s)[..4][3] != PAD;
    }
  }

  lemma DigitIsPlain(v: nat, w: nat)
    requires v < 64 && w < 64
    ensures Digit(v) == Digit(w) <==> v == w
  {
    ValueOfDigit(v);
    ValueOfDigit(w);
  }

  lemma PaddedAtEnd(q: seq<Byte>)
    requires |q| == 4 && Quad(q) && q[3] == PAD
    ensures Encoding(Triple(q)) == q <==> if q[2] == PAD then Value(q[1]) % 16 == 0 else Value(q[2]) % 4 == 0
  {
    hide Digit, Value, First, Second, Third, Fourth;
    var v0, v1, v2 := Value(q[0]), Value(q[1]), Value(q[2]);
    DigitOfValue(q[0]);
    DigitOfValue(q[1]);
    PadValue();
    var t := Triple(q);
    if q[2] == PAD {
      OneByte(v0, v1);
      DigitIsPlain(Second(t[0], 0), v1);
    } else {
      DigitOfValue(q[2]);
      TwoBytes(v0, v1, v2);
      DigitIsPlain(Third(t[1], 0), v2);
    }
  }

  lemma OneByte(v0: nat, v1: nat)
    requires v0 < 64 && v1 < 64
    ensures First(v0 * 4 + v1 / 16) == v0
    ensures Second(v0 * 4 + v1 / 16, 0) == v1 <==> v1 % 16 == 0
  {
  }

  lemma TwoBytes(v0: nat, v1: nat, v2: nat)
    requires v0 < 64 && v1 < 64 && v2 < 64
    ensures First(v0 * 4 + v1 / 16) == v0
    ensures Second(v0 * 4 + v1 / 16, v1 % 16 * 16 + v2 / 4) == v1
    ensures Third(v1 % 16 * 16 + v2 / 4, 0) == v2 <==> v2 % 4 == 0
  {
  }

  /** `of_base64_decode`; `data` gets what was decoded even if a later quad is refused. */
  method Decode(data: seq<Byte>, string': seq<Byte>) returns (ok: bool, data': seq<Byte>)
    ensures |string'| % 4 != 0 ==> !ok && data' == data
    ensures |string'| % 4 == 0 ==> (ok, data') == (Decoding(string').0, data + Decoding(string').1)
  {
    hide Quad, Triple, Decoding;
    if |string'| % 4 != 0 { return false, data; }
    data' := data;
    var i := 0;
    assert string'[0..] == string';
    while i < |string'|
      invariant 0 <= i <= |string'| && i % 4 == 0
      invariant Decoding(string').0 == Decoding(string'[i..]).0
      invariant data + Decoding(string').1 == data' + Decoding(string'[i..]).1
    {
      DecodingTurn(string', i);
      var db := DecodeQuad(string'[i..i + 4]);
      if db == [] {
        assert data' + [] == data';
        return false, data';
      }
      Joins(data', db, Decoding(string'[i + 4..]).1);
      data' := data' + db;
      i := i + 4;
    }
    DecodingStep(string'[i..]);
    assert data' + [] == data';
    return true, data';
  }

  lemma DecodingTurn(s: seq<Byte>, i: nat)
    requires |s| % 4 == 0 && i % 4 == 0 && i + 4 <= |s|
    ensures var q := s[i..i + 4];
            if !Quad(q) then !Decoding(s[i..]).0 && Decoding(s[i..]).1 == []
            else
              && Decoding(s[i..]).0 == Decoding(s[i + 4..]).0
              && Decoding(s[i..]).1 == Triple(q) + Decoding(s[i + 4..]).1
  {
    hide Quad, Triple, Decoding;
    DecodingStep(s[i..]);
    assert s[i..][..4] == s[i..i + 4] && s[i..][4..] == s[i + 4..];
  }

  lemma DecodingStep(s: seq<Byte>)
    requires |s| % 4 == 0
    ensures s == [] ==> Decoding(s).0 && Decoding(s).1 == []
    ensures s != [] && !Quad(s[..4]) ==> !Decoding(s).0 && Decoding(s).1 == []
    ensures s != [] && Quad(s[..4]) ==>
      && Decoding(s).0 == Decoding(s[4..]).0
      && Decoding(s).1 == Triple(s[..4]) + Decoding(s[4..]).1
  {
  }

  lemma Joins(a: seq<Byte>, b: seq<Byte>, c: seq<Byte>)
    ensures a + (b + c) == a + b + c
  {
  }

  /** One turn of the loop; nothing if it returns false */
  method DecodeQuad(q: seq<Byte>) returns (db: seq<Byte>)
    requires |q| == 4
    ensures db == if Quad(q) then Triple(q) else []
  {
    if q[0] > 0x7F || q[1] > 0x7F || q[2] > 0x7F || q[3] > 0x7F { return []; }
    if q[0] == PAD || q[1] == PAD || (q[2] == PAD && q[3] != PAD) { return []; }
    var count := 3;
    if q[2] == PAD { count := count - 1; }
    if q[3] == PAD { count := count - 1; }
    var sb := 0;
    var tmp := Value(q[0]);
    if tmp == -1 { return []; }
    sb := sb + tmp * 262144;
    tmp := Value(q[1]);
    if tmp == -1 { return []; }
    sb := sb + tmp * 4096;
    tmp := Value(q[2]);
    if tmp == -1 { return []; }
    sb := sb + tmp * 64;
    tmp := Value(q[3]);
    if tmp == -1 { return []; }
    sb := sb + tmp;
    BytesOfNumber(Value(q[0]), Value(q[1]), Value(q[2]), Value(q[3]));
    db := [sb / 65536, sb / 256 % 256, sb % 256][..count];
  }

  lemma BytesOfNumber(v0: nat, v1: nat, v2: nat, v3: nat)
    requires v0 < 64 && v1 < 64 && v2 < 64 && v3 < 64
    ensures var sb := v0 * 262144 + v1 * 4096 + v2 * 64 + v3;
            sb / 65536 == v0 * 4 + v1 / 16 < 256 && sb / 256 % 256 == v1 % 16 * 16 + v2 / 4
              && sb % 256 == v2 % 4 * 64 + v3
  {
    BytesOfParts(v0, v1 / 16, v1 % 16, v2 / 4, v2 % 4, v3);
  }

  lemma BytesOfParts(v0: nat, a: nat, b: nat, c: nat, d: nat, v3: nat)
    requires v0 < 64 && a < 4 && b < 16 && c < 16 && d < 4 && v3 < 64
    ensures var sb := v0 * 262144 + (a * 16 + b) * 4096 + (c * 4 + d) * 64 + v3;
            sb / 65536 == v0 * 4 + a && sb / 256 % 256 == b * 16 + c && sb % 256 == d * 64 + v3
  {
    Digits256(v0 * 4 + a, b * 16 + c, d * 64 + v3);
  }

  lemma Digits256(p: nat, q: nat, r: nat)
    requires q < 256 && r < 256
    ensures (p * 65536 + q * 256 + r) / 65536 == p && (p * 65536 + q * 256 + r) / 256 % 256 == q
      && (p * 65536 + q * 256 + r) % 256 == r
  {
    var n := p * 65536 + q * 256 + r;
    assert n / 256 == p * 256 + q && n % 256 == r;
    assert n / 65536 == n / 256 / 256;
  }

  // Section 10 of RFC 4648

  lemma EncodingOfPieces()
    ensures Encoding([0x66, 0x6F, 0x6F]) == [0x5A, 0x6D, 0x39, 0x76]
    ensures Encoding([0x62, 0x61, 0x72]) == [0x59, 0x6D, 0x46, 0x79]
    ensures Encoding([0x62, 0x61]) == [0x59, 0x6D, 0x45, 0x3D] && Encoding([0x62]) == [0x59, 0x67, 0x3D, 0x3D]
  {
    hide Encoding;
    EncodingOfThree([0x66, 0x6F, 0x6F]);
    EncodingOfThree([0x62, 0x61, 0x72]);
    EncodingOfShort(0x62, 0x61);
  }

  /** "foobar" is "Zm9vYmFy", "fooba" is "Zm9vYmE=" and "foob" is "Zm9vYg==". */
  lemma PublishedEncodings()
    ensures Encoding([0x66, 0x6F, 0x6F, 0x62, 0x61, 0x72]) == [0x5A, 0x6D, 0x39, 0x76, 0x59, 0x6D, 0x46, 0x79]
    ensures Encoding([0x66, 0x6F, 0x6F, 0x62, 0x61]) == [0x5A, 0x6D, 0x39, 0x76, 0x59, 0x6D, 0x45, 0x3D]
    ensures Encoding([0x66, 0x6F, 0x6F, 0x62]) == [0x5A, 0x6D, 0x39, 0x76, 0x59, 0x67, 0x3D, 0x3D]
  {
    hide Encoding;
    EncodingJoins([0x66, 0x6F, 0x6F], [0x62, 0x61, 0x72]);
    EncodingJoins([0x66, 0x6F, 0x6F], [0x62, 0x61]);
    EncodingJoins([0x66, 0x6F, 0x6F], [0x62]);
    EncodingOfPieces();
    assert [0x66, 0x6F, 0x6F] + [0x62, 0x61, 0x72] == [0x66, 0x6F, 0x6F, 0x62, 0x61, 0x72];
    assert [0x66, 0x6F, 0x6F] + [0x62, 0x61] == [0x66, 0x6F, 0x6F, 0x62, 0x61];
    assert [0x66, 0x6F, 0x6F] + [0x62] == [0x66, 0x6F, 0x6F, 0x62];
  }
}
