// How src/OFINICategory.m writes a string to a line and reads it back.

module IniStrings {
  import opened Options

  const FF: char := '\U{0C}'
  const VT: char := '\U{0B}'

  /** The byte order mark */
  const MARK: char := '\U{FEFF}'

  predicate Marked(s: string)
  {
    s != "" && s[0] == MARK
  }

  /** What becomes of text that a string is made from, also where it is cut out of another string */
  function Unmarked(s: string): (t: string)
    ensures |t| <= |s| && forall c :: c in t ==> c in s
  {
    if Marked(s) then s[1..] else s
  }

  /** `replaceOccurrencesOfString:withString:`, from left to right */
  function Replace(s: string, p: string, r: string): string
    requires p != ""
  {
    if |s| < |p| then s
    else if s[..|p|] == p then r + Replace(s[|p|..], p, r)
    else [s[0]] + Replace(s[1..], p, r)
  }

  predicate NeedsQuotes(s: string)
  {
    '"' in s || (s != "" && (Blank(s[0]) || Blank(s[|s| - 1])))
  }

  predicate Blank(c: char)
  {
    c == ' ' || c == '\t' || c == FF
  }

  /** What `escapeString` does between the quotes */
  function Inner(s: string): string
  {
    Replace(Replace(Replace(Replace(Replace(s, "\\", "\\\\"), [FF], "\\f"), "\r", "\\r"), "\n", "\\n"), "\"", "\\\"")
  }

  function Escape(s: string): string
  {
    if !NeedsQuotes(s) then s else "\"" + Inner(s) + "\""
  }

  function Outer(s: string): string
  {
    Replace(Replace(Replace(Replace(Replace(s, "\\f", [FF]), "\\r", "\r"), "\\n", "\n"), "\\\"", "\""), "\\\\", "\\")
  }

  /** `unescapeString`; `None` stands for the OFOutOfRangeException for a string that is a single quote. */
  function Unescape(s: string): Option<string>
  {
    if s == "" || s[0] != '"' || s[|s| - 1] != '"' then Some(s)
    else if |s| < 2 then None
    else Some(Outer(Unmarked(s[1..|s| - 1])))
  }

  predicate IsSpace(c: char)
  {
    c == ' ' || c == '\t' || c == '\n' || c == '\r' || c == FF || c == VT
  }

  /** `stringByDeletingEnclosingWhitespaces` */
  function Trim(s: string): (t: string)
    ensures t == "" || (!IsSpace(t[0]) && !IsSpace(t[|t| - 1]))
    ensures |t| <= |s| && forall c :: c in t ==> c in s
    ensures (s == "" || (!IsSpace(s[0]) && !IsSpace(s[|s| - 1]))) ==> t == s
  {
    if s == "" then ""
    else if IsSpace(s[|s| - 1]) then Trim(s[..|s| - 1])
    else if IsSpace(s[0]) then Trim(s[1..])
    else s
  }

  // Both directions, one character at a time

  /** A character once the first `k` replacements of `unescapeString` are made of what `escapeString` wrote */
  function Code(k: nat, c: char): (code: string)
    ensures 1 <= |code| <= 2
  {
    if c == '\\' then (if k < 5 then "\\\\" else "\\")
    else if c == FF then (if k < 1 then "\\f" else [FF])
    else if c == '\r' then (if k < 2 then "\\r" else "\r")
    else if c == '\n' then (if k < 3 then "\\n" else "\n")
    else if c == '"' then (if k < 4 then "\\\"" else "\"")
    else [c]
  }

  function Codes(k: nat, s: string): string
  {
    if s == "" then "" else Code(k, s[0]) + Codes(k, s[1..])
  }

  lemma ReplaceStep(s: string, p: string, r: string)
    requires p != "" && s != ""
    ensures s[0] != p[0] ==> Replace(s, p, r) == [s[0]] + Replace(s[1..], p, r)
    ensures |s| >= |p| == 2 && s[1] != p[1] ==> Replace(s, p, r) == [s[0]] + Replace(s[1..], p, r)
    ensures |s| < |p| ==> Replace(s, p, r) == s
  {
    if |s| < |p| { assert Replace(s[1..], p, r) == s[1..]; }
  }

  lemma {:induction false} ReplaceJoins(a: string, b: string, c: char, r: string)
    ensures Replace(a + b, [c], r) == Replace(a, [c], r) + Replace(b, [c], r)
  {
    if a == "" {
      assert a + b == b;
    } else {
      assert (a + b)[..1] == a[..1] && (a + b)[1..] == a[1..] + b;
      ReplaceJoins(a[1..], b, c, r);
    }
  }

  lemma ReplaceOne(x: char, c: char, r: string)
    ensures Replace([x], [c], r) == if x == c then r else [x]
  {
    assert [x][1..] == "" && [x][..1] == [x];
    assert Replace("", [c], r) == "";
  }

  lemma InnerOfOne(c: char)
    ensures Inner([c]) == Code(0, c)
  {
    ReplaceOne(c, '\\', "\\\\");
    var s := Replace([c], "\\", "\\\\");
    if c == '\\' {
      Untouched("\\\\", FF, "\\f");
      Untouched("\\\\", '\r', "\\r");
      Untouched("\\\\", '\n', "\\n");
      Untouched("\\\\", '"', "\\\"");
    } else {
      ReplaceOne(c, FF, "\\f");
      if c == FF {
        Untouched("\\f", '\r', "\\r");
        Untouched("\\f", '\n', "\\n");
        Untouched("\\f", '"', "\\\"");
      } else {
        ReplaceOne(c, '\r', "\\r");
        if c == '\r' {
          Untouched("\\r", '\n', "\\n");
          Untouched("\\r", '"', "\\\"");
        } else {
          ReplaceOne(c, '\n', "\\n");
          if c == '\n' { Untouched("\\n", '"', "\\\""); } else { ReplaceOne(c, '"', "\\\""); }
        }
      }
    }
  }

  lemma {:induction false} Untouched(s: string, c: char, r: string)
    requires c !in s
    ensures Replace(s, [c], r) == s
  {
    if s != "" {
      assert s[..1] == [s[0]];
      Untouched(s[1..], c, r);
    }
  }

  lemma {:induction false} InnerIsCodes(s: string)
    ensures Inner(s) == Codes(0, s)
  {
    if s == "" {
    } else {
      InnerOfOne(s[0]);
      InnerIsCodes(s[1..]);
      assert s == [s[0]] + s[1..];
      InnerJoins([s[0]], s[1..]);
    }
  }

  lemma InnerJoins(a: string, b: string)
    ensures Inner(a + b) == Inner(a) + Inner(b)
  {
    hide Replace;
    ReplaceJoins(a, b, '\\', "\\\\");
    var a1, b1 := Replace(a, "\\", "\\\\"), Replace(b, "\\", "\\\\");
    ReplaceJoins(a1, b1, FF, "\\f");
    var a2, b2 := Replace(a1, [FF], "\\f"), Replace(b1, [FF], "\\f");
    ReplaceJoins(a2, b2, '\r', "\\r");
    var a3, b3 := Replace(a2, "\r", "\\r"), Replace(b2, "\r", "\\r");
    ReplaceJoins(a3, b3, '\n', "\\n");
    var a4, b4 := Replace(a3, "\n", "\\n"), Replace(b3, "\n", "\\n");
    ReplaceJoins(a4, b4, '"', "\\\"");
  }

  // Reading back

  /** How often a backslash stands directly before the character. */
  function Backslashed(s: string, c: char): nat
  {
    if |s| < 2 then 0 else (if s[0] == '\\' && s[1] == c then 1 else 0) + Backslashed(s[1..], c)
  }

  function Count(s: string, c: char): nat
  {
    if s == "" then 0 else (if s[0] == c then 1 else 0) + Count(s[1..], c)
  }

  /** The letter that the `k`th replacement reads after a backslash, and what it puts */
  function Letter(k: nat): char
  {
    if k == 1 then 'f' else if k == 2 then 'r' else if k == 3 then 'n' else '"'
  }

  function Meant(k: nat): char
  {
    if k == 1 then FF else if k == 2 then '\r' else if k == 3 then '\n' else '"'
  }

  lemma ReplacePair(more: string, p: string, r: string)
    requires |p| == 2
    ensures Replace(p + more, p, r) == r + Replace(more, p, r)
  {
    assert (p + more)[..2] == p && (p + more)[2..] == more;
  }

  /** A character in one byte, which is no backslash */
  lemma KeepOne(x: char, more: string, p: string, r: string)
    requires |p| == 2 && x != p[0]
    ensures Replace([x] + more, p, r) == [x] + Replace(more, p, r)
  {
    ReplaceStep([x] + more, p, r);
    assert ([x] + more)[1..] == more;
  }

  /** A character behind a backslash that is not the one looked for */
  lemma KeepTwo(y: char, more: string, p: string, r: string)
    requires |p| == 2 && y != p[1] && (y == p[0] ==> more == "" || more[0] != p[1])
    ensures Replace([p[0], y] + more, p, r) == [p[0], y] + Replace(more, p, r)
  {
    var t := [p[0], y] + more;
    assert t[1..] == [y] + more && t[1..][1..] == more;
    ReplaceStep(t, p, r);
    ReplaceStep([y] + more, p, r);
  }

  lemma CodeSteps(k: nat, x: char)
    requires 1 <= k <= 4
    ensures Code(k - 1, x) == ['\\', Letter(k)] ==> Code(k, x) == [Meant(k)]
    ensures Code(k - 1, x) != ['\\', Letter(k)] ==> Code(k, x) == Code(k - 1, x)
    ensures |Code(k - 1, x)| == 1 ==> Code(k - 1, x) == [x] && x != '\\' && (k == 4 ==> x != '"')
    ensures |Code(k - 1, x)| == 2 ==> Code(k - 1, x)[0] == '\\' && (Code(k - 1, x)[1] == '\\' ==> x == '\\')
  {
  }

  lemma {:induction false} Pass(k: nat, s: string)
    requires 1 <= k <= 4 && (k <= 3 ==> Backslashed(s, Letter(k)) == 0)
    ensures Replace(Codes(k - 1, s), ['\\', Letter(k)], [Meant(k)]) == Codes(k, s)
  {
    hide Replace, Code, Meant;
    var p, r := ['\\', Letter(k)], [Meant(k)];
    if s == "" {
      ReplaceNothing(p, r);
    } else {
      var code, more := Code(k - 1, s[0]), Codes(k - 1, s[1..]);
      Pass(k, s[1..]);
      CodeSteps(k, s[0]);
      if code == p {
        ReplacePair(more, p, r);
      } else if |code| == 1 {
        KeepOne(s[0], more, p, r);
      } else {
        if more != "" { CodeSteps(k, s[1]); }
        assert code == [p[0], code[1]];
        KeepTwo(code[1], more, p, r);
      }
    }
  }

  lemma ReplaceNothing(p: string, r: string)
    requires p != ""
    ensures Replace("", p, r) == ""
  {
  }

  lemma {:induction false} LastPass(s: string)
    ensures Replace(Codes(4, s), "\\\\", "\\") == s
  {
    if s != "" {
      var t, more := Codes(4, s), Codes(4, s[1..]);
      LastPass(s[1..]);
      if s[0] == '\\' {
        assert t[..2] == "\\\\" && t[2..] == more;
      } else {
        assert t == [s[0]] + more && t[1..] == more;
        ReplaceStep(t, "\\\\", "\\");
      }
    }
  }

  /** Without a backslash directly before f, r or n, what was escaped is read back. */
  lemma OuterOfInner(s: string)
    requires Backslashed(s, 'f') == 0 && Backslashed(s, 'r') == 0 && Backslashed(s, 'n') == 0
    ensures Outer(Inner(s)) == s
  {
    hide Replace, Codes;
    InnerIsCodes(s);
    Pass(1, s);
    Pass(2, s);
    Pass(3, s);
    Pass(4, s);
    LastPass(s);
  }

  // What is lost

  lemma {:induction false} CountKept(t: string, c: char, d: char, e: char)
    requires e != '\\' && e != c && e != d
    ensures Count(Replace(t, ['\\', c], [d]), e) == Count(t, e)
    decreases |t|
  {
    if |t| >= 2 {
      if t[..2] == ['\\', c] {
        assert t[0] == '\\' && t[1] == c && t[1..][1..] == t[2..];
        CountKept(t[2..], c, d, e);
      } else {
        CountKept(t[1..], c, d, e);
      }
    }
  }

  lemma {:induction false} CountNew(t: string, c: char, d: char)
    requires c != '\\' && d != '\\' && c != d
    ensures Count(Replace(t, ['\\', c], [d]), d) == Count(t, d) + Backslashed(t, c)
    decreases |t|
  {
    if |t| >= 2 {
      if t[..2] == ['\\', c] {
        assert t[0] == '\\' && t[1] == c && t[1..][1..] == t[2..];
        CountNew(t[2..], c, d);
      } else {
        CountNew(t[1..], c, d);
      }
    }
  }

  lemma {:induction false} PairsKept(t: string, c: char, d: char, e: char)
    requires c != '\\' && d != '\\' && e != '\\' && e != c && e != d
    ensures Backslashed(Replace(t, ['\\', c], [d]), e) == Backslashed(t, e)
    ensures |Replace(t, ['\\', c], [d])| > 0 <==> |t| > 0
    ensures t != "" ==> (Replace(t, ['\\', c], [d])[0] == e <==> t[0] == e)
    decreases |t|
  {
    if |t| >= 2 {
      if t[..2] == ['\\', c] {
        assert t[0] == '\\' && t[1] == c && t[1..][1..] == t[2..];
        PairsKept(t[2..], c, d, e);
      } else {
        PairsKept(t[1..], c, d, e);
      }
    }
  }

  lemma {:induction false} PairsOfCodes(s: string, k: nat)
    requires 1 <= k <= 3
    ensures Backslashed(Codes(0, s), Letter(k)) == Count(s, Meant(k)) + Backslashed(s, Letter(k))
    ensures Count(Codes(0, s), Meant(k)) == 0
  {
    if s != "" {
      var code, more := Code(0, s[0]), Codes(0, s[1..]);
      PairsOfCodes(s[1..], k);
      if more != "" { assert more[0] == Code(0, s[1])[0]; }
      if |code| == 1 {
        assert (code + more)[1..] == more;
      } else {
        assert (code + more)[1..] == [code[1]] + more && ([code[1]] + more)[1..] == more;
      }
    }
  }

  /** Each backslash directly before f, r or n adds a form feed, carriage return or line feed. */
  lemma CountOfOuter(s: string, k: nat)
    requires 1 <= k <= 3
    ensures Count(Outer(Inner(s)), Meant(k)) == Count(s, Meant(k)) + Backslashed(s, Letter(k))
  {
    var e, l := Meant(k), Letter(k);
    InnerIsCodes(s);
    PairsOfCodes(s, k);
    hide Replace, Codes, Count, Backslashed;
    var t0 := Codes(0, s);
    var t1 := Replace(t0, "\\f", [FF]);
    var t2 := Replace(t1, "\\r", "\r");
    var t3 := Replace(t2, "\\n", "\n");
    var t4 := Replace(t3, "\\\"", "\"");
    if k == 1 { CountNew(t0, 'f', FF); } else { CountKept(t0, 'f', FF, e); PairsKept(t0, 'f', FF, l); }
    if k == 2 { CountNew(t1, 'r', '\r'); } else { CountKept(t1, 'r', '\r', e); }
    if k == 3 { PairsKept(t1, 'r', '\r', l); CountNew(t2, 'n', '\n'); } else { CountKept(t2, 'n', '\n', e); }
    CountKept(t3, '"', '"', e);
    CountKept(t4, '\\', '\\', e);
  }

  lemma {:induction false} MarksInCodes(s: string)
    ensures Count(Codes(0, s), MARK) == Count(s, MARK) && (Marked(Codes(0, s)) <==> Marked(s))
  {
    if s != "" {
      var code, more := Code(0, s[0]), Codes(0, s[1..]);
      MarksInCodes(s[1..]);
      if |code| == 1 {
        assert (code + more)[1..] == more;
      } else {
        assert (code + more)[1..] == [code[1]] + more && ([code[1]] + more)[1..] == more;
      }
    }
  }

  lemma MarksKept(t: string)
    ensures Count(Outer(t), MARK) == Count(t, MARK)
  {
    hide Replace, Count;
    var t1 := Replace(t, "\\f", [FF]);
    var t2 := Replace(t1, "\\r", "\r");
    var t3 := Replace(t2, "\\n", "\n");
    var t4 := Replace(t3, "\\\"", "\"");
    CountKept(t, 'f', FF, MARK);
    CountKept(t1, 'r', '\r', MARK);
    CountKept(t2, 'n', '\n', MARK);
    CountKept(t3, '"', '"', MARK);
    CountKept(t4, '\\', '\\', MARK);
  }

  /** Between the quotes, a byte order mark at the beginning is lost. */
  lemma MarkedInside(s: string)
    ensures if Marked(s) then Outer(Unmarked(Inner(s))) != s else Unmarked(Inner(s)) == Inner(s)
  {
    InnerIsCodes(s);
    MarksInCodes(s);
    hide Outer, Inner;
    if Marked(s) {
      var t := Codes(0, s)[1..];
      assert Codes(0, s) == [MARK] + t;
      MarksKept(t);
    }
  }

  /** A string that comes back from a line that it was written to */
  predicate Survives(s: string)
  {
    && !Marked(s)
    && if NeedsQuotes(s) then Backslashed(s, 'f') == 0 && Backslashed(s, 'r') == 0 && Backslashed(s, 'n') == 0
       else s == "" || (!IsSpace(s[0]) && !IsSpace(s[|s| - 1]))
  }

  /** Less than all of a string that needs no quotes is not read as that string. */
  lemma TooLittle(s: string, u: string)
    requires !NeedsQuotes(s) && |u| < |s| && forall c :: c in u ==> c in s
    ensures Unescape(Trim(u)) == Some(Trim(u)) && Trim(u) != s
  {
    var t := Trim(u);
    if t != "" { assert t[0] in t; }
  }

  lemma QuotedSurvivesIff(s: string)
    requires NeedsQuotes(s)
    ensures Unescape(Trim(Unmarked(Escape(s)))) == Some(s) <==> Survives(s)
  {
    hide Inner, Outer, Backslashed;
    var t := "\"" + Inner(s) + "\"";
    assert t[0] == '"' && t[|t| - 1] == '"' && t[1..|t| - 1] == Inner(s);
    assert Unescape(Trim(Unmarked(Escape(s)))) == Some(Outer(Unmarked(Inner(s))));
    MarkedInside(s);
    if Outer(Unmarked(Inner(s))) == s {
      CountOfOuter(s, 1);
      CountOfOuter(s, 2);
      CountOfOuter(s, 3);
    }
    if Survives(s) { OuterOfInner(s); }
  }

  lemma SurvivesIff(s: string)
    ensures Unescape(Trim(Unmarked(Escape(s)))) == Some(s) <==> Survives(s)
  {
    hide Inner, Outer, Backslashed;
    if NeedsQuotes(s) {
      QuotedSurvivesIff(s);
    } else if Marked(s) {
      TooLittle(s, s[1..]);
    } else {
      var t := Trim(s);
      if t != "" { assert t[0] in t; }
    }
  }

  /** Some strings do not: a backslash, an f and a quotation mark come back with a form feed. */
  lemma BackslashIsLost()
    ensures !Survives("\\f\"") && Unescape(Trim(Unmarked(Escape("\\f\"")))) != Some("\\f\"")
  {
    assert "\\f\""[2] == '"';
    SurvivesIff("\\f\"");
    hide Unescape, Trim, Escape;
  }

  /** A byte order mark at the beginning is lost, with and without quotes. */
  lemma MarkIsLost()
    ensures Unescape(Trim(Unmarked(Escape([MARK, 'x'])))) != Some([MARK, 'x'])
    ensures Unescape(Trim(Unmarked(Escape([MARK, '"'])))) != Some([MARK, '"'])
  {
    hide Unescape, Trim, Escape;
    SurvivesIff([MARK, 'x']);
    SurvivesIff([MARK, '"']);
  }

  lemma CodesOf(c: char, more: string)
    ensures Codes(0, [c] + more) == Code(0, c) + Codes(0, more)
  {
    assert ([c] + more)[1..] == more;
  }

  /** What is written for each character that has an escape, and for one that has none */
  lemma EscapesWritten(more: string)
    ensures Inner(['\\'] + more) == "\\\\" + Inner(more) && Inner([FF] + more) == "\\f" + Inner(more)
    ensures Inner(['\r'] + more) == "\\r" + Inner(more) && Inner(['\n'] + more) == "\\n" + Inner(more)
    ensures Inner(['"'] + more) == "\\\"" + Inner(more)
    ensures forall c :: c !in ['\\', '\U{0C}', '\r', '\n', '"'] ==> Inner([c] + more) == [c] + Inner(more)
  {
    hide Inner, Codes;
    InnerIsCodes(more);
    forall c ensures Inner([c] + more) == Code(0, c) + Inner(more) {
      InnerIsCodes([c] + more);
      CodesOf(c, more);
    }
  }

  /** Quotes are needed for a quotation mark, and for a space, tab or form feed at either end. */
  lemma QuotesWritten(s: string)
    ensures '"' in s ==> Escape(s) == "\"" + Inner(s) + "\""
    ensures Escape(" " + s) == "\"" + Inner(" " + s) + "\"" && Escape(s + " ") == "\"" + Inner(s + " ") + "\""
    ensures Escape("\t" + s) == "\"" + Inner("\t" + s) + "\"" && Escape(s + "\t") == "\"" + Inner(s + "\t") + "\""
    ensures Escape("\U{0C}" + s) == "\"" + Inner("\U{0C}" + s) + "\"" &&
            Escape(s + "\U{0C}") == "\"" + Inner(s + "\U{0C}") + "\""
    ensures '"' !in s && (s == "" || (s[0] !in " \t\U{0C}" && s[|s| - 1] !in " \t\U{0C}")) ==> Escape(s) == s
  {
    hide Inner;
  }

  const WHITE_SPACE: string := " \t\n\r\U{0B}\U{0C}"

  lemma SpaceIs(c: char)
    ensures IsSpace(c) <==> c in WHITE_SPACE
  {
  }

  lemma TrimsEnd(t: string, c: char)
    requires IsSpace(c)
    ensures Trim(t + [c]) == Trim(t)
  {
    hide IsSpace;
    assert (t + [c])[..|t|] == t;
  }

  lemma {:induction false} TrimsStart(c: char, s: string)
    requires IsSpace(c) && s != "" && !IsSpace(s[|s| - 1])
    ensures Trim([c] + s) == Trim(s)
  {
    hide IsSpace;
    assert ([c] + s)[1..] == s;
  }

  /** White space around a string goes, and nothing else. */
  lemma {:induction false} WhiteSpaceTrimmed(before: string, s: string, after: string)
    requires forall c :: c in before + after ==> c in WHITE_SPACE
    requires s == "" || (s[0] !in WHITE_SPACE && s[|s| - 1] !in WHITE_SPACE)
    ensures Trim(before + s + after) == s
    decreases |before| + |after|
  {
    hide IsSpace, Trim;
    if after != "" {
      var n := |after| - 1;
      assert after[n] in before + after;
      SpaceIs(after[n]);
      assert before + s + after == before + s + after[..n] + [after[n]];
      TrimsEnd(before + s + after[..n], after[n]);
      WhiteSpaceTrimmed(before, s, after[..n]);
    } else if before == "" {
      assert before + s + after == s;
      if s != "" {
        SpaceIs(s[0]);
        SpaceIs(s[|s| - 1]);
      }
    } else if s == "" {
      assert before + s + after == "" + s + before;
      WhiteSpaceTrimmed("", s, before[..|before| - 1]);
      SpaceIs(before[|before| - 1]);
      assert before[|before| - 1] in before + after;
      TrimsEnd("" + s + before[..|before| - 1], before[|before| - 1]);
      assert "" + s + before == "" + s + before[..|before| - 1] + [before[|before| - 1]];
    } else {
      var more := before[1..] + s + after;
      assert before[0] in before + after && before + s + after == [before[0]] + more;
      SpaceIs(before[0]);
      SpaceIs(s[|s| - 1]);
      TrimsStart(before[0], more);
      WhiteSpaceTrimmed(before[1..], s, after);
    }
  }
}
