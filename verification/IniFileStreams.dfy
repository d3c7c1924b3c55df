// The lines of module IniFiles are those that reading lines from a stream gives, with the text of the
// file encoded in UTF-8.

module IniFileStreams {
  import opened Bytes
  import opened Delimiters
  import opened IniFiles
  import opened IniStrings
  import opened Options
  import opened StreamLaws
  import opened StreamTexts
  import opened Streams
  import Utf8

  function EncodeText(text: string): seq<Byte>
  {
    if text == "" then [] else Utf8.Encode(text[0] as int) + EncodeText(text[1..])
  }

  lemma {:induction false} EncodeJoins(a: string, b: string)
    ensures EncodeText(a + b) == EncodeText(a) + EncodeText(b)
  {
    hide Utf8.Encode, EncodeText;
    if a == "" {
      EncodeNothing();
      assert a + b == b && [] + EncodeText(b) == EncodeText(b);
    } else {
      EncodeJoins(a[1..], b);
      EncodeFirst(a);
      EncodeFirst(a + b);
      assert (a + b)[1..] == a[1..] + b;
      StreamLaws.Assoc(Utf8.Encode(a[0] as int), EncodeText(a[1..]), EncodeText(b));
    }
  }

  lemma EncodeFirst(a: string)
    requires a != ""
    ensures EncodeText(a) == Utf8.Encode(a[0] as int) + EncodeText(a[1..])
  {
  }

  lemma EncodeNothing()
    ensures EncodeText("") == []
  {
  }

  /** Only a line feed or zero character has such a byte, and only a carriage return the byte of one. */
  lemma OneByte(c: char)
    ensures Utf8.Encode(c as int) != []
    ensures Breaks(c) ==> Utf8.Encode(c as int) == [c as int]
    ensures c == '\r' ==> Utf8.Encode(c as int) == [CARRIAGE_RETURN]
    ensures !Breaks(c) ==> 0 !in Utf8.Encode(c as int) && NEWLINE !in Utf8.Encode(c as int)
    ensures c != '\r' ==> CARRIAGE_RETURN !in Utf8.Encode(c as int)
  {
  }

  lemma {:induction false} NoBreakBytes(s: string)
    requires Unbroken(s)
    ensures 0 !in EncodeText(s) && NEWLINE !in EncodeText(s)
  {
    hide Utf8.Encode;
    if s != "" {
      OneByte(s[0]);
      NoBreakBytes(s[1..]);
    }
  }

  lemma StripEncoded(s: string)
    ensures Strip(EncodeText(s)) == EncodeText(StripReturn(s))
  {
    hide Utf8.Encode;
    if s != "" {
      var n := |s| - 1;
      assert s == s[..n] + [s[n]];
      EncodeJoins(s[..n], [s[n]]);
      OneByte(s[n]);
      assert EncodeText([s[n]]) == Utf8.Encode(s[n] as int) by { assert [s[n]][1..] == ""; }
    }
  }

  lemma EndsAtBreak(p: seq<Byte>, i: nat)
    requires i <= |p| && (i < |p| ==> p[i] == 0 || p[i] == NEWLINE)
    requires 0 !in p[..i] && NEWLINE !in p[..i]
    ensures FirstEnd([NEWLINE], p) == i
  {
    forall k | 0 <= k < i ensures !EndsAt([NEWLINE], p, k) {
      assert p[k] == p[..i][k] && p[k + 1 - 1..k + 1] == [p[k]];
    }
    if i < |p| {
      assert p[i + 1 - 1..i + 1] == [p[i]];
      assert EndsAt([NEWLINE], p, i);
    }
    var e := FirstEnd([NEWLINE], p);
    assert e < |p| ==> EndsAt([NEWLINE], p, e);
  }

  /** What follows the first line */
  function AfterLine(text: string): string
  {
    var i := FirstBreak(text);
    if i < |text| then text[i + 1..] else ""
  }

  /** The lines of a text before strings are made from them */
  function RawLines(text: string): seq<string>
    decreases |text|
  {
    if text == "" then [] else [StripReturn(text[..FirstBreak(text)])] + RawLines(AfterLine(text))
  }

  /** Strings made from lines */
  function UnmarkAll(lines: seq<string>): seq<string>
  {
    if lines == [] then [] else [Unmarked(lines[0])] + UnmarkAll(lines[1..])
  }

  lemma {:induction false} LinesOfRaw(text: string)
    ensures Lines(text) == UnmarkAll(RawLines(text))
    decreases |text|
  {
    hide StripReturn, Unmarked, FirstBreak;
    if text != "" { LinesOfRaw(AfterLine(text)); }
  }

  lemma {:induction false} UnmarkJoins(a: seq<string>, b: seq<string>)
    ensures UnmarkAll(a + b) == UnmarkAll(a) + UnmarkAll(b)
  {
    hide Unmarked;
    if a == [] {
      assert a + b == b;
    } else {
      UnmarkJoins(a[1..], b);
      assert (a + b)[1..] == a[1..] + b;
    }
  }

  /** The encoding of the file accepts whatever is encoded in it. */
  ghost predicate Accepts(decodes: seq<Byte> -> bool)
  {
    forall s: string :: decodes(EncodeText(s))
  }

  /** The bytes of a text are those of its first line, the end of the line, and those of what follows. */
  lemma FirstBytes(text: string)
    ensures var p, n := EncodeText(text), |EncodeText(text[..FirstBreak(text)])|;
            && n <= |p| && p[..n] == EncodeText(text[..FirstBreak(text)]) && FirstEnd([NEWLINE], p) == n
            && (n < |p| <==> FirstBreak(text) < |text|)
            && (n < |p| ==> p[n + 1..] == EncodeText(AfterLine(text)) && (p[n] == 0 || p[n] == NEWLINE))
  {
    hide Utf8.Encode, FirstEnd;
    var i := FirstBreak(text);
    var line := text[..i];
    assert Unbroken(line);
    NoBreakBytes(line);
    var p, n := EncodeText(text), |EncodeText(line)|;
    assert text == line + text[i..];
    EncodeJoins(line, text[i..]);
    assert p[..n] == EncodeText(line);
    if i < |text| {
      OneByte(text[i]);
      assert text[i..][1..] == text[i + 1..];
      assert p[n..] == [text[i] as int] + EncodeText(text[i + 1..]);
      assert p[n] == text[i] as int && p[n + 1..] == EncodeText(text[i + 1..]);
    } else {
      assert text[i..] == "" && p == EncodeText(line);
    }
    EndsAtBreak(p, n);
  }

  lemma SomeBytes(text: string)
    requires text != ""
    ensures EncodeText(text) != []
  {
    hide Utf8.Encode;
    OneByte(text[0]);
  }

  /** The first line of a text and what follows it are the promised line and rest of its bytes. */
  lemma FirstLineOfBytes(decodes: seq<Byte> -> bool, text: string)
    requires Accepts(decodes) && text != ""
    ensures var (promised, rest) := Promise(decodes, [NEWLINE], EncodeText(text));
            && promised.Text? && rest == EncodeText(AfterLine(text))
            && Strip(promised.bytes) == EncodeText(StripReturn(text[..FirstBreak(text)]))
  {
    hide FirstEnd, Strip, Accepts, FirstBreak, EncodeText, StripReturn;
    var line := text[..FirstBreak(text)];
    FirstBytes(text);
    SomeBytes(text);
    StripEncoded(line);
    AcceptsLine(decodes, line);
    var p, n := EncodeText(text), |EncodeText(line)|;
    EncodeNothing();
    if n == |p| { assert p[..n] == p; }
  }

  lemma AcceptsLine(decodes: seq<Byte> -> bool, line: string)
    requires Accepts(decodes)
    ensures decodes(EncodeText(line))
  {
  }

  // All lines of a file

  function EncodedLines(lines: seq<string>): seq<seq<Byte>>
  {
    if lines == [] then [] else [EncodeText(lines[0])] + EncodedLines(lines[1..])
  }

  lemma {:induction false} EncodedLinesJoin(a: seq<string>, b: seq<string>)
    ensures EncodedLines(a + b) == EncodedLines(a) + EncodedLines(b)
  {
    hide EncodeText;
    if a == [] {
      assert a + b == b;
    } else {
      EncodedLinesJoin(a[1..], b);
      assert (a + b)[1..] == a[1..] + b;
    }
  }

  lemma {:induction false} StripAllJoins(a: seq<seq<Byte>>, b: seq<seq<Byte>>)
    ensures StripAll(a + b) == StripAll(a) + StripAll(b)
  {
    hide Strip;
    if a == [] {
      assert a + b == b;
    } else {
      StripAllJoins(a[1..], b);
      assert (a + b)[1..] == a[1..] + b;
    }
  }

  lemma {:induction false} LinesPromised(decodes: seq<Byte> -> bool, text: string)
    requires Accepts(decodes)
    ensures var (texts, last) := PromisedTexts(decodes, [NEWLINE], EncodeText(text));
            StripAll(texts) == EncodedLines(RawLines(text)) && last == Nothing
    decreases |text|
  {
    hide Promise, Strip, Accepts, EncodeText;
    if text == "" {
      assert PromisedTexts(decodes, [NEWLINE], []) == ([], Nothing) by { NonePromised(decodes); }
      assert EncodeText("") == [] by { EncodeNothing(); }
    } else {
      FirstLineOfBytes(decodes, text);
      LinesPromised(decodes, AfterLine(text));
      NextPromised(decodes, [NEWLINE], EncodeText(text));
      var (r, rest) := Promise(decodes, [NEWLINE], EncodeText(text));
      var (texts, last) := PromisedTexts(decodes, [NEWLINE], rest);
      assert ([r.bytes] + texts)[1..] == texts;
    }
  }

  /** The lines of a file: those of its text, and one too many that is empty exactly as module StreamTexts says */
  ghost function LinesRead(page: PageSize, text: string, plan: seq<nat>): seq<string>
  {
    RawLines(text) + if OneTooMany(page, [NEWLINE], Low(EncodeText(text), 0, plan)) then [""] else []
  }

  lemma ReadsLines(page: PageSize, decodes: seq<Byte> -> bool, text: string, plan: seq<nat>)
    requires Accepts(decodes)
    ensures ReadLines(page, decodes, Fresh(EncodeText(text), plan)) ==
            (EncodedLines(LinesRead(page, text, plan)), Nothing)
  {
    hide Strip, Accepts, EncodeText, ReadLines, PromisedTexts, OneTooMany, RawLines;
    var f := (line: seq<Byte>) => decodes(Strip(line));
    AllLines(page, decodes, EncodeText(text), plan);
    StrippedAccepts(decodes, f);
    LinesPromised(f, text);
    assert f([]) by { AcceptsLine(f, ""); EncodeNothing(); }
    if OneTooMany(page, [NEWLINE], Low(EncodeText(text), 0, plan)) {
      StripAllJoins(PromisedTexts(f, [NEWLINE], EncodeText(text)).0, [[]]);
      EncodedLinesJoin(RawLines(text), [""]);
      EmptyLine();
    } else {
      assert RawLines(text) + [] == RawLines(text);
    }
  }

  lemma EmptyLine()
    ensures StripAll([[]]) == [[]] == EncodedLines([""])
  {
    assert [""][1..] == [];
  }

  lemma StrippedAccepts(decodes: seq<Byte> -> bool, f: seq<Byte> -> bool)
    requires Accepts(decodes) && forall line :: f(line) == decodes(Strip(line))
    ensures Accepts(f)
  {
    forall s: string ensures f(EncodeText(s)) {
      StripEncoded(s);
      AcceptsLine(decodes, StripReturn(s));
    }
  }

  /** A blank line at the end is skipped by the parser. */
  lemma {:induction false} BlankAtEnd(lines: seq<string>, categories: seq<Category>)
    ensures ParseFrom(lines + [""], categories) == ParseFrom(lines, categories)
    decreases |lines|
  {
    hide TakeLine;
    if lines == [] {
      assert [""][1..] == [];
    } else {
      assert (lines + [""])[1..] == lines[1..] + [""];
      if IsWhitespaceLine(lines[0]) {
        BlankAtEnd(lines[1..], categories);
      } else {
        var r := TakeLine(lines[0], categories);
        if r.Contents? { BlankAtEnd(lines[1..], r.categories); }
      }
    }
  }

  function Codes(s: string): (codes: seq<Utf8.Unichar>)
    ensures |codes| == |s|
  {
    if s == "" then [] else [s[0] as int] + Codes(s[1..])
  }

  /** The bytes of a text pass the check of module Utf8, and decode to its characters. */
  lemma {:induction false} TextDecodes(s: string)
    ensures EncodeText(s) == Utf8.EncodeAll(Codes(s)) && Utf8.AllCodes(Codes(s))
    ensures Utf8.Accepted(EncodeText(s)) && Utf8.DecodeAll(EncodeText(s)) == Codes(s)
  {
    hide Utf8.Encode, Utf8.Accepted, Utf8.DecodeAll, Utf8.Characters;
    if s != "" {
      TextDecodes(s[1..]);
      assert Codes(s)[1..] == Codes(s[1..]);
    }
    Utf8.EncodedIsAccepted(Codes(s));
  }

  /**
   * Main result: however the bytes of a text arrive, reading lines in UTF-8 until nothing comes gives the bytes of
   * all its lines, at most with an empty line too many; what is parsed from the strings made from them is what the
   * lines of the text are parsed to.
   */
  lemma ParsesAlike(page: PageSize, text: string, plan: seq<nat>, categories: seq<Category>)
    ensures ReadLines(page, bytes => Utf8.Accepted(bytes), Fresh(EncodeText(text), plan)) ==
            (EncodedLines(LinesRead(page, text, plan)), Nothing)
    ensures ParseFrom(UnmarkAll(LinesRead(page, text, plan)), categories) == ParseFrom(Lines(text), categories)
  {
    hide ReadLines, OneTooMany, RawLines, Lines, ParseFrom, Utf8.Accepted;
    var decodes := (bytes: seq<Byte>) => Utf8.Accepted(bytes);
    forall s: string ensures decodes(EncodeText(s)) { TextDecodes(s); }
    ReadsLines(page, decodes, text, plan);
    BlankAtEnd(Lines(text), categories);
    LinesOfRaw(text);
    UnmarkJoins(RawLines(text), [""]);
    assert UnmarkAll([""]) == [""] by { assert [""][1..] == []; }
    assert RawLines(text) + [] == RawLines(text);
  }
}
