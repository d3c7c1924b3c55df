// OFINICategory of src/OFINICategory.m: an ordered list of lines as a map from keys to lists of values.

module IniCategories {
  import opened IniStrings
  import opened Options

  datatype Line = Pair(key: string, value: string) | Comment(text: string)

  predicate Matches(line: Line, key: string)
  {
    line.Pair? && line.key == key
  }

  /** The values of a key, in order */
  function Values(lines: seq<Line>, key: string): seq<string>
  {
    if lines == [] then []
    else Values(lines[..|lines| - 1], key) + if Matches(lines[|lines| - 1], key) then [lines[|lines| - 1].value] else []
  }

  /** The lines of other keys and the comments, in order */
  function Others(lines: seq<Line>, key: string): (others: seq<Line>)
    ensures |others| <= |lines|
  {
    if lines == [] then []
    else Others(lines[..|lines| - 1], key) + if Matches(lines[|lines| - 1], key) then [] else [lines[|lines| - 1]]
  }

  function Pairs(key: string, values: seq<string>): (pairs: seq<Line>)
    ensures |pairs| == |values|
  {
    if values == [] then [] else Pairs(key, values[..|values| - 1]) + [Pair(key, values[|values| - 1])]
  }

  /** The first line of the key, or the end */
  function First(lines: seq<Line>, key: string): (i: nat)
    ensures i <= |lines| && (i < |lines| ==> Matches(lines[i], key))
    ensures forall j :: 0 <= j < i ==> !Matches(lines[j], key)
  {
    if lines == [] then 0
    else
      var i := First(lines[..|lines| - 1], key);
      if i < |lines| - 1 || Matches(lines[|lines| - 1], key) then i else |lines|
  }

  /** What `setString:forKey:` is to do */
  function WithString(lines: seq<Line>, key: string, value: string): seq<Line>
  {
    var i := First(lines, key);
    if i < |lines| then lines[i := Pair(key, value)] else lines + [Pair(key, value)]
  }

  /** What `setArray:forKey:` is to do, also with no values */
  function WithArray(lines: seq<Line>, key: string, values: seq<string>): seq<Line>
  {
    var i := First(lines, key);
    lines[..i] + Pairs(key, values) + Others(lines[i..], key)
  }

  lemma OneMore(lines: seq<Line>, line: Line, key: string)
    ensures Values(lines + [line], key) == Values(lines, key) + if Matches(line, key) then [line.value] else []
    ensures Others(lines + [line], key) == Others(lines, key) + if Matches(line, key) then [] else [line]
  {
    hide Matches;
    assert (lines + [line])[..|lines|] == lines;
  }

  lemma Joins<T>(a: seq<T>, b: seq<T>, c: seq<T>)
    ensures a + b + c == a + (b + c)
  {
  }

  lemma {:induction false} ValuesJoin(a: seq<Line>, b: seq<Line>, key: string)
    ensures Values(a + b, key) == Values(a, key) + Values(b, key)
    ensures Others(a + b, key) == Others(a, key) + Others(b, key)
  {
    hide Values, Others;
    if b == [] {
      assert a + b == a;
      NoMatches([], key);
    } else {
      var n := |b| - 1;
      var front, line := b[..n], b[n];
      ValuesJoin(a, front, key);
      OneMore(front, line, key);
      OneMore(a + front, line, key);
      assert b == front + [line];
      Joins(a, front, [line]);
      Joins(Values(a, key), Values(front, key), if Matches(line, key) then [line.value] else []);
      Joins(Others(a, key), Others(front, key), if Matches(line, key) then [] else [line]);
    }
  }

  lemma OneLine(line: Line, key: string)
    ensures Values([line], key) == if Matches(line, key) then [line.value] else []
    ensures Others([line], key) == if Matches(line, key) then [] else [line]
  {
    assert [line][..0] == [];
  }

  lemma OthersStep(rest: seq<Line>, key: string)
    requires rest != []
    ensures Others(rest, key) == (if Matches(rest[0], key) then [] else [rest[0]]) + Others(rest[1..], key)
  {
    assert rest == [rest[0]] + rest[1..];
    ValuesJoin([rest[0]], rest[1..], key);
    OneLine(rest[0], key);
  }

  lemma {:induction false} NoMatches(lines: seq<Line>, key: string)
    requires forall j :: 0 <= j < |lines| ==> !Matches(lines[j], key)
    ensures Values(lines, key) == [] && Others(lines, key) == lines
  {
    if lines != [] { NoMatches(lines[..|lines| - 1], key); }
  }

  lemma {:induction false} OthersDoNotMatch(lines: seq<Line>, key: string)
    ensures forall j :: 0 <= j < |Others(lines, key)| ==> !Matches(Others(lines, key)[j], key)
  {
    if lines != [] { OthersDoNotMatch(lines[..|lines| - 1], key); }
  }

  lemma {:induction false} ValuesOfPairs(key: string, values: seq<string>, other: string)
    ensures Values(Pairs(key, values), other) == if key == other then values else []
    ensures Others(Pairs(key, values), key) == []
  {
    hide Values, Others;
    if values != [] {
      var n := |values| - 1;
      ValuesOfPairs(key, values[..n], other);
      ValuesJoin(Pairs(key, values[..n]), [Pair(key, values[n])], other);
      ValuesJoin(Pairs(key, values[..n]), [Pair(key, values[n])], key);
      OneLine(Pair(key, values[n]), other);
      OneLine(Pair(key, values[n]), key);
      assert values == values[..n] + [values[n]];
    } else {
      NoMatches([], key);
      NoMatches([], other);
    }
  }

  lemma {:induction false} OthersKeepValues(lines: seq<Line>, key: string, other: string)
    requires key != other
    ensures Values(Others(lines, key), other) == Values(lines, other)
  {
    assert lines != [] && Matches(lines[|lines| - 1], key) ==> !Matches(lines[|lines| - 1], other);
    hide Matches;
    if lines != [] {
      var n := |lines| - 1;
      OthersKeepValues(lines[..n], key, other);
      ValuesJoin(Others(lines[..n], key), [lines[n]], other);
      OneLine(lines[n], other);
      if Matches(lines[n], key) {
        assert Others(lines, key) == Others(lines[..n], key);
        assert Values(lines, other) == Values(lines[..n], other);
      }
    }
  }

  lemma AtFirst(lines: seq<Line>, key: string)
    ensures var i := First(lines, key);
            && Values(lines, key) == Values(lines[i..], key) && Others(lines, key) ==
              lines[..i] + Others(lines[i..], key)
  {
    hide Values, Others;
    var i := First(lines, key);
    NoMatches(lines[..i], key);
    ValuesJoin(lines[..i], lines[i..], key);
    assert lines == lines[..i] + lines[i..];
    assert [] + Values(lines[i..], key) == Values(lines[i..], key);
  }

  /** After an array was set for a key, the key has that array, other keys have what they had, and all
      other lines keep content and order. */
  lemma ArrayLaws(lines: seq<Line>, key: string, values: seq<string>, other: string)
    ensures var n := WithArray(lines, key, values);
            && Values(n, key) == values
            && Others(n, key) == Others(lines, key)
            && (other != key ==> Values(n, other) == Values(lines, other))
  {
    hide Values, Others, Pairs, First;
    var i := First(lines, key);
    var head, pairs, tail := lines[..i], Pairs(key, values), Others(lines[i..], key);
    AtFirst(lines, key);
    NoMatches(head, key);
    OthersDoNotMatch(lines[i..], key);
    NoMatches(tail, key);
    ValuesOfPairs(key, values, key);
    ValuesJoin(head, pairs, key);
    ValuesJoin(head + pairs, tail, key);
    if other != key {
      ValuesOfPairs(key, values, other);
      OthersKeepValues(lines[i..], key, other);
      ValuesJoin(head, pairs, other);
      ValuesJoin(head + pairs, tail, other);
      ValuesJoin(head, lines[i..], other);
      assert lines == head + lines[i..];
    }
  }

  /** Setting a string changes the first value of the key, or is its first value, and nothing else. */
  lemma StringLaws(lines: seq<Line>, key: string, value: string, other: string)
    ensures var n := WithString(lines, key, value);
            && Values(n, key) == [value] + (if Values(lines, key) == [] then [] else Values(lines, key)[1..])
            && Others(n, key) == Others(lines, key)
            && (other != key ==> Values(n, other) == Values(lines, other))
  {
    hide Values, Others, Pairs, First;
    var i := First(lines, key);
    var n := WithString(lines, key, value);
    AtFirst(lines, key);
    if i < |lines| {
      var head, tail := lines[..i], lines[i + 1..];
      assert lines == head + [lines[i]] + tail && n == head + [Pair(key, value)] + tail;
      SplitAt(head, lines[i], tail, key);
      SplitAt(head, Pair(key, value), tail, key);
      SplitAt(head, lines[i], tail, other);
      SplitAt(head, Pair(key, value), tail, other);
      NoMatches(head, key);
    } else {
      NoMatches(lines, key);
      ValuesJoin(lines, [Pair(key, value)], key);
      ValuesJoin(lines, [Pair(key, value)], other);
      OneLine(Pair(key, value), key);
      OneLine(Pair(key, value), other);
    }
  }

  lemma SplitAt(head: seq<Line>, line: Line, tail: seq<Line>, key: string)
    ensures Values(head + [line] + tail, key) == Values(head, key) + (if Matches(line, key) then [line.value] else [])
      + Values(tail, key)
    ensures Others(head + [line] + tail, key) == Others(head, key) + (if Matches(line, key) then [] else [line])
      + Others(tail, key)
  {
    ValuesJoin(head, [line], key);
    ValuesJoin(head + [line], tail, key);
    OneLine(line, key);
  }

  /** The array goes to the first line of the key, or to the end. */
  lemma ArrayAt(lines: seq<Line>, key: string, values: seq<string>, i: nat)
    requires i <= |lines| && (i < |lines| ==> Matches(lines[i], key)) && forall j :: 0 <= j < i ==>
      !Matches(lines[j], key)
    ensures WithArray(lines, key, values) ==
            if i < |lines| then lines[..i] + Pairs(key, values) + Others(lines[i + 1..], key)
            else lines + Pairs(key, values)
  {
    hide Others, Pairs, First;
    assert First(lines, key) == i;
    if i < |lines| {
      OthersStep(lines[i..], key);
      assert lines[i..][1..] == lines[i + 1..];
    } else {
      assert lines[..i] == lines && lines[i..] == [];
      NoMatches([], key);
    }
  }

  // Lines of a file

  datatype Parse = Parsed(line: Line) | InvalidFormat | OutOfRange

  function FirstEquals(s: string): (i: nat)
    ensures i <= |s| && '=' !in s[..i] && (i < |s| ==> s[i] == '=')
  {
    if s == "" then 0 else if s[0] == '=' then 0 else 1 + FirstEquals(s[1..])
  }

  /** `of_parseLine:` */
  function ParseLine(line: string): Parse
  {
    if line != "" && line[0] == ';' then Parsed(Comment(line))
    else
      var pos := FirstEquals(line);
      if pos >= |line| then InvalidFormat
      else
        match (Unescape(Trim(Unmarked(line[..pos]))), Unescape(Trim(Unmarked(line[pos + 1..]))))
        case (Some(key), Some(value)) => Parsed(Pair(key, value))
        case _ => OutOfRange
  }

  /** A line as `of_writeToStream:encoding:first:` writes it */
  function Written(line: Line): string
  {
    match line
    case Comment(text) => text
    case Pair(key, value) => Escape(key) + "=" + Escape(value)
  }

  lemma {:induction false} AbsentByReplace(s: string, p: string, r: string, c: char)
    requires p != "" && c !in r && c !in s
    ensures c !in Replace(s, p, r)
    decreases |s|
  {
    if |s| >= |p| {
      if s[..|p|] == p { AbsentByReplace(s[|p|..], p, r, c); } else { AbsentByReplace(s[1..], p, r, c); }
    }
  }

  /** Unescaping makes no other characters than those that have escapes. */
  lemma AbsentByUnescape(s: string, c: char)
    requires c !in s && Unescape(s).Some? && c !in [FF, '\r', '\n', '"', '\\']
    ensures c !in Unescape(s).value
  {
    if s != "" && s[0] == '"' && s[|s| - 1] == '"' {
      var t0 := Unmarked(s[1..|s| - 1]);
      var t1 := Replace(t0, "\\f", [FF]);
      var t2 := Replace(t1, "\\r", "\r");
      var t3 := Replace(t2, "\\n", "\n");
      var t4 := Replace(t3, "\\\"", "\"");
      AbsentByReplace(t0, "\\f", [FF], c);
      AbsentByReplace(t1, "\\r", "\r", c);
      AbsentByReplace(t2, "\\n", "\n", c);
      AbsentByReplace(t3, "\\\"", "\"", c);
      AbsentByReplace(t4, "\\\\", "\\", c);
    }
  }

  lemma {:induction false} EqualsThroughCodes(s: string)
    ensures '=' in Codes(0, s) <==> '=' in s
  {
    if s != "" {
      EqualsThroughCodes(s[1..]);
      assert '=' in Code(0, s[0]) <==> s[0] == '=';
      assert s == [s[0]] + s[1..];
    }
  }

  lemma EqualsThroughEscape(s: string)
    ensures '=' in Escape(s) <==> '=' in s
  {
    InnerIsCodes(s);
    EqualsThroughCodes(s);
  }

  lemma {:induction false} FirstEqualsIs(a: string, b: string)
    requires '=' !in a
    ensures FirstEquals(a + "=" + b) == |a|
  {
    if a != "" {
      FirstEqualsIs(a[1..], b);
      assert (a + "=" + b)[1..] == a[1..] + "=" + b;
    }
  }

  /** A line of a category comes back from the file if and only if its key has no equals sign, does not
      begin like a comment, and both strings survive. */
  predicate LineSurvives(line: Line)
  {
    match line
    case Comment(text) => text != "" && text[0] == ';'
    case Pair(key, value) =>
      && '=' !in key && !(key != "" && key[0] == ';' && !NeedsQuotes(key))
      && Survives(key) && Survives(value)
  }

  lemma LineSurvivesIff(line: Line)
    ensures ParseLine(Written(line)) == Parsed(line) <==> LineSurvives(line)
  {
    hide Unescape, Trim, Escape, Survives, NeedsQuotes, FirstEquals;
    match line {
      case Comment(text) =>
      case Pair(key, value) => PairSurvivesIff(key, value);
    }
  }

  lemma BeginsLikeComment(key: string, value: string)
    ensures Written(Pair(key, value)) != ""
    ensures Written(Pair(key, value))[0] == ';' <==> key != "" && key[0] == ';' && !NeedsQuotes(key)
  {
    hide Inner;
  }

  lemma PairSurvivesIff(key: string, value: string)
    ensures ParseLine(Written(Pair(key, value))) == Parsed(Pair(key, value)) <==> LineSurvives(Pair(key, value))
  {
    var s := Written(Pair(key, value));
    BeginsLikeComment(key, value);
    SurvivesIff(key);
    SurvivesIff(value);
    EqualsThroughEscape(key);
    hide Unescape, Trim, Escape, Survives, NeedsQuotes, FirstEquals;
    if s[0] != ';' {
      var pos := FirstEquals(s);
      if '=' in key {
        var t := Trim(Unmarked(s[..pos]));
        if Unescape(t).Some? { AbsentByUnescape(t, '='); }
      } else {
        FirstEqualsIs(Escape(key), Escape(value));
        assert s[..pos] == Escape(key) && s[pos + 1..] == Escape(value);
      }
    }
  }

  function LinesText(lines: seq<Line>): string
  {
    if lines == [] then "" else Written(lines[0]) + "\r\n" + LinesText(lines[1..])
  }

  /** A category without lines is not written. */
  function Section(name: string, lines: seq<Line>, first: bool): string
  {
    if lines == [] then ""
    else (if first then "" else "\r\n") + ("[" + name + "]" + "\r\n" + LinesText(lines))
  }

  lemma Associates<T>(a: seq<T>, b: seq<T>, c: seq<T>)
    ensures (a + b) + c == a + (b + c)
  {
  }

  lemma SectionIs(name: string, lines: seq<Line>, first: bool)
    ensures Section(name, lines, first) ==
            if lines == [] then ""
            else ((if first then "" else "\r\n") + ("[" + name + "]" + "\r\n")) + LinesText(lines)
  {
    hide LinesText;
    Associates("[" + name + "]", "\r\n", LinesText(lines));
    Associates(if first then "" else "\r\n", "[" + name + "]" + "\r\n", LinesText(lines));
  }

  lemma NoLinesText()
    ensures LinesText([]) == ""
  {
  }

  lemma {:induction false} OneMoreText(lines: seq<Line>, line: Line)
    ensures LinesText(lines + [line]) == LinesText(lines) + (Written(line) + "\r\n")
  {
    hide Written;
    if lines == [] {
      assert [] + [line] == [line] && [line][1..] == [];
      NoLinesText();
    } else {
      OneMoreText(lines[1..], line);
      assert (lines + [line])[1..] == lines[1..] + [line];
    }
  }

  class OFINICategory {
    const name: string
    var lines: seq<Line>

    constructor (name: string)
      ensures this.name == name && lines == []
    {
      this.name, lines := name, [];
    }

    /** `of_writeToStream:encoding:first:`: what it writes, and whether it writes anything */
    method WriteToStream(first: bool) returns (text: string, written: bool)
      ensures text == Section(name, lines, first) && (written <==> lines != [])
    {
      hide Written, LinesText, Section;
      SectionIs(name, lines, first);
      if |lines| == 0 { return "", false; }
      text := (if first then "" else "\r\n") + ("[" + name + "]" + "\r\n");
      ghost var head := text;
      NoLinesText();
      assert lines[..0] == [] && head + "" == head;
      var i := 0;
      while i < |lines|
        invariant 0 <= i <= |lines| && text == head + LinesText(lines[..i])
      {
        OneMoreText(lines[..i], lines[i]);
        assert lines[..i + 1] == lines[..i] + [lines[i]];
        Associates(head, LinesText(lines[..i]), Written(lines[i]) + "\r\n");
        text := text + (Written(lines[i]) + "\r\n");
        i := i + 1;
      }
      assert lines[..i] == lines;
      return text, true;
    }

    method ParseLineInto(line: string) returns (result: Parse)
      modifies this
      ensures result == ParseLine(line)
      ensures lines == if result.Parsed? then old(lines) + [result.line] else old(lines)
    {
      result := ParseLine(line);
      if result.Parsed? { lines := lines + [result.line]; }
    }

    /** `stringForKey:defaultValue:` */
    method StringForKey(key: string, defaultValue: Option<string>) returns (r: Option<string>)
      ensures r == if Values(lines, key) == [] then defaultValue else Some(Values(lines, key)[0])
    {
      hide Values;
      var i := 0;
      NoMatches(lines[..0], key);
      while i < |lines|
        invariant 0 <= i <= |lines| && Values(lines[..i], key) == []
      {
        assert lines == lines[..i] + [lines[i]] + lines[i + 1..];
        SplitAt(lines[..i], lines[i], lines[i + 1..], key);
        ValuesJoin(lines[..i], [lines[i]], key);
        OneLine(lines[i], key);
        assert lines[..i] + [lines[i]] == lines[..i + 1];
        if lines[i].Pair? && lines[i].key == key { return Some(lines[i].value); }
        i := i + 1;
      }
      assert lines[..i] == lines;
      return defaultValue;
    }

    method ArrayForKey(key: string) returns (ret: seq<string>)
      ensures ret == Values(lines, key)
    {
      ret := [];
      var i := 0;
      while i < |lines|
        invariant 0 <= i <= |lines| && ret == Values(lines[..i], key)
      {
        assert lines[..i + 1][..i] == lines[..i];
        if lines[i].Pair? && lines[i].key == key { ret := ret + [lines[i].value]; }
        i := i + 1;
      }
      assert lines[..i] == lines;
    }

    method SetString(string': string, key: string)
      modifies this
      ensures lines == WithString(old(lines), key, string')
    {
      var i := 0;
      while i < |lines|
        invariant 0 <= i <= |lines| && lines == old(lines)
        invariant forall j :: 0 <= j < i ==> !Matches(lines[j], key)
      {
        if lines[i].Pair? && lines[i].key == key {
          lines := lines[i := Pair(key, string')];
          return;
        }
        i := i + 1;
      }
      lines := lines + [Pair(key, string')];
    }

    /** `removeObjectAtIndex:` of the array */
    method RemoveObjectAt(i: nat)
      requires i < |lines|
      modifies this
      ensures |lines| == |old(lines)| - 1 && lines[..i] == old(lines)[..i] && lines[i..] == old(lines)[i + 1..]
    {
      lines := lines[..i] + lines[i + 1..];
    }

    /** `insertObjectsFromArray:atIndex:` of the array */
    method InsertObjects(pairs: seq<Line>, i: nat)
      requires i <= |lines|
      modifies this
      ensures |lines| == |old(lines)| + |pairs|
      ensures lines[..i + |pairs|] == old(lines)[..i] + pairs && lines[i + |pairs|..] == old(lines)[i..]
    {
      lines := lines[..i] + pairs + lines[i..];
    }

    method RemoveValueForKey(key: string)
      modifies this
      ensures lines == Others(old(lines), key)
    {
      hide Others;
      ghost var target := Others(lines, key);
      var i := 0;
      assert lines[0..] == lines;
      while i < |lines|
        invariant 0 <= i <= |lines| && target == lines[..i] + Others(lines[i..], key)
        decreases |lines| - i
      {
        OthersStep(lines[i..], key);
        assert lines[i..][1..] == lines[i + 1..] && lines[i..][0] == lines[i];
        if lines[i].Pair? && lines[i].key == key {
          RemoveObjectAt(i);
        } else {
          assert lines[..i + 1] == lines[..i] + [lines[i]];
          i := i + 1;
        }
      }
      NoMatches([], key);
    }

    /** What the loop of `setArray:forKey:` keeps: nothing was replaced yet, or the lines from `i` on are
        all that is left to do. */
    ghost predicate Replacing(was: seq<Line>, key: string, array': seq<string>, i: nat, replaced: bool)
      reads this
    {
      && i <= |lines|
      && if replaced then WithArray(was, key, array') == lines[..i] + Others(lines[i..], key)
         else lines == was && forall j :: 0 <= j < i ==> !Matches(lines[j], key)
    }

    /** One turn of the loop of `setArray:forKey:`; it goes on behind the pairs that it puts. */
    method ReplaceTurn(key: string, pairs: seq<Line>, i: nat, replaced: bool, ghost was: seq<Line>,
        ghost array': seq<string>)
        returns (i': nat, replaced': bool)
      requires Replacing(was, key, array', i, replaced) && i < |lines| && pairs == Pairs(key, array')
      modifies this
      ensures Replacing(was, key, array', i', replaced') && (replaced ==> replaced')
      ensures replaced' == replaced ==> |lines| - i' < |old(lines)| - i
    {
      hide Others, Pairs, First, WithArray;
      OthersStep(lines[i..], key);
      assert lines[i..][1..] == lines[i + 1..] && lines[i..][0] == lines[i];
      if lines[i].Pair? && lines[i].key == key {
        if !replaced { ArrayAt(lines, key, array', i); }
        RemoveObjectAt(i);
        if replaced { return i, true; }
        InsertObjects(pairs, i);
        return i + |pairs|, true;
      }
      assert lines[..i + 1] == lines[..i] + [lines[i]];
      return i + 1, replaced;
    }

    method SetArray(array': seq<string>, key: string)
      modifies this
      ensures lines == WithArray(old(lines), key, array')
    {
      if |array'| == 0 {
        AtFirst(lines, key);
        assert Pairs(key, array') == [];
        RemoveValueForKey(key);
        return;
      }
      hide Others, Pairs, First, WithArray;
      var pairs := Pairs(key, array');
      var replaced := false;
      var i: nat := 0;
      while i < |lines|
        invariant Replacing(old(lines), key, array', i, replaced)
        decreases if replaced then 0 else 1, |lines| - i
      {
        i, replaced := ReplaceTurn(key, pairs, i, replaced, old(lines), array');
      }
      NoMatches([], key);
      if !replaced {
        ArrayAt(lines, key, array', i);
        lines := lines + pairs;
      }
    }
  }
}
