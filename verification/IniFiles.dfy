// OFINIFile of src/OFINIFile.m: categories written to a file and read back from it. Text is what the
// encoding of the file gives; lines end as the reading of lines in module Streams has it.

module IniFiles {
  import opened IniCategories
  import opened IniStrings
  import opened Options

  datatype Category = Category(name: string, lines: seq<Line>)

  datatype FileResult = Contents(categories: seq<Category>) | BadFormat | BadRange

  // Reading

  predicate Breaks(c: char)
  {
    c == '\n' || c == '\0'
  }

  function FirstBreak(s: string): (i: nat)
    ensures i <= |s| && (i < |s| ==> Breaks(s[i]))
    ensures forall j :: 0 <= j < i ==> !Breaks(s[j])
  {
    if s == "" || Breaks(s[0]) then 0 else 1 + FirstBreak(s[1..])
  }

  /** A line without the carriage return before its end */
  function StripReturn(line: string): (s: string)
    ensures s <= line
  {
    if line != "" && line[|line| - 1] == '\r' then line[..|line| - 1] else line
  }

  /** What repeated `readLineWithEncoding:` gives */
  function Lines(text: string): seq<string>
    decreases |text|
  {
    if text == "" then []
    else
      var i := FirstBreak(text);
      [Unmarked(StripReturn(text[..i]))] + if i < |text| then Lines(text[i + 1..]) else []
  }

  predicate IsWhitespaceLine(line: string)
  {
    forall i :: 0 <= i < |line| ==> IsSpace(line[i])
  }

  function AddLine(categories: seq<Category>, line: Line): seq<Category>
    requires categories != []
  {
    var n := |categories| - 1;
    categories[n := Category(categories[n].name, categories[n].lines + [line])]
  }

  /** What one line that is not blank does to the categories so far */
  function TakeLine(line: string, categories: seq<Category>): FileResult
    requires line != ""
  {
    if line[0] == '[' then
      if line[|line| - 1] != ']' then BadFormat
      else Contents(categories + [Category(Unmarked(line[1..|line| - 1]), [])])
    else if categories == [] then BadFormat
    else
      match ParseLine(line)
      case Parsed(l) => Contents(AddLine(categories, l))
      case InvalidFormat => BadFormat
      case OutOfRange => BadRange
  }

  /** The loop of `of_parseFile:encoding:` */
  function ParseFrom(lines: seq<string>, categories: seq<Category>): FileResult
    decreases |lines|
  {
    if lines == [] then Contents(categories)
    else if IsWhitespaceLine(lines[0]) then ParseFrom(lines[1..], categories)
    else
      var r := TakeLine(lines[0], categories);
      if r.Contents? then ParseFrom(lines[1..], r.categories) else r
  }

  // Writing

  function CategoryText(category: Category, first: bool): string
  {
    Section(category.name, category.lines, first)
  }

  /** `writeToFile:encoding:` */
  function FileText(categories: seq<Category>, first: bool): string
  {
    if categories == [] then ""
    else CategoryText(categories[0], first) + FileText(categories[1..], first && categories[0].lines == [])
  }

  // Both as a list of headers and lines

  datatype Item = Header(name: string) | Entry(line: Line)

  function Entries(lines: seq<Line>): (items: seq<Item>)
    ensures |items| == |lines| && forall i :: 0 <= i < |lines| ==> items[i] == Entry(lines[i])
  {
    if lines == [] then [] else [Entry(lines[0])] + Entries(lines[1..])
  }

  function Flat(categories: seq<Category>): seq<Item>
  {
    if categories == [] then []
    else
      var last := categories[|categories| - 1];
      Flat(categories[..|categories| - 1]) + ([Header(last.name)] + Entries(last.lines))
  }

  function Raw(item: Item): string
  {
    match item
    case Header(name) => "[" + name + "]"
    case Entry(line) => Written(line)
  }

  function ItemsText(items: seq<Item>, first: bool): string
  {
    if items == [] then ""
    else
      (if items[0].Header? && !first then "\r\n" else "") + (Raw(items[0]) + "\r\n" + ItemsText(items[1..], false))
  }

  /** What the file can hold */
  function WithLines(categories: seq<Category>): seq<Category>
  {
    if categories == [] then []
    else (if categories[0].lines == [] then [] else [categories[0]]) + WithLines(categories[1..])
  }

  lemma FlatLast(a: seq<Category>, c: Category)
    ensures Flat(a + [c]) == Flat(a) + ([Header(c.name)] + Entries(c.lines))
  {
    assert (a + [c])[..|a|] == a;
  }

  lemma OneMoreEntry(lines: seq<Line>, line: Line)
    ensures Entries(lines + [line]) == Entries(lines) + [Entry(line)]
  {
  }

  /** Each line adds one item. */
  lemma FlatGrows(categories: seq<Category>, name: string, line: Line)
    ensures Flat(categories + [Category(name, [])]) == Flat(categories) + [Header(name)]
    ensures categories != [] ==> Flat(AddLine(categories, line)) == Flat(categories) + [Entry(line)]
  {
    hide Flat, Entries;
    FlatLast(categories, Category(name, []));
    assert Entries([]) == [];
    if categories != [] {
      var n := |categories| - 1;
      var was := categories[n];
      var more := Category(was.name, was.lines + [line]);
      assert AddLine(categories, line) == categories[..n] + [more] && categories == categories[..n] + [was];
      FlatLast(categories[..n], more);
      FlatLast(categories[..n], was);
      OneMoreEntry(was.lines, line);
      Associates(Flat(categories[..n]), [Header(was.name)] + Entries(was.lines), [Entry(line)]);
    }
  }

  lemma LastHeader(a: seq<Item>, m: string, k: seq<Line>, b: seq<Item>, n: string, l: seq<Line>)
    requires a + ([Header(m)] + Entries(k)) == b + ([Header(n)] + Entries(l))
    ensures a == b && m == n && k == l
  {
    var x, y := a + ([Header(m)] + Entries(k)), b + ([Header(n)] + Entries(l));
    assert |x| == |a| + 1 + |k| && |y| == |b| + 1 + |l|;
    assert x[|a|] == Header(m) && y[|b|] == Header(n);
    assert forall i :: |a| < i < |x| ==> x[i].Entry?;
    assert forall i :: |b| < i < |y| ==> y[i].Entry?;
    assert a == x[..|a|] && b == y[..|a|];
    forall i | 0 <= i < |k| ensures k[i] == l[i] {
      assert x[|a| + 1 + i] == Entries(k)[i] && y[|a| + 1 + i] == Entries(l)[i];
    }
  }

  /** The last header is where the last category begins. */
  lemma {:induction false} FlatInjective(a: seq<Category>, b: seq<Category>)
    requires Flat(a) == Flat(b)
    ensures a == b
    decreases |a|
  {
    hide Entries;
    if a != [] && b != [] {
      var m, n := |a| - 1, |b| - 1;
      LastHeader(Flat(a[..m]), a[m].name, a[m].lines, Flat(b[..n]), b[n].name, b[n].lines);
      FlatInjective(a[..m], b[..n]);
      assert a == a[..m] + [a[m]] && b == b[..n] + [b[n]];
    }
  }

  // What is written, item by item

  lemma {:induction false} ItemsTextJoins(a: seq<Item>, b: seq<Item>, first: bool)
    ensures ItemsText(a + b, first) == ItemsText(a, first) + ItemsText(b, first && a == [])
    decreases |a|
  {
    hide Raw;
    if a == [] {
      assert a + b == b;
    } else {
      ItemsTextJoins(a[1..], b, false);
      assert (a + b)[1..] == a[1..] + b;
      var sep, raw := if a[0].Header? && !first then "\r\n" else "", Raw(a[0]) + "\r\n";
      FourParts(sep, raw, ItemsText(a[1..], false), ItemsText(b, false));
    }
  }

  lemma FourParts(a: string, b: string, c: string, d: string)
    ensures a + (b + (c + d)) == (a + (b + c)) + d
  {
  }

  lemma {:induction false} LinesTextIs(lines: seq<Line>, first: bool)
    ensures LinesText(lines) == ItemsText(Entries(lines), first)
    decreases |lines|
  {
    hide Raw, Written;
    if lines != [] {
      LinesTextIs(lines[1..], false);
      assert Entries(lines)[1..] == Entries(lines[1..]);
      RawOfEntry(lines[0]);
    }
  }

  lemma RawOfEntry(line: Line)
    ensures Raw(Entry(line)) == Written(line)
  {
  }

  lemma {:induction false} FlatFirst(c: Category, rest: seq<Category>)
    ensures Flat([c] + rest) == ([Header(c.name)] + Entries(c.lines)) + Flat(rest)
    decreases |rest|
  {
    hide Entries;
    if rest == [] {
      FlatLast([], c);
      assert [c] + rest == [] + [c];
    } else {
      var n := |rest| - 1;
      FlatFirst(c, rest[..n]);
      assert [c] + rest == ([c] + rest[..n]) + [rest[n]];
      FlatLast([c] + rest[..n], rest[n]);
      Associates([Header(c.name)] + Entries(c.lines), Flat(rest[..n]), [Header(rest[n].name)] + Entries(rest[n].lines));
    }
  }

  lemma CategoryTextIs(c: Category, first: bool)
    requires c.lines != []
    ensures CategoryText(c, first) == ItemsText([Header(c.name)] + Entries(c.lines), first)
  {
    LinesTextIs(c.lines, false);
    hide Entries, LinesText, Written;
    var items := [Header(c.name)] + Entries(c.lines);
    assert items[1..] == Entries(c.lines) && items[0] == Header(c.name);
  }

  lemma {:induction false} FileTextIs(categories: seq<Category>, first: bool)
    ensures FileText(categories, first) == ItemsText(Flat(WithLines(categories)), first)
    decreases |categories|
  {
    hide CategoryText, Flat, Entries, ItemsText;
    if categories == [] {
      NoText(first);
    } else {
      var c, rest := categories[0], categories[1..];
      FileTextIs(rest, first && c.lines == []);
      if c.lines == [] {
        NoCategoryText(c, first);
      } else {
        CategoryTextIs(c, first);
        FlatFirst(c, WithLines(rest));
        ItemsTextJoins([Header(c.name)] + Entries(c.lines), Flat(WithLines(rest)), first);
      }
    }
  }

  lemma NoText(first: bool)
    ensures ItemsText(Flat([]), first) == ""
  {
  }

  lemma NoCategoryText(c: Category, first: bool)
    requires c.lines == []
    ensures CategoryText(c, first) == ""
    ensures forall text: string :: "" + text == text
    ensures forall cs: seq<Category> :: [] + cs == cs
  {
  }

  // What is read, line by line

  predicate Unbroken(s: string)
  {
    forall i :: 0 <= i < |s| ==> !Breaks(s[i])
  }

  lemma {:induction false} BreakAt(t: string, rest: string)
    requires Unbroken(t) && (rest != "" ==> Breaks(rest[0]))
    ensures FirstBreak(t + rest) == |t|
  {
    if t == "" {
      assert t + rest == rest;
    } else {
      assert (t + rest)[1..] == t[1..] + rest;
      BreakAt(t[1..], rest);
    }
  }

  lemma LineThen(t: string, rest: string)
    requires Unbroken(t)
    ensures Lines(t + "\r\n" + rest) == [Unmarked(t)] + Lines(rest)
  {
    var text := t + "\r\n" + rest;
    assert text == (t + "\r") + ("\n" + rest);
    BreakAt(t + "\r", "\n" + rest);
    assert text[..|t| + 1] == t + "\r" && text[|t| + 2..] == rest;
  }

  lemma {:induction false} LinesAreUnbroken(text: string)
    ensures forall k :: 0 <= k < |Lines(text)| ==> Unbroken(Lines(text)[k])
    decreases |text|
  {
    hide Unmarked, StripReturn, FirstBreak, Unbroken;
    if text != "" {
      var i := FirstBreak(text);
      FirstIsUnbroken(text);
      if i < |text| { LinesAreUnbroken(text[i + 1..]); }
    }
  }

  lemma FirstIsUnbroken(text: string)
    ensures Unbroken(Unmarked(StripReturn(text[..FirstBreak(text)])))
  {
  }

  /** What a line that is not blank means */
  function LineItem(line: string): Option<Item>
    requires line != ""
  {
    if line[0] == '[' then
      if line[|line| - 1] != ']' then None else Some(Header(Unmarked(line[1..|line| - 1])))
    else
      match ParseLine(line)
      case Parsed(l) => Some(Entry(l))
      case _ => None
  }

  lemma TakesItem(line: string, categories: seq<Category>)
    requires line != ""
    ensures var r := TakeLine(line, categories);
            && (r.Contents? ==> LineItem(line).Some? && Flat(r.categories) == Flat(categories) + [LineItem(line).value])
            && (LineItem(line).Some? && (categories != [] || LineItem(line).value.Header?) ==> r.Contents?)
            && (r.Contents? ==> r.categories != [])
  {
    hide Flat, ParseLine;
    var r := TakeLine(line, categories);
    if r.Contents? {
      if line[0] == '[' {
        FlatGrows(categories, Unmarked(line[1..|line| - 1]), Comment(""));
      } else {
        FlatGrows(categories, "", ParseLine(line).line);
      }
    }
  }

  lemma {:induction false} OnlyMore(lines: seq<string>, categories: seq<Category>)
    ensures var r := ParseFrom(lines, categories);
            r.Contents? ==> Flat(categories) <= Flat(r.categories)
    decreases |lines|
  {
    hide Flat, TakeLine, IsWhitespaceLine, LineItem;
    if lines != [] {
      if IsWhitespaceLine(lines[0]) {
        OnlyMore(lines[1..], categories);
      } else {
        Nonblank(lines[0]);
        TakesItem(lines[0], categories);
        var r := TakeLine(lines[0], categories);
        if r.Contents? { OnlyMore(lines[1..], r.categories); }
      }
    }
  }

  lemma Nonblank(line: string)
    ensures !IsWhitespaceLine(line) ==> line != ""
  {
  }

  /** The first line that is not blank gives the next item. */
  lemma NextItem(line: string, lines: seq<string>, categories: seq<Category>)
    requires !IsWhitespaceLine(line)
    ensures line != ""
    ensures var r := ParseFrom([line] + lines, categories);
            r.Contents? ==>
              && LineItem(line).Some? && |Flat(categories)| < |Flat(r.categories)|
              && Flat(r.categories)[|Flat(categories)|] == LineItem(line).value
  {
    hide Flat, TakeLine, IsWhitespaceLine, LineItem;
    Nonblank(line);
    TakesItem(line, categories);
    var r := TakeLine(line, categories);
    assert ([line] + lines)[1..] == lines;
    if r.Contents? { OnlyMore(lines, r.categories); }
  }

  /** What reading can give at all */
  predicate Readable(item: Item)
  {
    match item
    case Header(name) => Unbroken(name)
    case Entry(Comment(text)) => text != "" && text[0] == ';' && Unbroken(text)
    case Entry(Pair(key, value)) => '\0' !in key && '\0' !in value
  }

  lemma LineIsReadable(line: string)
    requires line != "" && Unbroken(line) && LineItem(line).Some?
    ensures Readable(LineItem(line).value)
  {
    if line[0] != '[' && line[0] != ';' {
      var pos := FirstEquals(line);
      hide Unescape, Trim, FirstEquals;
      var k, v := Trim(Unmarked(line[..pos])), Trim(Unmarked(line[pos + 1..]));
      if Unescape(k).Some? { AbsentByUnescape(k, '\0'); }
      if Unescape(v).Some? { AbsentByUnescape(v, '\0'); }
    }
  }

  lemma {:induction false} AllReadable(lines: seq<string>, categories: seq<Category>)
    requires forall k :: 0 <= k < |lines| ==> Unbroken(lines[k])
    ensures var r := ParseFrom(lines, categories);
            r.Contents? ==>
              forall k :: |Flat(categories)| <= k < |Flat(r.categories)| ==> Readable(Flat(r.categories)[k])
    decreases |lines|
  {
    hide Flat, TakeLine, IsWhitespaceLine, LineItem, Readable, Unbroken;
    if lines != [] {
      if IsWhitespaceLine(lines[0]) {
        AllReadable(lines[1..], categories);
      } else {
        Nonblank(lines[0]);
        TakesItem(lines[0], categories);
        var r := TakeLine(lines[0], categories);
        if r.Contents? {
          LineIsReadable(lines[0]);
          OnlyMore(lines[1..], r.categories);
          AllReadable(lines[1..], r.categories);
        }
      }
    }
  }

  // Which items come back

  /** What is written as one line that is read as what it was */
  predicate Fits(item: Item)
  {
    match item
    case Header(name) => Unbroken(name) && !Marked(name)
    case Entry(line) =>
      LineSurvives(line) && Unbroken(Written(line)) && !(Written(line) != "" && Written(line)[0] == '[')
  }

  lemma FitsOnOneLine(item: Item)
    requires Fits(item)
    ensures Unbroken(Raw(item)) && !IsWhitespaceLine(Raw(item))
    ensures Raw(item) != "" && LineItem(Raw(item)) == Some(item) && !Marked(Raw(item))
  {
    match item
    case Header(name) =>
      assert Raw(item)[0] == '[' && Raw(item)[1..|Raw(item)| - 1] == name;
    case Entry(line) =>
      hide ParseLine, LineSurvives;
      LineSurvivesIff(line);
      NotBlank(line);
      SurvivorUnmarked(line);
  }

  lemma SurvivorUnmarked(line: Line)
    requires LineSurvives(line)
    ensures !Marked(Written(line))
  {
    hide Inner, NeedsQuotes;
  }

  lemma NotBlank(line: Line)
    requires line.Pair? || (line.text != "" && line.text[0] == ';')
    ensures !IsWhitespaceLine(Written(line))
  {
    hide Escape;
    match line
    case Comment(text) => assert !IsSpace(text[0]);
    case Pair(key, value) =>
      assert Written(line)[|Escape(key)|] == '=' && !IsSpace('=');
  }

  lemma {:induction false} CodesUnbroken(s: string)
    requires '\0' !in s
    ensures Unbroken(Codes(0, s))
  {
    if s != "" {
      CodesUnbroken(s[1..]);
      assert s[0] in s;
      assert Unbroken(Code(0, s[0]));
    }
  }

  lemma QuotedUnbroken(s: string)
    requires '\0' !in s && NeedsQuotes(s)
    ensures Unbroken(Escape(s))
  {
    hide Inner, Codes, NeedsQuotes;
    InnerIsCodes(s);
    CodesUnbroken(s);
  }

  /** Only a string that is not quoted keeps its line feeds. */
  lemma BreaksWhenPlain(s: string)
    requires '\0' !in s && !Unbroken(Escape(s))
    ensures !NeedsQuotes(s) && Escape(s) == s && '\n' in s && '"' !in s
  {
    hide Inner;
    if NeedsQuotes(s) { QuotedUnbroken(s); }
    var i :| 0 <= i < |s| && Breaks(s[i]);
    assert s[i] in s;
  }

  /** A line starts behind a break, and is read from behind a byte order mark there. */
  predicate Starts(t: string, a: nat)
    requires a <= |t|
  {
    || a == 0 || Breaks(t[a - 1])
    || (t[a - 1] == MARK && (a == 1 || Breaks(t[a - 2])))
  }

  /** The piece of a broken line from `a` to `b` that is the first not to be blank */
  ghost predicate Piece(t: string, a: nat, b: nat, p: string)
  {
    && a <= b <= |t| && '=' !in t[..a] && Starts(t, a)
    && Unbroken(t[a..b]) && (b < |t| ==> Breaks(t[b]))
    && (p == t[a..b] || (b > a && t[b - 1] == '\r' && p == t[a..b - 1]))
  }

  lemma {:induction false} FirstPiece(t: string, rest: string, categories: seq<Category>)
      returns (p: string, more: seq<string>, a: nat, b: nat)
    requires '=' in t
    ensures ParseFrom(Lines(t + "\r\n" + rest), categories) == ParseFrom([p] + more, categories)
    ensures !IsWhitespaceLine(p) && Piece(t, a, b, p)
    decreases |t|
  {
    hide TakeLine, ParseFrom, Lines, IsWhitespaceLine, Piece;
    var k := FirstBreak(t);
    if k == |t| {
      LineThen(t, rest);
      WholePiece(t);
      return Unmarked(t), Lines(rest), if Marked(t) then 1 else 0, |t|;
    }
    BrokenLine(t, rest);
    var p0 := StripReturn(t[..k]);
    p, more := Unmarked(StripReturn(t[..k])), Lines(t[k + 1..] + "\r\n" + rest);
    if IsWhitespaceLine(p) {
      BlankHasNoEquals(t, k);
      SkipsBlank(p, more, categories);
      var c, d;
      p, more, c, d := FirstPiece(t[k + 1..], rest, categories);
      Shifted(t, k, c, d, p);
      return p, more, k + 1 + c, k + 1 + d;
    }
    FrontPiece(t);
    return p, more, if Marked(p0) then 1 else 0, k;
  }

  lemma BrokenLine(t: string, rest: string)
    requires FirstBreak(t) < |t|
    ensures var k := FirstBreak(t);
            Lines(t + "\r\n" + rest) == [Unmarked(StripReturn(t[..k]))] + Lines(t[k + 1..] + "\r\n" + rest)
  {
    hide StripReturn, Lines, FirstBreak;
    var k := FirstBreak(t);
    Regrouped(t, k, "\r\n", rest);
    BreakAt(t[..k], t[k..] + "\r\n" + rest);
    FirstOfLines(t + "\r\n" + rest, k);
  }

  lemma Regrouped(t: string, k: nat, end: string, rest: string)
    requires k < |t|
    ensures var text := t + end + rest;
            && text == t[..k] + (t[k..] + end + rest) && (t[k..] + end + rest)[0] == t[k]
            && k < |text| && text[..k] == t[..k] && text[k + 1..] == t[k + 1..] + end + rest
  {
  }

  lemma FirstOfLines(text: string, k: nat)
    requires FirstBreak(text) == k < |text|
    ensures Lines(text) == [Unmarked(StripReturn(text[..k]))] + Lines(text[k + 1..])
  {
    hide FirstBreak, StripReturn;
  }

  lemma SkipsBlank(p: string, more: seq<string>, categories: seq<Category>)
    requires IsWhitespaceLine(p)
    ensures ParseFrom([p] + more, categories) == ParseFrom(more, categories)
  {
    hide IsWhitespaceLine;
    assert ([p] + more)[1..] == more;
  }

  lemma EqualsIsNotBlank(u: string)
    requires '=' in u
    ensures !IsWhitespaceLine(u)
  {
    var i :| 0 <= i < |u| && u[i] == '=';
    assert !IsSpace(u[i]);
  }

  lemma UnmarkedIs(t: string)
    ensures var a := if Marked(t) then 1 else 0;
            && Unmarked(t) == t[a..|t|] && Starts(t, a) && '=' !in t[..a] && ('=' in t ==> '=' in Unmarked(t))
  {
    if Marked(t) {
      assert t == [MARK] + t[1..] && t[..1] == [MARK];
    } else {
      assert t[0..|t|] == t && t[..0] == "";
    }
  }

  lemma WholePiece(t: string)
    requires FirstBreak(t) == |t| && '=' in t
    ensures Piece(t, if Marked(t) then 1 else 0, |t|, Unmarked(t)) && !IsWhitespaceLine(Unmarked(t)) && Unbroken(t)
  {
    hide FirstBreak, Starts, Unmarked, IsWhitespaceLine;
    UnmarkedIs(t);
    EqualsIsNotBlank(Unmarked(t));
  }

  lemma FrontPiece(t: string)
    requires FirstBreak(t) < |t|
    ensures var line := StripReturn(t[..FirstBreak(t)]);
            Piece(t, if Marked(line) then 1 else 0, FirstBreak(t), Unmarked(line))
  {
    var k := FirstBreak(t);
    var line := StripReturn(t[..k]);
    if Marked(line) {
      FrontFrom(t, k, 1);
      assert t[0] == t[..k][0] == MARK;
    } else {
      FrontFrom(t, k, 0);
    }
  }

  lemma FrontFrom(t: string, k: nat, a: nat)
    requires a <= k < |t| && a <= |StripReturn(t[..k])| && forall j :: 0 <= j < k ==> !Breaks(t[j])
    ensures Unbroken(t[a..k])
    ensures var p := StripReturn(t[..k])[a..]; p == t[a..k] || (k > a && t[k - 1] == '\r' && p == t[a..k - 1])
  {
    var line := StripReturn(t[..k]);
    if line == t[..k] { assert line[a..] == t[a..k]; } else { assert line[a..] == t[a..k - 1]; }
  }

  lemma Shifted(t: string, k: nat, c: nat, d: nat, p: string)
    requires k < |t| && Breaks(t[k]) && '=' !in t[..k] && Piece(t[k + 1..], c, d, p)
    ensures Piece(t, k + 1 + c, k + 1 + d, p)
  {
    var n := t[k + 1..];
    assert t[..k + 1 + c] == t[..k] + [t[k]] + n[..c];
    assert t[k + 1 + c..k + 1 + d] == n[c..d];
    if d > c { assert t[k + 1 + c..k + 1 + d - 1] == n[c..d - 1]; }
  }

  lemma BlankHasNoEquals(t: string, k: nat)
    requires k < |t| && Breaks(t[k]) && IsWhitespaceLine(Unmarked(StripReturn(t[..k]))) && '=' in t
    ensures '=' !in t[..k] && '=' in t[k + 1..]
  {
    var line := StripReturn(t[..k]);
    var p := Unmarked(line);
    forall i | 0 <= i < k ensures t[..k][i] != '=' {
      if i < |line| {
        assert line[i] == t[..k][i];
        if !Marked(line) {
          assert IsSpace(p[i]);
        } else if i > 0 {
          assert p[i - 1] == line[i] && IsSpace(p[i - 1]);
        }
      }
    }
    assert t == t[..k] + [t[k]] + t[k + 1..];
  }

  /** Without quotation marks nothing is unescaped. */
  lemma PlainPart(u: string)
    requires Unbroken(u) && '"' !in u
    ensures Unescape(Trim(Unmarked(u))) == Some(Trim(Unmarked(u))) && '\n' !in Trim(Unmarked(u))
  {
    hide Outer;
    var v := Trim(Unmarked(u));
    assert v != "" ==> v[0] in v;
    assert '\n' !in u by {
      forall i | 0 <= i < |u| ensures u[i] != '\n' { assert !Breaks(u[i]); }
    }
  }

  lemma EqualsAfter(s: string, i: nat, n: nat)
    requires i <= |s| && n < |s| && '=' !in s[..i] && s[n] == '='
    ensures i <= n
  {
    assert forall j :: 0 <= j < i ==> s[..i][j] == s[j];
  }

  lemma Inside(t: string, a: nat, b: nat, c: nat, d: nat)
    requires a <= c <= d <= b <= |t| && Unbroken(t[a..b])
    ensures Unbroken(t[c..d])
  {
    forall i | 0 <= i < d - c ensures !Breaks(t[c..d][i]) { assert t[c..d][i] == t[a..b][c - a + i]; }
  }

  lemma PieceIs(t: string, a: nat, b: nat, p: string)
    requires Piece(t, a, b, p)
    ensures a + |p| <= b <= |t| && p == t[a..a + |p|] && Unbroken(p) && '=' !in t[..a]
    ensures forall i :: 0 <= i < |p| ==> p[i] == t[a + i]
  {
    Inside(t, a, b, a, a + |p|);
  }

  /** What is before the first equals sign of the piece is part of the key. */
  lemma KeyInPiece(t: string, n: nat, a: nat, b: nat, p: string)
    requires n < |t| && t[n] == '=' && Piece(t, a, b, p) && FirstEquals(p) < |p|
    ensures a + FirstEquals(p) <= n && p[..FirstEquals(p)] == t[a..a + FirstEquals(p)]
    ensures Unbroken(p[..FirstEquals(p)])
  {
    hide FirstEquals, Unbroken, Piece;
    var pos := FirstEquals(p);
    PieceIs(t, a, b, p);
    EqualsAfter(t, a, n);
    if n - a < |p| { EqualsAfter(p, pos, n - a); }
    Front(t, a, p, pos);
    Inside(p, 0, |p|, 0, pos);
  }

  lemma Front(t: string, a: nat, p: string, pos: nat)
    requires a + |p| <= |t| && p == t[a..a + |p|] && pos <= |p|
    ensures p[..pos] == t[a..a + pos] && p[0..|p|] == p && p[0..pos] == p[..pos]
  {
  }

  lemma KeyPart(key: string, value: string, a: nat, b: nat, p: string)
    requires '\0' !in key && !Unbroken(Escape(key)) && p != ""
    requires Piece(Written(Pair(key, value)), a, b, p)
    ensures LineItem(p) != Some(Entry(Pair(key, value)))
  {
    hide Trim, Unescape, FirstEquals, Escape, Piece, Unbroken, NeedsQuotes;
    BreaksWhenPlain(key);
    var t := Written(Pair(key, value));
    assert t == key + "=" + Escape(value);
    var pos := FirstEquals(p);
    if pos < |p| {
      KeyInPiece(t, |key|, a, b, p);
      assert p[..pos] == key[a..a + pos];
      NoneInside(key, a, a + pos, '"');
      PlainPart(p[..pos]);
    }
  }

  lemma NoneInside(s: string, a: nat, b: nat, c: char)
    requires a <= b <= |s| && c !in s
    ensures c !in s[a..b]
  {
  }

  lemma ValuePart(key: string, value: string, a: nat, b: nat, p: string)
    requires '\0' !in value && Unbroken(Escape(key)) && !Unbroken(Escape(value)) && p != ""
    requires Piece(Written(Pair(key, value)), a, b, p)
    ensures LineItem(p) != Some(Entry(Pair(key, value)))
  {
    hide Trim, Unescape, FirstEquals, Escape, Piece, Unbroken, NeedsQuotes;
    BreaksWhenPlain(value);
    EqualsThroughEscape(key);
    var t, n := Written(Pair(key, value)), |Escape(key)|;
    assert t == Escape(key) + "=" + value;
    assert t[..n] == Escape(key);
    var pos := FirstEquals(p);
    if pos < |p| && p[0] != '[' && p[0] != ';' {
      if '=' in key {
        var k := Trim(Unmarked(p[..pos]));
        if Unescape(k).Some? { AbsentByUnescape(k, '='); }
      } else {
        StartsAtFront(t, n, a, b, p);
        if a > 0 {
          MarkedKeyPart(key, t, a, b, p);
        } else {
          assert p[..n] == Escape(key) && p[n] == '=';
          EqualsAfter(p, pos, n);
          EqualsNotBefore(p, pos, n);
          assert p[n + 1..] == value[..|p| - n - 1];
          NoneInside(value, 0, |p| - n - 1, '"');
          PlainPart(p[n + 1..]);
        }
      }
    }
  }

  lemma EqualsNotBefore(p: string, pos: nat, n: nat)
    requires pos <= n < |p| && p[pos] == '=' && '=' !in p[..n]
    ensures pos == n
  {
    assert forall j :: 0 <= j < n ==> p[..n][j] == p[j];
  }

  lemma StartsAtFront(t: string, n: nat, a: nat, b: nat, p: string)
    requires n < |t| && t[n] == '=' && Unbroken(t[..n]) && Piece(t, a, b, p)
    ensures a == 0 || (a == 1 && t[0] == MARK && n > 0)
    ensures a == 0 ==> n < |p| <= |t| && p == t[..|p|] && Unbroken(p[n + 1..])
  {
    EqualsAfter(t, a, n);
    assert forall j :: 0 <= j < n ==> t[..n][j] == t[j];
    if a == 0 {
      assert t[0..b] == t[..b];
      if p != t[..b] { assert t[0..b - 1] == t[..b - 1]; }
      Inside(t, 0, b, n + 1, |p|);
      assert p[n + 1..] == t[n + 1..|p|];
    }
  }

  /** A key that is written with a byte order mark at its front is not read as what it was. */
  lemma MarkedKeyPart(key: string, t: string, a: nat, b: nat, p: string)
    requires |Escape(key)| < |t| && t[..|Escape(key)|] == Escape(key) && t[|Escape(key)|] == '='
    requires a == 1 && t[0] == MARK && Escape(key) != "" && Piece(t, a, b, p) && p != "" && p[0] != '[' && p[0] != ';'
    ensures !LineItem(p).Some? || forall value :: LineItem(p).value != Entry(Pair(key, value))
  {
    hide Trim, Unescape, FirstEquals, Inner, Piece, Unbroken;
    assert t[0] == t[..|Escape(key)|][0];
    assert !NeedsQuotes(key) && Escape(key) == key;
    var pos := FirstEquals(p);
    if pos < |p| {
      KeyInPiece(t, |key|, a, b, p);
      var u := Unmarked(p[..pos]);
      forall c | c in u ensures c in key {
        var i :| 0 <= i < pos && p[..pos][i] == c;
        assert t[..|key|][1 + i] == t[a..a + pos][i];
      }
      TooLittle(key, u);
    }
  }

  lemma BrokenPair(key: string, value: string, rest: string, categories: seq<Category>)
    requires '\0' !in key && '\0' !in value && !Unbroken(Written(Pair(key, value)))
    ensures var r := ParseFrom(Lines(Written(Pair(key, value)) + "\r\n" + rest), categories);
            r.Contents? ==>
              && |Flat(categories)| < |Flat(r.categories)|
              && Flat(r.categories)[|Flat(categories)|] != Entry(Pair(key, value))
  {
    hide ParseFrom, Lines, Flat, Escape, LineItem;
    var t := Written(Pair(key, value));
    assert t[|Escape(key)|] == '=';
    var p, more, a, b := FirstPiece(t, rest, categories);
    NextItem(p, more, categories);
    if !Unbroken(Escape(key)) {
      KeyPart(key, value, a, b, p);
    } else {
      if Unbroken(Escape(value)) { JoinUnbroken(Escape(key), Escape(value)); }
      ValuePart(key, value, a, b, p);
    }
  }

  lemma JoinUnbroken(a: string, b: string)
    requires Unbroken(a) && Unbroken(b)
    ensures Unbroken(a + "=" + b)
  {
  }

  /** An item that does not fit is not what comes next. */
  lemma Misfit(item: Item, rest: string, categories: seq<Category>)
    requires Readable(item) && !Fits(item)
    ensures var r := ParseFrom(Lines(Raw(item) + "\r\n" + rest), categories);
            r.Contents? && |Flat(categories)| < |Flat(r.categories)| ==> Flat(r.categories)[|Flat(categories)|] != item
  {
    hide ParseFrom, Lines, Flat, Escape, ParseLine, LineSurvives, LineItem, IsWhitespaceLine, Written;
    match item
    case Header(name) =>
      MarkedHeader(name);
      LineThen(Raw(item), rest);
      NextItem(Raw(item), Lines(rest), categories);
    case Entry(line) =>
      if line.Comment? || Unbroken(Written(line)) {
        MisreadLine(line);
        LineThen(Written(line), rest);
        NextItem(Unmarked(Written(line)), Lines(rest), categories);
      } else {
        BrokenPair(line.key, line.value, rest, categories);
      }
  }

  lemma MarkedHeader(name: string)
    requires Unbroken(name) && Marked(name)
    ensures var t := Raw(Header(name));
            && t != "" && Unbroken(t) && Unmarked(t) == t && !IsWhitespaceLine(t) && LineItem(t) != Some(Header(name))
  {
    var t := Raw(Header(name));
    assert t[1..|t| - 1] == name && !IsSpace(t[0]);
  }

  lemma MisreadLine(line: Line)
    requires Readable(Entry(line)) && !Fits(Entry(line)) && (line.Pair? ==> Unbroken(Written(line)))
    ensures var p := Unmarked(Written(line));
            Unbroken(Written(line)) && !IsWhitespaceLine(p) && p != "" && LineItem(p) != Some(Entry(line))
  {
    hide ParseLine, LineSurvives, Escape;
    NotBlank(line);
    LineSurvivesIff(line);
    if Marked(Written(line)) { MarkedPair(line.key, line.value); }
  }

  lemma MarkedPair(key: string, value: string)
    requires Marked(Written(Pair(key, value))) && Unbroken(Written(Pair(key, value)))
    ensures var p := Unmarked(Written(Pair(key, value)));
            !IsWhitespaceLine(p) && p != "" && LineItem(p) != Some(Entry(Pair(key, value)))
  {
    var t := Written(Pair(key, value));
    var n := |Escape(key)|;
    hide Escape, Trim, Unescape, FirstEquals;
    assert t[n] == '=' && t[..n] == Escape(key);
    assert t[1..][n - 1] == '=' && !IsSpace('=');
    assert Piece(t, 1, |t|, t[1..]) by {
      assert t[..1] == [MARK];
      Inside(t, 0, |t|, 1, |t|) by { assert t[0..|t|] == t; }
      assert t[1..|t|] == t[1..];
    }
    if t[1] != '[' && t[1] != ';' { MarkedKeyPart(key, t, 1, |t|, t[1..]); }
  }

  lemma Separated(text: string, categories: seq<Category>)
    ensures ParseFrom(Lines("\r\n" + text), categories) == ParseFrom(Lines(text), categories)
  {
    hide TakeLine, Lines, ParseFrom;
    LineThen("", text);
    assert "" + "\r\n" + text == "\r\n" + text;
    SkipsBlank("", Lines(text), categories);
  }

  predicate AllFit(items: seq<Item>)
  {
    forall i :: 0 <= i < |items| ==> Fits(items[i])
  }

  lemma {:induction false} ReadBack(items: seq<Item>, first: bool, categories: seq<Category>)
    requires items != [] ==> categories != [] || items[0].Header?
    ensures var r := ParseFrom(Lines(ItemsText(items, first)), categories);
            r.Contents? && Flat(r.categories) == Flat(categories) + items <==> AllFit(items)
    decreases |items|
  {
    hide Lines, Flat, Raw, Fits, Readable, Unbroken, TakeLine, LineItem, IsWhitespaceLine;
    if items == [] {
      NoLines();
      assert Flat(categories) + items == Flat(categories);
    } else {
      var item, more := items[0], ItemsText(items[1..], false);
      var text := Raw(item) + "\r\n" + more;
      if item.Header? && !first { Separated(text, categories); } else { assert "" + text == text; }
      assert ParseFrom(Lines(ItemsText(items, first)), categories) == ParseFrom(Lines(text), categories);
      if Fits(item) {
        FitsOnOneLine(item);
        LineThen(Raw(item), more);
        TakesItem(Raw(item), categories);
        var taken := TakeLine(Raw(item), categories).categories;
        assert ([Raw(item)] + Lines(more))[1..] == Lines(more);
        assert ParseFrom(Lines(text), categories) == ParseFrom(Lines(more), taken);
        ReadBack(items[1..], false, taken);
        assert items == [item] + items[1..];
        assert Flat(taken) + items[1..] == Flat(categories) + items;
      } else {
        hide ParseFrom;
        LinesAreUnbroken(text);
        AllReadable(Lines(text), categories);
        if Readable(item) { Misfit(item, more, categories); }
        assert (Flat(categories) + items)[|Flat(categories)|] == item;
      }
    }
  }

  lemma NoLines()
    ensures Lines("") == [] && forall categories :: ParseFrom([], categories) == Contents(categories)
  {
  }

  // Files

  /** A category can be read back from a file if its name and each of its lines can. */
  predicate Storable(category: Category)
  {
    Fits(Header(category.name)) && forall i :: 0 <= i < |category.lines| ==> Fits(Entry(category.lines[i]))
  }

  predicate AllStorable(categories: seq<Category>)
  {
    forall i :: 0 <= i < |categories| ==> Storable(categories[i])
  }

  lemma LastStorable(categories: seq<Category>)
    requires categories != []
    ensures var n := |categories| - 1;
            AllStorable(categories) <==> AllStorable(categories[..n]) && Storable(categories[n])
  {
    hide Storable;
    var n := |categories| - 1;
    assert forall i :: 0 <= i < n ==> categories[..n][i] == categories[i];
  }

  lemma {:induction false} AllFitIff(categories: seq<Category>)
    ensures AllFit(Flat(categories)) <==> AllStorable(categories)
    decreases |categories|
  {
    hide Fits, Storable, AllFit, Entries, AllStorable;
    if categories == [] {
      NothingToFit();
    } else {
      var n := |categories| - 1;
      AllFitIff(categories[..n]);
      OneFits(Flat(categories[..n]), categories[n]);
      LastStorable(categories);
    }
  }

  lemma NothingToFit()
    ensures AllFit([]) && AllStorable([])
  {
  }

  lemma OneFits(items: seq<Item>, c: Category)
    ensures AllFit(items + ([Header(c.name)] + Entries(c.lines))) <==> AllFit(items) && Storable(c)
  {
    hide Fits;
    var all := items + ([Header(c.name)] + Entries(c.lines));
    assert forall i :: 0 <= i < |items| ==> all[i] == items[i];
    assert all[|items|] == Header(c.name);
    assert forall i :: 0 <= i < |c.lines| ==> all[|items| + 1 + i] == Entry(c.lines[i]);
    if AllFit(items) && Storable(c) {
      forall k | 0 <= k < |all| ensures Fits(all[k]) {
        if k > |items| { assert all[k] == Entry(c.lines[k - |items| - 1]); }
      }
    }
  }

  lemma {:induction false} BeginsWithHeader(categories: seq<Category>)
    ensures Flat(categories) != [] ==> Flat(categories)[0].Header?
    ensures categories == [] <==> Flat(categories) == []
  {
    if categories != [] {
      BeginsWithHeader(categories[..|categories| - 1]);
    }
  }

  /**
   * What is written and read again comes back without the categories that have no lines if and only if no name
   * has a line break or begins with a byte order mark, and each line is written without a break, does not begin like
   * a header, and survives.
   */
  lemma FileSurvivesIff(categories: seq<Category>)
    ensures ParseFrom(Lines(FileText(categories, true)), []) == Contents(WithLines(categories)) <==>
            AllStorable(WithLines(categories))
  {
    hide ParseFrom, Lines, FileText, WithLines, Flat, AllStorable, AllFit, ItemsText;
    var kept := WithLines(categories);
    FileTextIs(categories, true);
    BeginsWithHeader(kept);
    ReadBack(Flat(kept), true, []);
    AllFitIff(kept);
    BeginsWithHeader([]);
    assert Flat([]) + Flat(kept) == Flat(kept);
    var r := ParseFrom(Lines(FileText(categories, true)), []);
    if r.Contents? && Flat(r.categories) == Flat(kept) { FlatInjective(r.categories, kept); }
  }

  lemma Lost(line: Line)
    requires !Fits(Entry(line))
    ensures var file := [Category("c", [line])];
            ParseFrom(Lines(FileText(file, true)), []) != Contents(file)
  {
    hide ParseFrom, Lines, FileText, Fits;
    var file := [Category("c", [line])];
    FileSurvivesIff(file);
    assert WithLines(file) == file;
    assert file[0].lines[0] == line && !Storable(file[0]);
  }

  lemma FeedDoesNotFit()
    ensures LineSurvives(Pair("k", "a\nb")) && !Fits(Entry(Pair("k", "a\nb")))
  {
    assert Written(Pair("k", "a\nb")) == "k=a\nb" && Breaks("k=a\nb"[3]);
  }

  lemma BracketDoesNotFit()
    ensures LineSurvives(Pair("[x", "y")) && !Fits(Entry(Pair("[x", "y")))
  {
    assert Written(Pair("[x", "y"))[0] == '[';
  }

  /** A line feed in a string that is not quoted is lost, and so is a key that begins with a bracket. */
  lemma LineFeedIsLost()
    ensures var file := [Category("c", [Pair("k", "a\nb")])];
            LineSurvives(Pair("k", "a\nb")) && ParseFrom(Lines(FileText(file, true)), []) != Contents(file)
    ensures var file := [Category("c", [Pair("[x", "y")])];
            LineSurvives(Pair("[x", "y")) && ParseFrom(Lines(FileText(file, true)), []) != Contents(file)
  {
    hide ParseFrom, Lines, FileText, LineSurvives, Fits;
    FeedDoesNotFit();
    BracketDoesNotFit();
    Lost(Pair("k", "a\nb"));
    Lost(Pair("[x", "y"));
  }

  // The class

  function ContentsOf(cs: seq<OFINICategory>): (contents: seq<Category>)
    reads cs
    ensures |contents| == |cs|
    ensures forall i :: 0 <= i < |cs| ==> contents[i] == Category(cs[i].name, cs[i].lines)
  {
    if cs == [] then []
    else
      var n := |cs| - 1;
      ContentsOf(cs[..n]) + [Category(cs[n].name, cs[n].lines)]
  }

  class OFINIFile {
    var categories: seq<OFINICategory>

    /** No category is there twice. */
    ghost predicate Valid()
      reads this
    {
      forall i, j :: 0 <= i < j < |categories| ==> categories[i] != categories[j]
    }

    function Contents(): seq<Category>
      reads this, categories
    {
      ContentsOf(categories)
    }

    constructor ()
      ensures Valid() && categories == []
    {
      categories := [];
    }

    /** One turn of the loop of `of_parseFile:encoding:`, for a line that is not blank */
    method TakeNext(line: string) returns (r: FileResult)
      requires Valid() && line != ""
      modifies this, if categories == [] then {} else {categories[|categories| - 1]}
      ensures Valid() && |old(categories)| <= |categories|
      ensures forall i :: 0 <= i < |categories| ==>
        if i < |old(categories)| then categories[i] == old(categories)[i] else fresh(categories[i])
      ensures r == TakeLine(line, old(Contents())) && (r.Contents? ==> Contents() == r.categories)
    {
      hide ParseLine, ContentsOf, AddLine;
      ghost var before := Contents();
      if line[0] == '[' {
        if line[|line| - 1] != ']' { return BadFormat; }
        var category := new OFINICategory(Unmarked(line[1..|line| - 1]));
        categories := categories + [category];
        assert Contents() == before + [Category(category.name, [])];
      } else {
        if categories == [] { return BadFormat; }
        var category := categories[|categories| - 1];
        var result := category.ParseLineInto(line);
        if result.InvalidFormat? { return BadFormat; }
        if result.OutOfRange? { return BadRange; }
        AddedLine(before, result.line, Contents());
      }
      return FileResult.Contents(Contents());
    }

    /** `of_parseFile:encoding:` for the text of the file; a missing file is like an empty one. */
    method ParseFile(text: string) returns (r: FileResult)
      requires categories == []
      modifies this
      ensures Valid() && fresh(categories)
      ensures r == ParseFrom(Lines(text), [])
      ensures r.Contents? ==> Contents() == r.categories
    {
      hide Lines, ParseFrom, IsWhitespaceLine, TakeLine;
      var lines := Lines(text);
      var i := 0;
      assert lines[0..] == lines;
      while i < |lines|
        invariant 0 <= i <= |lines| && Valid() && fresh(categories)
        invariant ParseFrom(lines, []) == ParseFrom(lines[i..], Contents())
      {
        assert lines[i..] == [lines[i]] + lines[i + 1..];
        OneLineOf(lines[i], lines[i + 1..], Contents());
        if !IsWhitespaceLine(lines[i]) {
          r := TakeNext(lines[i]);
          if !r.Contents? { return; }
        }
        i := i + 1;
      }
      NothingLeft(Contents());
      return FileResult.Contents(Contents());
    }

    /** `categoryForName:`: the first category of that name, or a new one at the end */
    method CategoryForName(name: string) returns (c: OFINICategory)
      requires Valid()
      modifies this
      ensures Valid() && c in categories && c.name == name
      ensures if exists i :: 0 <= i < |old(Contents())| && old(Contents())[i].name == name
              then categories == old(categories)
              else fresh(c) && Contents() == old(Contents()) + [Category(name, [])]
    {
      var i := 0;
      while i < |categories|
        invariant 0 <= i <= |categories| && forall j :: 0 <= j < i ==> categories[j].name != name
      {
        if categories[i].name == name {
          assert Contents()[i].name == name;
          return categories[i];
        }
        i := i + 1;
      }
      c := new OFINICategory(name);
      categories := categories + [c];
    }

    /** `writeToFile:encoding:`: the text of the file */
    method WriteToFile() returns (text: string)
      ensures text == FileText(Contents(), true)
    {
      hide Section, FileText;
      text := "";
      var first := true;
      var i := 0;
      assert Contents()[0..] == Contents();
      while i < |categories|
        invariant 0 <= i <= |categories|
        invariant FileText(Contents(), true) == text + FileText(Contents()[i..], first)
      {
        NextSection(Contents()[i..], first);
        assert Contents()[i..][1..] == Contents()[i + 1..];
        var section, written := categories[i].WriteToStream(first);
        assert section == CategoryText(Contents()[i..][0], first);
        Associates(text, section, FileText(Contents()[i + 1..], first && !written));
        text := text + section;
        if written { first := false; }
        i := i + 1;
      }
      assert Contents()[i..] == [];
      NoSections(first);
      assert text + "" == text;
    }
  }

  lemma AddedLine(before: seq<Category>, line: Line, after: seq<Category>)
    requires |before| == |after| > 0
    requires forall i :: 0 <= i < |before| - 1 ==> after[i] == before[i]
    requires var n := |before| - 1; after[n] == Category(before[n].name, before[n].lines + [line])
    ensures after == AddLine(before, line)
  {
  }

  lemma OneLineOf(line: string, lines: seq<string>, categories: seq<Category>)
    ensures ParseFrom([line] + lines, categories) ==
            if IsWhitespaceLine(line) then ParseFrom(lines, categories)
            else
              var r := TakeLine(line, categories);
              if r.Contents? then ParseFrom(lines, r.categories) else r
    ensures !IsWhitespaceLine(line) ==> line != ""
  {
    hide TakeLine;
    assert ([line] + lines)[1..] == lines;
  }

  lemma NothingLeft(categories: seq<Category>)
    ensures ParseFrom([], categories) == Contents(categories)
  {
  }

  lemma NextSection(categories: seq<Category>, first: bool)
    requires categories != []
    ensures FileText(categories, first) ==
            CategoryText(categories[0], first) + FileText(categories[1..], first && categories[0].lines == [])
  {
    hide CategoryText;
  }

  lemma NoSections(first: bool)
    ensures FileText([], first) == ""
  {
  }

  lemma PlainPair(k: char, v: char)
    requires k !in ['"', ' ', '\t', FF] && v !in ['"', ' ', '\t', FF]
    ensures Written(Pair([k], [v])) == [k, '=', v]
  {
    assert [k][0] == k && [v][0] == v;
  }

  lemma OneLineText(line: Line)
    ensures LinesText([line]) == Written(line) + "\r\n"
  {
    hide Written;
    assert [line][1..] == [];
    NoLinesText();
  }

  /** Two sections as they are written: a blank line stands between them, and CR LF ends every line. */
  lemma TwoSections()
    ensures FileText([Category("a", [Pair("k", "v"), Comment(";c")]), Category("b", [Pair("x", "y")])], true) ==
            "[a]\r\nk=v\r\n;c\r\n" + "\r\n[b]\r\nx=y\r\n"
  {
    hide FileText, CategoryText, Section, LinesText, Written;
    var first, second := Category("a", [Pair("k", "v"), Comment(";c")]), Category("b", [Pair("x", "y")]);
    FirstSection(first);
    SecondSection(second);
    NextSection([first, second], true);
    NextSection([second], false);
    NoSections(false);
    assert [first, second][1..] == [second] && [second][1..] == [];
    assert CategoryText(second, false) + "" == CategoryText(second, false);
  }

  lemma FirstSection(first: Category)
    requires first == Category("a", [Pair("k", "v"), Comment(";c")])
    ensures CategoryText(first, true) == "[a]\r\nk=v\r\n;c\r\n"
  {
    hide Section, LinesText, Written, Escape;
    SectionIs("a", first.lines, true);
    OneLineText(first.lines[0]);
    OneMoreText([first.lines[0]], first.lines[1]);
    assert [first.lines[0]] + [first.lines[1]] == first.lines;
    PlainPair('k', 'v');
    assert Written(first.lines[1]) == ";c" by { CommentText(";c"); }
  }

  lemma CommentText(text: string)
    ensures Written(Comment(text)) == text
  {
  }

  lemma SecondSection(second: Category)
    requires second == Category("b", [Pair("x", "y")])
    ensures CategoryText(second, false) == "\r\n[b]\r\nx=y\r\n"
  {
    hide Section, LinesText, Written, Escape;
    SectionIs("b", second.lines, false);
    OneLineText(second.lines[0]);
    PlainPair('x', 'y');
  }
}
