// Reading texts or lines one after another until nothing comes.
//
// Module StreamLaws says what one read gives from any state of the stream. Repeated reads do not quite give what is
// promised, however simple the delimiter: depending on how the input arrives there may be an empty text too many.

module StreamTexts {
  import opened Bytes
  import opened Delimiters
  import opened Options
  import opened StreamLaws
  import opened Streams

  // With nothing to come

  /** What the bytes of no text at all are delivered as */
  function EmptyText(decodes: seq<Byte> -> bool): Outcome
  {
    if decodes([]) then Text([]) else InvalidEncoding
  }

  lemma EmptyTry(page: PageSize, decodes: seq<Byte> -> bool, s: State, d: seq<Byte>)
    requires |d| > 0 && Pending(s) == []
    ensures var (s', r) := TryTill(page, decodes, s, d);
            if s.low.plan != [] then
              r == Nothing && Pending(s') == [] && s'.buffer == s.buffer && s'.low.plan == s.low.plan[1..]
            else if s.buffer.Some? then r == EmptyText(decodes) && (decodes([]) ==> s' == State(s.low, None, false))
            else r == Nothing && AtEndOfStream(s')
  {
    assert Cached(s) == [] && s.low.Rest() == [];
    assert ScanCache(s, d) == Miss(0);
    if s.low.plan != [] {
      var (low, chunk) := s.low.Read(page);
      assert chunk == [] && low.Rest() == [];
      assert Scan(d, chunk, 0, 0) == Miss(0);
    } else if s.buffer.Some? {
      assert s.buffer.value == [];
    }
  }

  /** Nothing comes, unless an empty buffer is left when the end of the input is already known. */
  lemma {:induction false} EmptyTill(page: PageSize, decodes: seq<Byte> -> bool, s: State, d: seq<Byte>)
    requires |d| > 0 && Pending(s) == []
    ensures var (s', r) := ReadTill(page, decodes, s, d);
            if s.low.plan == [] && s.buffer.Some? then
              r == EmptyText(decodes) && (decodes([]) ==> s' == State(s.low, None, false))
            else r == Nothing
    decreases s.low.Fuel()
  {
    hide TryTill, Low.Fuel, Pending;
    EmptyTry(page, decodes, s, d);
    var (s', r) := TryTill(page, decodes, s, d);
    if r == Nothing && !AtEndOfStream(s') {
      EmptyTill(page, decodes, s', d);
      assert s'.low.plan != [] by { EmptyEnds(s'); }
    }
  }

  lemma EmptyEnds(s: State)
    requires Pending(s) == []
    ensures AtEndOfStream(s) <==> s.low.plan == []
  {
    assert Cached(s) == [] && s.low.Rest() == [];
  }

  // Repeated reads

  /** Fewer bytes are to come, or as many and an empty buffer went. */
  ghost predicate Shrinks(s: State, s': State)
  {
    || |Pending(s')| < |Pending(s)|
    || (|Pending(s')| == |Pending(s)| && s.buffer.Some? && s'.buffer.None?)
  }

  lemma TillShrinks(page: PageSize, decodes: seq<Byte> -> bool, s: State, d: seq<Byte>)
    requires |d| > 0
    ensures var (s', r) := ReadTill(page, decodes, s, d);
            r.Text? ==> Shrinks(s, s')
  {
    hide ReadTill, Pending;
    if Pending(s) == [] {
      EmptyTill(page, decodes, s, d);
      assert Pending(State(s.low, None, false)) == [] by { EmptyPending(s); }
    } else {
      ReadTillConserves(page, decodes, s, d);
    }
  }

  lemma EmptyPending(s: State)
    requires Pending(s) == []
    ensures Pending(State(s.low, None, false)) == []
  {
  }

  /** The texts read until there is none, and the outcome that ended the reads */
  ghost function Texts(page: PageSize, decodes: seq<Byte> -> bool, s: State, d: seq<Byte>): (seq<seq<Byte>>, Outcome)
    requires |d| > 0
    decreases |Pending(s)|, s.buffer.Some?
  {
    var (s', r) := ReadTill(page, decodes, s, d);
    if r.Text? then
      TillShrinks(page, decodes, s, d);
      var (texts, last) := Texts(page, decodes, s', d);
      ([r.bytes] + texts, last)
    else ([], r)
  }

  /** The texts promised for the bytes `p`, and what is promised to end them */
  ghost function PromisedTexts(decodes: seq<Byte> -> bool, d: seq<Byte>, p: seq<Byte>): (seq<seq<Byte>>, Outcome)
    requires |d| > 0
    decreases |p|
  {
    var (r, rest) := Promise(decodes, d, p);
    if r.Text? then
      var (texts, last) := PromisedTexts(decodes, d, rest);
      ([r.bytes] + texts, last)
    else ([], r)
  }

  // When there is a text too many

  /** The low-level read that delivers the last byte: the reader behind it and the bytes it delivers */
  ghost function LastRead(page: PageSize, low: Low): (r: (Low, seq<Byte>))
    requires low.Rest() != []
    ensures r.0.Rest() == [] && r.1 != [] && r.1[|r.1| - 1] == low.Rest()[|low.Rest()| - 1]
    decreases low.Fuel()
  {
    var (low', chunk) := low.Read(page);
    if low'.Rest() == [] then (low', chunk) else LastRead(page, low')
  }

  /** At least two ends, and one of them is the last byte */
  ghost predicate EndsAgain(d: seq<Byte>, s: seq<Byte>)
  {
    s != [] && IsEnd(d, s[|s| - 1]) && !NoEnd(d, s[..|s| - 1])
  }

  /**
   * The content ends with an end, the low-level read that delivers its last byte delivers another end before it, and
   * with that read the end of the input is known.
   */
  ghost predicate OneTooMany(page: PageSize, d: seq<Byte>, low: Low)
  {
    low.Rest() != [] && LastRead(page, low).0.plan == [] && EndsAgain(d, LastRead(page, low).1)
  }

  /** The same for any state of a stream */
  ghost predicate LeavesEmpty(page: PageSize, d: seq<Byte>, s: State)
  {
    if s.low.Rest() != [] then OneTooMany(page, d, s.low)
    else s.low.plan == [] && if Cached(s) == [] then s.buffer.Some? else IsEnd(d, Cached(s)[|Cached(s)| - 1])
  }

  lemma EndsAgainAfter(d: seq<Byte>, s: seq<Byte>, i: nat)
    requires i < |s| && NoEnd(d, s[..i]) && IsEnd(d, s[i])
    ensures EndsAgain(d, s) <==> i + 1 < |s| && IsEnd(d, s[|s| - 1])
  {
    var t := s[..|s| - 1];
    if i + 1 < |s| {
      assert t[i] == s[i];
    } else {
      assert t == s[..i];
    }
  }

  lemma HitLeaves(page: PageSize, s: State, d: seq<Byte>, low: Low, chunk: seq<Byte>, i: nat)
    requires (low, chunk) == s.low.Read(page) && s.low.Rest() != [] && i < |chunk|
    requires NoEnd(d, chunk[..i]) && IsEnd(d, chunk[i])
    ensures LeavesEmpty(page, d, AfterHit(low, chunk, i)) == LeavesEmpty(page, d, s)
  {
    hide IsEnd, NoEnd;
    if low.Rest() == [] { EndsAgainAfter(d, chunk, i); }
  }

  lemma MissLeaves(page: PageSize, s: State, d: seq<Byte>, low: Low, chunk: seq<Byte>)
    requires (low, chunk) == s.low.Read(page) && Pending(s) != [] && !s.low.AtEnd() && NoEnd(d, Cached(s) + chunk)
    ensures LeavesEmpty(page, d, State(low, if chunk == [] then s.buffer else Some(Cached(s) + chunk), true)) ==
            LeavesEmpty(page, d, s)
  {
    var all := Cached(s) + chunk;
    var s' := State(low, if chunk == [] then s.buffer else Some(all), true);
    assert Cached(s') == all;
    if low.Rest() == [] {
      if chunk != [] {
        assert all[|all| - 1] == chunk[|chunk| - 1];
      } else {
        assert s.low.Rest() == [] && all == Cached(s) && all != [];
        assert !IsEnd(d, all[|all| - 1]);
      }
    }
  }

  /** The ends in a chunk, told byte by byte */
  lemma EndInChunk(d: seq<Byte>, cached: seq<Byte>, chunk: seq<Byte>)
    requires Simple(d)
    ensures var e := FirstEnd(d, cached + chunk);
            if |cached| <= e < |cached + chunk| then NoEnd(d, chunk[..e - |cached|]) && IsEnd(d, chunk[e - |cached|])
            else e == |cached + chunk| ==> NoEnd(d, cached + chunk)
  {
    var all := cached + chunk;
    var e := FirstEnd(d, all);
    SimpleEndIsEnd(d, all);
    if |cached| <= e < |all| {
      var before := chunk[..e - |cached|];
      forall k | 0 <= k < |before| ensures !IsEnd(d, before[k]) { assert before[k] == all[..e][|cached| + k]; }
    } else {
      assert e == |all| ==> all[..e] == all;
    }
  }

  lemma ChunkLeaves(page: PageSize, decodes: seq<Byte> -> bool, s: State, d: seq<Byte>, found: ScanResult, low: Low,
                    chunk: seq<Byte>)
    requires Simple(d) && Pending(s) != [] && !s.low.AtEnd() && (low, chunk) == s.low.Read(page)
    requires ChunkAgrees(d, Cached(s), chunk, found)
    ensures var (s', r) := TakeChunk(decodes, s, d, found, low, chunk);
            r != InvalidEncoding ==> LeavesEmpty(page, d, s') == LeavesEmpty(page, d, s) && Coherent(s', d)
  {
    hide LeavesEmpty, IsEnd, NoEnd, FirstEnd, Low.Rest, AfterHit, Coherent;
    EndInChunk(d, Cached(s), chunk);
    if found.Hit? {
      ChunkNotEmpty(page, s, low, chunk);
      HitLeaves(page, s, d, low, chunk, found.index);
      AfterHitCoherent(low, chunk, found.index, d);
    } else {
      MissLeaves(page, s, d, low, chunk);
      MissCoherent(s, low, chunk, d);
    }
  }

  lemma ChunkNotEmpty(page: PageSize, s: State, low: Low, chunk: seq<Byte>)
    requires (low, chunk) == s.low.Read(page) && chunk != []
    ensures s.low.Rest() != []
  {
  }

  lemma AfterHitCoherent(low: Low, chunk: seq<Byte>, i: nat, d: seq<Byte>)
    requires i < |chunk|
    ensures Coherent(AfterHit(low, chunk, i), d)
  {
  }

  lemma MissCoherent(s: State, low: Low, chunk: seq<Byte>, d: seq<Byte>)
    requires FirstEnd(d, Cached(s) + chunk) == |Cached(s) + chunk|
    ensures Coherent(State(low, if chunk == [] then s.buffer else Some(Cached(s) + chunk), true), d)
  {
    assert chunk == [] ==> Cached(s) + chunk == Cached(s);
  }

  lemma CacheLeaves(page: PageSize, decodes: seq<Byte> -> bool, s: State, d: seq<Byte>, i: nat, nul: bool)
    requires Simple(d) && ScanCache(s, d) == Hit(i, nul) && FirstEnd(d, Cached(s)) == i < |Cached(s)|
    ensures var (s', r) := TryFrom(page, decodes, s, d, Hit(i, nul));
            r != InvalidEncoding ==> LeavesEmpty(page, d, s') == LeavesEmpty(page, d, s) && Coherent(s', d)
  {
    SimpleEndIsEnd(d, Cached(s));
  }

  lemma FinishLeaves(page: PageSize, decodes: seq<Byte> -> bool, s: State, d: seq<Byte>)
    requires Simple(d) && s.low.AtEnd() && Pending(s) != [] && FirstEnd(d, Cached(s)) == |Cached(s)|
    ensures var (s', r) := Finish(decodes, s);
            r != InvalidEncoding ==> LeavesEmpty(page, d, s') == LeavesEmpty(page, d, s) && Coherent(s', d)
  {
    SimpleEndIsEnd(d, Cached(s));
    var cached := Cached(s);
    assert Pending(s) == cached && cached[..|cached|] == cached;
    assert !IsEnd(d, cached[|cached| - 1]);
  }

  lemma TryLeaves(page: PageSize, decodes: seq<Byte> -> bool, s: State, d: seq<Byte>)
    requires Simple(d) && Coherent(s, d) && Pending(s) != []
    ensures var (s', r) := TryTill(page, decodes, s, d);
            r != InvalidEncoding ==> LeavesEmpty(page, d, s') == LeavesEmpty(page, d, s) && Coherent(s', d)
  {
    hide TryTill, LeavesEmpty, FirstEnd, Pending, Coherent, Scan, TakeChunk, Finish, Low.Rest, Simple;
    CacheScan(s, d);
    TryIsTryFrom(page, decodes, s, d);
    var found := ScanCache(s, d);
    if found.Hit? {
      CacheLeaves(page, decodes, s, d, found.index, found.nul);
    } else if s.low.AtEnd() {
      FinishLeaves(page, decodes, s, d);
    } else {
      var (low, chunk) := s.low.Read(page);
      ChunkScan(d, s, chunk);
      ChunkLeaves(page, decodes, s, d, Scan(d, chunk, 0, found.matched), low, chunk);
    }
  }

  lemma {:induction false} TillLeaves(page: PageSize, decodes: seq<Byte> -> bool, s: State, d: seq<Byte>)
    requires Simple(d) && Coherent(s, d) && Pending(s) != []
    ensures var (s', r) := ReadTill(page, decodes, s, d);
            r.Text? ==> LeavesEmpty(page, d, s') == LeavesEmpty(page, d, s) && Coherent(s', d)
    decreases s.low.Fuel()
  {
    hide TryTill, LeavesEmpty, Pending, Coherent, Low.Fuel, AtEndOfStream, Simple;
    TryLeaves(page, decodes, s, d);
    TryConserves(page, decodes, s, d);
    var (s', r) := TryTill(page, decodes, s, d);
    if r == Nothing && !AtEndOfStream(s') { TillLeaves(page, decodes, s', d); }
  }

  // All texts

  /** The promised texts, with one more that is empty if `extra` holds and nothing ended them before */
  ghost function WithEmpty(decodes: seq<Byte> -> bool, promised: (seq<seq<Byte>>, Outcome), extra: bool):
    (seq<seq<Byte>>, Outcome)
  {
    if !extra || promised.1 != Nothing then promised
    else if decodes([]) then (promised.0 + [[]], Nothing)
    else (promised.0, InvalidEncoding)
  }

  lemma EmptyTexts(page: PageSize, decodes: seq<Byte> -> bool, s: State, d: seq<Byte>)
    requires |d| > 0 && Pending(s) == []
    ensures Texts(page, decodes, s, d) ==
            WithEmpty(decodes, PromisedTexts(decodes, d, []), LeavesEmpty(page, d, s))
  {
    hide ReadTill;
    EmptyTill(page, decodes, s, d);
    assert Cached(s) == [] && s.low.Rest() == [];
    if s.low.plan == [] && s.buffer.Some? && decodes([]) {
      var s' := State(s.low, None, false);
      EmptyPending(s);
      EmptyTill(page, decodes, s', d);
      assert Texts(page, decodes, s', d) == ([], Nothing);
      var none: seq<seq<Byte>> := [];
      assert [[]] + none == none + [[]];
    }
  }

  /** From any state without skipped ends, the texts are the promised ones, with one too many exactly where said. */
  lemma {:induction false} TextsFrom(page: PageSize, decodes: seq<Byte> -> bool, s: State, d: seq<Byte>)
    requires Simple(d) && Coherent(s, d)
    ensures Texts(page, decodes, s, d) ==
            WithEmpty(decodes, PromisedTexts(decodes, d, Pending(s)), LeavesEmpty(page, d, s))
    decreases |Pending(s)|
  {
    hide ReadTill, Promise, Pending, Coherent, LeavesEmpty;
    if Pending(s) == [] {
      EmptyTexts(page, decodes, s, d);
    } else {
      NotDrained(s);
      ReadTillKeeps(page, decodes, s, d);
      TillLeaves(page, decodes, s, d);
      var (s', r) := ReadTill(page, decodes, s, d);
      PromiseComes(decodes, d, Pending(s));
      if r.Text? {
        TextsFrom(page, decodes, s', d);
        var (texts, last) := PromisedTexts(decodes, d, Pending(s'));
        assert [r.bytes] + (texts + [[]]) == ([r.bytes] + texts) + [[]];
      }
    }
  }

  lemma NotDrained(s: State)
    requires Pending(s) != []
    ensures !Drained(s)
  {
  }

  lemma PromiseComes(decodes: seq<Byte> -> bool, d: seq<Byte>, p: seq<Byte>)
    requires |d| > 0 && p != []
    ensures var (r, rest) := Promise(decodes, d, p);
            if r.Text? then |rest| < |p| else r == InvalidEncoding
  {
  }

  /**
   * Main result: reading texts up to a simple delimiter until nothing comes, for every content and however it
   * arrives, gives the promised texts; one more, empty, follows if and only if the content ends with an end that the
   * last low-level read delivered together with an earlier one and with the end of the input.
   */
  lemma AllTexts(page: PageSize, decodes: seq<Byte> -> bool, file: seq<Byte>, plan: seq<nat>, d: seq<Byte>)
    requires Simple(d)
    ensures Texts(page, decodes, Fresh(file, plan), d) ==
            WithEmpty(decodes, PromisedTexts(decodes, d, file), OneTooMany(page, d, Low(file, 0, plan)))
  {
    hide OneTooMany;
    var s := Fresh(file, plan);
    assert Pending(s) == file;
    TextsFrom(page, decodes, s, d);
    assert !LeavesEmpty(page, d, s) || OneTooMany(page, d, Low(file, 0, plan));
    assert file == [] ==> !OneTooMany(page, d, Low(file, 0, plan)) by { NoneTooMany(page, d, plan); }
  }

  lemma NoneTooMany(page: PageSize, d: seq<Byte>, plan: seq<nat>)
    ensures !OneTooMany(page, d, Low([], 0, plan))
  {
  }

  // Contents for which the way of arrival matters

  /** The most that one low-level read can deliver at the end of a content */
  function Tail(page: PageSize, file: seq<Byte>): seq<Byte>
  {
    if |file| <= page then file else file[|file| - page..]
  }

  /** Single bytes until one page is left */
  function Singles(n: nat): seq<nat>
  {
    if n == 0 then [] else [1] + Singles(n - 1)
  }

  lemma SingleRead(page: PageSize, file: seq<Byte>, pos: nat, plan: seq<nat>)
    requires pos + 1 < |file|
    ensures Low(file, pos, [1] + plan).Read(page).0 == Low(file, pos + 1, plan)
    ensures Low(file, pos, [1] + plan).Rest() != [] && Low(file, pos + 1, plan).Rest() != []
  {
    assert ([1] + plan)[1..] == plan;
  }

  lemma PageRead(page: PageSize, file: seq<Byte>, pos: nat)
    requires pos <= |file| <= pos + page
    ensures Low(file, pos, []).Read(page) == (Low(file, |file|, []), file[pos..])
    ensures Low(file, pos, []).Rest() == file[pos..] && Low(file, |file|, []).Rest() == []
  {
    assert file[pos..][..|file| - pos] == file[pos..];
  }

  lemma {:induction false} SinglesLeaveTail(page: PageSize, file: seq<Byte>, pos: nat)
    requires pos + page <= |file|
    ensures Low(file, pos, Singles(|file| - page - pos)).Rest() != []
    ensures LastRead(page, Low(file, pos, Singles(|file| - page - pos))) ==
            (Low(file, |file|, []), file[|file| - page..])
    decreases |file| - pos
  {
    hide Low.Read, Low.Rest, Low.Fuel;
    if pos + page == |file| {
      PageRead(page, file, pos);
    } else {
      SingleRead(page, file, pos, Singles(|file| - page - (pos + 1)));
      SinglesLeaveTail(page, file, pos + 1);
    }
  }

  lemma EndsAgainSuffix(d: seq<Byte>, a: seq<Byte>, b: seq<Byte>)
    requires |a| <= |b| && a == b[|b| - |a|..] && EndsAgain(d, a)
    ensures EndsAgain(d, b)
  {
    var k :| 0 <= k < |a| - 1 && IsEnd(d, a[..|a| - 1][k]);
    assert b[..|b| - 1][|b| - |a| + k] == a[k];
  }

  lemma {:induction false} LastReadIsSuffix(page: PageSize, low: Low)
    requires low.Rest() != []
    ensures var chunk := LastRead(page, low).1;
            |chunk| <= |low.Rest()| && |chunk| <= page && chunk == low.Rest()[|low.Rest()| - |chunk|..]
    decreases low.Fuel()
  {
    hide Low.Read, Low.Rest, Low.Fuel;
    var (low', chunk) := low.Read(page);
    if low'.Rest() == [] {
      assert chunk == low.Rest() by { assert chunk + [] == chunk; }
    } else {
      LastReadIsSuffix(page, low');
      SuffixOfSuffix(low.Rest(), chunk, low'.Rest(), LastRead(page, low').1);
    }
  }

  lemma SuffixOfSuffix(all: seq<Byte>, a: seq<Byte>, b: seq<Byte>, c: seq<Byte>)
    requires all == a + b && |c| <= |b| && c == b[|b| - |c|..]
    ensures c == all[|all| - |c|..]
  {
  }

  /** Some way of arrival brings one text too many exactly if two ends, one of them the last byte, fit in a page. */
  lemma OneTooManyIff(page: PageSize, d: seq<Byte>, file: seq<Byte>)
    ensures (exists plan :: OneTooMany(page, d, Low(file, 0, plan))) <==> EndsAgain(d, Tail(page, file))
  {
    if EndsAgain(d, Tail(page, file)) {
      var plan := TailLast(page, file);
      assert OneTooMany(page, d, Low(file, 0, plan));
    }
    forall plan | OneTooMany(page, d, Low(file, 0, plan)) ensures EndsAgain(d, Tail(page, file)) {
      LastInTail(page, d, file, plan);
    }
  }

  lemma TailLast(page: PageSize, file: seq<Byte>) returns (plan: seq<nat>)
    requires file != []
    ensures Low(file, 0, plan).Rest() != []
    ensures LastRead(page, Low(file, 0, plan)) == (Low(file, |file|, []), Tail(page, file))
  {
    hide Low.Read, Low.Rest, Low.Fuel;
    if |file| <= page {
      plan := [];
      PageRead(page, file, 0);
      assert file[0..] == file;
    } else {
      plan := Singles(|file| - page);
      SinglesLeaveTail(page, file, 0);
    }
  }

  lemma LastInTail(page: PageSize, d: seq<Byte>, file: seq<Byte>, plan: seq<nat>)
    requires OneTooMany(page, d, Low(file, 0, plan))
    ensures EndsAgain(d, Tail(page, file))
  {
    hide EndsAgain, LastRead, Tail, Low.Read;
    var low := Low(file, 0, plan);
    assert low.Rest() == file;
    LastReadIsSuffix(page, low);
    SuffixOfTail(page, file, LastRead(page, low).1);
    EndsAgainSuffix(d, LastRead(page, low).1, Tail(page, file));
  }

  lemma SuffixOfTail(page: PageSize, file: seq<Byte>, a: seq<Byte>)
    requires |a| <= |file| && |a| <= page && a == file[|file| - |a|..]
    ensures |a| <= |Tail(page, file)| && a == Tail(page, file)[|Tail(page, file)| - |a|..]
  {
  }

  /** However the content arrives, its texts are the promised ones. */
  ghost predicate AsPromised(page: PageSize, decodes: seq<Byte> -> bool, file: seq<Byte>, d: seq<Byte>)
    requires |d| > 0
  {
    forall plan: seq<nat> :: Texts(page, decodes, Fresh(file, plan), d) == PromisedTexts(decodes, d, file)
  }

  /**
   * Main result: the texts do not depend on how the content arrives exactly if an invalid one ends them, or the
   * content does not end with an end, or the bytes of the page before that end hold no other.
   */
  lemma AsPromisedIff(page: PageSize, decodes: seq<Byte> -> bool, file: seq<Byte>, d: seq<Byte>)
    requires Simple(d)
    ensures AsPromised(page, decodes, file, d) <==>
            PromisedTexts(decodes, d, file).1 != Nothing || !EndsAgain(d, Tail(page, file))
  {
    hide OneTooMany, EndsAgain, Texts, PromisedTexts;
    OneTooManyIff(page, d, file);
    forall plan: seq<nat>
      ensures Texts(page, decodes, Fresh(file, plan), d) ==
              WithEmpty(decodes, PromisedTexts(decodes, d, file), OneTooMany(page, d, Low(file, 0, plan)))
    {
      AllTexts(page, decodes, file, plan, d);
    }
    if PromisedTexts(decodes, d, file).1 == Nothing && EndsAgain(d, Tail(page, file)) {
      var plan :| OneTooMany(page, d, Low(file, 0, plan));
      assert Texts(page, decodes, Fresh(file, plan), d) != PromisedTexts(decodes, d, file);
    }
  }

  // Lines

  function StripAll(texts: seq<seq<Byte>>): seq<seq<Byte>>
  {
    if texts == [] then [] else [Strip(texts[0])] + StripAll(texts[1..])
  }

  lemma LineShrinks(page: PageSize, decodes: seq<Byte> -> bool, s: State)
    ensures var (s', r) := ReadLine(page, decodes, s);
            r.Text? ==> Shrinks(s, s')
  {
    hide ReadLine, ReadTill, Pending;
    ReadLineIsReadTill(page, decodes, s);
    TillShrinks(page, line => decodes(Strip(line)), s, [NEWLINE]);
  }

  /** The lines read until there is none, and the outcome that ended the reads */
  ghost function ReadLines(page: PageSize, decodes: seq<Byte> -> bool, s: State): (seq<seq<Byte>>, Outcome)
    decreases |Pending(s)|, s.buffer.Some?
  {
    var (s', r) := ReadLine(page, decodes, s);
    if r.Text? then
      LineShrinks(page, decodes, s);
      var (lines, last) := ReadLines(page, decodes, s');
      ([r.bytes] + lines, last)
    else ([], r)
  }

  lemma {:induction false} LinesAreTexts(page: PageSize, decodes: seq<Byte> -> bool, s: State)
    ensures var (texts, last) := Texts(page, line => decodes(Strip(line)), s, [NEWLINE]);
            ReadLines(page, decodes, s) == (StripAll(texts), last)
    decreases |Pending(s)|, s.buffer.Some?
  {
    hide ReadLine, ReadTill, Pending, Strip;
    ReadLineIsReadTill(page, decodes, s);
    var (s', r) := ReadTill(page, line => decodes(Strip(line)), s, [NEWLINE]);
    if r.Text? {
      TillShrinks(page, line => decodes(Strip(line)), s, [NEWLINE]);
      LinesAreTexts(page, decodes, s');
      var (texts, last) := Texts(page, line => decodes(Strip(line)), s', [NEWLINE]);
      assert ([r.bytes] + texts)[1..] == texts;
    }
  }

  /** Reading lines until nothing comes gives the promised lines, with an empty one too many exactly as for texts. */
  lemma AllLines(page: PageSize, decodes: seq<Byte> -> bool, file: seq<Byte>, plan: seq<nat>)
    ensures var f := (line: seq<Byte>) => decodes(Strip(line));
            var (texts, last) := WithEmpty(f, PromisedTexts(f, [NEWLINE], file),
                                           OneTooMany(page, [NEWLINE], Low(file, 0, plan)));
            ReadLines(page, decodes, Fresh(file, plan)) == (StripAll(texts), last)
  {
    hide OneTooMany, ReadLines, Texts, PromisedTexts;
    LinesAreTexts(page, decodes, Fresh(file, plan));
    AllTexts(page, line => decodes(Strip(line)), file, plan, [NEWLINE]);
  }

  /** Two lines that arrive in one piece are read as three, and in two pieces as two. */
  lemma TwoLinesOrThree(page: PageSize, decodes: seq<Byte> -> bool)
    requires DecodesAll(decodes) && page >= 4
    ensures ReadLines(page, decodes, Fresh([97, 10, 98, 10], [])) == ([[97], [98], []], Nothing)
    ensures ReadLines(page, decodes, Fresh([97, 10, 98, 10], [2, 2])) == ([[97], [98]], Nothing)
  {
    hide ReadLines, OneTooMany, PromisedTexts, DecodesAll;
    var file: seq<Byte> := [97, 10, 98, 10];
    AllLines(page, decodes, file, []);
    AllLines(page, decodes, file, [2, 2]);
    var f := (line: seq<Byte>) => decodes(Strip(line));
    StrippedDecodes(decodes, f);
    TwoLinesPromised(f);
    OnePiece(page);
    TwoPieces(page);
    StripTwo();
    assert f([]) by { assert Strip([]) == []; AnyDecodes(decodes, []); }
  }

  lemma AnyDecodes(decodes: seq<Byte> -> bool, bytes: seq<Byte>)
    requires DecodesAll(decodes)
    ensures decodes(bytes)
  {
  }

  lemma StripTwo()
    ensures StripAll([[97], [98]]) == [[97], [98]] && StripAll([[97], [98], []]) == [[97], [98], []]
  {
    assert [[97], [98]][1..] == [[98]] && [[97], [98], []][1..] == [[98], []];
  }

  /** A line at the front of some bytes is the first of those promised. */
  lemma LinePromised(decodes: seq<Byte> -> bool, line: seq<Byte>, rest: seq<Byte>)
    requires DecodesAll(decodes) && NoEnd([NEWLINE], line)
    ensures var (texts, last) := PromisedTexts(decodes, [NEWLINE], rest);
            PromisedTexts(decodes, [NEWLINE], line + [NEWLINE] + rest) == ([line] + texts, last)
  {
    hide PromisedTexts;
    var p := line + [NEWLINE] + rest;
    assert p[..|line|] == line && p[|line|] == NEWLINE && p[|line| + 1..] == rest;
    SimpleEnd([NEWLINE], p, |line|);
    AnyDecodes(decodes, line);
    assert Promise(decodes, [NEWLINE], p) == (Text(line), rest);
    NextPromised(decodes, [NEWLINE], p);
  }

  lemma NextPromised(decodes: seq<Byte> -> bool, d: seq<Byte>, p: seq<Byte>)
    requires |d| > 0 && Promise(decodes, d, p).0.Text?
    ensures var (r, rest) := Promise(decodes, d, p);
            var (texts, last) := PromisedTexts(decodes, d, rest);
            PromisedTexts(decodes, d, p) == ([r.bytes] + texts, last)
  {
  }

  lemma TwoLinesPromised(decodes: seq<Byte> -> bool)
    requires DecodesAll(decodes)
    ensures PromisedTexts(decodes, [NEWLINE], [97, 10, 98, 10]) == ([[97], [98]], Nothing)
  {
    hide Promise, PromisedTexts;
    var none: seq<seq<Byte>> := [];
    LinePromised(decodes, [97], [98, NEWLINE]);
    LinePromised(decodes, [98], []);
    assert PromisedTexts(decodes, [NEWLINE], []) == ([], Nothing) by { NonePromised(decodes); }
    assert [97] + [NEWLINE] + [98, NEWLINE] == [97, 10, 98, 10];
    assert [98] + [NEWLINE] + [] == [98, NEWLINE];
    assert [[97]] + ([[98]] + none) == [[97], [98]];
  }

  lemma NonePromised(decodes: seq<Byte> -> bool)
    ensures PromisedTexts(decodes, [NEWLINE], []) == ([], Nothing)
  {
  }

  lemma OnePiece(page: PageSize)
    requires page >= 4
    ensures OneTooMany(page, [NEWLINE], Low([97, 10, 98, 10], 0, []))
  {
    var file: seq<Byte> := [97, 10, 98, 10];
    PageRead(page, file, 0);
    assert file[0..] == file;
    assert IsEnd([NEWLINE], file[..3][1]);
  }

  lemma TwoPieces(page: PageSize)
    requires page >= 4
    ensures !OneTooMany(page, [NEWLINE], Low([97, 10, 98, 10], 0, [2, 2]))
  {
    var file: seq<Byte> := [97, 10, 98, 10];
    var low := Low(file, 2, [2]);
    assert Low(file, 0, [2, 2]).Read(page).0 == low;
    assert low.Rest() == [98, NEWLINE] && low.Rest()[..2] == low.Rest();
    assert low.Read(page) == (Low(file, 4, []), [98, NEWLINE]);
    assert LastRead(page, low) == (Low(file, 4, []), [98, NEWLINE]);
    assert [98, NEWLINE][..1] == [98] && NoEnd([NEWLINE], [98]);
  }

  /** A try that waits and a read of one byte: the newlines put in the cache by the read become part of the line. */
  lemma WaitingHidesLines(page: PageSize, decodes: seq<Byte> -> bool)
    requires DecodesAll(decodes)
    ensures var s := Fresh([120, 10, 121, 10], [0]);
            var (s1, tried) := TryLine(page, decodes, s);
            var (s2, bytes) := Read(s1, 1);
            var (s3, line) := ReadLine(page, decodes, s2);
            tried == Nothing && bytes == [120] && line == Text([10, 121, 10])
  {
    var file: seq<Byte> := [120, 10, 121, 10];
    var s := Fresh(file, [0]);
    var s1 := State(Low(file, 0, []), None, true);
    assert s.low.Read(page) == (Low(file, 0, []), []);
    assert TryLine(page, decodes, s) == (s1, Nothing);
    assert s1.low.Rest() == file;
    assert s1.low.Read(MIN_READ_SIZE) == (Low(file, 4, []), file) by { PageRead(MIN_READ_SIZE, file, 0); }
    var s2 := State(Low(file, 4, []), Some([10, 121, 10]), true);
    assert file[1..] == [10, 121, 10] && file[..1] == [120];
    assert Read(s1, 1) == (s2, [120]);
    assert decodes(Strip(s2.buffer.value));
    assert TryLine(page, decodes, s2).1 == Text([10, 121, 10]);
  }
}
