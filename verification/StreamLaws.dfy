// Laws of the cached streams of module Streams.

module StreamLaws {
  import opened Bytes
  import opened Delimiters
  import opened Options
  import opened Streams

  // Nothing is lost or invented

  lemma Assoc(a: seq<Byte>, b: seq<Byte>, c: seq<Byte>)
    ensures (a + b) + c == a + (b + c)
  {
  }

  lemma Split(a: seq<Byte>, n: nat, c: seq<Byte>)
    requires n <= |a|
    ensures a + c == a[..n] + (a[n..] + c)
  {
  }

  lemma ReadConserves(s: State, length: nat)
    ensures var (s', bytes) := Read(s, length);
            Pending(s) == bytes + Pending(s') && |bytes| <= length && s'.waiting == s.waiting
  {
    var cached := Cached(s);
    if |cached| == 0 {
      assert Pending(s) == s.low.Rest();
      if length < MIN_READ_SIZE {
        var (low, tmp) := s.low.Read(MIN_READ_SIZE);
        if |tmp| > length {
          Split(tmp, length, low.Rest());
        } else {
          assert Pending(s.(low := low)) == low.Rest();
        }
      } else {
        var (low, bytes) := s.low.Read(length);
        assert Pending(s.(low := low)) == low.Rest();
      }
    } else if length >= |cached| {
      assert Pending(s.(buffer := None)) == s.low.Rest();
    } else {
      Split(cached, length, s.low.Rest());
    }
  }

  /** An exact read delivers the next bytes, or takes all that is left when that is too little. */
  lemma {:induction false} ReadExactlyDelivers(s: State, length: nat, got: seq<Byte>)
    requires |got| <= length
    ensures var (s', r) := ReadExactly(s, length, got);
            var n := length - |got|;
            if n <= |Pending(s)| then r == Text(got + Pending(s)[..n]) && Pending(s') == Pending(s)[n..]
            else r == Truncated && Pending(s') == []
    decreases s.low.Fuel() + |Cached(s)|, length - |got|
  {
    hide Pending, Read, Low.Fuel, AtEndOfStream;
    if |got| == length {
      DeliverNothing(got, Pending(s));
    } else if AtEndOfStream(s) {
      NothingPending(s);
    } else {
      ReadMoves(s, length - |got|);
      ReadConserves(s, length - |got|);
      var (s', bytes) := Read(s, length - |got|);
      ReadExactlyDelivers(s', length, got + bytes);
      Deliver(got, bytes, Pending(s'), length - |got|);
    }
  }

  lemma DeliverNothing(got: seq<Byte>, rest: seq<Byte>)
    ensures got + rest[..0] == got && rest[0..] == rest
  {
  }

  lemma NothingPending(s: State)
    requires AtEndOfStream(s)
    ensures Pending(s) == []
  {
  }

  lemma Deliver(got: seq<Byte>, bytes: seq<Byte>, rest: seq<Byte>, n: nat)
    requires |bytes| <= n
    ensures n <= |bytes + rest| ==>
      && got + (bytes + rest)[..n] == (got + bytes) + rest[..n - |bytes|]
      && (bytes + rest)[n..] == rest[n - |bytes|..]
  {
  }

  /** Unreading and reading the same number of bytes again leaves the stream as it was. */
  lemma UnreadReadExactly(s: State, bytes: seq<Byte>)
    ensures var (s', r) := ReadExactly(Unread(s, bytes), |bytes|, []);
            r == Text(bytes) && s'.low == s.low && s'.waiting == s.waiting &&
            s'.buffer == if Cached(s) == [] then None else s.buffer
  {
    var u := Unread(s, bytes);
    if bytes == [] {
      assert bytes + Cached(s) == Cached(s);
    } else {
      var all := bytes + Cached(s);
      assert Cached(u) == all && |all| > 0 && !AtEndOfStream(u);
      if Cached(s) == [] {
        assert all == bytes;
      } else {
        assert all[..|bytes|] == bytes && all[|bytes|..] == Cached(s);
      }
      var (s', out) := Read(u, |bytes|);
      assert out == bytes && s' == s.(buffer := if Cached(s) == [] then None else s.buffer);
      assert [] + out == bytes;
      assert ReadExactly(s', |bytes|, bytes) == (s', Text(bytes));
    }
  }

  /** The text, the delimiter or a zero byte, and what follows. */
  ghost predicate EndedBy(d: seq<Byte>, p: seq<Byte>, text: seq<Byte>, rest: seq<Byte>)
  {
    p == text + d + rest || p == text + [0] + rest
  }

  /** What a successful try takes off the stream: the text and its end, or everything at the end. */
  ghost predicate Takes(d: seq<Byte>, before: State, text: seq<Byte>, after: State)
  {
    || EndedBy(d, Pending(before), text, Pending(after))
    || (Pending(before) == text && Pending(after) == [] && after.low.AtEnd())
  }

  /** Splitting a text at a hit of the search. */
  lemma HitSplits(d: seq<Byte>, all: seq<Byte>, i: nat, nul: bool)
    requires i < |all| && EndsAt(d, all, i) && (nul <==> all[i] == 0) && TerminatorLength(d, nul) <= i + 1
    ensures var n := i + 1 - TerminatorLength(d, nul);
            all == all[..n] + (if nul then [0] else d) + all[i + 1..]
  {
    var n := i + 1 - TerminatorLength(d, nul);
    assert all[n..i + 1] == if nul then [0] else d;
    assert all == all[..n] + all[n..i + 1] + all[i + 1..];
  }

  lemma TakenFrom(d: seq<Byte>, all: seq<Byte>, i: nat, nul: bool, rest: seq<Byte>)
    requires i < |all| && EndsAt(d, all, i) && (nul <==> all[i] == 0) && TerminatorLength(d, nul) <= i + 1
    ensures var text := all[..i + 1 - TerminatorLength(d, nul)];
            EndedBy(d, all + rest, text, all[i + 1..] + rest)
  {
    HitSplits(d, all, i, nul);
    var text := all[..i + 1 - TerminatorLength(d, nul)];
    var t := if nul then [0] else d;
    assert all + rest == text + t + (all[i + 1..] + rest);
  }

  /** A hit in a new chunk is a hit in the cached bytes and the chunk together. */
  lemma HitInChunk(d: seq<Byte>, cached: seq<Byte>, chunk: seq<Byte>, j: nat)
    requires Matched(d, cached, |cached|, j) && Scan(d, chunk, 0, j).Hit?
    ensures var all := cached + chunk; var i := |cached| + Scan(d, chunk, 0, j).index;
            EndsAt(d, all, i) && TerminatorLength(d, Scan(d, chunk, 0, j).nul) <= i + 1
  {
    var all := cached + chunk;
    assert all[|cached| - j..|cached|] == cached[|cached| - j..|cached|];
    ScanShift(d, cached, chunk, 0, j);
    ScanSound(d, all, |cached|, j);
  }

  lemma AfterHitPending(low: Low, chunk: seq<Byte>, i: nat)
    requires i < |chunk|
    ensures Pending(AfterHit(low, chunk, i)) == chunk[i + 1..] + low.Rest()
  {
  }

  lemma HitConserves(s: State, d: seq<Byte>, low: Low, chunk: seq<Byte>, i: nat, nul: bool)
    requires i < |chunk| && (nul <==> chunk[i] == 0) && TerminatorLength(d, nul) <= |Cached(s)| + i + 1
    requires EndsAt(d, Cached(s) + chunk, |Cached(s)| + i)
    requires s.low.Rest() == chunk + low.Rest()
    ensures var text := (Cached(s) + chunk)[..|Cached(s)| + i + 1 - TerminatorLength(d, nul)];
            EndedBy(d, Pending(s), text, Pending(AfterHit(low, chunk, i)))
  {
    hide Low.Rest, EndsAt, EndedBy;
    var cached, all := Cached(s), Cached(s) + chunk;
    Assoc(cached, chunk, low.Rest());
    assert all[|cached| + i] == chunk[i];
    TakenFrom(d, all, |cached| + i, nul, low.Rest());
    assert all[|cached| + i + 1..] == chunk[i + 1..];
    AfterHitPending(low, chunk, i);
  }

  lemma AppendedPending(s: State, low: Low, chunk: seq<Byte>, waiting: bool)
    requires s.low.Rest() == chunk + low.Rest()
    ensures Pending(State(low, Some(Cached(s) + chunk), waiting)) == Pending(s)
    ensures chunk == [] ==> Pending(State(low, s.buffer, waiting)) == Pending(s) && Cached(s) + chunk == Cached(s)
  {
    Assoc(Cached(s), chunk, low.Rest());
  }

  lemma ChunkConserves(decodes: seq<Byte> -> bool, s: State, d: seq<Byte>, j: nat, low: Low, chunk: seq<Byte>)
    requires Matched(d, Cached(s), |Cached(s)|, j)
    requires s.low.Rest() == chunk + low.Rest()
    ensures var (s', r) := TakeChunk(decodes, s, d, Scan(d, chunk, 0, j), low, chunk);
            if r.Text? then Takes(d, s, r.bytes, s') else Pending(s') == Pending(s)
  {
    hide Low.Rest, Pending, EndedBy;
    var found := Scan(d, chunk, 0, j);
    if found.Hit? {
      HitInChunk(d, Cached(s), chunk, j);
      HitConserves(s, d, low, chunk, found.index, found.nul);
    }
    AppendedPending(s, low, chunk, true);
    AppendedPending(s, low, chunk, s.waiting);
  }

  /** A try that finds an end in the cache. */
  lemma CacheConserves(page: PageSize, decodes: seq<Byte> -> bool, s: State, d: seq<Byte>, i: nat, nul: bool)
    requires d != [] && ScanCache(s, d) == Hit(i, nul)
    ensures var (s', r) := TryFrom(page, decodes, s, d, Hit(i, nul));
            if r.Text? then Takes(d, s, r.bytes, s') else Pending(s') == Pending(s)
  {
    hide Low.Rest, EndsAt, EndedBy;
    ScanSound(d, Cached(s), 0, 0);
    TakenFrom(d, Cached(s), i, nul, s.low.Rest());
    hide Scan;
  }

  lemma CacheMatched(s: State, d: seq<Byte>)
    requires d != [] && ScanCache(s, d).Miss?
    ensures Matched(d, Cached(s), |Cached(s)|, ScanCache(s, d).matched)
  {
    hide EndsAt;
    ScanSound(d, Cached(s), 0, 0);
  }

  lemma MissCases(page: PageSize, decodes: seq<Byte> -> bool, s: State, d: seq<Byte>)
    requires d != [] && ScanCache(s, d).Miss?
    ensures s.low.AtEnd() ==> TryTill(page, decodes, s, d) == Finish(decodes, s)
    ensures !s.low.AtEnd() ==>
      var (low, chunk) := s.low.Read(page);
      TryTill(page, decodes, s, d) == TakeChunk(decodes, s, d, Scan(d, chunk, 0, ScanCache(s, d).matched), low, chunk)
  {
    hide ScanCache, Scan, TakeChunk, Finish, Low.Read, Low.AtEnd;
  }

  /** Whatever the delimiter and however the input arrives, a try neither loses nor invents a byte. */
  lemma TryConserves(page: PageSize, decodes: seq<Byte> -> bool, s: State, d: seq<Byte>)
    ensures var (s', r) := TryTill(page, decodes, s, d);
            if r.Text? then Takes(d, s, r.bytes, s') else Pending(s') == Pending(s)
  {
    hide ScanCache, Scan, TakeChunk, Finish, TryFrom, Takes, Pending, Low.Rest, Low.Read, Low.AtEnd, Matched;
    if d != [] {
      var found := ScanCache(s, d);
      if found.Hit? {
        CacheConserves(page, decodes, s, d, found.index, found.nul);
      } else {
        MissCases(page, decodes, s, d);
        CacheMatched(s, d);
        if s.low.AtEnd() {
          FinishConserves(decodes, s, d);
        } else {
          var (low, chunk) := s.low.Read(page);
          ChunkConserves(decodes, s, d, found.matched, low, chunk);
        }
      }
    }
  }

  lemma FinishConserves(decodes: seq<Byte> -> bool, s: State, d: seq<Byte>)
    requires s.low.AtEnd()
    ensures var (s', r) := Finish(decodes, s);
            if r.Text? then Takes(d, s, r.bytes, s') else Pending(s') == Pending(s)
  {
    assert Pending(s) == Cached(s);
    assert Pending(State(s.low, None, false)) == [];
  }

  lemma {:induction false} ReadTillConserves(page: PageSize, decodes: seq<Byte> -> bool, s: State, d: seq<Byte>)
    ensures var (s', r) := ReadTill(page, decodes, s, d);
            if r.Text? then Takes(d, s, r.bytes, s') else Pending(s') == Pending(s)
    decreases s.low.Fuel()
  {
    hide TryTill, EndedBy, Pending, Low.Fuel, AtEndOfStream;
    TryConserves(page, decodes, s, d);
    var (s', r) := TryTill(page, decodes, s, d);
    if r == Nothing && !AtEndOfStream(s') { ReadTillConserves(page, decodes, s', d); }
  }

  // Simple delimiters

  ghost predicate IsEnd(d: seq<Byte>, b: Byte)
  {
    b == 0 || d == [b]
  }

  ghost predicate NoEnd(d: seq<Byte>, s: seq<Byte>)
  {
    forall k :: 0 <= k < |s| ==> !IsEnd(d, s[k])
  }

  lemma EndBefore(d: seq<Byte>, s: seq<Byte>, i: nat, k: nat) returns (z: nat)
    requires Simple(d) && k < i <= |s| && EndsAt(d, s, k)
    ensures z < |s[..i]| && IsEnd(d, s[..i][z])
  {
    if 0 in d {
      z := ZeroBeforeEnd(d, s, k);
    } else {
      z := k;
      assert s[k + 1 - |d|..k + 1] == [s[k]];
    }
  }

  /** For a simple delimiter the promised end is the first byte that is an end by itself. */
  lemma SimpleEnd(d: seq<Byte>, s: seq<Byte>, i: nat)
    requires Simple(d) && i <= |s| && NoEnd(d, s[..i]) && (i < |s| ==> IsEnd(d, s[i]))
    ensures FirstEnd(d, s) == i
  {
    forall k | 0 <= k < i ensures !EndsAt(d, s, k) {
      assert !IsEnd(d, s[..i][k]);
      if EndsAt(d, s, k) { var z := EndBefore(d, s, i, k); }
    }
    FirstEndIs(d, s, i) by {
      if i < |s| && d == [s[i]] { assert s[i + 1 - |d|..i + 1] == d; }
    }
  }

  lemma SimpleEndIsEnd(d: seq<Byte>, s: seq<Byte>)
    requires Simple(d)
    ensures NoEnd(d, s[..FirstEnd(d, s)])
    ensures FirstEnd(d, s) < |s| ==> IsEnd(d, s[FirstEnd(d, s)])
  {
    var i := 0;
    while i < |s| && !IsEnd(d, s[i])
      invariant 0 <= i <= |s| && NoEnd(d, s[..i])
    {
      i := i + 1;
    }
    SimpleEnd(d, s, i);
  }

  lemma SimpleEndAfter(d: seq<Byte>, a: seq<Byte>, b: seq<Byte>)
    requires Simple(d)
    ensures FirstEnd(d, a) == |a| ==> FirstEnd(d, a + b) == |a| + FirstEnd(d, b)
    ensures FirstEnd(d, a) < |a| ==> FirstEnd(d, a + b) == FirstEnd(d, a)
  {
    SimpleEndIsEnd(d, a);
    SimpleEndIsEnd(d, b);
    var e := if FirstEnd(d, a) == |a| then |a| + FirstEnd(d, b) else FirstEnd(d, a);
    forall k | 0 <= k < e ensures !IsEnd(d, (a + b)[..e][k]) {
      if k < |a| {
        assert (a + b)[k] == a[..FirstEnd(d, a)][k];
      } else {
        assert (a + b)[k] == b[..FirstEnd(d, b)][k - |a|];
      }
    }
    SimpleEnd(d, a + b, e);
  }

  lemma SimpleScan(d: seq<Byte>, s: seq<Byte>)
    requires Simple(d)
    ensures match Scan(d, s, 0, 0)
            case Hit(i, _) => i == FirstEnd(d, s) && i < |s|
            case Miss(_) => FirstEnd(d, s) == |s|
  {
    if 0 in d { NulScan(d, s, 0, 0); } else { ConstantScan(d, s, 0, 0); }
  }

  /** What the search in a new chunk has to find, given what was seen in the cache. */
  ghost predicate ChunkAgrees(d: seq<Byte>, cached: seq<Byte>, chunk: seq<Byte>, found: ScanResult)
  {
    match found
    case Hit(i, nul) =>
      && i < |chunk| && (nul <==> chunk[i] == 0) && TerminatorLength(d, nul) <= |cached| + i + 1
      && FirstEnd(d, cached + chunk) == |cached| + i
    case Miss(_) => FirstEnd(d, cached + chunk) == |cached + chunk|
  }

  lemma ChunkScan(d: seq<Byte>, s: State, chunk: seq<Byte>)
    requires Simple(d) && Coherent(s, d) && ScanCache(s, d).Miss?
    ensures ChunkAgrees(d, Cached(s), chunk, Scan(d, chunk, 0, ScanCache(s, d).matched))
  {
    var cached, j := Cached(s), ScanCache(s, d).matched;
    if s.waiting {
      SimpleScan(d, chunk);
      SimpleEndAfter(d, cached, chunk);
    } else {
      SimpleScan(d, cached + chunk);
      ScanAppend(d, cached, chunk, 0, 0);
      ScanShift(d, cached, chunk, 0, j);
    }
  }

  /** The promise does not look beyond the first end. */
  lemma PromiseAppend(decodes: seq<Byte> -> bool, d: seq<Byte>, all: seq<Byte>, rest: seq<Byte>, e: nat)
    requires Simple(d) && FirstEnd(d, all) == e < |all|
    ensures TerminatorLength(d, all[e] == 0) <= e + 1
    ensures var text := all[..e + 1 - TerminatorLength(d, all[e] == 0)];
            if decodes(text) then Kept(decodes, d, all + rest, Text(text), all[e + 1..] + rest)
            else Kept(decodes, d, all + rest, InvalidEncoding, all + rest)
  {
    SimpleEndAfter(d, all, rest);
    var n := e + 1 - TerminatorLength(d, all[e] == 0);
    assert (all + rest)[..n] == all[..n];
    assert (all + rest)[e + 1..] == all[e + 1..] + rest;
  }

  /** The promised outcome for the bytes `p`, with `rest` left over. */
  ghost predicate Kept(decodes: seq<Byte> -> bool, d: seq<Byte>, p: seq<Byte>, r: Outcome, rest: seq<Byte>)
    requires |d| > 0
  {
    Promise(decodes, d, p) == (r, rest)
  }

  ghost predicate Keeps(decodes: seq<Byte> -> bool, d: seq<Byte>, s: State, s': State, r: Outcome)
    requires |d| > 0
  {
    Kept(decodes, d, Pending(s), r, Pending(s'))
  }

  /** One try keeps the promise, or waits with every byte kept. */
  ghost predicate Advances(decodes: seq<Byte> -> bool, d: seq<Byte>, s: State, s': State, r: Outcome)
    requires |d| > 0
  {
    if r == Nothing && !AtEndOfStream(s')
    then Pending(s') == Pending(s) && Coherent(s', d) && !Drained(s')
    else Keeps(decodes, d, s, s', r)
  }

  lemma MissAdvances(decodes: seq<Byte> -> bool, s: State, d: seq<Byte>, low: Low, chunk: seq<Byte>)
    requires |d| > 0 && !Drained(s) && FirstEnd(d, Cached(s) + chunk) == |Cached(s) + chunk|
    requires s.low.Rest() == chunk + low.Rest()
    ensures var s' := State(low, if chunk == [] then s.buffer else Some(Cached(s) + chunk), true);
            Advances(decodes, d, s, s', Nothing)
  {
    var s' := State(low, if chunk == [] then s.buffer else Some(Cached(s) + chunk), true);
    AppendedPending(s, low, chunk, true);
    assert Cached(s') == Cached(s) + chunk;
    if AtEndOfStream(s') { assert Pending(s') == []; }
  }

  lemma HitKept(decodes: seq<Byte> -> bool, d: seq<Byte>, cached: seq<Byte>, chunk: seq<Byte>, rest: seq<Byte>,
      i: nat, nul: bool)
    requires Simple(d) && i < |chunk| && (nul <==> chunk[i] == 0)
    requires FirstEnd(d, cached + chunk) == |cached| + i
    ensures TerminatorLength(d, nul) <= |cached| + i + 1
    ensures var all := cached + chunk;
            var text := all[..|cached| + i + 1 - TerminatorLength(d, nul)];
            if decodes(text) then Kept(decodes, d, cached + (chunk + rest), Text(text), chunk[i + 1..] + rest)
            else Kept(decodes, d, cached + (chunk + rest), InvalidEncoding, cached + (chunk + rest))
  {
    var all := cached + chunk;
    Assoc(cached, chunk, rest);
    assert all[|cached| + i] == chunk[i];
    PromiseAppend(decodes, d, all, rest, |cached| + i);
    assert all[|cached| + i + 1..] == chunk[i + 1..];
  }

  lemma HitKeeps(decodes: seq<Byte> -> bool, s: State, d: seq<Byte>, low: Low, chunk: seq<Byte>, i: nat, nul: bool)
    requires Simple(d) && i < |chunk| && (nul <==> chunk[i] == 0)
    requires FirstEnd(d, Cached(s) + chunk) == |Cached(s)| + i
    requires s.low.Rest() == chunk + low.Rest()
    ensures TerminatorLength(d, nul) <= |Cached(s)| + i + 1
    ensures var all := Cached(s) + chunk;
            var text := all[..|Cached(s)| + i + 1 - TerminatorLength(d, nul)];
            if decodes(text) then Keeps(decodes, d, s, AfterHit(low, chunk, i), Text(text))
            else Kept(decodes, d, Pending(s), InvalidEncoding, Pending(s))
  {
    HitKept(decodes, d, Cached(s), chunk, low.Rest(), i, nul);
    AfterHitPending(low, chunk, i);
  }

  /** A try that finds the end in the cache. */
  lemma CacheKeeps(decodes: seq<Byte> -> bool, s: State, d: seq<Byte>, i: nat, nul: bool)
    requires Simple(d) && i < |Cached(s)| && FirstEnd(d, Cached(s)) == i && (nul <==> Cached(s)[i] == 0)
    ensures var text := Cached(s)[..i + 1 - TerminatorLength(d, nul)];
            if decodes(text) then Keeps(decodes, d, s, State(s.low, Some(Cached(s)[i + 1..]), false), Text(text))
            else Keeps(decodes, d, s, s, InvalidEncoding)
  {
    PromiseAppend(decodes, d, Cached(s), s.low.Rest(), i);
  }

  /** A try at the end of the stream. */
  lemma FinishKeeps(decodes: seq<Byte> -> bool, s: State, d: seq<Byte>)
    requires |d| > 0 && s.low.AtEnd() && !Drained(s) && FirstEnd(d, Cached(s)) == |Cached(s)|
    ensures var (s', r) := Finish(decodes, s);
            Keeps(decodes, d, s, s', r) && (r == Nothing ==> AtEndOfStream(s'))
  {
    assert Pending(s) == Cached(s);
    assert Pending(State(s.low, None, false)) == [];
  }

  lemma HitAdvances(decodes: seq<Byte> -> bool, s: State, d: seq<Byte>, found: ScanResult, low: Low, chunk: seq<Byte>)
    requires Simple(d) && found.Hit? && ChunkAgrees(d, Cached(s), chunk, found)
    requires s.low.Rest() == chunk + low.Rest()
    ensures var (s', r) := TakeChunk(decodes, s, d, found, low, chunk);
            Keeps(decodes, d, s, s', r) && r != Nothing
  {
    hide Promise, FirstEnd, Low.Rest, Kept, Pending, AfterHit, EndsAt;
    HitKeeps(decodes, s, d, low, chunk, found.index, found.nul);
    AppendedPending(s, low, chunk, s.waiting);
  }

  lemma NextChunkAdvances(page: PageSize, decodes: seq<Byte> -> bool, s: State, d: seq<Byte>, j: nat)
    requires Simple(d) && Coherent(s, d) && !Drained(s) && ScanCache(s, d) == Miss(j) && !s.low.AtEnd()
    ensures var (s', r) := TryFrom(page, decodes, s, d, Miss(j)); Advances(decodes, d, s, s', r)
  {
    var (low, chunk) := s.low.Read(page);
    var found := Scan(d, chunk, 0, j);
    ChunkScan(d, s, chunk);
    if found.Hit? {
      HitAdvances(decodes, s, d, found, low, chunk);
    } else {
      MissAdvances(decodes, s, d, low, chunk);
    }
  }

  lemma CacheScan(s: State, d: seq<Byte>)
    requires Simple(d) && Coherent(s, d)
    ensures match ScanCache(s, d)
            case Hit(i, nul) => FirstEnd(d, Cached(s)) == i < |Cached(s)| && (nul <==> Cached(s)[i] == 0)
            case Miss(_) => FirstEnd(d, Cached(s)) == |Cached(s)|
  {
    SimpleScan(d, Cached(s));
  }

  lemma CacheAdvances(page: PageSize, decodes: seq<Byte> -> bool, s: State, d: seq<Byte>, i: nat, nul: bool)
    requires Simple(d) && ScanCache(s, d) == Hit(i, nul)
    requires FirstEnd(d, Cached(s)) == i < |Cached(s)| && (nul <==> Cached(s)[i] == 0)
    ensures var (s', r) := TryFrom(page, decodes, s, d, Hit(i, nul)); Advances(decodes, d, s, s', r)
  {
    hide Promise, FirstEnd, Low.Rest, Pending, Scan;
    CacheKeeps(decodes, s, d, i, nul);
  }

  lemma EndAdvances(page: PageSize, decodes: seq<Byte> -> bool, s: State, d: seq<Byte>, j: nat)
    requires Simple(d) && ScanCache(s, d) == Miss(j) && s.low.AtEnd() && !Drained(s)
    requires FirstEnd(d, Cached(s)) == |Cached(s)|
    ensures var (s', r) := TryFrom(page, decodes, s, d, Miss(j)); Advances(decodes, d, s, s', r)
  {
    hide Promise, FirstEnd, Low.Rest, Pending, Scan;
    FinishKeeps(decodes, s, d);
  }

  lemma TryIsTryFrom(page: PageSize, decodes: seq<Byte> -> bool, s: State, d: seq<Byte>)
    requires Simple(d)
    ensures |d| > 0 && TryTill(page, decodes, s, d) == TryFrom(page, decodes, s, d, ScanCache(s, d))
  {
  }

  lemma TryAdvances(page: PageSize, decodes: seq<Byte> -> bool, s: State, d: seq<Byte>)
    requires Simple(d) && Coherent(s, d) && !Drained(s)
    ensures var (s', r) := TryTill(page, decodes, s, d); Advances(decodes, d, s, s', r)
  {
    hide *;
    CacheScan(s, d);
    TryIsTryFrom(page, decodes, s, d);
    var found := ScanCache(s, d);
    if found.Hit? {
      CacheAdvances(page, decodes, s, d, found.index, found.nul);
    } else if s.low.AtEnd() {
      EndAdvances(page, decodes, s, d, found.matched);
    } else {
      NextChunkAdvances(page, decodes, s, d, found.matched);
    }
  }

  lemma {:induction false} ReadTillKeeps(page: PageSize, decodes: seq<Byte> -> bool, s: State, d: seq<Byte>)
    requires Simple(d) && Coherent(s, d) && !Drained(s)
    ensures var (s', r) := ReadTill(page, decodes, s, d); Keeps(decodes, d, s, s', r)
    decreases s.low.Fuel()
  {
    hide TryTill, Promise, Pending, Low.Fuel, AtEndOfStream, Drained, Coherent, Simple;
    TryAdvances(page, decodes, s, d);
    var (s', r) := TryTill(page, decodes, s, d);
    if r == Nothing && !AtEndOfStream(s') { ReadTillKeeps(page, decodes, s', d); }
  }

  // When the promise is broken

  ghost predicate DecodesAll(decodes: seq<Byte> -> bool)
  {
    forall bytes :: decodes(bytes)
  }

  /** While waiting, the cache is not searched: whatever it holds becomes part of the text. */
  lemma WaitingTrySwallows(page: PageSize, decodes: seq<Byte> -> bool, s: State, d: seq<Byte>)
    requires |d| > 0 && DecodesAll(decodes) && s.waiting && Cached(s) != []
    ensures var (s', r) := TryTill(page, decodes, s, d);
            if r.Text? then Cached(s) <= r.bytes
            else r == Nothing && s'.waiting && !AtEndOfStream(s') && Cached(s) <= Cached(s')
  {
    hide Low.Rest;
    if !s.low.AtEnd() {
      var (low, chunk) := s.low.Read(page);
      var found := Scan(d, chunk, 0, 0);
      assert found.Hit? ==> TerminatorLength(d, found.nul) <= found.index + 1;
    }
  }

  lemma {:induction false} WaitingSwallows(page: PageSize, decodes: seq<Byte> -> bool, s: State, d: seq<Byte>)
    requires |d| > 0 && DecodesAll(decodes) && s.waiting && Cached(s) != []
    ensures var (s', r) := ReadTill(page, decodes, s, d); r.Text? && Cached(s) <= r.bytes
    decreases s.low.Fuel()
  {
    hide TryTill, Low.Fuel, AtEndOfStream, DecodesAll;
    WaitingTrySwallows(page, decodes, s, d);
    var (s', r) := TryTill(page, decodes, s, d);
    if r == Nothing { WaitingSwallows(page, decodes, s', d); }
  }

  lemma DrainedReadsEmpty(page: PageSize, decodes: seq<Byte> -> bool, s: State, d: seq<Byte>)
    requires |d| > 0 && DecodesAll(decodes) && Drained(s)
    ensures ReadTill(page, decodes, s, d).1 == Text([])
  {
    assert Cached(s) == [] && TryTill(page, decodes, s, d).1 == Text([]);
  }

  /** An end in the cache is promised to come before the end of the cache. */
  lemma PromiseFromCache(decodes: seq<Byte> -> bool, s: State, d: seq<Byte>)
    requires Simple(d) && DecodesAll(decodes) && FirstEnd(d, Cached(s)) < |Cached(s)|
    ensures var r := Promise(decodes, d, Pending(s)).0; r.Text? && |r.bytes| < |Cached(s)|
  {
    SimpleEndAfter(d, Cached(s), s.low.Rest());
  }

  /**
   * Main result: reading up to a delimiter of one byte, from any state of the stream and however the
   * input arrives, gives what is promised if and only if the cache holds no end that was skipped by
   * waiting, and the stream is not at its end with an empty buffer left.
   */
  lemma ReadTillExactly(page: PageSize, decodes: seq<Byte> -> bool, s: State, d: seq<Byte>)
    requires Simple(d) && DecodesAll(decodes)
    ensures ReadTill(page, decodes, s, d).1 == Promise(decodes, d, Pending(s)).0 <==> Coherent(s, d) && !Drained(s)
  {
    hide ReadTill, Promise, FirstEnd, Low.Rest;
    if !Coherent(s, d) {
      WaitingSwallows(page, decodes, s, d);
      PromiseFromCache(decodes, s, d);
    } else if Drained(s) {
      DrainedReadsEmpty(page, decodes, s, d);
      DrainedPromise(decodes, s, d);
    } else {
      ReadTillKeeps(page, decodes, s, d);
    }
  }

  lemma DrainedPromise(decodes: seq<Byte> -> bool, s: State, d: seq<Byte>)
    requires |d| > 0 && Drained(s)
    ensures Promise(decodes, d, Pending(s)).0 == Nothing
  {
    assert Pending(s) == [];
  }

  // Delimiters that straddle reads

  /** Waiting with too few bytes to come: the delimiter that began in the cache is not seen. */
  lemma ShortTry(page: PageSize, decodes: seq<Byte> -> bool, s: State, d: seq<Byte>)
    requires DecodesAll(decodes) && s.waiting && Cached(s) != []
    requires |s.low.Rest()| < |d| && 0 !in s.low.Rest()
    ensures var (s', r) := TryTill(page, decodes, s, d);
            || r == Text(Pending(s))
            || (r == Nothing && s'.waiting && Cached(s') != [] && Pending(s') == Pending(s) && !AtEndOfStream(s')
                && |s'.low.Rest()| < |d| && 0 !in s'.low.Rest())
  {
    if s.low.AtEnd() {
      assert Pending(s) == Cached(s);
    } else {
      var (low, chunk) := s.low.Read(page);
      assert s.low.Rest() == chunk + low.Rest();
      TooShort(d, chunk, 0, 0);
      AppendedPending(s, low, chunk, true);
    }
  }

  lemma {:induction false} ShortReads(page: PageSize, decodes: seq<Byte> -> bool, s: State, d: seq<Byte>)
    requires DecodesAll(decodes) && s.waiting && Cached(s) != []
    requires |s.low.Rest()| < |d| && 0 !in s.low.Rest()
    ensures ReadTill(page, decodes, s, d).1 == Text(Pending(s))
    decreases s.low.Fuel()
  {
    hide TryTill, Low.Fuel, Low.Rest, AtEndOfStream, DecodesAll, Pending;
    ShortTry(page, decodes, s, d);
    var (s', r) := TryTill(page, decodes, s, d);
    if r == Nothing { ShortReads(page, decodes, s', d); }
  }

  /** A delimiter arriving in two pieces is delivered as text. */
  lemma SplitDelimiterMissed(page: PageSize, decodes: seq<Byte> -> bool, d: seq<Byte>)
    requires |d| >= 2 && 0 !in d && DecodesAll(decodes)
    ensures ReadTill(page, decodes, Fresh(d, [1]), d).1 == Text(d)
    ensures Promise(decodes, d, d).0 == Text([])
  {
    var s := Fresh(d, [1]);
    var (low, chunk) := s.low.Read(page);
    assert chunk == d[..1] && low == Low(d, 1, []) && low.Rest() == d[1..];
    TooShort(d, [], 0, 0);
    TooShort(d, chunk, 0, 0);
    var s1 := State(low, Some([] + chunk), true);
    assert TryTill(page, decodes, s, d) == (s1, Nothing);
    assert Cached(s1) == d[..1] && Pending(s1) == d;
    ShortReads(page, decodes, s1, d);
    WholeIsEnd(d);
  }

  lemma WholeIsEnd(d: seq<Byte>)
    requires |d| > 0 && 0 !in d
    ensures FirstEnd(d, d) == |d| - 1 && d[|d| - 1] != 0
  {
    assert d[|d| - 1] in d;
    assert d[0..|d|] == d;
    forall k | 0 <= k < |d| - 1 ensures !EndsAt(d, d, k) { assert d[k] in d; }
    FirstEndIs(d, d, |d| - 1);
  }

  /** The first text read from a fresh stream is the promised one, for every content and every way it arrives. */
  ghost predicate SplitIndependent(d: seq<Byte>)
    requires |d| > 0
  {
    forall page: PageSize, file: seq<Byte>, plan: seq<nat> :: DeliversPromise(page, file, plan, d)
  }

  ghost predicate DeliversPromise(page: PageSize, file: seq<Byte>, plan: seq<nat>, d: seq<Byte>)
    requires |d| > 0
  {
    ReadTill(page, _ => true, Fresh(file, plan), d).1 == Promise(_ => true, d, file).0
  }

  /**
   * Main result: the first text read up to a delimiter is independent of how the input is split exactly for delimiters
   * of one byte and those that contain a zero byte. Module StreamTexts has what comes of reading on.
   */
  lemma SplitIndependentIff(d: seq<Byte>)
    requires |d| > 0
    ensures SplitIndependent(d) <==> Simple(d)
  {
    if Simple(d) {
      forall page: PageSize, file: seq<Byte>, plan: seq<nat> ensures DeliversPromise(page, file, plan, d) {
        assert Pending(Fresh(file, plan)) == file;
        ReadTillKeeps(page, _ => true, Fresh(file, plan), d);
      }
    } else {
      var page: PageSize := 4096;
      SplitDelimiterMissed(page, _ => true, d);
      assert !DeliversPromise(page, d, [1], d);
    }
  }

  // Keeping the cache coherent

  /** After plain reads the cache may hold skipped ends exactly if it was refilled while waiting. */
  lemma ReadCoherentIff(buffer: Option<seq<Byte>>, waiting: bool, length: nat, d: seq<Byte>)
    requires Simple(d) && forall low :: Coherent(State(low, buffer, waiting), d)
    ensures (forall low :: Coherent(Read(State(low, buffer, waiting), length).0, d)) <==>
            !(waiting && (buffer.None? || buffer.value == []) && length < MIN_READ_SIZE)
  {
    var low0 := Low([], 0, []);
    assert Coherent(State(low0, buffer, waiting), d);
    if waiting && (buffer.None? || buffer.value == []) && length < MIN_READ_SIZE {
      var file: seq<Byte> := seq(length + 1, _ => 0);
      var s := State(Low(file, 0, []), buffer, waiting);
      var s' := Read(s, length).0;
      assert s.low.Rest() == file;
      assert Cached(s') == [0];
      SimpleEnd(d, [0], 0);
      assert !Coherent(s', d);
    } else {
      forall low ensures Coherent(Read(State(low, buffer, waiting), length).0, d) {
        var s := State(low, buffer, waiting);
        if waiting && Cached(s) != [] && length < |Cached(s)| {
          assert Cached(s) == Cached(s)[..length] + Cached(s)[length..];
          SimpleEndAfter(d, Cached(s)[..length], Cached(s)[length..]);
        }
      }
    }
  }

  lemma UnreadCoherentIff(s: State, bytes: seq<Byte>, d: seq<Byte>)
    requires Simple(d) && Coherent(s, d)
    ensures Coherent(Unread(s, bytes), d) <==> !s.waiting || FirstEnd(d, bytes) == |bytes|
  {
    assert Cached(Unread(s, bytes)) == bytes + Cached(s);
    SimpleEndAfter(d, bytes, Cached(s));
  }

  // Readiness, from src/OFKernelEventObserver.m

  /** The streams that `of_processReadBuffers` reports as ready. */
  predicate Reported(s: State)
  {
    |Cached(s)| > 0 && !s.waiting
  }

  /** A try that gives nothing ends the reports; one that gives text leaves them to the cache. */
  lemma TryReports(page: PageSize, decodes: seq<Byte> -> bool, s: State, d: seq<Byte>)
    requires |d| > 0
    ensures var (s', r) := TryTill(page, decodes, s, d);
            (r == Nothing ==> !Reported(s')) && (r.Text? ==> (Reported(s') <==> Cached(s') != []))
  {
  }

  // Lines

  lemma {:induction false} ReadLineIsReadTill(page: PageSize, decodes: seq<Byte> -> bool, s: State)
    ensures var (s', r) := ReadTill(page, line => decodes(Strip(line)), s, [NEWLINE]);
            ReadLine(page, decodes, s) == (s', StripOutcome(r))
    decreases s.low.Fuel()
  {
    hide Low.Fuel, AtEndOfStream;
    var (s', r) := TryTill(page, line => decodes(Strip(line)), s, [NEWLINE]);
    if r == Nothing && !AtEndOfStream(s') { ReadLineIsReadTill(page, decodes, s'); }
  }

  /** A line that begins with cached bytes among which there is an end is not the promised one. */
  lemma SwallowedLine(decodes: seq<Byte> -> bool, s: State, line: seq<Byte>)
    requires DecodesAll(decodes) && FirstEnd([NEWLINE], Cached(s)) < |Cached(s)| && Cached(s) <= line
    ensures Text(Strip(line)) != StripOutcome(Promise(decodes, [NEWLINE], Pending(s)).0)
  {
    var cached := Cached(s);
    var e := FirstEnd([NEWLINE], cached);
    SimpleEndAfter([NEWLINE], cached, s.low.Rest());
    SimpleEndIsEnd([NEWLINE], cached);
    assert Promise(decodes, [NEWLINE], Pending(s)).0 == Text(Pending(s)[..e]);
    assert line[e] == cached[e];
  }

  /** A line is the promised one, without the carriage return, from exactly the same states as any other text. */
  lemma ReadLineExactly(page: PageSize, decodes: seq<Byte> -> bool, s: State)
    requires DecodesAll(decodes)
    ensures var (s', r) := ReadLine(page, decodes, s);
            var (promised, rest) := Promise(decodes, [NEWLINE], Pending(s));
            && (r == StripOutcome(promised) <==> Coherent(s, [NEWLINE]) && !Drained(s))
            && (r == StripOutcome(promised) ==> Pending(s') == rest)
  {
    hide ReadTill, ReadLine, Promise, FirstEnd, Low.Rest, Strip;
    var f := (line: seq<Byte>) => decodes(Strip(line));
    StrippedDecodes(decodes, f);
    ReadLineIsReadTill(page, decodes, s);
    PromiseDecodesAll(decodes, f, [NEWLINE], Pending(s));
    if !Coherent(s, [NEWLINE]) {
      WaitingSwallows(page, f, s, [NEWLINE]);
      SwallowedLine(decodes, s, ReadTill(page, f, s, [NEWLINE]).1.bytes);
    } else if Drained(s) {
      DrainedReadsEmpty(page, f, s, [NEWLINE]);
      DrainedPromise(decodes, s, [NEWLINE]);
    } else {
      ReadTillKeeps(page, f, s, [NEWLINE]);
    }
  }

  lemma StrippedDecodes(decodes: seq<Byte> -> bool, f: seq<Byte> -> bool)
    requires DecodesAll(decodes) && forall line :: f(line) == decodes(Strip(line))
    ensures DecodesAll(f)
  {
  }

  lemma PromiseDecodesAll(decodes: seq<Byte> -> bool, f: seq<Byte> -> bool, d: seq<Byte>, p: seq<Byte>)
    requires |d| > 0 && DecodesAll(decodes) && DecodesAll(f)
    ensures Promise(decodes, d, p) == Promise(f, d, p)
  {
  }

  // Seeking, from src/OFSeekableStream.m

  /** Where the next byte comes from. */
  function Position(s: State): int
  {
    s.low.pos - |Cached(s)|
  }

  /** The cache holds the bytes of the file just before the low-level position. */
  ghost predicate InSync(s: State)
  {
    && 0 <= Position(s)
    && (Cached(s) != [] ==> s.low.pos <= |s.low.file|)
    && (Cached(s) != [] ==> Cached(s) == s.low.file[Position(s)..s.low.pos])
  }

  function From(file: seq<Byte>, pos: nat): seq<Byte>
  {
    if pos <= |file| then file[pos..] else []
  }

  lemma InSyncPending(s: State)
    requires InSync(s)
    ensures Pending(s) == From(s.low.file, Position(s))
  {
    if Cached(s) == [] {
      assert Pending(s) == s.low.Rest();
    } else {
      var f := s.low.file;
      assert f[Position(s)..] == f[Position(s)..s.low.pos] + f[s.low.pos..];
    }
  }

  /** Seeking agrees with the file without a cache, and drops what was unread. */
  lemma SeekAgrees(s: State, offset: int, whence: Whence)
    ensures var (s', r) := Seek(s, offset, whence);
            var origin := if whence == SeekCur then Position(s) else 0;
            var target := SeekTarget(Low(s.low.file, 0, []), offset, whence) + origin;
            if target < 0 then r == None && s' == s
            else r == Some(target) && InSync(s') && Position(s') == target && Pending(s') == From(s.low.file, target)
  {
    var s' := Seek(s, offset, whence).0;
    if s' != s { assert Cached(s') == []; }
    if InSync(s') { InSyncPending(s'); }
  }

  /** Low-level reads stay in the file. */
  ghost predicate LowAdvanced(low: Low, low': Low)
  {
    low'.file == low.file && low.pos <= low'.pos && (low'.pos == low.pos || low'.pos <= |low.file|)
  }

  lemma SliceOfFile(f: seq<Byte>, p: nat, taken: seq<Byte>, cached: seq<Byte>, p': nat)
    requires p' <= |f| && (if p <= |f| then f[p..] else []) == taken + (cached + f[p'..])
    ensures (p <= |f| || cached == []) && (p <= |f| ==> p' - |cached| == p + |taken| && cached == f[p + |taken|..p'])
  {
    if p <= |f| {
      assert |f[p..]| == |taken| + |cached| + |f[p'..]|;
      forall k | 0 <= k < |cached| ensures cached[k] == f[p + |taken| + k] {
        assert (taken + (cached + f[p'..]))[|taken| + k] == cached[k];
        assert f[p..][|taken| + k] == f[p + |taken| + k];
      }
    }
  }

  /** Taking the bytes `taken` off a synchronised stream moves it on by as many. */
  lemma StaysInSync(s: State, taken: seq<Byte>, s': State)
    requires InSync(s) && LowAdvanced(s.low, s'.low) && Pending(s) == taken + Pending(s')
    ensures InSync(s') && Position(s') == Position(s) + |taken|
  {
    InSyncPending(s);
    var f, p' := s.low.file, s'.low.pos;
    if p' <= |f| {
      SliceOfFile(f, Position(s), taken, Cached(s'), p');
    } else {
      assert Pending(s) == [] && |taken + Pending(s')| == |taken| + |Cached(s')|;
    }
  }

  // Runs

  datatype Op =
    | ReadOp(length: nat)
    | ExactOp(length: nat)
    | TryOp(delimiter: seq<Byte>)
    | TillOp(delimiter: seq<Byte>)
    | TryLineOp
    | LineOp
    | UnreadOp(bytes: seq<Byte>)
    | SeekOp(offset: int, whence: Whence)

  function Step(page: PageSize, decodes: seq<Byte> -> bool, s: State, op: Op): State
  {
    match op
    case ReadOp(length) => Read(s, length).0
    case ExactOp(length) => ReadExactly(s, length, []).0
    case TryOp(d) => TryTill(page, decodes, s, d).0
    case TillOp(d) => ReadTill(page, decodes, s, d).0
    case TryLineOp => TryLine(page, decodes, s).0
    case LineOp => ReadLine(page, decodes, s).0
    case UnreadOp(bytes) => Unread(s, bytes)
    case SeekOp(offset, whence) => Seek(s, offset, whence).0
  }

  function Run(page: PageSize, decodes: seq<Byte> -> bool, s: State, ops: seq<Op>): State
    decreases |ops|
  {
    if ops == [] then s else Run(page, decodes, Step(page, decodes, s, ops[0]), ops[1..])
  }

  /** Only bytes that were just read are unread. */
  ghost predicate GivesBack(s: State, op: Op)
  {
    op.UnreadOp? && op.bytes != [] ==>
      && |op.bytes| <= Position(s) <= |s.low.file|
      && op.bytes == s.low.file[Position(s) - |op.bytes|..Position(s)]
  }

  ghost predicate AllGiveBack(page: PageSize, decodes: seq<Byte> -> bool, s: State, ops: seq<Op>)
    decreases |ops|
  {
    ops != [] ==> GivesBack(s, ops[0]) && AllGiveBack(page, decodes, Step(page, decodes, s, ops[0]), ops[1..])
  }

  /** What every reading operation does to the pending bytes: a prefix of them is taken. */
  ghost predicate Consumes(s: State, s': State)
  {
    LowAdvanced(s.low, s'.low) && |Pending(s')| <= |Pending(s)|
    && Pending(s) == Pending(s)[..|Pending(s)| - |Pending(s')|] + Pending(s')
  }

  lemma ConsumesPrefix(s: State, taken: seq<Byte>, s': State)
    requires LowAdvanced(s.low, s'.low) && Pending(s) == taken + Pending(s')
    ensures Consumes(s, s')
  {
    assert Pending(s)[..|taken|] == taken;
  }

  lemma ConsumesThen(s: State, s': State, s'': State)
    requires Consumes(s, s') && Consumes(s', s'')
    ensures Consumes(s, s'')
  {
    hide Pending;
    var p, p', p'' := Pending(s), Pending(s'), Pending(s'');
    var a, b := p[..|p| - |p'|], p'[..|p'| - |p''|];
    Assoc(a, b, p'');
    ConsumesPrefix(s, a + b, s'');
  }

  lemma ReadConsumes(s: State, length: nat)
    ensures Consumes(s, Read(s, length).0)
  {
    ReadConserves(s, length);
    var (s', bytes) := Read(s, length);
    assert LowAdvanced(s.low, s'.low) by { hide Pending; }
    ConsumesPrefix(s, bytes, s');
  }

  lemma {:induction false} ReadExactlyConsumes(s: State, length: nat, got: seq<Byte>)
    requires |got| <= length
    ensures Consumes(s, ReadExactly(s, length, got).0)
    decreases s.low.Fuel() + |Cached(s)|, length - |got|
  {
    if |got| == length || AtEndOfStream(s) {
      ConsumesPrefix(s, [], s);
    } else {
      ReadMoves(s, length - |got|);
      hide Consumes;
      ReadConsumes(s, length - |got|);
      var (s', bytes) := Read(s, length - |got|);
      ReadExactlyConsumes(s', length, got + bytes);
      ConsumesThen(s, s', ReadExactly(s, length, got).0);
    }
  }

  lemma TakesConsumes(s: State, d: seq<Byte>, text: seq<Byte>, s': State)
    requires LowAdvanced(s.low, s'.low) && (Takes(d, s, text, s') || Pending(s') == Pending(s))
    ensures Consumes(s, s')
  {
    var p' := Pending(s');
    if Pending(s) == text + d + p' {
      ConsumesPrefix(s, text + d, s');
    } else if Pending(s) == text + [0] + p' {
      ConsumesPrefix(s, text + [0], s');
    } else if Pending(s') == Pending(s) {
      assert Pending(s) == [] + p';
      ConsumesPrefix(s, [], s');
    } else {
      assert Pending(s) == text + p';
      ConsumesPrefix(s, text, s');
    }
  }

  lemma TryLow(page: PageSize, decodes: seq<Byte> -> bool, s: State, d: seq<Byte>)
    ensures LowAdvanced(s.low, TryTill(page, decodes, s, d).0.low)
  {
    hide Scan, EndsAt, Pending;
  }

  lemma TryConsumes(page: PageSize, decodes: seq<Byte> -> bool, s: State, d: seq<Byte>)
    ensures Consumes(s, TryTill(page, decodes, s, d).0)
  {
    TryConserves(page, decodes, s, d);
    var (s', r) := TryTill(page, decodes, s, d);
    hide Takes, TryTill, Pending;
    TryLow(page, decodes, s, d);
    TakesConsumes(s, d, if r.Text? then r.bytes else [], s');
  }

  lemma {:induction false} ReadTillConsumes(page: PageSize, decodes: seq<Byte> -> bool, s: State, d: seq<Byte>)
    ensures Consumes(s, ReadTill(page, decodes, s, d).0)
    decreases s.low.Fuel()
  {
    hide TryTill, Consumes, Low.Fuel, AtEndOfStream;
    TryConsumes(page, decodes, s, d);
    var (s', r) := TryTill(page, decodes, s, d);
    if r == Nothing && !AtEndOfStream(s') {
      ReadTillConsumes(page, decodes, s', d);
      ConsumesThen(s, s', ReadTill(page, decodes, s', d).0);
    }
  }

  lemma UnreadInSync(s: State, bytes: seq<Byte>)
    requires InSync(s) && GivesBack(s, UnreadOp(bytes))
    ensures var s' := Unread(s, bytes); InSync(s') && Position(s') == Position(s) - |bytes|
  {
    var s' := Unread(s, bytes);
    assert Cached(s') == bytes + Cached(s);
    if bytes == [] { assert Cached(s') == Cached(s); }
  }

  /** One step keeps the cache in line with the file. */
  lemma StepInSync(page: PageSize, decodes: seq<Byte> -> bool, s: State, op: Op)
    requires InSync(s) && GivesBack(s, op)
    ensures InSync(Step(page, decodes, s, op)) && Step(page, decodes, s, op).low.file == s.low.file
  {
    hide InSync, Consumes;
    match op
    case ReadOp(length) => ReadConsumes(s, length); ConsumesInSync(s, Read(s, length).0);
    case ExactOp(length) => ReadExactlyConsumes(s, length, []); ConsumesInSync(s, ReadExactly(s, length, []).0);
    case TryOp(d) => TryConsumes(page, decodes, s, d); ConsumesInSync(s, TryTill(page, decodes, s, d).0);
    case TillOp(d) => ReadTillConsumes(page, decodes, s, d); ConsumesInSync(s, ReadTill(page, decodes, s, d).0);
    case TryLineOp =>
      TryConsumes(page, line => decodes(Strip(line)), s, [NEWLINE]);
      ConsumesInSync(s, TryLine(page, decodes, s).0);
    case LineOp =>
      ReadLineIsReadTill(page, decodes, s);
      ReadTillConsumes(page, line => decodes(Strip(line)), s, [NEWLINE]);
      ConsumesInSync(s, ReadLine(page, decodes, s).0);
    case UnreadOp(bytes) => UnreadInSync(s, bytes);
    case SeekOp(offset, whence) => SeekAgrees(s, offset, whence);
  }

  lemma ConsumesInSync(s: State, s': State)
    requires InSync(s) && Consumes(s, s')
    ensures InSync(s') && s'.low.file == s.low.file
  {
    StaysInSync(s, Pending(s)[..|Pending(s)| - |Pending(s')|], s');
  }

  /**
   * Main result: over every run in which only bytes that were read are unread, the next bytes are
   * those of the file at the current position, however the cache was filled.
   */
  lemma {:induction false} RunInSync(page: PageSize, decodes: seq<Byte> -> bool, s: State, ops: seq<Op>)
    requires InSync(s) && AllGiveBack(page, decodes, s, ops)
    ensures var s' := Run(page, decodes, s, ops);
            InSync(s') && Pending(s') == From(s.low.file, Position(s'))
    decreases |ops|
  {
    hide Step, InSync, GivesBack, Pending, From;
    if ops == [] {
      InSyncPending(s);
    } else {
      StepInSync(page, decodes, s, ops[0]);
      InSyncPosition(Step(page, decodes, s, ops[0]));
      RunInSync(page, decodes, Step(page, decodes, s, ops[0]), ops[1..]);
    }
  }

  lemma InSyncPosition(s: State)
    requires InSync(s)
    ensures 0 <= Position(s)
  {
  }

  /** Reading and unreading never bring the reports back: only another try does. */
  lemma {:induction false} QuietUntilTry(page: PageSize, decodes: seq<Byte> -> bool, s: State, ops: seq<Op>)
    requires s.waiting
    requires forall k :: 0 <= k < |ops| ==> ops[k].ReadOp? || ops[k].ExactOp? || ops[k].UnreadOp? || ops[k].SeekOp?
    ensures !Reported(Run(page, decodes, s, ops))
    decreases |ops|
  {
    if ops != [] {
      var s' := Step(page, decodes, s, ops[0]);
      assert s'.waiting by {
        if ops[0].ExactOp? { ReadExactlyWaits(s, ops[0].length, []); }
      }
      QuietUntilTry(page, decodes, s', ops[1..]);
    }
  }

  lemma {:induction false} ReadExactlyWaits(s: State, length: nat, got: seq<Byte>)
    requires |got| <= length
    ensures ReadExactly(s, length, got).0.waiting == s.waiting
    decreases s.low.Fuel() + |Cached(s)|, length - |got|
  {
    if |got| < length && !AtEndOfStream(s) {
      ReadMoves(s, length - |got|);
      var (s', bytes) := Read(s, length - |got|);
      ReadExactlyWaits(s', length, got + bytes);
    }
  }
}
