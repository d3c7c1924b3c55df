// Whole runs of operations on a cached stream: a ledger of every byte, and when the stream is reported.

module StreamRuns {
  import opened Bytes
  import opened Delimiters
  import opened Options
  import opened StreamLaws
  import opened Streams

  /** One operation: what it gave, the bytes that were and are to come, and those it took off their front */
  datatype Event = Event(op: Op, outcome: Outcome, before: seq<Byte>, after: seq<Byte>)
  {
    function Taken(): seq<Byte>
    {
      if |after| <= |before| then before[..|before| - |after|] else []
    }
  }

  /** What an operation returns; unreading and seeking return nothing of interest here. */
  function Gives(page: PageSize, decodes: seq<Byte> -> bool, s: State, op: Op): Outcome
  {
    match op
    case ReadOp(length) => Text(Read(s, length).1)
    case ExactOp(length) => ReadExactly(s, length, []).1
    case TryOp(d) => TryTill(page, decodes, s, d).1
    case TillOp(d) => ReadTill(page, decodes, s, d).1
    case TryLineOp => TryLine(page, decodes, s).1
    case LineOp => ReadLine(page, decodes, s).1
    case UnreadOp(_) => Nothing
    case SeekOp(_, _) => Nothing
  }

  function EventOf(page: PageSize, decodes: seq<Byte> -> bool, s: State, op: Op): Event
  {
    Event(op, Gives(page, decodes, s, op), Pending(s), Pending(Step(page, decodes, s, op)))
  }

  function Events(page: PageSize, decodes: seq<Byte> -> bool, s: State, ops: seq<Op>): seq<Event>
    decreases |ops|
  {
    if ops == [] then []
    else [EventOf(page, decodes, s, ops[0])] + Events(page, decodes, Step(page, decodes, s, ops[0]), ops[1..])
  }

  /** A text with its delimiter or a zero byte, or all there was */
  ghost predicate Ended(d: seq<Byte>, p: seq<Byte>, text: seq<Byte>, rest: seq<Byte>)
  {
    EndedBy(d, p, text, rest) || (p == text && rest == [])
  }

  ghost predicate LineEnded(p: seq<Byte>, line: seq<Byte>, rest: seq<Byte>)
  {
    exists raw :: Strip(raw) == line && Ended([NEWLINE], p, raw, rest)
  }

  /** What is returned is what was taken, and nothing else changed. */
  ghost predicate Accounted(file: seq<Byte>, e: Event)
  {
    match e.op
    case ReadOp(length) => e.outcome.Text? && |e.outcome.bytes| <= length && e.before == e.outcome.bytes + e.after
    case ExactOp(length) =>
      if length <= |e.before| then e.outcome == Text(e.before[..length]) && e.after == e.before[length..]
      else e.outcome == Truncated && e.after == []
    case TryOp(d) => if e.outcome.Text? then Ended(d, e.before, e.outcome.bytes, e.after) else e.after == e.before
    case TillOp(d) => if e.outcome.Text? then Ended(d, e.before, e.outcome.bytes, e.after) else e.after == e.before
    case TryLineOp => if e.outcome.Text? then LineEnded(e.before, e.outcome.bytes, e.after) else e.after == e.before
    case LineOp => if e.outcome.Text? then LineEnded(e.before, e.outcome.bytes, e.after) else e.after == e.before
    case UnreadOp(bytes) => e.after == bytes + e.before
    case SeekOp(_, _) => e.after == e.before || exists pos :: e.after == From(file, pos)
  }

  /** Each event begins with what the one before it left. */
  ghost predicate Chained(events: seq<Event>, before: seq<Byte>, after: seq<Byte>)
  {
    if events == [] then before == after
    else events[0].before == before && Chained(events[1..], events[0].after, after)
  }

  lemma TextIsEnded(d: seq<Byte>, s: State, text: seq<Byte>, s': State)
    requires Takes(d, s, text, s')
    ensures Ended(d, Pending(s), text, Pending(s'))
  {
  }

  lemma LineIsEnded(s: State, raw: seq<Byte>, s': State)
    requires Takes([NEWLINE], s, raw, s')
    ensures LineEnded(Pending(s), Strip(raw), Pending(s'))
  {
    hide Pending, Strip;
    TextIsEnded([NEWLINE], s, raw, s');
  }

  lemma LineAccounted(page: PageSize, decodes: seq<Byte> -> bool, s: State, op: Op)
    requires op.TryLineOp? || op.LineOp?
    ensures Accounted(s.low.file, EventOf(page, decodes, s, op))
  {
    hide TryTill, ReadTill, Takes, Pending, LineEnded, Strip;
    if op.TryLineOp? {
      var (s', r) := TryTill(page, line => decodes(Strip(line)), s, [NEWLINE]);
      TryConserves(page, line => decodes(Strip(line)), s, [NEWLINE]);
      if r.Text? { LineIsEnded(s, r.bytes, s'); }
    } else {
      hide ReadLine;
      var (s', r) := ReadTill(page, line => decodes(Strip(line)), s, [NEWLINE]);
      ReadLineIsReadTill(page, decodes, s);
      ReadTillConserves(page, line => decodes(Strip(line)), s, [NEWLINE]);
      if r.Text? { LineIsEnded(s, r.bytes, s'); }
    }
  }

  lemma StepAccounted(page: PageSize, decodes: seq<Byte> -> bool, s: State, op: Op)
    ensures Accounted(s.low.file, EventOf(page, decodes, s, op))
  {
    match op
    case ReadOp(length) => ReadConserves(s, length);
    case ExactOp(length) =>
      ReadExactlyDelivers(s, length, []);
      assert [] + Pending(s)[..if length <= |Pending(s)| then length else 0] ==
             Pending(s)[..if length <= |Pending(s)| then length else 0];
    case TryOp(d) => TryConserves(page, decodes, s, d);
    case TillOp(d) => ReadTillConserves(page, decodes, s, d);
    case TryLineOp => LineAccounted(page, decodes, s, op);
    case LineOp => LineAccounted(page, decodes, s, op);
    case UnreadOp(bytes) =>
      Assoc(bytes, Cached(s), s.low.Rest());
      assert Cached(Unread(s, bytes)) == bytes + Cached(s);
    case SeekOp(offset, whence) => SeekAgrees(s, offset, whence);
  }

  lemma StepKeepsFile(page: PageSize, decodes: seq<Byte> -> bool, s: State, op: Op)
    ensures Step(page, decodes, s, op).low.file == s.low.file
  {
    hide Read, ReadExactly, TryTill, ReadTill, TryLine, ReadLine;
    match op
    case ReadOp(length) => ReadConsumes(s, length);
    case ExactOp(length) => ReadExactlyConsumes(s, length, []);
    case TryOp(d) => TryConsumes(page, decodes, s, d);
    case TillOp(d) => ReadTillConsumes(page, decodes, s, d);
    case TryLineOp => LineKeepsFile(page, decodes, s);
    case LineOp =>
      ReadLineIsReadTill(page, decodes, s);
      ReadTillConsumes(page, line => decodes(Strip(line)), s, [NEWLINE]);
    case UnreadOp(bytes) =>
    case SeekOp(offset, whence) =>
  }

  lemma LineKeepsFile(page: PageSize, decodes: seq<Byte> -> bool, s: State)
    ensures TryLine(page, decodes, s).0.low.file == s.low.file
  {
    hide TryTill;
    TryConsumes(page, line => decodes(Strip(line)), s, [NEWLINE]);
  }

  /**
   * The ledger: over every run, with any unreads and seeks and however the input arrives, each operation returns
   * what it takes off the bytes that are to come, and no byte is lost or invented in between.
   */
  lemma {:induction false} RunLedger(page: PageSize, decodes: seq<Byte> -> bool, s: State, ops: seq<Op>)
    ensures var events := Events(page, decodes, s, ops);
            && |events| == |ops| && Chained(events, Pending(s), Pending(Run(page, decodes, s, ops)))
            && forall i :: 0 <= i < |ops| ==> events[i].op == ops[i] && Accounted(s.low.file, events[i])
    decreases |ops|
  {
    hide Step, Gives, Accounted, Pending;
    if ops != [] {
      var s' := Step(page, decodes, s, ops[0]);
      StepAccounted(page, decodes, s, ops[0]);
      StepKeepsFile(page, decodes, s, ops[0]);
      RunLedger(page, decodes, s', ops[1..]);
      var events := Events(page, decodes, s, ops);
      assert events[1..] == Events(page, decodes, s', ops[1..]);
      forall i | 0 <= i < |ops| ensures events[i].op == ops[i] && Accounted(s.low.file, events[i]) {
        if i > 0 { assert events[i] == events[1..][i - 1] && ops[i] == ops[1..][i - 1]; }
      }
    }
  }

  /** What was to come before some events, from what they took and gave back and what is to come after them */
  function ToCome(events: seq<Event>, after: seq<Byte>): seq<Byte>
  {
    if events == [] then after
    else
      var rest := ToCome(events[1..], after);
      match events[0].op
      case UnreadOp(bytes) => if |bytes| <= |rest| then rest[|bytes|..] else []
      case _ => events[0].Taken() + rest
  }

  lemma TakenIsPrefix(file: seq<Byte>, e: Event)
    requires Accounted(file, e) && !e.op.UnreadOp? && !e.op.SeekOp?
    ensures e.before == e.Taken() + e.after
  {
    match e.op
    case ReadOp(length) =>
    case ExactOp(length) =>
    case TryOp(d) => EndedTakes(d, e);
    case TillOp(d) => EndedTakes(d, e);
    case TryLineOp => LineTakes(e);
    case LineOp => LineTakes(e);
  }

  lemma EndedTakes(d: seq<Byte>, e: Event)
    requires e.after == e.before || (e.outcome.Text? && Ended(d, e.before, e.outcome.bytes, e.after))
    ensures e.before == e.Taken() + e.after
  {
    if e.after != e.before { EndedSplits(d, e.before, e.outcome.bytes, e.after); }
  }

  lemma LineTakes(e: Event)
    requires e.after == e.before || (e.outcome.Text? && LineEnded(e.before, e.outcome.bytes, e.after))
    ensures e.before == e.Taken() + e.after
  {
    hide Strip;
    if e.after != e.before {
      var raw :| Strip(raw) == e.outcome.bytes && Ended([NEWLINE], e.before, raw, e.after);
      EndedSplits([NEWLINE], e.before, raw, e.after);
    }
  }

  lemma EndedSplits(d: seq<Byte>, p: seq<Byte>, text: seq<Byte>, rest: seq<Byte>)
    requires Ended(d, p, text, rest)
    ensures |rest| <= |p| && p == p[..|p| - |rest|] + rest
  {
    if p == text + d + rest {
      assert p[..|p| - |rest|] == text + d;
    } else if p == text + [0] + rest {
      assert p[..|p| - |rest|] == text + [0];
    }
  }

  /** Without seeks, the bytes taken and what is still to come make up, after all that was unread, what was to come. */
  lemma {:induction false} RunBalances(page: PageSize, decodes: seq<Byte> -> bool, s: State, ops: seq<Op>)
    requires forall i :: 0 <= i < |ops| ==> !ops[i].SeekOp?
    ensures ToCome(Events(page, decodes, s, ops), Pending(Run(page, decodes, s, ops))) == Pending(s)
    decreases |ops|
  {
    hide Step, Gives, Pending, Accounted, Event.Taken;
    if ops != [] {
      var s' := Step(page, decodes, s, ops[0]);
      var e := EventOf(page, decodes, s, ops[0]);
      StepAccounted(page, decodes, s, ops[0]);
      RunBalances(page, decodes, s', ops[1..]);
      assert Events(page, decodes, s, ops)[1..] == Events(page, decodes, s', ops[1..]);
      if ops[0].UnreadOp? { UnreadPrefix(s.low.file, e); } else { TakenIsPrefix(s.low.file, e); }
    }
  }

  lemma UnreadPrefix(file: seq<Byte>, e: Event)
    requires e.op.UnreadOp? && Accounted(file, e)
    ensures |e.op.bytes| <= |e.after| && e.after[|e.op.bytes|..] == e.before
  {
  }

  // When the stream is reported

  /**
   * Operations that cannot put an end of the string behind the search: while waiting, no plain read that would
   * refill the cache and no unread of such an end, and no try for another end.
   */
  ghost predicate KeepsSearched(s: State, op: Op, d: seq<Byte>)
  {
    match op
    case ReadOp(length) => s.waiting && Cached(s) == [] ==> length >= MIN_READ_SIZE
    case ExactOp(length) => s.waiting ==> length <= |Cached(s)|
    case TryOp(e) => e == d
    case TillOp(e) => e == d
    case TryLineOp => d == [NEWLINE]
    case LineOp => d == [NEWLINE]
    case UnreadOp(bytes) => s.waiting ==> FirstEnd(d, bytes) == |bytes|
    case SeekOp(_, _) => true
  }

  ghost predicate AllKeepSearched(page: PageSize, decodes: seq<Byte> -> bool, s: State, ops: seq<Op>, d: seq<Byte>)
    decreases |ops|
  {
    ops != [] ==>
      KeepsSearched(s, ops[0], d) && AllKeepSearched(page, decodes, Step(page, decodes, s, ops[0]), ops[1..], d)
  }

  lemma ReadCoherent(s: State, length: nat, d: seq<Byte>)
    requires Simple(d) && Coherent(s, d) && KeepsSearched(s, ReadOp(length), d)
    ensures Coherent(Read(s, length).0, d)
  {
    if s.waiting && Cached(s) != [] && length < |Cached(s)| {
      assert Cached(s) == Cached(s)[..length] + Cached(s)[length..];
      SimpleEndAfter(d, Cached(s)[..length], Cached(s)[length..]);
    }
  }

  lemma ExactCoherent(s: State, length: nat, d: seq<Byte>)
    requires Simple(d) && Coherent(s, d) && KeepsSearched(s, ExactOp(length), d)
    ensures Coherent(ReadExactly(s, length, []).0, d)
  {
    ReadExactlyWaits(s, length, []);
    if s.waiting && length > 0 {
      ReadCoherent(s, length, d);
      assert !AtEndOfStream(s);
      assert |Read(s, length).1| == length;
      assert [] + Read(s, length).1 == Read(s, length).1;
    }
  }

  /** A try that delivers a text ends the waiting; the others leave a cache without an end. */
  lemma TryCoherent(page: PageSize, decodes: seq<Byte> -> bool, s: State, d: seq<Byte>)
    requires Simple(d) && Coherent(s, d) && DecodesAll(decodes)
    ensures Coherent(TryTill(page, decodes, s, d).0, d)
  {
    TryIsTryFrom(page, decodes, s, d);
    CacheScan(s, d);
    var found := ScanCache(s, d);
    if found.Miss? && !s.low.AtEnd() {
      var (low, chunk) := s.low.Read(page);
      ChunkScan(d, s, chunk);
      ChunkCoherent(decodes, s, d, Scan(d, chunk, 0, found.matched), low, chunk);
    }
  }

  lemma ChunkCoherent(decodes: seq<Byte> -> bool, s: State, d: seq<Byte>, found: ScanResult, low: Low, chunk: seq<Byte>)
    requires Simple(d) && Coherent(s, d) && DecodesAll(decodes) && ChunkAgrees(d, Cached(s), chunk, found)
    ensures found.Hit? ==> found.index < |chunk| && TerminatorLength(d, found.nul) <= |Cached(s)| + found.index + 1
    ensures Coherent(TakeChunk(decodes, s, d, found, low, chunk).0, d)
  {
    var all := Cached(s) + chunk;
    if found.Hit? {
      HitKept(decodes, d, Cached(s), chunk, [], found.index, found.nul);
    } else {
      if chunk == [] { assert all == Cached(s); }
    }
  }

  lemma {:induction false} TillCoherent(page: PageSize, decodes: seq<Byte> -> bool, s: State, d: seq<Byte>)
    requires Simple(d) && Coherent(s, d) && DecodesAll(decodes)
    ensures Coherent(ReadTill(page, decodes, s, d).0, d)
    decreases s.low.Fuel()
  {
    hide TryTill, Low.Fuel, AtEndOfStream, Coherent, Simple, DecodesAll;
    TryCoherent(page, decodes, s, d);
    var (s', r) := TryTill(page, decodes, s, d);
    if r == Nothing && !AtEndOfStream(s') { TillCoherent(page, decodes, s', d); }
  }

  lemma LineCoherent(page: PageSize, decodes: seq<Byte> -> bool, s: State)
    requires Coherent(s, [NEWLINE]) && DecodesAll(decodes)
    ensures Coherent(TryLine(page, decodes, s).0, [NEWLINE]) && Coherent(ReadLine(page, decodes, s).0, [NEWLINE])
  {
    hide TryTill, ReadTill, ReadLine, FirstEnd;
    var f := (line: seq<Byte>) => decodes(Strip(line));
    forall bytes ensures f(bytes) { assert decodes(Strip(bytes)); }
    assert DecodesAll(f);
    TryCoherent(page, f, s, [NEWLINE]);
    ReadLineIsReadTill(page, decodes, s);
    TillCoherent(page, f, s, [NEWLINE]);
  }

  lemma StepCoherent(page: PageSize, decodes: seq<Byte> -> bool, s: State, op: Op, d: seq<Byte>)
    requires Simple(d) && Coherent(s, d) && DecodesAll(decodes) && KeepsSearched(s, op, d)
    ensures Coherent(Step(page, decodes, s, op), d)
  {
    hide Read, ReadExactly, TryTill, ReadTill, ReadLine, Simple, FirstEnd;
    match op
    case ReadOp(length) => ReadCoherent(s, length, d);
    case ExactOp(length) => ExactCoherent(s, length, d);
    case TryOp(e) => TryCoherent(page, decodes, s, d);
    case TillOp(e) => TillCoherent(page, decodes, s, d);
    case TryLineOp => LineCoherent(page, decodes, s);
    case LineOp => LineCoherent(page, decodes, s);
    case UnreadOp(bytes) => UnreadCoherentIff(s, bytes, d);
    case SeekOp(offset, whence) => SeekCoherent(s, offset, whence, d);
  }

  lemma SeekCoherent(s: State, offset: int, whence: Whence, d: seq<Byte>)
    requires Coherent(s, d)
    ensures Coherent(Seek(s, offset, whence).0, d)
  {
  }

  /**
   * Over every such run, from a stream that was never waiting to any point: a complete string in the cache is
   * reported. StreamLaws.QuietUntilTry has the other half, that nothing is reported between a failed try and the next.
   */
  lemma {:induction false} CompleteIsReported(page: PageSize, decodes: seq<Byte> -> bool, s: State, ops: seq<Op>,
                                              d: seq<Byte>)
    requires Simple(d) && DecodesAll(decodes) && Coherent(s, d) && AllKeepSearched(page, decodes, s, ops, d)
    ensures var s' := Run(page, decodes, s, ops); FirstEnd(d, Cached(s')) < |Cached(s')| ==> Reported(s')
    decreases |ops|
  {
    hide Step, KeepsSearched, Simple, DecodesAll;
    if ops != [] {
      StepCoherent(page, decodes, s, ops[0], d);
      CompleteIsReported(page, decodes, Step(page, decodes, s, ops[0]), ops[1..], d);
    }
  }
}
