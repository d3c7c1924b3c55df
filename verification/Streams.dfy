// The reading half of src/OFStream.m on values: the cache in front of a low-level reader.
//
// `Low` is any low-level reader over a file. Its plan is an arbitrary list of limits: each low-level
// read delivers at most the next limit, possibly nothing, and the end is noticed only once the plan
// has run out. Every way in which input can arrive in pieces is some plan.

module Streams {
  import opened Bytes
  import opened Delimiters
  import opened Options

  const MIN_READ_SIZE: nat := 512

  type PageSize = n: nat | 0 < n witness 4096

  datatype Low = Low(file: seq<Byte>, pos: nat, plan: seq<nat>)
  {
    function Rest(): seq<Byte>
    {
      if pos <= |file| then file[pos..] else []
    }

    predicate AtEnd()
    {
      Rest() == [] && plan == []
    }

    function Read(length: nat): (r: (Low, seq<Byte>))
      ensures |r.1| <= length && r.1 + r.0.Rest() == Rest()
      ensures r.0.file == file && r.0.pos == pos + |r.1|
      ensures r.0.Fuel() <= Fuel()
      ensures 0 < length && !AtEnd() ==> r.0.Fuel() < Fuel()
    {
      var limit := if plan == [] then length else Min(plan[0], length);
      var n := Min(limit, |Rest()|);
      (Low(file, pos + n, if plan == [] then [] else plan[1..]), Rest()[..n])
    }

    /** Bounds the number of low-level reads before the end is noticed. */
    function Fuel(): nat
    {
      |Rest()| + |plan|
    }
  }

  function Min(a: nat, b: nat): nat
  {
    if a < b then a else b
  }

  /** A buffer that is present but empty is not the same to the source as no buffer. */
  datatype State = State(low: Low, buffer: Option<seq<Byte>>, waiting: bool)

  function Cached(s: State): seq<Byte>
  {
    if s.buffer.None? then [] else s.buffer.value
  }

  /** All bytes still to be delivered. */
  function Pending(s: State): seq<Byte>
  {
    Cached(s) + s.low.Rest()
  }

  function Fresh(file: seq<Byte>, plan: seq<nat>): State
  {
    State(Low(file, 0, plan), None, false)
  }

  predicate AtEndOfStream(s: State)
  {
    |Cached(s)| == 0 && s.low.AtEnd()
  }

  datatype Outcome = Text(bytes: seq<Byte>) | Nothing | InvalidArgument | InvalidEncoding | Truncated

  // The operations

  /** `readIntoBuffer:length:` */
  function Read(s: State, length: nat): (State, seq<Byte>)
  {
    var cached := Cached(s);
    if |cached| == 0 then
      if length < MIN_READ_SIZE then
        var (low, tmp) := s.low.Read(MIN_READ_SIZE);
        if |tmp| > length then (State(low, Some(tmp[length..]), s.waiting), tmp[..length])
        else (s.(low := low), tmp)
      else
        var (low, bytes) := s.low.Read(length);
        (s.(low := low), bytes)
    else if length >= |cached| then (s.(buffer := None), cached)
    else (s.(buffer := Some(cached[length..])), cached[..length])
  }

  /** `readIntoBuffer:exactLength:`, after the bytes `got` */
  function ReadExactly(s: State, length: nat, got: seq<Byte>): (State, Outcome)
    requires |got| <= length
    decreases s.low.Fuel() + |Cached(s)|, length - |got|
  {
    if |got| == length then (s, Text(got))
    else if AtEndOfStream(s) then (s, Truncated)
    else
      ReadMoves(s, length - |got|);
      var (s', bytes) := Read(s, length - |got|);
      ReadExactly(s', length, got + bytes)
  }

  /** `unreadFromBuffer:length:` */
  function Unread(s: State, bytes: seq<Byte>): State
  {
    var all := bytes + Cached(s);
    s.(buffer := if all == [] then None else Some(all))
  }

  function Finish(decodes: seq<Byte> -> bool, s: State): (State, Outcome)
  {
    if s.buffer.None? then (s.(waiting := false), Nothing)
    else if decodes(s.buffer.value) then (State(s.low, None, false), Text(s.buffer.value))
    else (s, InvalidEncoding)
  }

  /** Only what follows the hit in the chunk is kept; allocating nothing gives no buffer. */
  function AfterHit(low: Low, chunk: seq<Byte>, i: nat): State
    requires i < |chunk|
  {
    State(low, if i + 1 == |chunk| then None else Some(chunk[i + 1..]), false)
  }

  /** What a try does with a new chunk, given what the search found in it. */
  function TakeChunk(decodes: seq<Byte> -> bool, s: State, d: seq<Byte>, found: ScanResult, low: Low,
      chunk: seq<Byte>): (State, Outcome)
    requires found.Hit? ==> found.index < |chunk| && TerminatorLength(d, found.nul) <= |Cached(s)| + found.index + 1
  {
    var all := Cached(s) + chunk;
    match found
    case Hit(i, nul) =>
      var text := all[..|Cached(s)| + i + 1 - TerminatorLength(d, nul)];
      if decodes(text) then (AfterHit(low, chunk, i), Text(text))
      else (State(low, Some(all), s.waiting), InvalidEncoding)
    case Miss(_) =>
      (State(low, if chunk == [] then s.buffer else Some(all), true), Nothing)
  }

  /** A try after its search of the cache. */
  function TryFrom(page: PageSize, decodes: seq<Byte> -> bool, s: State, d: seq<Byte>, found: ScanResult): (State,
      Outcome)
    requires found.Hit? ==> found.index < |Cached(s)| && TerminatorLength(d, found.nul) <= found.index + 1
    requires found.Miss? ==> found.matched < |d| && found.matched <= |Cached(s)|
  {
    match found
    case Hit(i, nul) =>
      var text := Cached(s)[..i + 1 - TerminatorLength(d, nul)];
      if decodes(text) then (State(s.low, Some(Cached(s)[i + 1..]), false), Text(text)) else (s, InvalidEncoding)
    case Miss(j) =>
      if s.low.AtEnd() then Finish(decodes, s)
      else
        var (low, chunk) := s.low.Read(page);
        TakeChunk(decodes, s, d, Scan(d, chunk, 0, j), low, chunk)
  }

  /** The search of the cache, skipped while waiting. */
  function ScanCache(s: State, d: seq<Byte>): (r: ScanResult)
    requires |d| > 0
    ensures r.Hit? ==> r.index < |Cached(s)| && TerminatorLength(d, r.nul) <= r.index + 1
    ensures r.Miss? ==> r.matched < |d| && r.matched <= |Cached(s)|
  {
    if s.waiting then Miss(0) else Scan(d, Cached(s), 0, 0)
  }

  /** `tryReadTillDelimiter:encoding:`; `decodes` tells which bytes are valid in the encoding. */
  function TryTill(page: PageSize, decodes: seq<Byte> -> bool, s: State, d: seq<Byte>): (r: (State, Outcome))
    ensures r.1 == Nothing && !AtEndOfStream(r.0) ==> r.0.low.Fuel() < s.low.Fuel()
  {
    if d == [] then (s, InvalidArgument) else TryFrom(page, decodes, s, d, ScanCache(s, d))
  }

  /** `readTillDelimiter:encoding:` */
  function ReadTill(page: PageSize, decodes: seq<Byte> -> bool, s: State, d: seq<Byte>): (State, Outcome)
    decreases s.low.Fuel()
  {
    var (s', r) := TryTill(page, decodes, s, d);
    if r == Nothing && !AtEndOfStream(s') then ReadTill(page, decodes, s', d) else (s', r)
  }

  const NEWLINE: Byte := 10
  const CARRIAGE_RETURN: Byte := 13

  /** A line without the carriage return before its newline. */
  function Strip(line: seq<Byte>): seq<Byte>
  {
    if line != [] && line[|line| - 1] == CARRIAGE_RETURN then line[..|line| - 1] else line
  }

  function StripOutcome(r: Outcome): Outcome
  {
    if r.Text? then Text(Strip(r.bytes)) else r
  }

  /** `tryReadLineWithEncoding:` */
  function TryLine(page: PageSize, decodes: seq<Byte> -> bool, s: State): (State, Outcome)
  {
    var (s', r) := TryTill(page, line => decodes(Strip(line)), s, [NEWLINE]);
    (s', StripOutcome(r))
  }

  /** `readLineWithEncoding:` */
  function ReadLine(page: PageSize, decodes: seq<Byte> -> bool, s: State): (State, Outcome)
    decreases s.low.Fuel()
  {
    var (s', r) := TryLine(page, decodes, s);
    if r == Nothing && !AtEndOfStream(s') then ReadLine(page, decodes, s') else (s', r)
  }

  lemma LineFuel(page: PageSize, decodes: seq<Byte> -> bool, s: State)
    ensures var (s', r) := TryLine(page, decodes, s);
            r == Nothing && !AtEndOfStream(s') ==> s'.low.Fuel() < s.low.Fuel()
  {
    hide TryTill, Low.Fuel, AtEndOfStream;
  }

  datatype Whence = SeekSet | SeekCur | SeekEnd

  /** `lowlevelSeekToOffset:whence:` on a file; a negative position is refused. */
  function SeekTarget(low: Low, offset: int, whence: Whence): int
  {
    match whence
    case SeekSet => offset
    case SeekCur => low.pos + offset
    case SeekEnd => |low.file| + offset
  }

  /** `seekToOffset:whence:` of src/OFSeekableStream.m */
  function Seek(s: State, offset: int, whence: Whence): (State, Option<nat>)
  {
    var target := SeekTarget(s.low, if whence == SeekCur then offset - |Cached(s)| else offset, whence);
    if target < 0 then (s, None)
    else (State(s.low.(pos := target), None, s.waiting), Some(target))
  }

  lemma ReadMoves(s: State, length: nat)
    requires 0 < length && !AtEndOfStream(s)
    ensures var (s', bytes) := Read(s, length);
            s'.low.Fuel() + |Cached(s')| < s.low.Fuel() + |Cached(s)| ||
            (s'.low.Fuel() + |Cached(s')| == s.low.Fuel() + |Cached(s)| && bytes != [])
  {
  }

  // What the documentation promises

  /** The outcome for the bytes `p` still to come, and the bytes left after it. */
  function Promise(decodes: seq<Byte> -> bool, d: seq<Byte>, p: seq<Byte>): (Outcome, seq<Byte>)
    requires |d| > 0
  {
    var e := FirstEnd(d, p);
    if e < |p| then
      var text := p[..e + 1 - TerminatorLength(d, p[e] == 0)];
      if decodes(text) then (Text(text), p[e + 1..]) else (InvalidEncoding, p)
    else if p == [] then (Nothing, [])
    else if decodes(p) then (Text(p), []) else (InvalidEncoding, p)
  }

  /** Delimiters whose end can be told from a single byte. */
  ghost predicate Simple(d: seq<Byte>)
  {
    |d| == 1 || 0 in d
  }

  /** While waiting for a delimiter, the cache holds no end of it. */
  ghost predicate Coherent(s: State, d: seq<Byte>)
  {
    s.waiting ==> FirstEnd(d, Cached(s)) == |Cached(s)|
  }

  /** At the end of the stream, but with an empty buffer still there. */
  ghost predicate Drained(s: State)
  {
    AtEndOfStream(s) && s.buffer.Some?
  }
}
