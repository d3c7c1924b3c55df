// OFStream, the cached stream of src/OFStream.m, with its seekable subclass and the observer that
// reports streams with cached data. Every method is tied to its function in module Streams, about
// which module StreamLaws proves what the documentation promises.

module CachedStream {
  import opened Bytes
  import opened Delimiters
  import opened Options
  import opened Streams
  import StreamLaws

  class OFStream {
    var low: Low
    var readBuffer: Option<seq<Byte>>
    var waitingForDelimiter: bool
    const pageSize: PageSize
    const decodes: seq<Byte> -> bool

    function Value(): State
      reads this
    {
      State(low, readBuffer, waitingForDelimiter)
    }

    constructor (low: Low, pageSize: PageSize, decodes: seq<Byte> -> bool)
      ensures Value() == State(low, None, false)
      ensures this.pageSize == pageSize && this.decodes == decodes
    {
      this.low, this.pageSize, this.decodes := low, pageSize, decodes;
      readBuffer, waitingForDelimiter := None, false;
    }

    method LowlevelRead(length: nat) returns (bytes: seq<Byte>)
      modifies this`low
      ensures (low, bytes) == old(low).Read(length)
    {
      var r := low.Read(length);
      low, bytes := r.0, r.1;
    }

    method IsAtEndOfStream() returns (r: bool)
      ensures r == AtEndOfStream(Value())
    {
      if readBuffer.Some? && |readBuffer.value| > 0 { return false; }
      return low.AtEnd();
    }

    method ReadIntoBuffer(length: nat) returns (bytes: seq<Byte>)
      modifies this
      ensures (Value(), bytes) == Read(old(Value()), length)
    {
      if readBuffer.None? || |readBuffer.value| == 0 {
        if length < MIN_READ_SIZE {
          var tmp := LowlevelRead(MIN_READ_SIZE);
          if |tmp| > length {
            bytes := tmp[..length];
            readBuffer := Some(tmp[length..]);
          } else {
            bytes := tmp;
          }
        } else {
          bytes := LowlevelRead(length);
        }
      } else if length >= |readBuffer.value| {
        bytes := readBuffer.value;
        readBuffer := None;
      } else {
        bytes := readBuffer.value[..length];
        readBuffer := Some(readBuffer.value[length..]);
      }
    }

    method ReadExactLength(length: nat) returns (r: Outcome)
      modifies this
      ensures (Value(), r) == ReadExactly(old(Value()), length, [])
    {
      hide Read, Low.Fuel, Cached, Pending, AtEndOfStream;
      var got: seq<Byte> := [];
      while |got| < length
        invariant |got| <= length
        invariant ReadExactly(Value(), length, got) == ReadExactly(old(Value()), length, [])
        decreases low.Fuel() + |Cached(Value())|, length - |got|
      {
        var atEnd := IsAtEndOfStream();
        if atEnd { return Truncated; }
        ReadMoves(Value(), length - |got|);
        StreamLaws.ReadConserves(Value(), length - |got|);
        var bytes := ReadIntoBuffer(length - |got|);
        got := got + bytes;
      }
      return Text(got);
    }

    method UnreadFromBuffer(bytes: seq<Byte>)
      modifies this
      ensures Value() == Unread(old(Value()), bytes)
    {
      var rest := if readBuffer.None? then [] else readBuffer.value;
      readBuffer := if |bytes| + |rest| == 0 then None else Some(bytes + rest);
    }

    /** The search of the cached bytes, and of a chunk with `j` bytes of the delimiter matched. */
    static method Search(d: seq<Byte>, bytes: seq<Byte>, start: nat) returns (found: ScanResult)
      requires start < |d|
      ensures found == Scan(d, bytes, 0, start)
    {
      var i, j := 0, start;
      while i < |bytes|
        invariant 0 <= i <= |bytes| && 0 <= j < |d|
        invariant Scan(d, bytes, 0, start) == Scan(d, bytes, i, j)
      {
        if bytes[i] != d[j] { j := 0; } else { j := j + 1; }
        if j == |d| || bytes[i] == 0 {
          return Hit(i, bytes[i] == 0);
        }
        i := i + 1;
      }
      return Miss(j);
    }

    method TryReadTillDelimiter(d: seq<Byte>) returns (r: Outcome)
      modifies this
      ensures (Value(), r) == TryTill(pageSize, decodes, old(Value()), d)
    {
      if |d| == 0 { return InvalidArgument; }
      var j: nat := 0;
      if !waitingForDelimiter && readBuffer.Some? {
        var found := Search(d, readBuffer.value, 0);
        if found.Hit? {
          var text := readBuffer.value[..found.index + 1 - TerminatorLength(d, found.nul)];
          if !decodes(text) { return InvalidEncoding; }
          readBuffer := Some(readBuffer.value[found.index + 1..]);
          waitingForDelimiter := false;
          return Text(text);
        }
        j := found.matched;
      }
      r := NextChunk(d, j);
    }

    /** What is cached when nothing more can come */
    method LastText() returns (r: Outcome)
      modifies this`readBuffer, this`waitingForDelimiter
      ensures (Value(), r) == Finish(decodes, old(Value()))
    {
      if readBuffer.None? {
        waitingForDelimiter := false;
        return Nothing;
      }
      if !decodes(readBuffer.value) { return InvalidEncoding; }
      r := Text(readBuffer.value);
      readBuffer := None;
      waitingForDelimiter := false;
    }

    /** A chunk behind the cached bytes */
    method TakeNextChunk(d: seq<Byte>, j: nat, chunk: seq<Byte>, ghost before: State) returns (r: Outcome)
      requires j < |d| && j <= |Cached(Value())| && Value() == before.(low := low)
      modifies this`readBuffer, this`waitingForDelimiter
      ensures (Value(), r) == TakeChunk(decodes, before, d, Scan(d, chunk, 0, j), low, chunk)
    {
      hide Scan, Low.Rest, Low.Read;
      var cached := if readBuffer.None? then [] else readBuffer.value;
      var found := Search(d, chunk, j);
      if found.Hit? {
        var length := TerminatorLength(d, found.nul);
        // The delimiter may have begun in the cached bytes.
        var text := if length <= found.index + 1
          then cached + chunk[..found.index + 1 - length]
          else cached[..|cached| + found.index + 1 - length];
        assert text == (cached + chunk)[..|cached| + found.index + 1 - length];
        if !decodes(text) {
          readBuffer := Some(cached + chunk);
          return InvalidEncoding;
        }
        readBuffer := if found.index + 1 == |chunk| then None else Some(chunk[found.index + 1..]);
        waitingForDelimiter := false;
        return Text(text);
      }
      if |chunk| > 0 { readBuffer := Some(cached + chunk); }
      waitingForDelimiter := true;
      return Nothing;
    }

    method NextChunk(d: seq<Byte>, j: nat) returns (r: Outcome)
      requires j < |d| && j <= |Cached(Value())|
      modifies this
      ensures (Value(), r) == TryFrom(pageSize, decodes, old(Value()), d, Miss(j))
    {
      hide Scan, Low.Rest, Low.Read, Low.AtEnd, TakeChunk, Finish;
      if low.AtEnd() {
        r := LastText();
      } else {
        ghost var before := Value();
        var chunk := LowlevelRead(pageSize);
        r := TakeNextChunk(d, j, chunk, before);
      }
    }

    method ReadTillDelimiter(d: seq<Byte>) returns (r: Outcome)
      modifies this
      ensures (Value(), r) == ReadTill(pageSize, decodes, old(Value()), d)
    {
      hide TryTill, Low.Fuel, AtEndOfStream, Cached;
      r := TryReadTillDelimiter(d);
      var atEnd := IsAtEndOfStream();
      while r == Nothing && !atEnd
        invariant atEnd == AtEndOfStream(Value())
        invariant ReadTill(pageSize, decodes, old(Value()), d) ==
          if r == Nothing && !atEnd then ReadTill(pageSize, decodes, Value(), d) else (Value(), r)
        decreases if r == Nothing && !atEnd then low.Fuel() + 1 else 0
      {
        r := TryReadTillDelimiter(d);
        atEnd := IsAtEndOfStream();
      }
    }

    /** Looks for a newline or zero byte. */
    static method SearchLine(bytes: seq<Byte>) returns (found: ScanResult)
      ensures found == Scan([NEWLINE], bytes, 0, 0)
    {
      var i := 0;
      while i < |bytes|
        invariant 0 <= i <= |bytes| && Scan([NEWLINE], bytes, 0, 0) == Scan([NEWLINE], bytes, i, 0)
      {
        if bytes[i] == NEWLINE || bytes[i] == 0 {
          return Hit(i, bytes[i] == 0);
        }
        i := i + 1;
      }
      return Miss(0);
    }

    method TryReadLine() returns (r: Outcome)
      modifies this
      ensures (Value(), r) == TryLine(pageSize, decodes, old(Value()))
    {
      hide Scan, Finish, TakeChunk, Low.AtEnd, Low.Read;
      if !waitingForDelimiter && readBuffer.Some? {
        var found := SearchLine(readBuffer.value);
        if found.Hit? {
          var i := found.index;
          var length := if i > 0 && readBuffer.value[i - 1] == CARRIAGE_RETURN then i - 1 else i;
          var text := readBuffer.value[..length];
          assert text == Strip(readBuffer.value[..i]);
          if !decodes(text) { return InvalidEncoding; }
          readBuffer := Some(readBuffer.value[i + 1..]);
          waitingForDelimiter := false;
          return Text(text);
        }
      }
      r := NextLineChunk();
    }

    /** What is cached when nothing more can come */
    method LastLine() returns (r: Outcome)
      modifies this`readBuffer, this`waitingForDelimiter
      ensures var (s', r') := Finish(line => decodes(Strip(line)), old(Value()));
              Value() == s' && r == StripOutcome(r')
    {
      hide Strip;
      if readBuffer.None? {
        waitingForDelimiter := false;
        return Nothing;
      }
      var line := Strip(readBuffer.value);
      if !decodes(line) { return InvalidEncoding; }
      readBuffer := None;
      waitingForDelimiter := false;
      return Text(line);
    }

    /** A chunk behind the cached bytes */
    method TakeLineChunk(chunk: seq<Byte>, ghost before: State) returns (r: Outcome)
      requires Value() == before.(low := low)
      modifies this`readBuffer, this`waitingForDelimiter
      ensures var (s', r') := TakeChunk(line => decodes(Strip(line)), before, [NEWLINE], Scan([NEWLINE], chunk, 0, 0),
                                        low, chunk);
              Value() == s' && r == StripOutcome(r')
    {
      hide Scan, Low.Rest, Strip;
      var cached := if readBuffer.None? then [] else readBuffer.value;
      var found := SearchLine(chunk);
      if found.Hit? {
        var i := found.index;
        assert (cached + chunk)[..|cached| + i] == cached + chunk[..i];
        var line := Strip(cached + chunk[..i]);
        if !decodes(line) {
          readBuffer := Some(cached + chunk);
          return InvalidEncoding;
        }
        readBuffer := if i + 1 == |chunk| then None else Some(chunk[i + 1..]);
        waitingForDelimiter := false;
        return Text(line);
      }
      if |chunk| > 0 { readBuffer := Some(cached + chunk); }
      waitingForDelimiter := true;
      return Nothing;
    }

    method NextLineChunk() returns (r: Outcome)
      modifies this
      ensures var (s', r') := TryFrom(pageSize, line => decodes(Strip(line)), old(Value()), [NEWLINE], Miss(0));
              Value() == s' && r == StripOutcome(r')
    {
      hide Scan, Low.Rest, Low.Read, Low.AtEnd, Strip, StripOutcome, TakeChunk, Finish;
      if low.AtEnd() {
        r := LastLine();
      } else {
        ghost var before := Value();
        var chunk := LowlevelRead(pageSize);
        r := TakeLineChunk(chunk, before);
      }
    }

    method ReadLineToEnd() returns (r: Outcome)
      modifies this
      ensures (Value(), r) == ReadLine(pageSize, decodes, old(Value()))
    {
      LineFuel(pageSize, decodes, Value());
      hide TryLine, Low.Fuel, AtEndOfStream, Cached;
      r := TryReadLine();
      var atEnd := IsAtEndOfStream();
      while r == Nothing && !atEnd
        invariant atEnd == AtEndOfStream(Value())
        invariant ReadLine(pageSize, decodes, old(Value())) ==
          if r == Nothing && !atEnd then ReadLine(pageSize, decodes, Value()) else (Value(), r)
        decreases if r == Nothing && !atEnd then low.Fuel() + 1 else 0
      {
        LineFuel(pageSize, decodes, Value());
        r := TryReadLine();
        atEnd := IsAtEndOfStream();
      }
    }

    /** `seekToOffset:whence:` of OFSeekableStream */
    method SeekToOffset(offset: int, whence: Whence) returns (r: Option<nat>)
      modifies this
      ensures (Value(), r) == Seek(old(Value()), offset, whence)
    {
      var lowOffset := offset;
      if whence == SeekCur {
        lowOffset := lowOffset - if readBuffer.None? then 0 else |readBuffer.value|;
      }
      var target := SeekTarget(low, lowOffset, whence);
      if target < 0 { return None; }
      low := low.(pos := target);
      readBuffer := None;
      return Some(target);
    }
  }

  /** `addObjectForReading:`, `removeObjectForReading:` and `of_processReadBuffers` of src/OFKernelEventObserver.m */
  class OFKernelEventObserver {
    var readObjects: seq<OFStream>

    constructor ()
      ensures readObjects == []
    {
      readObjects := [];
    }

    method AddObjectForReading(stream: OFStream)
      modifies this
      ensures readObjects == old(readObjects) + [stream]
    {
      readObjects := readObjects + [stream];
    }

    /** Removes the first occurrence only: a stream added twice stays observed. */
    method RemoveObjectForReading(stream: OFStream)
      modifies this
      ensures stream !in old(readObjects) ==> readObjects == old(readObjects)
      ensures stream in old(readObjects) ==>
        exists i :: 0 <= i < |old(readObjects)| && old(readObjects)[i] == stream && stream !in old(readObjects)[..i]
          && readObjects == old(readObjects)[..i] + old(readObjects)[i + 1..]
    {
      var i := 0;
      while i < |readObjects|
        invariant 0 <= i <= |readObjects| && readObjects == old(readObjects) && stream !in readObjects[..i]
      {
        if readObjects[i] == stream {
          readObjects := readObjects[..i] + readObjects[i + 1..];
          return;
        }
        i := i + 1;
      }
    }

    /** The streams the delegate is told about, in order, and whether there are any. */
    method ProcessReadBuffers() returns (foundInReadBuffer: bool, ready: seq<OFStream>)
      ensures ready == Ready(readObjects)
      ensures foundInReadBuffer <==> exists s :: s in readObjects && StreamLaws.Reported(s.Value())
    {
      foundInReadBuffer, ready := false, [];
      var i := 0;
      while i < |readObjects|
        invariant 0 <= i <= |readObjects| && ready == Ready(readObjects[..i])
        invariant foundInReadBuffer <==> exists s :: s in readObjects[..i] && StreamLaws.Reported(s.Value())
      {
        var stream := readObjects[i];
        assert readObjects[..i + 1][..i] == readObjects[..i];
        if stream.readBuffer.Some? && |stream.readBuffer.value| > 0 && !stream.waitingForDelimiter {
          assert stream in readObjects[..i + 1] && StreamLaws.Reported(stream.Value());
          ready := ready + [stream];
          foundInReadBuffer := true;
        }
        i := i + 1;
      }
      assert readObjects[..i] == readObjects;
    }
  }

  /** The streams with data in their cache that are not waiting for a delimiter. */
  ghost function Ready(streams: seq<OFStream>): seq<OFStream>
    reads streams
  {
    if streams == [] then []
    else
      var last := streams[|streams| - 1];
      Ready(streams[..|streams| - 1]) + if StreamLaws.Reported(last.Value()) then [last] else []
  }
}
