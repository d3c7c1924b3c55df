// The search for a delimiter in src/OFStream.m, and what its documentation promises.
//
// The source matches the delimiter byte by byte and starts over on a mismatch without looking at the
// mismatched byte again. `Scan` is that search; `FirstEnd` is the promise.

module Delimiters {
  import opened Bytes

  datatype ScanResult = Hit(index: nat, nul: bool) | Miss(matched: nat)

  /** Searches `s` from index `i` with the first `j` bytes of the delimiter already matched. */
  function Scan(d: seq<Byte>, s: seq<Byte>, i: nat, j: nat): (r: ScanResult)
    requires i <= |s| && j < |d|
    ensures r.Hit? ==> i <= r.index < |s| && (r.nul <==> s[r.index] == 0)
    ensures r.Hit? && !r.nul ==> |d| <= r.index - i + 1 + j
    ensures r.Miss? ==> r.matched < |d| && r.matched <= |s| - i + j
    decreases |s| - i
  {
    if i == |s| then Miss(j)
    else
      var j' := if s[i] == d[j] then j + 1 else 0;
      if j' == |d| || s[i] == 0 then Hit(i, s[i] == 0) else Scan(d, s, i + 1, j')
  }

  /** How many bytes the found terminator has: the delimiter, or a single zero byte. */
  function TerminatorLength(d: seq<Byte>, nul: bool): nat
  {
    if nul then 1 else |d|
  }

  /** A zero byte or the last byte of an occurrence of the delimiter. */
  predicate EndsAt(d: seq<Byte>, s: seq<Byte>, i: nat)
  {
    i < |s| && (s[i] == 0 || (|d| <= i + 1 && s[i + 1 - |d|..i + 1] == d))
  }

  function FirstEndFrom(d: seq<Byte>, s: seq<Byte>, i: nat): (e: nat)
    requires i <= |s|
    ensures i <= e <= |s|
    ensures e < |s| ==> EndsAt(d, s, e)
    ensures forall k :: i <= k < e ==> !EndsAt(d, s, k)
    decreases |s| - i
  {
    if i == |s| || EndsAt(d, s, i) then i else FirstEndFrom(d, s, i + 1)
  }

  /** Where the first delimiter or zero byte ends, or |s|. */
  function FirstEnd(d: seq<Byte>, s: seq<Byte>): (e: nat)
    ensures e <= |s|
    ensures e < |s| ==> EndsAt(d, s, e)
    ensures forall k :: 0 <= k < e ==> !EndsAt(d, s, k)
  {
    FirstEndFrom(d, s, 0)
  }

  ghost predicate Constant(d: seq<Byte>)
  {
    forall k :: 0 <= k < |d| ==> d[k] == d[0]
  }

  // What the search always guarantees

  /** Whatever is matched so far are the bytes just read. */
  ghost predicate Matched(d: seq<Byte>, s: seq<Byte>, i: nat, j: nat)
  {
    j <= i <= |s| && j < |d| && s[i - j..i] == d[..j]
  }

  lemma MatchedNext(d: seq<Byte>, s: seq<Byte>, i: nat, j: nat)
    requires Matched(d, s, i, j) && i < |s| && s[i] == d[j]
    ensures s[i - j..i + 1] == d[..j + 1]
  {
    assert s[i - j..i + 1] == s[i - j..i] + [s[i]];
  }

  /** A hit is never wrong: a zero byte, or the end of an occurrence of the delimiter. */
  lemma {:induction false} ScanSound(d: seq<Byte>, s: seq<Byte>, i: nat, j: nat)
    requires Matched(d, s, i, j)
    ensures var r := Scan(d, s, i, j);
            (r.Hit? ==> EndsAt(d, s, r.index) && TerminatorLength(d, r.nul) <= r.index + 1) &&
            (r.Miss? ==> Matched(d, s, |s|, r.matched))
    decreases |s| - i
  {
    hide EndsAt;
    if i < |s| {
      if s[i] == 0 {
        ZeroEnds(d, s, i);
      } else if s[i] == d[j] && j + 1 == |d| {
        MatchedAll(d, s, i, j);
      } else if s[i] == d[j] {
        MatchedMore(d, s, i, j);
        ScanSound(d, s, i + 1, j + 1);
      } else {
        ScanSound(d, s, i + 1, 0);
      }
    }
  }

  lemma {:induction false} ScanAppend(d: seq<Byte>, s: seq<Byte>, more: seq<Byte>, i: nat, j: nat)
    requires i <= |s| && j < |d|
    ensures Scan(d, s + more, i, j) ==
            match Scan(d, s, i, j)
            case Hit(k, nul) => Hit(k, nul)
            case Miss(j') => Scan(d, s + more, |s|, j')
    decreases |s| - i
  {
    if i < |s| {
      var j' := if s[i] == d[j] then j + 1 else 0;
      if j' != |d| && s[i] != 0 {
        ScanAppend(d, s, more, i + 1, j');
      }
    }
  }

  /** Searching what follows `s` from its own start. */
  lemma {:induction false} ScanShift(d: seq<Byte>, s: seq<Byte>, more: seq<Byte>, i: nat, j: nat)
    requires i <= |more| && j < |d|
    ensures Scan(d, s + more, |s| + i, j) ==
            match Scan(d, more, i, j)
            case Hit(k, nul) => Hit(|s| + k, nul)
            case Miss(j') => Miss(j')
    decreases |more| - i
  {
    if i < |more| {
      assert (s + more)[|s| + i] == more[i];
      var j' := if more[i] == d[j] then j + 1 else 0;
      if j' != |d| && more[i] != 0 {
        ScanShift(d, s, more, i + 1, j');
      }
    }
  }

  // When the search finds the first end

  /** The search through a whole text agrees with the promise. */
  ghost predicate FindsFirst(d: seq<Byte>, s: seq<Byte>)
    requires |d| > 0
  {
    match Scan(d, s, 0, 0)
    case Hit(i, _) => i == FirstEnd(d, s)
    case Miss(_) => FirstEnd(d, s) == |s|
  }

  lemma {:induction false} FirstEndIs(d: seq<Byte>, s: seq<Byte>, i: nat)
    requires i <= |s| && (i < |s| ==> EndsAt(d, s, i))
    requires forall k :: 0 <= k < i ==> !EndsAt(d, s, k)
    ensures FirstEnd(d, s) == i
  {
    var e := FirstEnd(d, s);
    assert e < |s| ==> EndsAt(d, s, e);
  }

  lemma MatchedAll(d: seq<Byte>, s: seq<Byte>, i: nat, j: nat)
    requires Matched(d, s, i, j) && i < |s| && s[i] == d[j] && j + 1 == |d|
    ensures EndsAt(d, s, i)
  {
    MatchedNext(d, s, i, j);
    assert d[..|d|] == d;
  }

  lemma MatchedMore(d: seq<Byte>, s: seq<Byte>, i: nat, j: nat)
    requires Matched(d, s, i, j) && i < |s| && j + 1 < |d|
    ensures s[i] == d[j] ==> Matched(d, s, i + 1, j + 1)
    ensures Matched(d, s, i + 1, 0)
  {
    if s[i] == d[j] { MatchedNext(d, s, i, j); }
  }

  lemma RunTooShort(d: seq<Byte>, s: seq<Byte>, i: nat, k: nat)
    requires Constant(d) && k <= i < |s| && i - k < |d| && s[i] != 0 && s[k] != d[0]
    ensures !EndsAt(d, s, i)
  {
    if |d| <= i + 1 {
      assert s[i + 1 - |d|..i + 1][k - (i + 1 - |d|)] == s[k];
    }
  }

  /** Searching for a run of one byte: the number matched is the length of the run just read. */
  lemma {:induction false} ConstantScan(d: seq<Byte>, s: seq<Byte>, i: nat, j: nat)
    requires |d| > 0 && Constant(d) && Matched(d, s, i, j)
    requires j < i ==> s[i - j - 1] != d[0]
    requires forall k :: 0 <= k < i ==> !EndsAt(d, s, k)
    ensures Scan(d, s, i, j).Hit? ==> FirstEnd(d, s) == Scan(d, s, i, j).index
    ensures Scan(d, s, i, j).Miss? ==> FirstEnd(d, s) == |s|
    decreases |s| - i
  {
    hide FirstEnd, EndsAt;
    if i == |s| {
      FirstEndIs(d, s, i);
    } else if s[i] == 0 {
      ZeroEnds(d, s, i);
      FirstEndIs(d, s, i);
    } else if s[i] == d[j] && j + 1 == |d| {
      MatchedAll(d, s, i, j);
      FirstEndIs(d, s, i);
    } else if s[i] == d[j] {
      MatchedMore(d, s, i, j);
      if j < i { RunTooShort(d, s, i, i - j - 1); } else { StartTooShort(d, s, i); }
      ConstantScan(d, s, i + 1, j + 1);
    } else {
      RunTooShort(d, s, i, i);
      ConstantScan(d, s, i + 1, 0);
    }
  }

  lemma ZeroEnds(d: seq<Byte>, s: seq<Byte>, i: nat)
    requires i < |s| && s[i] == 0
    ensures EndsAt(d, s, i)
  {
  }

  lemma StartTooShort(d: seq<Byte>, s: seq<Byte>, i: nat)
    requires i < |s| && i + 1 < |d| && s[i] != 0
    ensures !EndsAt(d, s, i)
  {
  }

  lemma ZeroBeforeEnd(d: seq<Byte>, s: seq<Byte>, k: nat) returns (z: nat)
    requires 0 in d && EndsAt(d, s, k)
    ensures z <= k && s[z] == 0
  {
    if s[k] == 0 {
      z := k;
    } else {
      var x :| 0 <= x < |d| && d[x] == 0;
      z := k + 1 - |d| + x;
      assert s[k + 1 - |d|..k + 1][x] == s[z];
    }
  }

  lemma NoEndWithoutZero(d: seq<Byte>, s: seq<Byte>, k: nat)
    requires 0 in d && k < |s| && forall x :: 0 <= x <= k ==> s[x] != 0
    ensures !EndsAt(d, s, k)
  {
    if EndsAt(d, s, k) { var z := ZeroBeforeEnd(d, s, k); }
  }

  /** A zero byte inside the delimiter: reading stops at the first zero byte, as promised. */
  lemma {:induction false} NulScan(d: seq<Byte>, s: seq<Byte>, i: nat, j: nat)
    requires |d| > 0 && 0 in d && Matched(d, s, i, j)
    requires forall k :: 0 <= k < i ==> s[k] != 0
    ensures Scan(d, s, i, j).Hit? ==> FirstEnd(d, s) == Scan(d, s, i, j).index
    ensures Scan(d, s, i, j).Miss? ==> FirstEnd(d, s) == |s|
    decreases |s| - i
  {
    hide FirstEnd, EndsAt;
    forall k | 0 <= k < i ensures !EndsAt(d, s, k) { NoEndWithoutZero(d, s, k); }
    if i == |s| {
      FirstEndIs(d, s, i);
    } else if s[i] == 0 {
      ZeroEnds(d, s, i);
      FirstEndIs(d, s, i);
    } else if s[i] == d[j] {
      NoEndWithoutZero(d, s, i);
      if j + 1 == |d| { MatchedAll(d, s, i, j); } else {
        MatchedMore(d, s, i, j);
        NulScan(d, s, i + 1, j + 1);
      }
    } else {
      NulScan(d, s, i + 1, 0);
    }
  }

  /** Too few bytes for the delimiter and no zero byte among them. */
  lemma {:induction false} TooShort(d: seq<Byte>, s: seq<Byte>, i: nat, j: nat)
    requires j <= i <= |s| < |d| && 0 !in s
    ensures Scan(d, s, i, j).Miss?
    decreases |s| - i
  {
    if i < |s| {
      var j' := if s[i] == d[j] then j + 1 else 0;
      assert s[i] in s;
      TooShort(d, s, i + 1, j');
    }
  }

  /** Reading one and the same byte `n` times matches the first `n` bytes of the delimiter. */
  lemma {:induction false} RunMatched(d: seq<Byte>, s: seq<Byte>, i: nat, n: nat)
    requires i <= n <= |s| && n < |d| && 0 !in d
    requires forall k :: 0 <= k < n ==> s[k] == d[0] && d[k] == d[0]
    ensures Scan(d, s, i, i) == Scan(d, s, n, n)
    decreases n - i
  {
    if i < n { RunMatched(d, s, i + 1, n); }
  }

  /** A delimiter that is not one byte repeated is missed right after its own first byte. */
  lemma MissedAfterFirstByte(d: seq<Byte>)
    requires |d| > 0 && !Constant(d) && 0 !in d
    ensures !FindsFirst(d, [d[0]] + d)
  {
    var s := [d[0]] + d;
    var k :| 0 <= k < |d| && d[k] != d[0];
    var n := FirstOther(d, 0);
    RunMatched(d, s, 0, n);
    assert s[n] == d[n - 1] == d[0];
    var rest := d[n..];
    assert s == s[..n + 1] + rest;
    ScanShift(d, s[..n + 1], rest, 0, 0);
    forall x | x in rest ensures x in d {}
    TooShort(d, rest, 0, 0);
    assert s[|d| + 1 - |d|..|d| + 1] == d;
    assert EndsAt(d, s, |d|);
  }

  lemma {:induction false} FirstOther(d: seq<Byte>, i: nat) returns (n: nat)
    requires i < |d| && !Constant(d)
    requires forall k :: 0 <= k <= i ==> d[k] == d[0]
    ensures 0 < n < |d| && d[n] != d[0]
    ensures forall k :: 0 <= k < n ==> d[k] == d[0]
    decreases |d| - i
  {
    if i + 1 < |d| && d[i + 1] == d[0] {
      n := FirstOther(d, i + 1);
    } else {
      n := i + 1;
    }
  }

  /**
   * Main result on one pass over a text: the search finds the first end in every text exactly for
   * delimiters that repeat a single byte or contain a zero byte.
   */
  lemma FindsFirstIff(d: seq<Byte>)
    requires |d| > 0
    ensures (forall s :: FindsFirst(d, s)) <==> Constant(d) || 0 in d
  {
    if 0 in d {
      forall s ensures FindsFirst(d, s) { NulScan(d, s, 0, 0); }
    } else if Constant(d) {
      forall s ensures FindsFirst(d, s) { ConstantScan(d, s, 0, 0); }
    } else {
      MissedAfterFirstByte(d);
    }
  }
}
