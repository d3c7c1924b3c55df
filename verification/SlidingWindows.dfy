// The sliding window that src/OFInflateStream.m and src/OFLHADecompressingStream.m keep of their
// output. Both index a buffer whose size is a power of two through a mask; as that is the remainder
// by the size, the window is modelled for every positive size and every initial filling.

module SlidingWindows {
  import opened Bits
  import opened Bytes

  /** The byte `distance` back in the unbounded output, or the filling before its start. */
  function Back(fill: Byte, history: seq<Byte>, distance: nat): Byte
    requires distance > 0
  {
    if distance <= |history| then history[|history| - distance] else fill
  }

  function Copy(fill: Byte, history: seq<Byte>, distance: nat, length: nat): (bytes: seq<Byte>)
    requires distance > 0
    ensures |bytes| == length
    decreases length
  {
    if length == 0 then []
    else
      var b := Back(fill, history, distance);
      [b] + Copy(fill, history + [b], distance, length - 1)
  }

  /** A copy of any distance and length is what indexing the output as it grows would give. */
  lemma {:induction false} CopyIndexes(fill: Byte, history: seq<Byte>, distance: nat, length: nat, k: nat)
    requires 0 < distance && k < length
    ensures Copy(fill, history, distance, length)[k] ==
            var all := history + Copy(fill, history, distance, length);
            if distance <= |history| + k then all[|history| + k - distance] else fill
    decreases length
  {
    var b := Back(fill, history, distance);
    var tail := Copy(fill, history + [b], distance, length - 1);
    assert history + ([b] + tail) == (history + [b]) + tail;
    if k > 0 {
      CopyIndexes(fill, history + [b], distance, length - 1, k - 1);
    }
  }

  /** Interrupting a copy and going on with the rest later changes nothing. */
  lemma {:induction false} CopySplit(fill: Byte, history: seq<Byte>, distance: nat, m: nat, n: nat)
    requires distance > 0
    ensures Copy(fill, history, distance, m + n) ==
            var head := Copy(fill, history, distance, m); head + Copy(fill, history + head, distance, n)
    decreases m
  {
    if m == 0 {
      assert history + [] == history;
    } else {
      var b := Back(fill, history, distance);
      CopySplit(fill, history + [b], distance, m - 1, n);
      var head := Copy(fill, history + [b], distance, m - 1);
      assert history + ([b] + head) == (history + [b]) + head;
    }
  }

  /** The slot `distance` before `index`, going round. */
  function Slot(index: nat, distance: nat, size: nat): int
  {
    if distance <= index then index - distance else index + size - distance
  }

  /** The slots of a window hold the last bytes of the history. */
  ghost predicate Holds(slots: seq<Byte>, index: nat, fill: Byte, history: seq<Byte>)
  {
    && index < |slots|
    && forall d :: 1 <= d <= |slots| ==> slots[Slot(index, d, |slots|)] == Back(fill, history, d)
  }

  /** Masking is going round. */
  lemma MaskedIndex(index: nat, distance: nat, size: nat)
    requires index < size && 1 <= distance <= size
    ensures (index - distance) % size == Slot(index, distance, size)
    ensures (index + 1) % size == if index + 1 == size then 0 else index + 1
  {
    DivUnique(index - distance, size, if distance <= index then 0 else -1, Slot(index, distance, size));
    if index + 1 == size { DivUnique(size, size, 1, 0); } else { DivUnique(index + 1, size, 0, index + 1); }
  }

  lemma PutHolds(slots: seq<Byte>, index: nat, fill: Byte, history: seq<Byte>, b: Byte)
    requires Holds(slots, index, fill, history)
    ensures Holds(slots[index := b], if index + 1 == |slots| then 0 else index + 1, fill, history + [b])
  {
    var n := |slots|;
    var next := if index + 1 == n then 0 else index + 1;
    forall d | 1 <= d <= n
      ensures slots[index := b][Slot(next, d, n)] == Back(fill, history + [b], d)
    {
      if d > 1 { assert slots[Slot(index, d - 1, n)] == Back(fill, history, d - 1); }
    }
  }

  class SlidingWindow {
    const slots: array<Byte>
    var index: nat
    ghost const fill: Byte
    ghost var history: seq<Byte>

    ghost predicate Valid()
      reads this, slots
    {
      Holds(slots[..], index, fill, history)
    }

    constructor (size: nat, fill: Byte)
      requires size > 0
      ensures Valid() && fresh(slots) && slots.Length == size && this.fill == fill && history == []
    {
      slots := new Byte[size](_ => fill);
      index, this.fill, history := 0, fill, [];
    }

    method Put(b: Byte)
      requires Valid()
      modifies this, slots
      ensures Valid() && history == old(history) + [b]
    {
      PutHolds(slots[..], index, fill, history, b);
      MaskedIndex(index, 1, slots.Length);
      slots[index] := b;
      index := (index + 1) % slots.Length;
      history := history + [b];
    }

    method PutAll(bytes: seq<Byte>)
      requires Valid()
      modifies this, slots
      ensures Valid() && history == old(history) + bytes
      ensures bytes == [] ==> index == old(index) && slots[..] == old(slots[..])
    {
      for i := 0 to |bytes|
        invariant Valid() && history == old(history) + bytes[..i]
        invariant i == 0 ==> index == old(index) && slots[..] == old(slots[..])
      {
        Put(bytes[i]);
      }
    }

    method Get(distance: nat) returns (b: Byte)
      requires Valid() && 1 <= distance <= slots.Length
      ensures b == Back(fill, history, distance)
    {
      MaskedIndex(index, distance, slots.Length);
      assert slots[..][Slot(index, distance, slots.Length)] == Back(fill, history, distance);
      b := slots[(index - distance) % slots.Length];
    }

    /** Copies at most `limit` of `length` bytes from `distance` back. */
    method CopyBack(distance: nat, length: nat, limit: nat) returns (bytes: seq<Byte>)
      requires Valid() && 1 <= distance <= slots.Length
      modifies this, slots
      ensures Valid() && history == old(history) + bytes
      ensures bytes == Copy(fill, old(history), distance, if length < limit then length else limit)
    {
      bytes := [];
      var j := 0;
      while j < length && |bytes| < limit
        invariant Valid() && j == |bytes| <= length && |bytes| <= limit
        invariant history == old(history) + bytes
        invariant bytes == Copy(fill, old(history), distance, j)
      {
        var b := Get(distance);
        CopySplit(fill, old(history), distance, j, 1);
        assert Copy(fill, history, distance, 1) == [b];
        Put(b);
        bytes := bytes + [b];
        j := j + 1;
      }
    }
  }
}
