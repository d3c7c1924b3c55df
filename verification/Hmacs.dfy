// OFHMAC of src/OFHMAC.m against section 2 of RFC 2104, over the hashes of module Sha2Hashes.

module Hmacs {
  import Bits
  import opened Bytes
  import opened Options
  import opened Sha2
  import opened Sha2Hashes
  import Words

  // RFC 2104

  function XorByte(a: Byte, b: Byte): Byte
  {
    assert Bits.Pow2(8) == 256;
    Words.XorBelow(a, b, 8);
    Words.Xor(a, b)
  }

  function XorAll(s: seq<Byte>, b: Byte): (r: seq<Byte>)
    ensures |r| == |s| && forall i :: 0 <= i < |s| ==> r[i] == XorByte(s[i], b)
  {
    if s == [] then [] else XorAll(s[..|s| - 1], b) + [XorByte(s[|s| - 1], b)]
  }

  /** The key as a block; a longer one is hashed first. */
  ghost function KeyBlock(v: Variant, key: seq<Byte>): (block: seq<Byte>)
    ensures |block| == v.BlockSize()
  {
    var k := if |key| > v.BlockSize() then Digest(v, key) else key;
    k + Zeros(v.BlockSize() - |k|)
  }

  ghost function InnerPad(v: Variant, key: seq<Byte>): seq<Byte>
  {
    XorAll(KeyBlock(v, key), 0x36)
  }

  ghost function OuterPad(v: Variant, key: seq<Byte>): seq<Byte>
  {
    XorAll(KeyBlock(v, key), 0x5C)
  }

  ghost function Hmac(v: Variant, key: seq<Byte>, text: seq<Byte>): seq<Byte>
  {
    Digest(v, OuterPad(v, key) + Digest(v, InnerPad(v, key) + text))
  }

  // Runs

  /** What is known of an OFHMAC: its key, the bytes since then or since it was reset. */
  datatype Mac = Mac(key: Option<seq<Byte>>, text: seq<Byte>, calculated: bool)

  datatype Op = SetKey(key: seq<Byte>) | Update(data: seq<Byte>) | GetDigest | Reset | Zero

  function StatusOf(m: Mac, op: Op): Status
  {
    match op
    case SetKey(key) => if |key| > SIZE_MAX / 8 then OutOfRange else Ok
    case Update(data) =>
      if m.key.None? then InvalidArgument else if m.calculated then AlreadyCalculated
      else if |data| > SIZE_MAX / 8 then OutOfRange else Ok
    case GetDigest => if m.key.None? then InvalidArgument else Ok
    case Reset => Ok
    case Zero => Ok
  }

  function After(m: Mac, op: Op): Mac
  {
    match op
    case SetKey(key) => if StatusOf(m, op) == Ok then Mac(Some(key), [], false) else Mac(None, [], m.calculated)
    case Update(data) => if StatusOf(m, op) == Ok then m.(text := m.text + data) else m
    case GetDigest => if StatusOf(m, op) == Ok then m.(calculated := true) else m
    case Reset => Mac(m.key, [], false)
    case Zero => Mac(None, [], false)
  }

  function AfterAll(m: Mac, ops: seq<Op>): Mac
  {
    if ops == [] then m else After(AfterAll(m, ops[..|ops| - 1]), ops[|ops| - 1])
  }

  /** The digests that a run hands out */
  ghost function Digests(v: Variant, m: Mac, ops: seq<Op>): seq<seq<Byte>>
  {
    if ops == [] then []
    else
      var n := |ops| - 1;
      var was := AfterAll(m, ops[..n]);
      Digests(v, m, ops[..n])
      + if ops[n].GetDigest? && StatusOf(was, ops[n]) == Ok then [Hmac(v, was.key.value, was.text)] else []
  }

  function Join(chunks: seq<seq<Byte>>): seq<Byte>
  {
    if chunks == [] then [] else Join(chunks[..|chunks| - 1]) + chunks[|chunks| - 1]
  }

  function Updates(chunks: seq<seq<Byte>>): (ops: seq<Op>)
    ensures |ops| == |chunks| && forall i :: 0 <= i < |ops| ==> ops[i] == Update(chunks[i])
  {
    seq(|chunks|, i requires 0 <= i < |chunks| => Update(chunks[i]))
  }

  /** Whatever happened before, after a reset or a new key the bytes count as they are given, in pieces of any size. */
  lemma {:induction false} PiecesJoin(m: Mac, past: seq<Op>, last: Op, chunks: seq<seq<Byte>>)
    requires last.SetKey? || last.Reset?
    requires StatusOf(AfterAll(m, past), last) == Ok && AfterAll(m, past + [last]).key.Some?
    requires forall i :: 0 <= i < |chunks| ==> |chunks[i]| <= SIZE_MAX / 8
    ensures AfterAll(m, past + [last] + Updates(chunks)) == Mac(AfterAll(m, past + [last]).key, Join(chunks), false)
  {
    if chunks == [] {
      assert (past + [last])[..|past|] == past;
      assert past + [last] + Updates([]) == past + [last];
    } else {
      var n := |chunks| - 1;
      PiecesJoin(m, past, last, chunks[..n]);
      hide Updates;
      OneMoreUpdate(past + [last], chunks);
      AfterMore(m, past + [last] + Updates(chunks[..n]), Update(chunks[n]));
    }
  }

  lemma OneMoreUpdate(past: seq<Op>, chunks: seq<seq<Byte>>)
    requires chunks != []
    ensures past + Updates(chunks) == past + Updates(chunks[..|chunks| - 1]) + [Update(chunks[|chunks| - 1])]
  {
  }

  lemma AfterMore(m: Mac, ops: seq<Op>, op: Op)
    ensures AfterAll(m, ops + [op]) == After(AfterAll(m, ops), op)
  {
    assert (ops + [op])[..|ops|] == ops;
  }

  class OFHMAC {
    const hashClass: Variant
    var outerHash: OFSHA2Hash?
    var innerHash: OFSHA2Hash?
    var outerHashCopy: OFSHA2Hash?
    var innerHashCopy: OFSHA2Hash?
    var calculated: bool
    ghost var model: Mac
    ghost var owned: set<object>

    static function Footprint(h: OFSHA2Hash): set<object>
    {
      {h, h.state, h.buffer}
    }

    ghost predicate Keyed()
      reads this
    {
      outerHash != null && innerHash != null && outerHashCopy != null && innerHashCopy != null
    }

    /** The four hashes share nothing. */
    ghost predicate Apart()
      requires Keyed()
      reads this
    {
      && owned == Footprint(outerHash) + Footprint(innerHash) + Footprint(outerHashCopy) + Footprint(innerHashCopy)
      && this !in owned
      && Footprint(outerHash) !! Footprint(innerHash) !! Footprint(outerHashCopy) !! Footprint(innerHashCopy)
    }

    ghost predicate IsHash(h: OFSHA2Hash, message: seq<Byte>, done: bool)
      reads h, h.state, h.buffer
    {
      h.Valid() && h.variant == hashClass && h.message == message && h.calculated == done
    }

    ghost predicate Valid()
      reads this, owned
    {
      && model.calculated == calculated
      && if model.key.None? then
           outerHash == null && innerHash == null && outerHashCopy == null && innerHashCopy == null && owned == {}
         else
           var outer, inner := OuterPad(hashClass, model.key.value), InnerPad(hashClass, model.key.value);
           && Keyed() && Apart()
           && IsHash(outerHashCopy, outer, false) && IsHash(innerHashCopy, inner, false)
           && IsHash(innerHash, inner + model.text, calculated)
           && IsHash(outerHash, if calculated then outer + Digest(hashClass, inner + model.text) else outer, calculated)
    }

    constructor (hashClass: Variant)
      ensures Valid() && owned == {} && this.hashClass == hashClass && model == Mac(None, [], false)
    {
      this.hashClass := hashClass;
      outerHash, innerHash, outerHashCopy, innerHashCopy := null, null, null, null;
      calculated, model, owned := false, Mac(None, [], false), {};
    }

    method UpdateWithBuffer(data: seq<Byte>) returns (status: Status)
      requires Valid()
      modifies this, owned
      ensures Valid() && owned == old(owned)
      ensures status == StatusOf(old(model), Update(data)) && model == After(old(model), Update(data))
    {
      hide OFSHA2Hash.Valid, Digest, OuterPad, InnerPad;
      if innerHash == null { return InvalidArgument; }
      if calculated { return AlreadyCalculated; }
      status := innerHash.UpdateWithBuffer(data);
      if status == Ok {
        ghost var inner := InnerPad(hashClass, model.key.value);
        assert inner + model.text + data == inner + (model.text + data);
        model := model.(text := model.text + data);
      }
    }

    method GetDigest() returns (status: Status, digest: seq<Byte>)
      requires Valid()
      modifies this, owned
      ensures Valid() && owned == old(owned)
      ensures status == StatusOf(old(model), Op.GetDigest) && model == After(old(model), Op.GetDigest)
      ensures status == Ok ==> old(model).key.Some? && digest == Hmac(hashClass, old(model).key.value, old(model).text)
    {
      hide OFSHA2Hash.Valid, Digest, OuterPad, InnerPad;
      if outerHash == null || innerHash == null { return InvalidArgument, []; }
      if calculated {
        digest := outerHash.GetDigest();
        return Ok, digest;
      }
      var inner := innerHash.GetDigest();
      var _ := outerHash.UpdateWithBuffer(inner);
      calculated, model := true, model.(calculated := true);
      digest := outerHash.GetDigest();
      return Ok, digest;
    }

    /** The four hashes of a key that no byte was added for */
    method Adopt(outer: OFSHA2Hash, inner: OFSHA2Hash, outerCopy: OFSHA2Hash, innerCopy: OFSHA2Hash,
        ghost key: seq<Byte>)
      requires Footprint(outer) !! Footprint(inner) !! Footprint(outerCopy) !! Footprint(innerCopy)
      requires this !in Footprint(outer) + Footprint(inner) + Footprint(outerCopy) + Footprint(innerCopy)
      requires IsHash(outer, OuterPad(hashClass, key), false) && IsHash(outerCopy, OuterPad(hashClass, key), false)
      requires IsHash(inner, InnerPad(hashClass, key), false) && IsHash(innerCopy, InnerPad(hashClass, key), false)
      modifies this
      ensures Valid() && model == Mac(Some(key), [], false)
      ensures owned == Footprint(outer) + Footprint(inner) + Footprint(outerCopy) + Footprint(innerCopy)
    {
      hide OFSHA2Hash.Valid, Digest, OuterPad, InnerPad, Footprint;
      outerHash, innerHash, outerHashCopy, innerHashCopy := outer, inner, outerCopy, innerCopy;
      owned := Footprint(outer) + Footprint(inner) + Footprint(outerCopy) + Footprint(innerCopy);
      calculated, model := false, Mac(Some(key), [], false);
      assert InnerPad(hashClass, key) + [] == InnerPad(hashClass, key);
      assert Apart();
      hide Apart;
    }

    method Reset()
      requires Valid()
      modifies this
      ensures Valid() && fresh(owned - old(owned))
      ensures model == After(old(model), Op.Reset)
    {
      hide OFSHA2Hash.Valid, Digest, OuterPad, InnerPad;
      if outerHashCopy == null {
        outerHash, innerHash := null, null;
        calculated, model := false, Mac(model.key, [], false);
      } else {
        Restore();
      }
    }

    method Restore()
      requires Valid() && model.key.Some?
      modifies this
      ensures Valid() && fresh(owned - old(owned))
      ensures model == After(old(model), Op.Reset)
    {
      hide OFSHA2Hash.Valid, Digest, OuterPad, InnerPad, Footprint;
      ghost var key := model.key.value;
      var outerCopy, innerCopy := outerHashCopy, innerHashCopy;
      ghost var copies := Footprint(outerCopy) + Footprint(innerCopy);
      assert Footprint(outerCopy) !! Footprint(innerCopy) && this !in copies && copies <= owned;
      assert IsHash(outerCopy, OuterPad(hashClass, key), false) && IsHash(innerCopy, InnerPad(hashClass, key), false);
      hide Valid, Apart;
      var outer, inner := CopyBoth(outerCopy, innerCopy);
      Adopt(outer, inner, outerCopy, innerCopy, key);
      assert owned - old(owned) <= Footprint(outer) + Footprint(inner);
    }

    static method CopyBoth(a: OFSHA2Hash, b: OFSHA2Hash) returns (c: OFSHA2Hash, d: OFSHA2Hash)
      requires a.Valid() && b.Valid()
      ensures fresh(Footprint(c)) && fresh(Footprint(d)) && Footprint(c) !! Footprint(d)
      ensures c.Valid() && c.variant == a.variant && c.message == a.message && c.calculated == a.calculated
      ensures d.Valid() && d.variant == b.variant && d.message == b.message && d.calculated == b.calculated
    {
      hide OFSHA2Hash.Valid, Digest;
      c := new OFSHA2Hash.Copy(a);
      d := new OFSHA2Hash.Copy(b);
    }

    method Zero()
      requires Valid()
      modifies this
      ensures Valid() && owned == {} && model == After(old(model), Op.Zero)
    {
      hide OFSHA2Hash.Valid, Digest, OuterPad, InnerPad;
      outerHash, innerHash, outerHashCopy, innerHashCopy := null, null, null, null;
      calculated, model, owned := false, Mac(None, [], false), {};
    }

    /** The key as a block, which `setKey:length:` computes in two arrays */
    static method KeyPad(hashClass: Variant, key: seq<Byte>) returns (block: Option<seq<Byte>>)
      ensures block == if |key| > SIZE_MAX / 8 then None else Some(KeyBlock(hashClass, key))
    {
      hide OFSHA2Hash.Valid, Digest;
      if |key| > hashClass.BlockSize() {
        var hash := new OFSHA2Hash(hashClass);
        var status := hash.UpdateWithBuffer(key);
        if status == OutOfRange { return None; }
        var digest := hash.GetDigest();
        assert [] + key == key;
        return Some(digest + Zeros(hashClass.BlockSize() - |digest|));
      }
      return Some(key + Zeros(hashClass.BlockSize() - |key|));
    }

    method SetKey(key: seq<Byte>) returns (status: Status)
      requires Valid()
      modifies this
      ensures Valid() && fresh(owned)
      ensures status == StatusOf(old(model), Op.SetKey(key)) && model == After(old(model), Op.SetKey(key))
    {
      hide OFSHA2Hash.Valid, Digest, OuterPad, InnerPad;
      outerHash, innerHash, outerHashCopy, innerHashCopy := null, null, null, null;
      model, owned := Mac(None, [], calculated), {};
      var block := KeyPad(hashClass, key);
      if block.None? { return OutOfRange; }
      Install(block.value, key);
      return Ok;
    }

    method Install(block: seq<Byte>, ghost key: seq<Byte>)
      requires block == KeyBlock(hashClass, key)
      modifies this
      ensures Valid() && fresh(owned) && model == Mac(Some(key), [], false)
    {
      hide OFSHA2Hash.Valid, Digest, KeyBlock, Valid;
      var outer, outerCopy := Start(hashClass, XorAll(block, 0x5C));
      var inner, innerCopy := Start(hashClass, XorAll(block, 0x36));
      assert IsHash(outer, OuterPad(hashClass, key), false) && IsHash(outerCopy, OuterPad(hashClass, key), false);
      Adopt(outer, inner, outerCopy, innerCopy, key);
    }

    /** A hash that was given a padded key, and a copy of it */
    static method Start(hashClass: Variant, pad: seq<Byte>) returns (hash: OFSHA2Hash, copy: OFSHA2Hash)
      requires |pad| == hashClass.BlockSize()
      ensures fresh(Footprint(hash)) && fresh(Footprint(copy)) && Footprint(hash) !! Footprint(copy)
      ensures hash.Valid() && hash.variant == hashClass && hash.message == pad && !hash.calculated
      ensures copy.Valid() && copy.variant == hashClass && copy.message == pad && !copy.calculated
    {
      hide OFSHA2Hash.Valid, Digest;
      hash := new OFSHA2Hash(hashClass);
      var _ := hash.UpdateWithBuffer(pad);
      assert [] + pad == pad;
      copy := new OFSHA2Hash.Copy(hash);
    }

    /** Any run of calls: every digest asked for is that of the key and the bytes since the last reset. */
    method Run(ops: seq<Op>) returns (digests: seq<seq<Byte>>)
      requires Valid()
      modifies this, owned
      ensures Valid() && model == AfterAll(old(model), ops)
      ensures digests == Digests(hashClass, old(model), ops)
    {
      hide Valid, Hmac, After, StatusOf;
      var i := 0;
      digests := [];
      while i < |ops|
        invariant 0 <= i <= |ops| && Valid() && fresh(owned - old(owned))
        invariant model == AfterAll(old(model), ops[..i]) && digests == Digests(hashClass, old(model), ops[..i])
      {
        assert ops[..i + 1][..i] == ops[..i];
        match ops[i] {
          case SetKey(key) => var _ := SetKey(key);
          case Update(data) => var _ := UpdateWithBuffer(data);
          case GetDigest =>
            var status, digest := GetDigest();
            if status == Ok { digests := digests + [digest]; }
          case Reset => Reset();
          case Zero => Zero();
        }
        i := i + 1;
      }
      assert ops[..i] == ops;
    }
  }
}
