// OFMapTable of src/OFMapTable.m: a hash table with open addressing, for every hash function,
// comparison and rotation. Every method is tied to a finite map, the ghost field `model`.

module MapTables {
  import opened Bits
  import opened MapTableEquality
  import opened MapTableSpec
  import opened Options
  import opened Words

  const MIN_CAPACITY: nat := 16
  const ULONG_MAX: nat := WORD_LIMIT - 1

  datatype Status = Ok | InvalidArgument | OutOfRange

  ghost predicate PowerOfTwo(n: nat)
  {
    exists e: nat :: n == Pow2(e)
  }

  /** `fullness` counts eighths. */
  lemma Fullness(x: nat, n: nat)
    requires n > 0
    ensures x / n < 6 <==> x < 6 * n
    ensures x / n <= 1 <==> x < 2 * n
  {
    assert x == (x / n) * n + x % n;
    if x / n >= 6 { Monotone(6, x / n, n); } else { Monotone(x / n, 5, n); }
    if x / n >= 2 { Monotone(2, x / n, n); } else { Monotone(x / n, 1, n); }
  }

  lemma FirstPowers()
    ensures Pow2(0) == 1 && Pow2(4) == MIN_CAPACITY
  {
  }

  lemma NextPower(e: nat)
    ensures Pow2(e + 1) == 2 * Pow2(e)
  {
  }

  class OFMapTable<K(==, !new), V(==)> {
    const hashOf: K -> Word
    const equal: (K, K) -> bool
    const valueHash: V -> Word
    const valueEqual: (V, V) -> bool
    var buckets: array<Bucket<K, V>>
    var count: nat
    var rotate: nat
    var mutations: nat
    ghost var model: map<K, V>

    ghost predicate Valid()
      reads this, buckets
    {
      && Lawful(equal, hashOf)
      && MIN_CAPACITY <= buckets.Length && PowerOfTwo(buckets.Length)
      && count < buckets.Length && count <= MOST_ENTRIES && rotate < 32
      && |model| == count && Distinct(equal, model)
      && Slots(buckets[..])
    }

    /** The slots form a table of the map. */
    ghost predicate IsTable(s: seq<Bucket<K, V>>, m: map<K, V>)
      reads this`rotate
      requires rotate < 32
    {
      && Stores(s, m) && Unique(s) && Probeable(s)
      && (forall i :: 0 <= i < |s| && s[i].Full? ==> s[i].hash == Rol(hashOf(s[i].key), rotate))
    }

    ghost predicate Slots(s: seq<Bucket<K, V>>)
      reads this`rotate, this`model
      requires rotate < 32
    {
      IsTable(s, model)
    }

    /** The capacity chosen at creation, with room for as many entries as were asked for. */
    static method InitialCapacity(capacity: nat) returns (r: Option<nat>)
      ensures r.None? <==> capacity > MOST_ENTRIES
      ensures r.Some? ==> MIN_CAPACITY <= r.value && PowerOfTwo(r.value) && capacity * 8 < 6 * r.value
      // Half of it would be too little.
      ensures r.Some? && r.value > MIN_CAPACITY ==> 2 * capacity * 8 >= 6 * r.value
    {
      hide Pow2;
      if capacity > MOST_ENTRIES { return None; }
      FirstPowers();
      var n: nat := 1;
      ghost var e: nat := 0;
      while n < capacity
        invariant 0 < n == Pow2(e) && (n == 1 || n < 2 * capacity)
        decreases capacity - n
      {
        NextPower(e);
        n, e := n * 2, e + 1;
      }
      Fullness(capacity * 8, n);
      if capacity * 8 / n >= 6 {
        NextPower(e);
        n, e := n * 2, e + 1;
      }
      if n < MIN_CAPACITY {
        n, e := MIN_CAPACITY, 4;
      }
      return Some(n);
    }

    constructor (hashOf: K -> Word, equal: (K, K) -> bool, valueHash: V -> Word, valueEqual: (V, V) -> bool,
        capacity: nat, rotate: nat)
      requires Lawful(equal, hashOf) && MIN_CAPACITY <= capacity && PowerOfTwo(capacity) && rotate < 32
      ensures Valid() && fresh(buckets) && model == map[] && mutations == 0
      ensures this.hashOf == hashOf && this.equal == equal
      ensures this.valueHash == valueHash && this.valueEqual == valueEqual
      ensures buckets.Length == capacity && this.rotate == rotate
    {
      this.hashOf, this.equal, this.valueHash, this.valueEqual := hashOf, equal, valueHash, valueEqual;
      buckets := new Bucket<K, V>[capacity](_ => Empty);
      count, mutations, model := 0, 0, map[];
      this.rotate := rotate;
    }

    /** The search shared by `objectForKey:`, `of_setObject:forKey:hash:` and `removeObjectForKey:`. */
    method Find(key: K, hash: Word) returns (i: nat)
      requires Valid() && hash == Rol(hashOf(key), rotate)
      ensures i < buckets.Length ==> buckets[i].Full? && equal(buckets[i].key, key)
      ensures i >= buckets.Length ==> !Has(equal, model, key)
    {
      var home := Home(hash, buckets.Length);
      ghost var s := buckets[..];
      i := home;
      while i < buckets.Length && !buckets[i].Empty?
        invariant home <= i <= buckets.Length
        invariant forall k :: home <= k < i ==> !s[k].Empty? && (s[k].Full? ==> !equal(s[k].key, key))
      {
        if buckets[i].Full? && equal(buckets[i].key, key) { return i; }
        i := i + 1;
      }
      if i < buckets.Length {
        NotFoundAtEmpty(s, key, hash, i);
        return buckets.Length;
      }
      // No empty slot from the home to the end: the probe goes on at the front.
      i := 0;
      while i < home && !buckets[i].Empty?
        invariant 0 <= i <= home
        invariant forall k :: home <= k < |s| || 0 <= k < i ==> !s[k].Empty? && (s[k].Full? ==> !equal(s[k].key, key))
      {
        if buckets[i].Full? && equal(buckets[i].key, key) { return i; }
        i := i + 1;
      }
      if i < home {
        NotFoundAtEmpty(s, key, hash, i);
      } else {
        NotFoundAnywhere(s, key);
      }
      return buckets.Length;
    }

    /** A search that met nothing equal before an empty slot. */
    lemma NotFoundAtEmpty(s: seq<Bucket<K, V>>, key: K, hash: Word, stop: nat)
      requires rotate < 32 && Lawful(equal, hashOf) && Slots(s) && hash == Rol(hashOf(key), rotate)
      requires stop < |s| && s[stop].Empty?
      requires forall k :: 0 <= k < |s| && Before(Home(hash, |s|), stop, k) && s[k].Full? ==> !equal(s[k].key, key)
      ensures !Has(equal, model, key)
    {
      hide Home, Rol;
      if Has(equal, model, key) {
        var k := KeyFor(equal, model, key);
        var i :| 0 <= i < |s| && s[i].Full? && s[i].key == k;
        NotBeyondEmpty(s, Home(hash, |s|), stop, i);
      }
    }

    lemma NotFoundAnywhere(s: seq<Bucket<K, V>>, key: K)
      requires rotate < 32 && Slots(s)
      requires forall k :: 0 <= k < |s| && s[k].Full? ==> !equal(s[k].key, key)
      ensures !Has(equal, model, key)
    {
    }

    // Reading

    method ObjectForKey(key: Option<K>) returns (status: Status, value: Option<V>)
      requires Valid()
      ensures status == if key.None? then InvalidArgument else Ok
      ensures key.Some? ==> value == Lookup(equal, model, key.value)
    {
      if key.None? { return InvalidArgument, None; }
      hide Home, Rol;
      var hash := Rol(hashOf(key.value), rotate);
      var i := Find(key.value, hash);
      if i >= buckets.Length { return Ok, None; }
      KeyForUnique(equal, hashOf, model, key.value, buckets[i].key);
      return Ok, Some(buckets[i].value);
    }

    method ContainsObject(value: V) returns (r: bool)
      requires Valid()
      ensures r <==> exists k :: k in model && valueEqual(model[k], value)
    {
      if count == 0 {
        assert model == map[];
        return false;
      }
      ghost var s := buckets[..];
      var i := 0;
      while i < buckets.Length
        invariant 0 <= i <= buckets.Length
        invariant forall k :: 0 <= k < i && s[k].Full? ==> !valueEqual(s[k].value, value)
      {
        if buckets[i].Full? && valueEqual(buckets[i].value, value) {
          assert s[i].key in model;
          return true;
        }
        i := i + 1;
      }
      forall k | k in model ensures !valueEqual(model[k], value) {
        var j :| 0 <= j < |s| && s[j].Full? && s[j].key == k;
      }
      return false;
    }

    // Writing

    /** The first slot that a search from the home of `hash` may fill. */
    static method FindFree(slots: array<Bucket<K, V>>, hash: Word, ghost m: map<K, V>) returns (i: nat)
      requires Unique(slots[..]) && |m| < slots.Length
      requires forall j :: 0 <= j < slots.Length && slots[j].Full? ==> slots[j].key in m
      ensures i < slots.Length && !slots[i].Full?
      ensures forall j :: 0 <= j < slots.Length && Before(Home(hash, slots.Length), i, j) ==> slots[j].Full?
    {
      hide Home;
      var home := Home(hash, slots.Length);
      i := home;
      while i < slots.Length && slots[i].Full?
        invariant home <= i <= slots.Length
        invariant forall k :: home <= k < i ==> slots[k].Full?
      {
        i := i + 1;
      }
      // All slots from the home on are taken; there is one to spare before it.
      if i >= slots.Length {
        i := 0;
        ghost var spare := SlotToSpare(slots[..], m);
        while i < home && slots[i].Full?
          invariant 0 <= i <= home && spare < home
          invariant forall k :: 0 <= k < i ==> slots[k].Full?
        {
          i := i + 1;
        }
      }
    }

    /** The entries of the first `i` slots are those of `part`. */
    ghost predicate Moved(s: seq<Bucket<K, V>>, i: nat, t: seq<Bucket<K, V>>, part: map<K, V>)
      reads this`rotate, this`model
      requires rotate < 32 && i <= |s|
    {
      && IsTable(t, part)
      && (forall k :: k in part ==> k in model && part[k] == model[k])
      && (forall j :: 0 <= j < i && s[j].Full? ==> s[j].key in part)
      && (forall k :: k in part ==> exists j :: 0 <= j < i && s[j].Full? && s[j].key == k)
    }

    lemma MoveOne(s: seq<Bucket<K, V>>, i: nat, t: seq<Bucket<K, V>>, part: map<K, V>, j: nat)
      requires rotate < 32 && i < |s| && s[i].Full? && Slots(s) && Moved(s, i, t, part)
      requires j < |t| && !t[j].Full?
      requires forall k :: 0 <= k < |t| && Before(Home(s[i].hash, |t|), j, k) ==> t[k].Full?
      ensures Moved(s, i + 1, t[j := s[i]], part[s[i].key := s[i].value])
    {
      hide Home, Rol, Before;
      FillStores(t, part, j, s[i]);
      FillKeepsProbeable(t, j, s[i]);
      var part' := part[s[i].key := s[i].value];
      forall k | k in part' ensures exists x :: 0 <= x < i + 1 && s[x].Full? && s[x].key == k {
        if k == s[i].key {
          assert s[i].Full?;
        } else {
          var x :| 0 <= x < i && s[x].Full? && s[x].key == k;
        }
      }
    }

    lemma MovedAll(s: seq<Bucket<K, V>>, t: seq<Bucket<K, V>>, part: map<K, V>)
      requires rotate < 32 && Slots(s) && Moved(s, |s|, t, part)
      ensures part == model && Slots(t)
    {
      forall k | k in model ensures k in part {
        var i :| 0 <= i < |s| && s[i].Full? && s[i].key == k;
      }
    }

    lemma PartFits(part: map<K, V>)
      requires forall k :: k in part ==> k in model
      ensures |part| <= |model|
    {
      Subset(part.Keys, model.Keys);
      assert |part.Keys| == |part| && |model.Keys| == |model|;
    }

    /** One turn of the loop that moves the entries to a new array. */
    method MoveSlot(s: seq<Bucket<K, V>>, i: nat, newBuckets: array<Bucket<K, V>>, ghost part: map<K, V>)
        returns (ghost part': map<K, V>)
      requires rotate < 32 && i < |s| && Slots(s) && Moved(s, i, newBuckets[..], part) && |model| < newBuckets.Length
      modifies newBuckets
      ensures Moved(s, i + 1, newBuckets[..], part')
    {
      hide Home, Rol, Stores, Unique, Probeable, Slots;
      if s[i].Full? {
        PartFits(part);
        MovedKeys(s, i, newBuckets[..], part);
        hide Moved;
        var j := FindFree(newBuckets, s[i].hash, part);
        MoveOne(s, i, newBuckets[..], part, j);
        ghost var t := newBuckets[..];
        newBuckets[j] := s[i];
        assert newBuckets[..] == t[j := s[i]];
        part' := part[s[i].key := s[i].value];
      } else {
        hide Moved;
        MovedSkip(s, i, newBuckets[..], part);
        part' := part;
      }
    }

    /** The second half of `of_resizeForCount:`: all entries move to a new array. */
    method Rehash(capacity: nat)
      requires Valid() && count < capacity && MIN_CAPACITY <= capacity && PowerOfTwo(capacity)
      modifies this`buckets
      ensures Valid() && fresh(buckets) && buckets.Length == capacity
    {
      var newBuckets := new Bucket<K, V>[capacity](_ => Empty);
      var s := buckets[..];
      ghost var part: map<K, V> := map[];
      var i := 0;
      hide Home, Rol, PowerOfTwo, Stores, Unique, Probeable, Moved, Lawful, Distinct, Slots;
      NothingMoved(s, newBuckets[..]);
      while i < |s|
        invariant i <= |s| && fresh(newBuckets) && newBuckets.Length == capacity
        invariant Moved(s, i, newBuckets[..], part)
      {
        part := MoveSlot(s, i, newBuckets, part);
        i := i + 1;
      }
      MovedAll(s, newBuckets[..], part);
      buckets := newBuckets;
    }

    lemma NothingMoved(s: seq<Bucket<K, V>>, t: seq<Bucket<K, V>>)
      requires rotate < 32 && forall j :: 0 <= j < |t| ==> t[j].Empty?
      ensures Moved(s, 0, t, map[])
    {
    }

    lemma MovedSkip(s: seq<Bucket<K, V>>, i: nat, t: seq<Bucket<K, V>>, part: map<K, V>)
      requires rotate < 32 && i < |s| && !s[i].Full? && Moved(s, i, t, part)
      ensures Moved(s, i + 1, t, part)
    {
      forall k | k in part ensures exists x :: 0 <= x < i + 1 && s[x].Full? && s[x].key == k {
        var x :| 0 <= x < i && s[x].Full? && s[x].key == k;
      }
    }

    lemma MovedKeys(s: seq<Bucket<K, V>>, i: nat, t: seq<Bucket<K, V>>, part: map<K, V>)
      requires rotate < 32 && i <= |s| && Moved(s, i, t, part)
      ensures Unique(t) && forall j :: 0 <= j < |t| && t[j].Full? ==> t[j].key in part
      ensures forall k :: k in part ==> k in model
    {
    }

    /** `of_resizeForCount:` */
    method ResizeForCount(n: nat) returns (status: Status)
      requires Valid() && count <= n <= count + 1
      modifies this`buckets
      ensures Valid() && (buckets == old(buckets) || fresh(buckets))
      ensures status == if n > MOST_ENTRIES then OutOfRange else Ok
      ensures status == OutOfRange ==> buckets == old(buckets)
      ensures status == Ok ==> n < buckets.Length
      ensures status == Ok && old(buckets.Length) <= ULONG_MAX / 2 ==> 8 * n < 6 * buckets.Length
      ensures buckets.Length > old(buckets.Length) <==>
              status == Ok && 8 * n >= 6 * old(buckets.Length) && old(buckets.Length) <= ULONG_MAX / 2
      ensures buckets.Length < old(buckets.Length) <==>
              status == Ok && n == count && 8 * n < 2 * old(buckets.Length) && old(buckets.Length) >= 2 * MIN_CAPACITY
      ensures buckets.Length > old(buckets.Length) ==> buckets.Length == 2 * old(buckets.Length)
      ensures buckets.Length < old(buckets.Length) ==> 2 * buckets.Length == old(buckets.Length)
    {
      if n > MOST_ENTRIES { return OutOfRange; }
      var capacity := buckets.Length;
      Fullness(n * 8, capacity);
      var fullness := n * 8 / capacity;
      if fullness >= 6 {
        if capacity > ULONG_MAX / 2 { return Ok; }
        capacity := capacity * 2;
      } else if fullness <= 1 {
        capacity := capacity / 2;
      } else {
        return Ok;
      }
      Scaled(buckets.Length);
      // Only a removal shrinks the table, so that the capacity asked for at first outlasts additions.
      if (capacity < buckets.Length && n > count) || capacity < MIN_CAPACITY { return Ok; }
      Rehash(capacity);
      return Ok;
    }

    lemma Scaled(n: nat)
      requires PowerOfTwo(n) && n >= MIN_CAPACITY
      ensures PowerOfTwo(n * 2) && PowerOfTwo(n / 2) && n / 2 * 2 == n
    {
      var e: nat :| n == Pow2(e);
      assert n * 2 == Pow2(e + 1);
      assert e > 0 && n / 2 == Pow2(e - 1);
    }

    /** The entry for a key that is not there yet goes to the first slot that is not in use. */
    method Insert(key: K, value: V, hash: Word)
      requires Valid() && count + 1 < buckets.Length && count + 1 <= MOST_ENTRIES
      requires !Has(equal, model, key) && hash == Rol(hashOf(key), rotate)
      modifies this`count, this`model, buckets
      ensures Valid() && model == old(model)[key := value]
    {
      hide Home, Rol, PowerOfTwo, Probeable;
      var i := FindFree(buckets, hash, model);
      ghost var s := buckets[..];
      var bucket := Full(key, value, hash);
      InsertSlots(s, i, key, value, hash);
      SetLaws(equal, hashOf, model, key, value, key);
      hide *;
      buckets[i] := bucket;
      assert buckets[..] == s[i := bucket];
      count := count + 1;
      model := model[key := value];
    }

    lemma InsertSlots(s: seq<Bucket<K, V>>, i: nat, key: K, value: V, hash: Word)
      requires rotate < 32 && Slots(s) && Lawful(equal, hashOf) && !Has(equal, model, key)
      requires i < |s| && !s[i].Full? && hash == Rol(hashOf(key), rotate)
      requires forall j :: 0 <= j < |s| && Before(Home(hash, |s|), i, j) ==> s[j].Full?
      ensures IsTable(s[i := Full(key, value, hash)], model[key := value])
    {
      hide Home, Rol, Before, Stores, Unique, Probeable;
      assert equal(key, key);
      FillStores(s, model, i, Full(key, value, hash));
      FillKeepsProbeable(s, i, Full(key, value, hash));
    }

    lemma ReplaceSlots(s: seq<Bucket<K, V>>, i: nat, value: V)
      requires rotate < 32 && Slots(s) && i < |s| && s[i].Full?
      ensures IsTable(s[i := s[i].(value := value)], model[s[i].key := value])
    {
      hide Home, Rol, Before, Stores, Unique, Probeable;
      ReplaceStores(s, model, i, value);
      ReplaceKeepsProbeable(s, i, value);
    }

    /** Every slot that is in use is still in use for the same key. */
    twostate predicate SameKeys()
      reads this, buckets
    {
      && buckets == old(buckets) && model.Keys == old(model.Keys)
      && forall i :: 0 <= i < buckets.Length ==> SameKey(buckets[i], old(buckets[i]))
    }

    method Replace(i: nat, key: K, value: V)
      requires Valid() && i < buckets.Length && buckets[i].Full? && equal(buckets[i].key, key)
      modifies this`model, buckets
      ensures Valid() && model == AfterSet(equal, old(model), key, value) && SameKeys()
    {
      ghost var s := buckets[..];
      KeyForUnique(equal, hashOf, model, key, s[i].key);
      SetLaws(equal, hashOf, model, key, value, key);
      ReplaceSlots(s, i, value);
      hide Home, Rol, Stores, Unique, Probeable, Lawful, Distinct, PowerOfTwo;
      assert s[i].key in model;
      buckets[i] := buckets[i].(value := value);
      assert buckets[..] == s[i := s[i].(value := value)];
      model := model[s[i].key := value];
    }

    /** `of_setObject:forKey:hash:` with the hash of the key before rotation */
    method OfSetObject(value: Option<V>, key: Option<K>, keyHash: Word) returns (status: Status)
      requires Valid() && (key.Some? ==> keyHash == hashOf(key.value))
      modifies this, buckets
      ensures Valid() && (buckets == old(buckets) || fresh(buckets)) && rotate == old(rotate)
      ensures status == if key.None? || value.None? then InvalidArgument
                        else if Crowded(equal, old(model), key.value) then OutOfRange else Ok
      ensures model == if status == Ok then AfterSet(equal, old(model), key.value, value.value) else old(model)
      ensures mutations == old(mutations) + if status == Ok && !Has(equal, old(model), key.value) then 1 else 0
      ensures mutations == old(mutations) ==> SameKeys()
    {
      hide Home, Rol, PowerOfTwo, Probeable, Stores, Unique, Lawful, Distinct, Slots, Has, AfterSet, Crowded;
      if key.None? || value.None? { return InvalidArgument; }
      var hash := Rol(keyHash, rotate);
      var i := Find(key.value, hash);
      if i < buckets.Length {
        FoundEqual(i, key.value);
        Replace(i, key.value, value.value);
        return Ok;
      }
      status := Add(value.value, key.value, hash);
    }

    /** The key is new: this may have to grow the table first, and counts as a mutation only if it succeeds. */
    method Add(value: V, key: K, hash: Word) returns (status: Status)
      requires Valid() && !Has(equal, model, key) && hash == Rol(hashOf(key), rotate)
      modifies this, buckets
      ensures Valid() && (buckets == old(buckets) || fresh(buckets)) && rotate == old(rotate)
      ensures status == if Crowded(equal, old(model), key) then OutOfRange else Ok
      ensures model == if status == Ok then AfterSet(equal, old(model), key, value) else old(model)
      ensures mutations == old(mutations) + if status == Ok then 1 else 0
      ensures mutations == old(mutations) ==> SameKeys()
    {
      hide Home, Rol, PowerOfTwo, Probeable, Stores, Unique, Lawful, Distinct;
      status := ResizeForCount(count + 1);
      if status == OutOfRange { return; }
      mutations := mutations + 1;
      Insert(key, value, hash);
      return Ok;
    }

    lemma FoundEqual(i: nat, key: K)
      requires Valid() && i < buckets.Length && buckets[i].Full? && equal(buckets[i].key, key)
      ensures Has(equal, model, key) && !Crowded(equal, model, key)
    {
      FoundKey(i);
    }

    lemma FoundKey(i: nat)
      requires Valid() && i < buckets.Length && buckets[i].Full?
      ensures buckets[i].key in model && model[buckets[i].key] == buckets[i].value
    {
      assert buckets[..][i] == buckets[i];
    }

    method SetObject(value: Option<V>, key: Option<K>) returns (status: Status)
      requires Valid()
      modifies this, buckets
      ensures Valid() && (buckets == old(buckets) || fresh(buckets)) && rotate == old(rotate)
      ensures status == if key.None? || value.None? then InvalidArgument
                        else if Crowded(equal, old(model), key.value) then OutOfRange else Ok
      ensures model == if status == Ok then AfterSet(equal, old(model), key.value, value.value) else old(model)
      ensures mutations == old(mutations) + if status == Ok && !Has(equal, old(model), key.value) then 1 else 0
      ensures mutations == old(mutations) ==> SameKeys()
    {
      hide *;
      // The source also applies the hash function to an absent key.
      var keyHash: Word := if key.Some? then hashOf(key.value) else 0;
      status := OfSetObject(value, key, keyHash);
    }

    lemma DeleteSlots(s: seq<Bucket<K, V>>, i: nat)
      requires rotate < 32 && Slots(s) && i < |s| && s[i].Full?
      ensures IsTable(s[i := Deleted], model - {s[i].key})
    {
      hide Home, Rol, Before, Stores, Unique, Probeable;
      DeleteStores(s, model, i);
      DeleteKeepsProbeable(s, i);
    }

    method Delete(i: nat, key: K)
      requires Valid() && i < buckets.Length && buckets[i].Full? && equal(buckets[i].key, key)
      modifies this`model, this`count, buckets
      ensures Valid() && model == AfterRemove(equal, old(model), key) && Has(equal, old(model), key)
    {
      ghost var s := buckets[..];
      assert s[i].key in model;
      KeyForUnique(equal, hashOf, model, key, s[i].key);
      RemoveLaws(equal, hashOf, model, key, key);
      DeleteSlots(s, i);
      hide Home, Rol, Stores, Unique, Probeable, Lawful, Distinct, PowerOfTwo;
      buckets[i] := Deleted;
      assert buckets[..] == s[i := Deleted];
      count := count - 1;
      model := model - {s[i].key};
    }

    method RemoveObjectForKey(key: Option<K>) returns (status: Status)
      requires Valid()
      modifies this, buckets
      ensures Valid() && (buckets == old(buckets) || fresh(buckets)) && rotate == old(rotate)
      ensures status == if key.None? then InvalidArgument else Ok
      ensures model == if key.Some? then AfterRemove(equal, old(model), key.value) else old(model)
      ensures mutations == old(mutations) + if key.Some? && Has(equal, old(model), key.value) then 1 else 0
      ensures mutations == old(mutations) ==> SameKeys()
    {
      if key.None? { return InvalidArgument; }
      hide Home, Rol, PowerOfTwo, Probeable, Stores, Unique, Lawful, Distinct;
      var i := Find(key.value, Rol(hashOf(key.value), rotate));
      if i >= buckets.Length { return Ok; }
      Delete(i, key.value);
      mutations := mutations + 1;
      status := ResizeForCount(count);
    }

    /** Empties slot after slot, in place. */
    method ClearSlots()
      modifies buckets
      ensures forall i :: 0 <= i < buckets.Length ==> buckets[i] == Empty
    {
      for i := 0 to buckets.Length
        invariant forall j :: 0 <= j < i ==> buckets[j] == Empty
      {
        buckets[i] := Empty;
      }
    }

    /**
     * The counter of mutations stays as it is. `seed` is the new rotation, if hashes are seeded. Buckets of another
     * size are moved in any case, others if `moves` says so: reallocating may do either.
     */
    method RemoveAllObjects(seed: Option<nat>, moves: bool)
      requires Valid() && (seed.Some? ==> seed.value < 32)
      modifies this, buckets
      ensures Valid() && buckets.Length == MIN_CAPACITY && (buckets == old(buckets) || fresh(buckets))
      ensures buckets == old(buckets) <==> old(buckets).Length == MIN_CAPACITY && !moves
      ensures model == map[] && mutations == old(mutations)
      ensures rotate == if seed.Some? then seed.value else old(rotate)
    {
      ClearSlots();
      count, model := 0, map[];
      if buckets.Length != MIN_CAPACITY || moves { buckets := new Bucket<K, V>[MIN_CAPACITY](_ => Empty); }
      assert PowerOfTwo(MIN_CAPACITY) by { assert Pow2(4) == 16; }
      if seed.Some? { rotate := seed.value; }
    }

    method Apply(op: Op<K, V>)
      requires Valid() && (op.RemoveAll? && op.seed.Some? ==> op.seed.value < 32)
      modifies this, buckets
      ensures Valid() && model == After(equal, old(model), op) && (buckets == old(buckets) || fresh(buckets))
      ensures mutations == old(mutations) + if Mutates(equal, old(model), op) then 1 else 0
      ensures if op.RemoveAll?
              then buckets.Length == MIN_CAPACITY &&
                   (buckets == old(buckets) <==> old(buckets).Length == MIN_CAPACITY && !op.moves)
              else mutations == old(mutations) ==> SameKeys()
    {
      hide Valid, Has, KeyFor, SameKeys, AfterSet, AfterRemove;
      match op {
        case Set(key, value) => var _ := SetObject(Some(value), Some(key));
        case Remove(key) => var _ := RemoveObjectForKey(Some(key));
        case RemoveAll(seed, moves) => RemoveAllObjects(seed, moves);
      }
    }

    /**
     * Any run of changes: what the table then holds is what the finite map holds. If the run counted as no mutation,
     * the buckets are where they were if and only if no `removeAllObjects` moved them, and the slots are used as they
     * were unless there was one at all.
     */
    method Run(ops: seq<Op<K, V>>)
      requires Valid()
      requires forall i :: 0 <= i < |ops| && ops[i].RemoveAll? && ops[i].seed.Some? ==> ops[i].seed.value < 32
      modifies this, buckets
      ensures Valid() && model == AfterAll(equal, old(model), ops) && (buckets == old(buckets) || fresh(buckets))
      ensures mutations == old(mutations) + Mutations(equal, old(model), ops)
      ensures mutations == old(mutations) ==> (buckets == old(buckets) <==> Keeps(ops, old(buckets.Length)))
      ensures mutations == old(mutations) && !RemovesAll(ops) ==> SameKeys()
    {
      hide Valid, After, Mutates, RemovesAll, Moves, Has, KeyFor;
      var i := 0;
      NothingRemoved<K, V>();
      while i < |ops|
        invariant 0 <= i <= |ops| && Valid() && (buckets == old(buckets) || fresh(buckets))
        invariant model == AfterAll(equal, old(model), ops[..i])
        invariant mutations == old(mutations) + Mutations(equal, old(model), ops[..i])
        invariant mutations == old(mutations) ==> (buckets == old(buckets) <==> Keeps(ops[..i], old(buckets.Length)))
        invariant mutations == old(mutations) ==>
          if RemovesAll(ops[..i]) then buckets.Length == MIN_CAPACITY else SameKeys()
      {
        assert ops[..i + 1][..i] == ops[..i];
        RemovesOneMore(ops, i);
        Apply(ops[i]);
        i := i + 1;
      }
      assert ops[..i] == ops;
    }

    // Whole tables

    /** The entries of the first `i` slots. */
    ghost predicate Part(s: seq<Bucket<K, V>>, i: nat, part: map<K, V>)
      reads this`model
      requires i <= |s|
    {
      && (forall k :: k in part ==> k in model && part[k] == model[k])
      && (forall j :: 0 <= j < i && s[j].Full? ==> s[j].key in part)
      && (forall k :: k in part ==> exists j :: 0 <= j < i && s[j].Full? && s[j].key == k)
    }

    lemma PartGrows(s: seq<Bucket<K, V>>, i: nat, part: map<K, V>)
      requires rotate < 32 && i < |s| && s[i].Full? && Slots(s) && Part(s, i, part)
      ensures s[i].key !in part && Part(s, i + 1, part[s[i].key := s[i].value])
    {
      hide Rol;
      var part' := part[s[i].key := s[i].value];
      forall k | k in part' ensures exists x :: 0 <= x < i + 1 && s[x].Full? && s[x].key == k {
        if k == s[i].key {
          assert s[i].Full?;
        } else {
          var x :| 0 <= x < i && s[x].Full? && s[x].key == k;
        }
      }
    }

    lemma PartStays(s: seq<Bucket<K, V>>, i: nat, part: map<K, V>)
      requires i < |s| && !s[i].Full? && Part(s, i, part)
      ensures Part(s, i + 1, part)
    {
      forall k | k in part ensures exists x :: 0 <= x < i + 1 && s[x].Full? && s[x].key == k {
        var x :| 0 <= x < i && s[x].Full? && s[x].key == k;
      }
    }

    lemma PartOfAll(s: seq<Bucket<K, V>>, part: map<K, V>)
      requires rotate < 32 && Slots(s) && Part(s, |s|, part)
      ensures part == model
    {
      forall k | k in model ensures k in part {
        var i :| 0 <= i < |s| && s[i].Full? && s[i].key == k;
      }
    }

    lemma Unrotated(s: seq<Bucket<K, V>>, i: nat)
      requires rotate < 32 && Slots(s) && i < |s| && s[i].Full?
      ensures Ror(s[i].hash, rotate) == hashOf(s[i].key)
    {
      hide Rol, Ror;
      RorRol(hashOf(s[i].key), rotate);
    }

    /** `-[hash]` */
    method Hash() returns (r: Word)
      requires Valid()
      ensures r == HashOf(hashOf, valueHash, model)
    {
      hide Rol, Ror, PowerOfTwo, HashOf, XorWord, Xor, Part, Slots, Lawful, Distinct;
      var s := buckets[..];
      ghost var part: map<K, V> := map[];
      assert Part(s, 0, part) by { NothingParted(s); }
      r := 0;
      NoHash(hashOf, valueHash);
      var i := 0;
      while i < |s|
        invariant i <= |s| && Part(s, i, part) && r == HashOf(hashOf, valueHash, part)
      {
        if s[i].Full? {
          PartGrows(s, i, part);
          Unrotated(s, i);
          var bucket := s[i];
          ghost var next := part[bucket.key := bucket.value];
          assert next - {bucket.key} == part;
          AnyLast(hashOf, valueHash, next, bucket.key);
          r := XorWord(r, Ror(bucket.hash, rotate));
          r := XorWord(r, valueHash(bucket.value));
          part := next;
        } else {
          PartStays(s, i, part);
        }
        i := i + 1;
      }
      PartOfAll(s, part);
    }

    lemma NothingParted(s: seq<Bucket<K, V>>)
      ensures Part(s, 0, map[])
    {
    }

    /** `isEqual:` with another map table; functions are compared with each other. */
    method IsEqual(other: OFMapTable<K, V>, sameFunctions: bool) returns (r: bool)
      requires Valid() && other.Valid()
      requires sameFunctions ==> other.equal == equal && other.valueEqual == valueEqual
      ensures r <==> other == this || (sameFunctions && Same(equal, valueEqual, model, other.model))
    {
      hide Rol, PowerOfTwo, Lawful, Distinct, Probeable, Unique, Stores, Home, Has, KeyFor;
      if other == this { return true; }
      if other.count != count || !sameFunctions { return false; }
      var i := 0;
      while i < buckets.Length
        invariant 0 <= i <= buckets.Length
        invariant forall j :: 0 <= j < i && buckets[j].Full? ==>
          Matches(equal, valueEqual, other.model, buckets[j].key, buckets[j].value)
      {
        if buckets[i].Full? {
          FoundKey(i);
          var _, object' := other.ObjectForKey(Some(buckets[i].key));
          if object'.None? || !valueEqual(object'.value, buckets[i].value) { return false; }
        }
        i := i + 1;
      }
      AllMatch(buckets[..], other.model);
      return true;
    }

    lemma AllMatch(s: seq<Bucket<K, V>>, n: map<K, V>)
      requires rotate < 32 && Slots(s) && |n| == |model|
      requires forall j :: 0 <= j < |s| && s[j].Full? ==> Matches(equal, valueEqual, n, s[j].key, s[j].value)
      ensures Same(equal, valueEqual, model, n)
    {
      hide Rol, Has, KeyFor;
      forall k | k in model ensures Matches(equal, valueEqual, n, k, model[k]) {
        var i :| 0 <= i < |s| && s[i].Full? && s[i].key == k;
      }
    }

    /** `-[copy]`: another table with the same entries, with the rotation it was given itself. */
    method Copy(newRotate: nat) returns (status: Status, copy: OFMapTable?<K, V>)
      requires Valid() && newRotate < 32
      ensures status == if buckets.Length > MOST_ENTRIES then OutOfRange else Ok
      ensures status == Ok <==> copy != null
      ensures copy != null ==> fresh(copy) && fresh(copy.buckets) && copy.Valid() && copy.model == model
    {
      hide Rol, Ror, PowerOfTwo, IsTable, Lawful, Distinct;
      var capacity := InitialCapacity(buckets.Length);
      if capacity.None? { return OutOfRange, null; }
      var c := new OFMapTable<K, V>(hashOf, equal, valueHash, valueEqual, capacity.value, newRotate);
      var s := buckets[..];
      ghost var part: map<K, V> := map[];
      NothingParted(s);
      hide Part;
      var i := 0;
      while i < |s|
        invariant i <= |s| && fresh(c) && fresh(c.buckets) && c.Valid() && c.model == part && Part(s, i, part)
        invariant c.hashOf == hashOf && c.equal == equal
      {
        part := CopySlot(s, i, c, part);
        i := i + 1;
      }
      PartOfAll(s, part);
      return Ok, c;
    }

    method CopySlot(s: seq<Bucket<K, V>>, i: nat, c: OFMapTable<K, V>, ghost part: map<K, V>)
        returns (ghost part': map<K, V>)
      requires rotate < 32 && Slots(s) && Lawful(equal, hashOf) && Distinct(equal, model) && |model| <= MOST_ENTRIES
      requires i < |s| && Part(s, i, part)
      requires c != this && c.Valid() && c.model == part && c.hashOf == hashOf && c.equal == equal
      modifies c, c.buckets
      ensures c.Valid() && c.model == part' && Part(s, i + 1, part')
        && (c.buckets == old(c.buckets) || fresh(c.buckets))
    {
      hide Valid, Rol, Ror, Part, Slots, Lawful, Distinct, AfterSet, Has, KeyFor;
      if s[i].Full? {
        Unrotated(s, i);
        PartGrows(s, i, part);
        NewKey(s, i, part);
        var _ := c.OfSetObject(Some(s[i].value), Some(s[i].key), Ror(s[i].hash, rotate));
        part' := part[s[i].key := s[i].value];
      } else {
        PartStays(s, i, part);
        part' := part;
      }
    }

    lemma NewKey(s: seq<Bucket<K, V>>, i: nat, part: map<K, V>)
      requires rotate < 32 && i < |s| && s[i].Full? && Slots(s) && Part(s, i, part) && s[i].key !in part
      requires Distinct(equal, model) && |model| <= MOST_ENTRIES
      ensures !Crowded(equal, part, s[i].key)
      ensures AfterSet(equal, part, s[i].key, s[i].value) == part[s[i].key := s[i].value]
    {
      hide Rol;
      var more := part[s[i].key := s[i].value];
      PartFits(more);
      assert forall k :: k in part && equal(k, s[i].key) ==> k == s[i].key;
    }
  }

  ghost predicate RemovesAll<K, V>(ops: seq<Op<K, V>>)
  {
    exists i :: 0 <= i < |ops| && ops[i].RemoveAll?
  }

  ghost predicate Moves<K, V>(ops: seq<Op<K, V>>)
  {
    exists i :: 0 <= i < |ops| && ops[i].RemoveAll? && ops[i].moves
  }

  /** Without mutations, buckets of this size stay where they are. */
  ghost predicate Keeps<K, V>(ops: seq<Op<K, V>>, capacity: nat)
  {
    !RemovesAll(ops) || (capacity == MIN_CAPACITY && !Moves(ops))
  }

  lemma NothingRemoved<K, V>()
    ensures !RemovesAll<K, V>([]) && !Moves<K, V>([])
  {
  }

  lemma RemovesOneMore<K, V>(ops: seq<Op<K, V>>, i: nat)
    requires i < |ops|
    ensures RemovesAll(ops[..i + 1]) <==> RemovesAll(ops[..i]) || ops[i].RemoveAll?
    ensures Moves(ops[..i + 1]) <==> Moves(ops[..i]) || (ops[i].RemoveAll? && ops[i].moves)
    ensures Moves(ops[..i]) ==> RemovesAll(ops[..i])
  {
    var s, t := ops[..i], ops[..i + 1];
    assert t[i] == ops[i];
    assert forall j :: 0 <= j < i ==> t[j] == s[j];
    if j :| 0 <= j < i && s[j].RemoveAll? { assert t[j].RemoveAll?; }
    if j :| 0 <= j < i && s[j].RemoveAll? && s[j].moves { assert t[j].RemoveAll? && t[j].moves; }
  }

  // Enumerators

  /** The keys of the slots from `i` on, in order. */
  ghost function KeysFrom<K, V>(s: seq<Bucket<K, V>>, i: nat): seq<K>
    requires i <= |s|
    decreases |s| - i
  {
    if i == |s| then [] else (if s[i].Full? then [s[i].key] else []) + KeysFrom(s, i + 1)
  }

  lemma {:induction false} KeysFromSlots<K, V>(s: seq<Bucket<K, V>>, i: nat)
    requires i <= |s| && Unique(s)
    ensures forall k :: k in KeysFrom(s, i) <==> exists j :: i <= j < |s| && s[j].Full? && s[j].key == k
    ensures forall x, y :: 0 <= x < y < |KeysFrom(s, i)| ==> KeysFrom(s, i)[x] != KeysFrom(s, i)[y]
    decreases |s| - i
  {
    if i < |s| {
      KeysFromSlots(s, i + 1);
      if s[i].Full? { assert s[i].key !in KeysFrom(s, i + 1); }
    }
  }

  lemma {:induction false} KeysFromSkip<K, V>(s: seq<Bucket<K, V>>, i: nat, j: nat)
    requires i <= j <= |s| && forall k :: i <= k < j ==> !s[k].Full?
    ensures KeysFrom(s, i) == KeysFrom(s, j)
    decreases j - i
  {
    if i < j { KeysFromSkip(s, i + 1, j); }
  }

  lemma {:induction false} KeysFromSame<K, V>(s: seq<Bucket<K, V>>, t: seq<Bucket<K, V>>, i: nat)
    requires i <= |s| == |t| && forall k :: 0 <= k < |s| ==> SameKey(t[k], s[k])
    ensures KeysFrom(t, i) == KeysFrom(s, i)
    decreases |s| - i
  {
    if i < |s| { KeysFromSame(s, t, i + 1); }
  }

  lemma {:induction false} DistinctCount<K>(keys: seq<K>, all: set<K>)
    requires forall k :: k in keys <==> k in all
    requires forall x, y :: 0 <= x < y < |keys| ==> keys[x] != keys[y]
    ensures |keys| == |all|
  {
    if keys == [] {
      assert all == {};
    } else {
      DistinctCount(keys[1..], all - {keys[0]});
    }
  }

  class OFMapTableKeyEnumerator<K(==, !new), V(==)> {
    const mapTable: OFMapTable<K, V>
    const buckets: array<Bucket<K, V>>
    const mutations: nat
    var position: nat

    /** The slots are still those of the table. The source's pointer is of no use once they are not. */
    ghost predicate Attached()
      reads this, mapTable, mapTable.buckets
    {
      mapTable.Valid() && buckets == mapTable.buckets && position <= buckets.Length
    }

    ghost function Rest(): seq<K>
      requires Attached()
      reads this, mapTable, mapTable.buckets
    {
      KeysFrom(buckets[..], position)
    }

    /** All keys are yet to come, each of them once. */
    constructor (mapTable: OFMapTable<K, V>)
      requires mapTable.Valid()
      ensures this.mapTable == mapTable && mutations == mapTable.mutations && Attached()
      ensures forall k :: k in Rest() <==> k in mapTable.model
      ensures |Rest()| == mapTable.count
    {
      this.mapTable, buckets, mutations, position := mapTable, mapTable.buckets, mapTable.mutations, 0;
      new;
      KeysFromSlots(buckets[..], 0);
      DistinctCount(Rest(), mapTable.model.Keys);
      assert |mapTable.model.Keys| == |mapTable.model|;
    }

    /**
     * `nextObject`; `mutated` stands for the OFEnumerationMutationException. What it gives when it is no longer
     * attached and nobody told it is left open, as the source then reads memory that is not the table's.
     */
    method NextObject() returns (mutated: bool, key: Option<K>)
      requires position <= buckets.Length
      modifies this`position
      ensures position <= buckets.Length
      ensures mutated <==> mapTable.mutations != mutations
      ensures mutated ==> key == None && position == old(position)
      ensures !mutated && old(Attached()) ==> Attached()
      ensures !mutated && old(Attached()) && old(Rest()) == [] ==> key == None && Rest() == []
      ensures !mutated && old(Attached()) && old(Rest()) != [] ==>
        key == Some(old(Rest())[0]) && Rest() == old(Rest())[1..]
    {
      if mapTable.mutations != mutations { return true, None; }
      ghost var s := buckets[..];
      var i := position;
      while i < buckets.Length && !buckets[i].Full?
        invariant position <= i <= buckets.Length
        invariant forall k :: position <= k < i ==> !s[k].Full?
      {
        i := i + 1;
      }
      KeysFromSkip(s, position, i);
      if i < buckets.Length {
        position := i + 1;
        return false, Some(buckets[i].key);
      }
      position := i;
      return false, None;
    }
  }

  /** Setting values of keys that are there already disturbs no enumeration. */
  twostate lemma RestKept<K(!new), V>(e: OFMapTableKeyEnumerator<K, V>)
    requires old(e.Attached()) && e.mapTable.SameKeys() && e.mapTable.Valid() && e.position == old(e.position)
    ensures e.Attached() && e.Rest() == old(e.Rest())
  {
    KeysFromSame(old(e.buckets[..]), e.buckets[..], e.position);
  }

  /** With nothing in the table there are no keys to come. */
  lemma NothingToCome<K, V>(s: seq<Bucket<K, V>>, i: nat)
    requires i <= |s| && forall j :: 0 <= j < |s| ==> !s[j].Full?
    ensures KeysFrom(s, i) == []
    decreases |s| - i
  {
    if i < |s| { NothingToCome(s, i + 1); }
  }

  lemma EmptyTable<K(!new), V>(e: OFMapTableKeyEnumerator<K, V>)
    requires e.Attached() && e.mapTable.model == map[]
    ensures e.Rest() == []
  {
    var s := e.buckets[..];
    assert forall j :: 0 <= j < |s| && s[j].Full? ==> s[j].key in e.mapTable.model;
    NothingToCome(s, e.position);
  }

  /**
   * Over every run of changes after which the counters still agree, an enumerator stays attached if and only if no
   * `removeAllObjects` moved the buckets; then no key is to come if there was one, and otherwise the same keys are.
   */
  method EnumerateAfter<K(!new), V>(e: OFMapTableKeyEnumerator<K, V>, ops: seq<Op<K, V>>)
    requires e.Attached() && e.mapTable.mutations == e.mutations
    requires forall i :: 0 <= i < |ops| && ops[i].RemoveAll? && ops[i].seed.Some? ==> ops[i].seed.value < 32
    modifies e.mapTable, e.mapTable.buckets
    ensures e.mapTable.Valid()
    ensures e.mapTable.mutations == e.mutations ==> (e.Attached() <==> Keeps(ops, e.buckets.Length))
    ensures e.mapTable.mutations == e.mutations && e.Attached() ==>
      e.Rest() == if RemovesAll(ops) then [] else old(e.Rest())
  {
    hide Keeps, OFMapTable.Valid, AfterAll, Mutations;
    ghost var m := e.mapTable.model;
    e.mapTable.Run(ops);
    if e.mapTable.mutations == e.mutations {
      Unnoticed(e.mapTable.equal, m, ops);
      if !RemovesAll(ops) {
        RestKept(e);
      } else if e.Attached() {
        assert e.mapTable.model.Keys == {};
        assert e.mapTable.model == map[];
        EmptyTable(e);
      }
    }
  }

  /** So a table detaches its enumerator, always if it has grown, and the enumerator is not told. */
  method DetachQuietly<K(!new), V>(mapTable: OFMapTable<K, V>, moves: bool) returns (e: OFMapTableKeyEnumerator<K, V>)
    requires mapTable.Valid()
    modifies mapTable, mapTable.buckets
    ensures mapTable.Valid() && e.mapTable == mapTable && e.mapTable.mutations == e.mutations
    ensures e.Attached() <==> old(mapTable.buckets.Length) == MIN_CAPACITY && !moves
  {
    hide OFMapTable.Valid;
    e := new OFMapTableKeyEnumerator<K, V>(mapTable);
    mapTable.RemoveAllObjects(None, moves);
  }
}
