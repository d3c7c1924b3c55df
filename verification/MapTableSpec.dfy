// What src/OFMapTable.m is to behave like: finite maps whose keys are compared by a function of the
// caller. Then its buckets: open addressing with linear probing and marks for deleted entries.

module MapTableSpec {
  import opened Options
  import opened Words

  /** The caller's comparison is an equivalence, and equal keys have equal hashes. */
  ghost predicate Lawful<K(!new)>(equal: (K, K) -> bool, hash: K -> Word)
  {
    && (forall k :: equal(k, k))
    && (forall k, l :: equal(k, l) ==> equal(l, k) && hash(k) == hash(l))
    && (forall k, l, m :: equal(k, l) && equal(l, m) ==> equal(k, m))
  }

  // Maps modulo the comparison

  /** No two keys are equal to each other. */
  ghost predicate Distinct<K, V>(equal: (K, K) -> bool, m: map<K, V>)
  {
    forall k, l :: k in m && l in m && equal(k, l) ==> k == l
  }

  ghost predicate Has<K, V>(equal: (K, K) -> bool, m: map<K, V>, key: K)
  {
    exists k :: k in m && equal(k, key)
  }

  ghost function KeyFor<K, V>(equal: (K, K) -> bool, m: map<K, V>, key: K): (k: K)
    requires Has(equal, m, key)
    ensures k in m && equal(k, key)
  {
    var k :| k in m && equal(k, key);
    k
  }

  ghost function Lookup<K, V>(equal: (K, K) -> bool, m: map<K, V>, key: K): Option<V>
  {
    if Has(equal, m, key) then Some(m[KeyFor(equal, m, key)]) else None
  }

  /** An equal key that is there already is kept. */
  ghost function AfterSet<K, V>(equal: (K, K) -> bool, m: map<K, V>, key: K, value: V): map<K, V>
  {
    m[(if Has(equal, m, key) then KeyFor(equal, m, key) else key) := value]
  }

  ghost function AfterRemove<K, V>(equal: (K, K) -> bool, m: map<K, V>, key: K): map<K, V>
  {
    if Has(equal, m, key) then m - {KeyFor(equal, m, key)} else m
  }

  /** Equal keys are equal to the same keys. */
  lemma SameSide<K(!new)>(equal: (K, K) -> bool, hash: K -> Word, a: K, b: K, k: K)
    requires Lawful(equal, hash) && equal(a, b)
    ensures (equal(k, a) <==> equal(k, b)) && (equal(a, k) <==> equal(b, k))
  {
    assert equal(b, a);
  }

  lemma KeyForUnique<K(!new), V>(equal: (K, K) -> bool, hash: K -> Word, m: map<K, V>, key: K, k: K)
    requires Lawful(equal, hash) && Distinct(equal, m) && k in m && equal(k, key)
    ensures Has(equal, m, key) && KeyFor(equal, m, key) == k
  {
    var l := KeyFor(equal, m, key);
    SameSide(equal, hash, k, key, l);
  }

  lemma SetStaysDistinct<K(!new), V>(equal: (K, K) -> bool, hash: K -> Word, m: map<K, V>, key: K, value: V)
    requires Lawful(equal, hash) && Distinct(equal, m)
    ensures Distinct(equal, AfterSet(equal, m, key, value))
  {
    var n := AfterSet(equal, m, key, value);
    forall k, l | k in n && l in n && equal(k, l) ensures k == l {
      assert equal(l, k);
    }
  }

  /** Setting: the map stays distinct, the key is found, other keys are found as before. */
  lemma SetLaws<K(!new), V>(equal: (K, K) -> bool, hash: K -> Word, m: map<K, V>, key: K, value: V, other: K)
    requires Lawful(equal, hash) && Distinct(equal, m)
    ensures var n := AfterSet(equal, m, key, value);
            && Distinct(equal, n)
            && |n| == |m| + (if Has(equal, m, key) then 0 else 1)
            && Lookup(equal, n, other) == if equal(key, other) then Some(value) else Lookup(equal, m, other)
  {
    var n := AfterSet(equal, m, key, value);
    SetStaysDistinct(equal, hash, m, key, value);
    var at := if Has(equal, m, key) then KeyFor(equal, m, key) else key;
    SameSide(equal, hash, at, key, other);
    if equal(key, other) {
      KeyForUnique(equal, hash, n, other, at);
    } else if Has(equal, m, other) {
      KeyForUnique(equal, hash, n, other, KeyFor(equal, m, other));
    }
  }

  /** Removing: no equal key is found any more, other keys are found as before. */
  lemma RemoveLaws<K(!new), V>(equal: (K, K) -> bool, hash: K -> Word, m: map<K, V>, key: K, other: K)
    requires Lawful(equal, hash) && Distinct(equal, m)
    ensures var n := AfterRemove(equal, m, key);
            && Distinct(equal, n)
            && |n| == |m| - (if Has(equal, m, key) then 1 else 0)
            && Lookup(equal, n, other) == if equal(key, other) then None else Lookup(equal, m, other)
  {
    var n := AfterRemove(equal, m, key);
    forall k | k in m && equal(key, other) ensures equal(k, key) <==> equal(k, other) {
      SameSide(equal, hash, key, other, k);
    }
    if Has(equal, m, key) {
      var at := KeyFor(equal, m, key);
      RemoveOne(m, at);
      forall k | k in m && equal(k, key) ensures k == at { KeyForUnique(equal, hash, m, key, k); }
      SameSide(equal, hash, at, key, other);
      if !equal(key, other) && Has(equal, m, other) {
        KeyForUnique(equal, hash, n, other, KeyFor(equal, m, other));
      }
    }
  }

  lemma RemoveOne<K, V>(m: map<K, V>, k: K)
    requires k in m
    ensures |m - {k}| == |m| - 1
  {
    assert (m - {k}).Keys == m.Keys - {k};
  }

  // Runs

  /** `moves` tells whether reallocating the buckets moves them even if they keep their size. */
  datatype Op<K, V> = Set(key: K, value: V) | Remove(key: K) | RemoveAll(seed: Option<nat>, moves: bool)

  const MOST_ENTRIES: nat := (WORD_LIMIT - 1) / 8

  /** A table with the most entries a capacity may be computed for takes no new key. */
  ghost predicate Crowded<K, V>(equal: (K, K) -> bool, m: map<K, V>, key: K)
  {
    !Has(equal, m, key) && |m| >= MOST_ENTRIES
  }

  ghost function After<K, V>(equal: (K, K) -> bool, m: map<K, V>, op: Op<K, V>): map<K, V>
  {
    match op
    case Set(key, value) => if Crowded(equal, m, key) then m else AfterSet(equal, m, key, value)
    case Remove(key) => AfterRemove(equal, m, key)
    case RemoveAll(_, _) => map[]
  }

  ghost function AfterAll<K, V>(equal: (K, K) -> bool, m: map<K, V>, ops: seq<Op<K, V>>): map<K, V>
  {
    if ops == [] then m else After(equal, AfterAll(equal, m, ops[..|ops| - 1]), ops[|ops| - 1])
  }

  /** What the table counts as a mutation: a new key, or a key that goes by itself. */
  ghost predicate Mutates<K, V>(equal: (K, K) -> bool, m: map<K, V>, op: Op<K, V>)
  {
    match op
    case Set(key, _) => !Has(equal, m, key) && !Crowded(equal, m, key)
    case Remove(key) => Has(equal, m, key)
    case RemoveAll(_, _) => false
  }

  ghost function Mutations<K, V>(equal: (K, K) -> bool, m: map<K, V>, ops: seq<Op<K, V>>): nat
  {
    if ops == [] then 0
    else
      var n := |ops| - 1;
      Mutations(equal, m, ops[..n]) + if Mutates(equal, AfterAll(equal, m, ops[..n]), ops[n]) then 1 else 0
  }

  lemma {:induction false} StaysDistinct<K(!new), V>(equal: (K, K) -> bool, hash: K -> Word, m: map<K, V>,
      ops: seq<Op<K, V>>)
    requires Lawful(equal, hash) && Distinct(equal, m)
    ensures Distinct(equal, AfterAll(equal, m, ops))
  {
    if ops != [] {
      var n := |ops| - 1;
      StaysDistinct(equal, hash, m, ops[..n]);
      var was := AfterAll(equal, m, ops[..n]);
      match ops[n] {
        case Set(key, value) => SetLaws(equal, hash, was, key, value, key);
        case Remove(key) => RemoveLaws(equal, hash, was, key, key);
        case RemoveAll(_, _) =>
      }
    }
  }

  /** What a change leaves for `key`, if `at` was there before. */
  function Left<K, V>(equal: (K, K) -> bool, op: Op<K, V>, key: K, at: Option<V>): Option<V>
  {
    match op
    case Set(k, value) => if equal(k, key) then Some(value) else at
    case Remove(k) => if equal(k, key) then None else at
    case RemoveAll(_, _) => None
  }

  function LeftByAll<K, V>(equal: (K, K) -> bool, ops: seq<Op<K, V>>, key: K, at: Option<V>): Option<V>
  {
    if ops == [] then at
    else Left(equal, ops[|ops| - 1], key, LeftByAll(equal, ops[..|ops| - 1], key, at))
  }

  lemma LookupAfter<K(!new), V>(equal: (K, K) -> bool, hash: K -> Word, m: map<K, V>, op: Op<K, V>, key: K)
    requires Lawful(equal, hash) && Distinct(equal, m) && |m| < MOST_ENTRIES
    ensures Lookup(equal, After(equal, m, op), key) == Left(equal, op, key, Lookup(equal, m, key))
    ensures |After(equal, m, op)| <= |m| + 1
  {
    match op {
      case Set(k, value) =>
        SetLaws(equal, hash, m, k, value, key);
      case Remove(k) =>
        RemoveLaws(equal, hash, m, k, key);
      case RemoveAll(_, _) =>
    }
  }

  /** After any run, a lookup finds what the changes left one after the other for an equal key. */
  lemma {:induction false} LookupAfterAll<K(!new), V>(equal: (K, K) -> bool, hash: K -> Word, m: map<K, V>,
      ops: seq<Op<K, V>>, key: K)
    requires Lawful(equal, hash) && Distinct(equal, m) && |m| + |ops| <= MOST_ENTRIES
    ensures Lookup(equal, AfterAll(equal, m, ops), key) == LeftByAll(equal, ops, key, Lookup(equal, m, key))
    ensures |AfterAll(equal, m, ops)| <= |m| + |ops|
  {
    hide Lookup, After, Left, Has, Distinct;
    if ops != [] {
      var n := |ops| - 1;
      LookupAfterAll(equal, hash, m, ops[..n], key);
      StaysDistinct(equal, hash, m, ops[..n]);
      LookupAfter(equal, hash, AfterAll(equal, m, ops[..n]), ops[n], key);
    }
  }

  /** Enumerators compare counters of mutations. When the counters agree, the keys are the same, unless
      `removeAllObjects` was among the changes: then there are none, and nobody is told. */
  lemma {:induction false} Unnoticed<K(!new), V>(equal: (K, K) -> bool, m: map<K, V>, ops: seq<Op<K, V>>)
    requires Mutations(equal, m, ops) == 0
    ensures AfterAll(equal, m, ops).Keys == if exists i :: 0 <= i < |ops| && ops[i].RemoveAll? then {} else m.Keys
  {
    if ops != [] {
      var n := |ops| - 1;
      Unnoticed(equal, m, ops[..n]);
      SomeRemoveAll(ops);
      hide AfterAll, Has, KeyFor;
      assert AfterAll(equal, m, ops) == After(equal, AfterAll(equal, m, ops[..n]),
        ops[n]) by { AfterLast(equal, m, ops); }
      QuietKeys(equal, AfterAll(equal, m, ops[..n]), ops[n]);
    }
  }

  lemma AfterLast<K, V>(equal: (K, K) -> bool, m: map<K, V>, ops: seq<Op<K, V>>)
    requires ops != []
    ensures AfterAll(equal, m, ops) == After(equal, AfterAll(equal, m, ops[..|ops| - 1]), ops[|ops| - 1])
  {
  }

  lemma SomeRemoveAll<K, V>(ops: seq<Op<K, V>>)
    requires ops != []
    ensures var n := |ops| - 1;
            (exists i :: 0 <= i < |ops| && ops[i].RemoveAll?) <==>
            ops[n].RemoveAll? || exists i :: 0 <= i < n && ops[..n][i].RemoveAll?
  {
    var n := |ops| - 1;
    if i :| 0 <= i < n && ops[..n][i].RemoveAll? { assert ops[i].RemoveAll?; }
    if i :| 0 <= i < |ops| && ops[i].RemoveAll? { assert i < n ==> ops[..n][i].RemoveAll?; }
  }

  /** A change that does not count as a mutation keeps the keys, or removes them all. */
  lemma QuietKeys<K(!new), V>(equal: (K, K) -> bool, m: map<K, V>, op: Op<K, V>)
    requires !Mutates(equal, m, op)
    ensures After(equal, m, op).Keys == if op.RemoveAll? then {} else m.Keys
  {
  }

  // Buckets

  datatype Bucket<K, V> = Empty | Deleted | Full(key: K, value: V, hash: Word)

  /** `hash & (capacity - 1)`, as the capacity is a power of two */
  function Home(hash: Word, capacity: nat): (i: nat)
    requires capacity > 0
    ensures i < capacity
  {
    hash % capacity
  }

  /** Slot `j` is probed before slot `i` by a search that begins at `home`. */
  predicate Before(home: nat, i: nat, j: nat)
  {
    if home <= i then home <= j < i else home <= j || j < i
  }

  /** Both are in use for the same key, or neither is in use. */
  predicate SameKey<K(==), V(==)>(b: Bucket<K, V>, c: Bucket<K, V>)
  {
    if c.Full? then b.Full? && b.key == c.key else b == c
  }

  /** A search for what is in slot `i` does not stop before it. */
  ghost predicate Reaches<K, V>(s: seq<Bucket<K, V>>, i: nat)
    requires i < |s|
  {
    s[i].Full? ==> forall j :: 0 <= j < |s| && Before(Home(s[i].hash, |s|), i, j) ==> !s[j].Empty?
  }

  ghost predicate Probeable<K, V>(s: seq<Bucket<K, V>>)
  {
    forall i :: 0 <= i < |s| ==> Reaches(s, i)
  }

  /** Distinct slots hold distinct keys. */
  ghost predicate Unique<K, V>(s: seq<Bucket<K, V>>)
  {
    forall i, j :: 0 <= i < |s| && 0 <= j < |s| && s[i].Full? && s[j].Full? && s[i].key == s[j].key ==> i == j
  }

  /** The full slots are the entries of the map. */
  ghost predicate Stores<K, V>(s: seq<Bucket<K, V>>, m: map<K, V>)
  {
    && (forall i :: 0 <= i < |s| && s[i].Full? ==> s[i].key in m && m[s[i].key] == s[i].value)
    && (forall k :: k in m ==> exists i :: 0 <= i < |s| && s[i].Full? && s[i].key == k)
  }

  ghost function Keys<K, V>(s: seq<Bucket<K, V>>): set<K>
  {
    set i | 0 <= i < |s| && s[i].Full? :: s[i].key
  }

  lemma {:induction false} KeysCount<K, V>(s: seq<Bucket<K, V>>)
    requires Unique(s) && forall i :: 0 <= i < |s| ==> s[i].Full?
    ensures |Keys(s)| == |s|
  {
    if s != [] {
      var n := |s| - 1;
      KeysCount(s[..n]);
      assert Keys(s) == Keys(s[..n]) + {s[n].key};
      assert s[n].key !in Keys(s[..n]);
    }
  }

  /** A table with fewer entries than slots has a slot to spare. */
  lemma SlotToSpare<K, V>(s: seq<Bucket<K, V>>, m: map<K, V>) returns (i: nat)
    requires Unique(s) && |m| < |s|
    requires forall i :: 0 <= i < |s| && s[i].Full? ==> s[i].key in m
    ensures i < |s| && !s[i].Full?
  {
    if forall i :: 0 <= i < |s| ==> s[i].Full? {
      KeysCount(s);
      Subset(Keys(s), m.Keys);
    }
    i :| 0 <= i < |s| && !s[i].Full?;
  }

  lemma {:induction false} Subset<K>(a: set<K>, b: set<K>)
    requires a <= b
    ensures |a| <= |b|
  {
    if a != {} {
      var x :| x in a;
      Subset(a - {x}, b - {x});
    }
  }

  /** Filling an unused slot that a search from `home` reaches. */
  lemma FillKeepsProbeable<K, V>(s: seq<Bucket<K, V>>, i: nat, b: Bucket<K, V>)
    requires Probeable(s) && i < |s| && b.Full?
    requires forall j :: 0 <= j < |s| && Before(Home(b.hash, |s|), i, j) ==> !s[j].Empty?
    ensures Probeable(s[i := b])
  {
    var t := s[i := b];
    forall k | 0 <= k < |t| ensures Reaches(t, k) {
      if k != i { assert Reaches(s, k); }
    }
  }

  lemma ReplaceKeepsProbeable<K, V>(s: seq<Bucket<K, V>>, i: nat, value: V)
    requires Probeable(s) && i < |s| && s[i].Full?
    ensures Probeable(s[i := s[i].(value := value)])
  {
    var t := s[i := s[i].(value := value)];
    forall k | 0 <= k < |t| ensures Reaches(t, k) {
      assert Reaches(s, k);
    }
  }

  lemma DeleteKeepsProbeable<K, V>(s: seq<Bucket<K, V>>, i: nat)
    requires Probeable(s) && i < |s|
    ensures Probeable(s[i := Deleted])
  {
    var t := s[i := Deleted];
    forall k | 0 <= k < |t| ensures Reaches(t, k) {
      assert Reaches(s, k);
    }
  }

  lemma FillStores<K, V>(s: seq<Bucket<K, V>>, m: map<K, V>, i: nat, b: Bucket<K, V>)
    requires Stores(s, m) && Unique(s) && i < |s| && !s[i].Full? && b.Full? && b.key !in m
    ensures Stores(s[i := b], m[b.key := b.value]) && Unique(s[i := b])
  {
    var t, n := s[i := b], m[b.key := b.value];
    forall k | k in n ensures exists j :: 0 <= j < |t| && t[j].Full? && t[j].key == k {
      if k == b.key {
        assert t[i].key == k;
      } else {
        var j :| 0 <= j < |s| && s[j].Full? && s[j].key == k;
        assert t[j].key == k;
      }
    }
  }

  lemma ReplaceStores<K, V>(s: seq<Bucket<K, V>>, m: map<K, V>, i: nat, value: V)
    requires Stores(s, m) && Unique(s) && i < |s| && s[i].Full?
    ensures var t := s[i := s[i].(value := value)];
            Stores(t, m[s[i].key := value]) && Unique(t)
  {
    var t, n := s[i := s[i].(value := value)], m[s[i].key := value];
    forall k | k in n ensures exists j :: 0 <= j < |t| && t[j].Full? && t[j].key == k {
      var j :| 0 <= j < |s| && s[j].Full? && s[j].key == k;
      assert t[j].key == k;
    }
  }

  lemma DeleteStores<K, V>(s: seq<Bucket<K, V>>, m: map<K, V>, i: nat)
    requires Stores(s, m) && Unique(s) && i < |s| && s[i].Full?
    ensures Stores(s[i := Deleted], m - {s[i].key}) && Unique(s[i := Deleted])
  {
    var t, n := s[i := Deleted], m - {s[i].key};
    forall k | k in n ensures exists j :: 0 <= j < |t| && t[j].Full? && t[j].key == k {
      var j :| 0 <= j < |s| && s[j].Full? && s[j].key == k;
      assert t[j].key == k;
    }
  }

  /** A search that meets an empty slot has met whatever begins at the same home. */
  lemma NotBeyondEmpty<K, V>(s: seq<Bucket<K, V>>, home: nat, i: nat, k: nat)
    requires Probeable(s) && home < |s| && i < |s| && s[i].Empty? && k < |s|
    requires s[k].Full? && Home(s[k].hash, |s|) == home
    ensures !Before(home, k, i)
  {
    assert Reaches(s, k);
  }
}
