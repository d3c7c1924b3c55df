// Equality and hash of map tables, src/OFMapTable.m: what `isEqual:` and `hash` compute, said of the
// finite maps alone, so that neither capacity, rotation nor history matters.

module MapTableEquality {
  import opened Bits
  import opened MapTableSpec
  import opened Options
  import opened Words

  /** The exclusive or of the hashes of all keys and values, in some order. */
  ghost function HashOf<K, V>(hash: K -> Word, valueHash: V -> Word, m: map<K, V>): Word
    decreases |m|
  {
    if m == map[] then 0
    else
      var k :| k in m;
      RemoveOne(m, k);
      WithEntry(hash, valueHash, k, m[k], HashOf(hash, valueHash, m - {k}))
  }

  lemma NoHash<K, V>(hash: K -> Word, valueHash: V -> Word)
    ensures HashOf(hash, valueHash, map[]) == 0
  {
  }

  ghost function WithEntry<K, V>(hash: K -> Word, valueHash: V -> Word, k: K, v: V, rest: Word): Word
  {
    XorWord(XorWord(rest, hash(k)), valueHash(v))
  }

  lemma EntriesCommute<K, V>(hash: K -> Word, valueHash: V -> Word, k: K, v: V, l: K, w: V, rest: Word)
    ensures WithEntry(hash, valueHash, k, v, WithEntry(hash, valueHash, l, w, rest)) ==
            WithEntry(hash, valueHash, l, w, WithEntry(hash, valueHash, k, v, rest))
  {
    var a, b := XorWord(hash(k), valueHash(v)), XorWord(hash(l), valueHash(w));
    XorAssociates(rest, hash(k), valueHash(v));
    XorAssociates(rest, hash(l), valueHash(w));
    XorAssociates(XorWord(rest, b), hash(k), valueHash(v));
    XorAssociates(XorWord(rest, a), hash(l), valueHash(w));
    XorAssociates(rest, a, b);
    XorAssociates(rest, b, a);
    XorCommutes(a, b);
  }

  /** The order does not matter: any entry may be the last. */
  lemma {:induction false} AnyLast<K, V>(hash: K -> Word, valueHash: V -> Word, m: map<K, V>, k: K)
    requires k in m
    ensures HashOf(hash, valueHash, m) == WithEntry(hash, valueHash, k, m[k], HashOf(hash, valueHash, m - {k}))
    decreases |m|
  {
    hide WithEntry;
    var l :| l in m && HashOf(hash, valueHash, m) == WithEntry(hash, valueHash, l, m[l],
      HashOf(hash, valueHash, m - {l}));
    if l != k {
      RemoveOne(m, l);
      RemoveOne(m, k);
      AnyLast(hash, valueHash, m - {l}, k);
      AnyLast(hash, valueHash, m - {k}, l);
      assert m - {l} - {k} == m - {k} - {l};
      EntriesCommute(hash, valueHash, k, m[k], l, m[l], HashOf(hash, valueHash, m - {l} - {k}));
    }
  }

  ghost function KeysWithBit<K, V>(hash: K -> Word, m: map<K, V>, i: nat): set<K>
  {
    set k | k in m && BitAt(hash(k), i) == 1
  }

  ghost function ValuesWithBit<K, V>(valueHash: V -> Word, m: map<K, V>, i: nat): set<K>
  {
    set k | k in m && BitAt(valueHash(m[k]), i) == 1
  }

  lemma OneMoreWithBit<K, V>(hash: K -> Word, valueHash: V -> Word, m: map<K, V>, i: nat, k: K)
    requires k in m
    ensures |KeysWithBit(hash, m, i)| == |KeysWithBit(hash, m - {k}, i)| + BitAt(hash(k), i)
    ensures |ValuesWithBit(valueHash, m, i)| == |ValuesWithBit(valueHash, m - {k}, i)| + BitAt(valueHash(m[k]), i)
  {
    hide BitAt;
    var keys, values := KeysWithBit(hash, m - {k}, i), ValuesWithBit(valueHash, m - {k}, i);
    assert KeysWithBit(hash, m, i) == if BitAt(hash(k), i) == 1 then keys + {k} else keys;
    assert ValuesWithBit(valueHash, m, i) == if BitAt(valueHash(m[k]), i) == 1 then values + {k} else values;
  }

  lemma Parity(n: nat, a: Bit, b: Bit, rest: Bit, one: Bit, both: Bit)
    requires rest == n % 2 && one == (if rest == a then 0 else 1) && both == (if one == b then 0 else 1)
    ensures both == (n + a + b) % 2
  {
  }

  /** A bit of the hash is set if and only if it is set in an odd number of the hashes of keys and values. */
  lemma {:induction false} HashBits<K, V>(hash: K -> Word, valueHash: V -> Word, m: map<K, V>, i: nat)
    ensures BitAt(HashOf(hash, valueHash, m), i) ==
            (|KeysWithBit(hash, m, i)| + |ValuesWithBit(valueHash, m, i)|) % 2
    decreases |m|
  {
    hide BitAt, HashOf, Xor, KeysWithBit, ValuesWithBit;
    if m == map[] {
      NoBits(hash, valueHash, m, i);
    } else {
      var k :| k in m;
      RemoveOne(m, k);
      var rest := HashOf(hash, valueHash, m - {k});
      HashBits(hash, valueHash, m - {k}, i);
      AnyLast(hash, valueHash, m, k);
      OneMoreWithBit(hash, valueHash, m, i, k);
      XorBits(rest, hash(k), i);
      XorBits(XorWord(rest, hash(k)), valueHash(m[k]), i);
      Parity(|KeysWithBit(hash, m - {k}, i)| + |ValuesWithBit(valueHash, m - {k}, i)|, BitAt(hash(k), i),
        BitAt(valueHash(m[k]), i), BitAt(rest, i), BitAt(XorWord(rest, hash(k)), i),
        BitAt(HashOf(hash, valueHash, m), i));
    }
  }

  lemma NoBits<K, V>(hash: K -> Word, valueHash: V -> Word, m: map<K, V>, i: nat)
    requires m == map[]
    ensures BitAt(HashOf(hash, valueHash, m), i) == 0
    ensures KeysWithBit(hash, m, i) == {} && ValuesWithBit(valueHash, m, i) == {}
  {
    NoHash<K, V>(hash, valueHash);
    DivUnique(0, Pow2(i), 0, 0);
  }

  ghost predicate Matches<K, V>(equal: (K, K) -> bool, valueEqual: (V, V) -> bool, n: map<K, V>, key: K, value: V)
  {
    Has(equal, n, key) && valueEqual(n[KeyFor(equal, n, key)], value)
  }

  /** What `isEqual:` decides for tables with the same functions. */
  ghost predicate Same<K, V>(equal: (K, K) -> bool, valueEqual: (V, V) -> bool, m: map<K, V>, n: map<K, V>)
  {
    && |m| == |n|
    && forall k :: k in m ==> Matches(equal, valueEqual, n, k, m[k])
  }

  /** Different keys of one table have different counterparts in another. */
  lemma OwnKeyFor<K(!new), V>(equal: (K, K) -> bool, hash: K -> Word, m: map<K, V>, n: map<K, V>, j: K, k: K)
    requires Lawful(equal, hash) && Distinct(equal, m) && j in m && k in m && Has(equal, n, j) && Has(equal, n, k)
    ensures KeyFor(equal, n, j) == KeyFor(equal, n, k) ==> j == k
  {
    var i := KeyFor(equal, n, j);
    assert equal(j, i);
  }

  lemma SameShrinks<K(!new), V>(equal: (K, K) -> bool, hash: K -> Word, valueEqual: (V, V) -> bool,
      m: map<K, V>, n: map<K, V>, k: K)
    requires Lawful(equal, hash) && Distinct(equal, m) && Distinct(equal, n) && Same(equal, valueEqual, m, n) && k in m
    ensures var l := KeyFor(equal, n, k);
            Distinct(equal, m - {k}) && Distinct(equal, n - {l}) && Same(equal, valueEqual, m - {k}, n - {l})
  {
    var l := KeyFor(equal, n, k);
    var m', n' := m - {k}, n - {l};
    RemoveOne(m, k);
    RemoveOne(n, l);
    forall j | j in m' ensures Has(equal, n', j) && KeyFor(equal, n', j) == KeyFor(equal, n, j) {
      OwnKeyFor(equal, hash, m, n, j, k);
      KeyForUnique(equal, hash, n', j, KeyFor(equal, n, j));
    }
  }

  /** Equal tables have equal hashes, whatever their capacities, rotations and histories. */
  lemma {:induction false} SameHash<K(!new), V(!new)>(equal: (K, K) -> bool, hash: K -> Word,
      valueEqual: (V, V) -> bool, valueHash: V -> Word, m: map<K, V>, n: map<K, V>)
    requires Lawful(equal, hash) && Lawful(valueEqual, valueHash)
    requires Distinct(equal, m) && Distinct(equal, n) && Same(equal, valueEqual, m, n)
    ensures HashOf(hash, valueHash, m) == HashOf(hash, valueHash, n)
    decreases |m|
  {
    if m == map[] {
      assert n == map[];
    } else {
      var k :| k in m;
      var l := KeyFor(equal, n, k);
      SameShrinks(equal, hash, valueEqual, m, n, k);
      RemoveOne(m, k);
      SameHash(equal, hash, valueEqual, valueHash, m - {k}, n - {l});
      AnyLast(hash, valueHash, m, k);
      AnyLast(hash, valueHash, n, l);
    }
  }

  /** The answer does not depend on which of the tables is asked. */
  lemma {:induction false} SameSymmetric<K(!new), V(!new)>(equal: (K, K) -> bool, hash: K -> Word,
      valueEqual: (V, V) -> bool, valueHash: V -> Word, m: map<K, V>, n: map<K, V>)
    requires Lawful(equal, hash) && Lawful(valueEqual, valueHash)
    requires Distinct(equal, m) && Distinct(equal, n) && Same(equal, valueEqual, m, n)
    ensures Same(equal, valueEqual, n, m)
    decreases |m|
  {
    hide Lawful, Distinct, Has, KeyFor;
    if m == map[] {
      assert n == map[];
    } else {
      var k :| k in m;
      assert Matches(equal, valueEqual, n, k, m[k]);
      SameShrinks(equal, hash, valueEqual, m, n, k);
      RemoveOne(m, k);
      hide Same;
      SameSymmetric(equal, hash, valueEqual, valueHash, m - {k}, n - {KeyFor(equal, n, k)});
      SameGrows(equal, hash, valueEqual, valueHash, m, n, k);
    }
  }

  lemma SameGrows<K(!new), V(!new)>(equal: (K, K) -> bool, hash: K -> Word,
      valueEqual: (V, V) -> bool, valueHash: V -> Word, m: map<K, V>, n: map<K, V>, k: K)
    requires Lawful(equal, hash) && Lawful(valueEqual, valueHash) && Distinct(equal, m) && Distinct(equal, n)
    requires k in m && |m| == |n| && Matches(equal, valueEqual, n, k, m[k])
    requires Same(equal, valueEqual, n - {KeyFor(equal, n, k)}, m - {k})
    ensures Same(equal, valueEqual, n, m)
  {
    assert Has(equal, n, k);
    hide Lawful, Distinct, Has, KeyFor, Matches;
    forall j | j in n ensures Matches(equal, valueEqual, m, j, n[j]) {
      Counterpart(equal, hash, valueEqual, valueHash, m, n, k, j);
    }
  }

  lemma Counterpart<K(!new), V(!new)>(equal: (K, K) -> bool, hash: K -> Word,
      valueEqual: (V, V) -> bool, valueHash: V -> Word, m: map<K, V>, n: map<K, V>, k: K, j: K)
    requires Lawful(equal, hash) && Lawful(valueEqual, valueHash) && Distinct(equal, m) && Distinct(equal, n)
    requires k in m && Matches(equal, valueEqual, n, k, m[k]) && j in n
    requires Same(equal, valueEqual, n - {KeyFor(equal, n, k)}, m - {k})
    ensures Matches(equal, valueEqual, m, j, n[j])
  {
    var l := KeyFor(equal, n, k);
    if j == l {
      assert equal(k, l);
      KeyForUnique(equal, hash, m, j, k);
    } else {
      assert j in n - {l};
      KeyForUnique(equal, hash, m, j, KeyFor(equal, m - {k}, j));
    }
  }
}
