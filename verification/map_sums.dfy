/** Sums over the values of a finite map: the byte counts of both tiers. */
module MapSums {

  /** The units that the values of a map are made of, told apart by key and position. */
  ghost function Units<K(!new), V(!new)>(m: map<K, V>, size: V -> nat): set<(K, int)> {
    set k, i | k in m && 0 <= i < size(m[k]) :: (k, i)
  }

  ghost function Sum<K(!new), V(!new)>(m: map<K, V>, size: V -> nat): nat {
    |Units(m, size)|
  }

  ghost function UnitsOf<K(!new)>(key: K, n: nat): set<(K, int)> {
    set i | 0 <= i < n :: (key, i)
  }

  lemma {:induction false} CountUnits<K(!new)>(key: K, n: nat)
    ensures |UnitsOf(key, n)| == n
  {
    if n > 0 {
      CountUnits(key, n - 1);
      assert UnitsOf(key, n) == UnitsOf(key, n - 1) + {(key, n - 1)};
    }
  }

  lemma SumRemove<K(!new), V(!new)>(m: map<K, V>, size: V -> nat, key: K)
    requires key in m
    ensures Sum(m, size) == size(m[key]) + Sum(m - {key}, size)
  {
    CountUnits(key, size(m[key]));
    assert Units(m, size) == UnitsOf(key, size(m[key])) + Units(m - {key}, size);
  }

  /** What replacing or adding a value does to the sum. */
  lemma SumPut<K(!new), V(!new)>(m: map<K, V>, size: V -> nat, key: K, v: V)
    ensures Sum(m[key := v], size) == Sum(m - {key}, size) + size(v)
    ensures Sum(m[key := v], size) == Sum(m, size) + size(v) - (if key in m then size(m[key]) else 0)
  {
    SumRemove(m[key := v], size, key);
    assert m[key := v] - {key} == m - {key};
    if key in m {
      SumRemove(m, size, key);
    } else {
      assert m - {key} == m;
    }
  }

  lemma SumEmpty<K(!new), V(!new)>(size: V -> nat)
    ensures Sum<K, V>(map[], size) == 0
  {
    assert Units<K, V>(map[], size) == {};
  }

  lemma SubsetSize<T>(a: set<T>, b: set<T>)
    requires a <= b
    ensures |a| <= |b|
  {
    assert b == a + (b - a);
  }

  lemma SumSubmap<K(!new), V(!new)>(sub: map<K, V>, m: map<K, V>, size: V -> nat)
    requires forall k :: k in sub ==> k in m && m[k] == sub[k]
    ensures Sum(sub, size) <= Sum(m, size)
  {
    SubsetSize(Units(sub, size), Units(m, size));
  }

  lemma OneMore(n: nat, least: nat)
    ensures (n + 1) * least == n * least + least
  {
  }

  /** A count of values from a bound on their sizes. */
  lemma {:induction false} SumAtLeast<K(!new), V(!new)>(m: map<K, V>, size: V -> nat, least: nat)
    requires forall k :: k in m ==> least <= size(m[k])
    ensures |m| * least <= Sum(m, size)
    decreases |m|
  {
    if m != map[] {
      var k :| k in m;
      var rest := m - {k};
      SumRemove(m, size, k);
      CountRemove(m, k);
      SumAtLeast(rest, size, least);
      OneMore(|rest|, least);
    }
  }

  lemma CountPut<K, V>(m: map<K, V>, key: K, v: V)
    ensures |m[key := v]| == |m| + (if key in m then 0 else 1)
  {
    if key in m {
      assert m[key := v].Keys == m.Keys;
    } else {
      assert m[key := v].Keys == m.Keys + {key};
    }
  }

  lemma CountRemove<K, V>(m: map<K, V>, key: K)
    requires key in m
    ensures |m - {key}| == |m| - 1
  {
    assert (m - {key}).Keys == m.Keys - {key};
  }

  lemma PutPut<K, V>(m: map<K, V>, key: K, a: V, b: V)
    ensures m[key := a][key := b] == m[key := b]
  {
  }

  lemma PutRemove<K, V>(m: map<K, V>, key: K, a: V)
    requires key !in m
    ensures m[key := a] - {key} == m
  {
  }

  lemma PutSame<K, V>(m: map<K, V>, key: K)
    requires key in m
    ensures m[key := m[key]] == m
  {
  }

  lemma RemoveAbsent<K, V>(m: map<K, V>, key: K)
    requires key !in m
    ensures m - {key} == m
  {
  }
}
