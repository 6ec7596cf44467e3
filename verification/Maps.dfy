/** Sizes of maps after the updates the bounded tables make, and a least value to evict. */
module Maps {
  lemma SubmapSize<K, V>(m: map<K, V>, n: map<K, V>)
    requires n.Keys <= m.Keys
    ensures |n| <= |m|
  {
    assert n.Keys + (m.Keys - n.Keys) == m.Keys;
    assert |n| == |n.Keys| && |m| == |m.Keys|;
  }

  lemma WithoutSize<K, V>(m: map<K, V>, k: K)
    ensures |m - {k}| == if k in m then |m| - 1 else |m|
    ensures k !in m ==> m - {k} == m
  {
    assert (m - {k}).Keys == m.Keys - {k};
    assert |m| == |m.Keys| && |m - {k}| == |(m - {k}).Keys|;
  }

  lemma WithSize<K, V>(m: map<K, V>, k: K, v: V)
    ensures |m[k := v]| == if k in m then |m| else |m| + 1
    ensures m[k := v] - {k} == m - {k}
  {
    assert m[k := v].Keys == m.Keys + {k};
    assert |m| == |m.Keys| && |m[k := v]| == |m[k := v].Keys|;
  }

  lemma LeastValue<K>(m: map<K, int>, keys: set<K>) returns (k: K)
    requires keys <= m.Keys && keys != {}
    ensures k in keys && forall j | j in keys :: m[k] <= m[j]
    decreases |keys|
  {
    k :| k in keys;
    if keys != {k} {
      var b := LeastValue(m, keys - {k});
      forall j | j in keys ensures (if m[k] <= m[b] then m[k] else m[b]) <= m[j] {
        assert j == k || j in keys - {k};
      }
      k := if m[k] <= m[b] then k else b;
    }
  }

  // ---------- Tables sorted by key ----------

  ghost predicate StrictOrder<K(!new)>(below: (K, K) -> bool) {
    && (forall a :: !below(a, a))
    && (forall a, b :: a == b || below(a, b) || below(b, a))
    && (forall a, b, c :: below(a, b) && below(b, c) ==> below(a, c))
  }

  lemma FirstKey<K(!new)>(keys: set<K>, below: (K, K) -> bool) returns (first: K)
    requires keys != {} && StrictOrder(below)
    ensures first in keys && forall a | a in keys && a != first :: below(first, a)
    decreases |keys|
  {
    first :| first in keys;
    if keys != {first} {
      var other := FirstKey(keys - {first}, below);
      var least := if below(first, other) then first else other;
      forall a | a in keys && a != least ensures below(least, a) {
        assert a == first || a in keys - {first};
      }
      first := least;
    }
  }

  // Takes the first entry of a table in the order of its keys.
  method PopFirst<K(!new, ==), V>(table: map<K, V>, below: (K, K) -> bool) returns (k: K, value: V, rest: map<K, V>)
    requires table != map[] && StrictOrder(below)
    ensures k in table && value == table[k] && rest == table - {k} && |rest| < |table|
    ensures forall a | a in rest :: below(k, a)
  {
    ghost var first := FirstKey(table.Keys, below);
    k :| k in table && forall a | a in table && a != k :: below(k, a);
    value := table[k];
    rest := table - {k};
    WithoutSize(table, k);
  }
}
