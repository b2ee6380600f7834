/** Sums over finite maps: the money or the resources a table stands for. */
module Totals {
  ghost function Total<K(!new)>(m: map<K, int>): int
    decreases |m|
  {
    if m == map[] then 0
    else
      var k :| k in m;
      m[k] + Total(m - {k})
  }

  // The sum does not depend on the order in which keys are taken.
  lemma {:induction false} TotalRemove<K(!new)>(m: map<K, int>, k: K)
    requires k in m
    ensures Total(m) == m[k] + Total(m - {k})
    decreases |m|
  {
    var c :| c in m && Total(m) == m[c] + Total(m - {c});
    if c != k {
      TotalRemove(m - {c}, k);
      TotalRemove(m - {k}, c);
      assert m - {c} - {k} == m - {k} - {c};
    }
  }

  lemma TotalInsert<K(!new)>(m: map<K, int>, k: K, v: int)
    requires k !in m
    ensures Total(m[k := v]) == Total(m) + v
  {
    TotalRemove(m[k := v], k);
    assert m[k := v] - {k} == m;
  }

  lemma {:induction false} TotalNonNegative<K(!new)>(m: map<K, int>)
    requires forall k :: k in m ==> m[k] >= 0
    ensures Total(m) >= 0
    decreases |m|
  {
    if m != map[] {
      var c :| c in m && Total(m) == m[c] + Total(m - {c});
      TotalNonNegative(m - {c});
    }
  }

  // A sum of non-negative numbers is zero exactly when each of them is.
  lemma {:induction false} TotalZero<K(!new)>(m: map<K, int>)
    requires forall k :: k in m ==> m[k] >= 0
    ensures Total(m) == 0 <==> forall k :: k in m ==> m[k] == 0
    decreases |m|
  {
    if m != map[] {
      var c :| c in m && Total(m) == m[c] + Total(m - {c});
      TotalNonNegative(m - {c});
      TotalZero(m - {c});
      assert forall k :: k in m && k != c ==> k in m - {c} && m[k] == (m - {c})[k];
    }
  }

  ghost function Restrict<K(!new)>(m: map<K, int>, keys: set<K>): map<K, int> {
    map k | k in m && k in keys :: m[k]
  }

  // A sum splits along any set of keys.
  lemma {:induction false} TotalSplit<K(!new)>(m: map<K, int>, keys: set<K>)
    requires keys <= m.Keys
    ensures Total(m) == Total(Restrict(m, keys)) + Total(m - keys)
    decreases |keys|
  {
    if keys == {} {
      assert Restrict(m, keys) == map[] && m - keys == m;
    } else {
      var c :| c in keys;
      TotalSplit(m - {c}, keys - {c});
      TotalRemove(m, c);
      TotalRemove(Restrict(m, keys), c);
      assert (m - {c}) - (keys - {c}) == m - keys;
      assert Restrict(m - {c}, keys - {c}) == Restrict(m, keys) - {c};
    }
  }
}
