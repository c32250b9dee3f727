/** Sums of the values of a finite map, independent of the order in which the keys are visited. */
module MapSums {

  ghost function Sum<K>(m: map<K, nat>): nat
  {
    if m == map[] then 0 else
      var k :| k in m;
      m[k] + Sum(m - {k})
  }

  lemma {:induction false} SumRemove<K>(m: map<K, nat>, k: K)
    requires k in m
    ensures Sum(m) == m[k] + Sum(m - {k})
    decreases |m|
  {
    var p :| p in m && Sum(m) == m[p] + Sum(m - {p});
    if p != k {
      var rest := m - {p};
      assert |rest.Keys| < |m.Keys| by { assert rest.Keys == m.Keys - {p}; }
      SumRemove(rest, k);
      assert rest - {k} == (m - {k}) - {p};
      assert (m - {k}).Keys == m.Keys - {k};
      assert |(m - {k}).Keys| < |m.Keys|;
      SumRemove(m - {k}, p);
    }
  }

  lemma SumPut<K>(m: map<K, nat>, k: K, v: nat)
    ensures Sum(m[k := v]) == Sum(m) - (if k in m then m[k] else 0) + v
  {
    SumRemove(m[k := v], k);
    if k in m {
      SumRemove(m, k);
      assert m[k := v] - {k} == m - {k};
    } else {
      assert m[k := v] - {k} == m;
    }
  }

  /** The part of a map whose keys lie in `keys`. */
  function Part<K, V>(m: map<K, V>, keys: set<K>): map<K, V>
  {
    map k | k in m && k in keys :: m[k]
  }

  lemma RemoveShrinks<K>(m: map<K, nat>, k: K)
    requires k in m
    ensures (m - {k}).Keys == m.Keys - {k} && |m - {k}| < |m|
  {
    assert (m - {k}).Keys == m.Keys - {k};
  }

  lemma UnionWithout<K>(a: map<K, nat>, b: map<K, nat>, k: K)
    requires k in a && a.Keys !! b.Keys
    ensures (a + b) - {k} == (a - {k}) + b
    ensures k in a + b && (a + b)[k] == a[k]
  {
  }

  lemma {:induction false} SumDisjoint<K>(a: map<K, nat>, b: map<K, nat>)
    requires a.Keys !! b.Keys
    ensures Sum(a + b) == Sum(a) + Sum(b)
    decreases |a|
  {
    if a == map[] {
      assert a + b == b;
    } else {
      var k :| k in a;
      UnionWithout(a, b, k);
      RemoveShrinks(a, k);
      SumRemove(a, k);
      SumRemove(a + b, k);
      SumDisjoint(a - {k}, b);
    }
  }

  lemma {:induction false} SumMonotone<K>(small: map<K, nat>, big: map<K, nat>)
    requires forall k :: k in small ==> k in big && small[k] <= big[k]
    ensures Sum(small) <= Sum(big)
    decreases |small|
  {
    if small != map[] {
      var k :| k in small;
      SumRemove(small, k);
      SumRemove(big, k);
      RemoveShrinks(small, k);
      SumMonotone(small - {k}, big - {k});
    }
  }

  lemma {:induction false} AllZero<K>(m: map<K, nat>)
    requires forall k :: k in m ==> m[k] == 0
    ensures Sum(m) == 0
    decreases |m|
  {
    if m != map[] {
      var k :| k in m;
      SumRemove(m, k);
      RemoveShrinks(m, k);
      AllZero(m - {k});
    }
  }

  lemma Pick<K>(s: set<K>) returns (x: K)
    requires s != {}
    ensures x in s
  {
    x :| x in s;
  }
}
