/** Sums over the values of a map. */
module Totals {
  ghost function Total<K, V>(m: map<K, V>, value: V -> real): real {
    if m == map[] then 0.0
    else
      var k :| k in m;
      value(m[k]) + Total(m - {k}, value)
  }

  lemma SmallerMap<K, V>(m: map<K, V>, k: K)
    requires k in m
    ensures |m - {k}| < |m|
  {
    assert (m - {k}).Keys == m.Keys - {k};
  }

  lemma {:induction false} TotalRemove<K, V>(m: map<K, V>, value: V -> real, k: K)
    requires k in m
    ensures Total(m, value) == value(m[k]) + Total(m - {k}, value)
    decreases |m|
  {
    var x :| x in m && Total(m, value) == value(m[x]) + Total(m - {x}, value);
    if x != k {
      SmallerMap(m, x);
      TotalRemove(m - {x}, value, k);
      SmallerMap(m, k);
      TotalRemove(m - {k}, value, x);
      assert m - {x} - {k} == m - {k} - {x};
    }
  }

  lemma TotalSet<K, V>(m: map<K, V>, value: V -> real, k: K, v: V)
    ensures Total(m[k := v], value) == Total(m, value) + value(v) - if k in m then value(m[k]) else 0.0
  {
    var n := m[k := v];
    TotalRemove(n, value, k);
    assert n - {k} == m - {k};
    if k in m {
      TotalRemove(m, value, k);
    } else {
      assert m - {k} == m;
    }
  }
}
