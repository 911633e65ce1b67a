/** Sums over the values of a finite map. */
module Totals {

  /** All the elements of all the values, counted with multiplicity. */
  ghost function Gathered<K, V>(m: map<K, multiset<V>>): multiset<V>
    decreases |m|
  {
    if m == map[] then multiset{}
    else
      var k :| k in m;
      m[k] + Gathered(m - {k})
  }

  lemma {:induction false} GatheredRemove<K, V>(m: map<K, multiset<V>>, k: K)
    requires k in m
    ensures Gathered(m) == m[k] + Gathered(m - {k})
    decreases |m|
  {
    var j :| j in m && Gathered(m) == m[j] + Gathered(m - {j});
    if j != k {
      GatheredRemove(m - {j}, k);
      GatheredRemove(m - {k}, j);
      assert (m - {j}) - {k} == (m - {k}) - {j};
    }
  }

  lemma GatheredUpdate<K, V>(m: map<K, multiset<V>>, k: K, v: multiset<V>)
    ensures Gathered(m[k := v]) == v + Gathered(m - {k})
    ensures k !in m ==> Gathered(m - {k}) == Gathered(m)
  {
    GatheredRemove(m[k := v], k);
    assert m[k := v] - {k} == m - {k};
    assert k !in m ==> m - {k} == m;
  }

  ghost function Total<K>(m: map<K, nat>): nat
    decreases |m|
  {
    if m == map[] then 0
    else
      var k :| k in m;
      m[k] + Total(m - {k})
  }

  lemma {:induction false} TotalRemove<K>(m: map<K, nat>, k: K)
    requires k in m
    ensures Total(m) == m[k] + Total(m - {k})
    decreases |m|
  {
    var j :| j in m && Total(m) == m[j] + Total(m - {j});
    if j != k {
      TotalRemove(m - {j}, k);
      TotalRemove(m - {k}, j);
      assert (m - {j}) - {k} == (m - {k}) - {j};
    }
  }

  lemma TotalUpdate<K>(m: map<K, nat>, k: K, v: nat)
    ensures Total(m[k := v]) == v + Total(m - {k})
    ensures k !in m ==> Total(m - {k}) == Total(m)
  {
    TotalRemove(m[k := v], k);
    assert m[k := v] - {k} == m - {k};
    assert k !in m ==> m - {k} == m;
  }
}
