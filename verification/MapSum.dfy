/** Sums over the values of a finite map. */
module MapSum {

  ghost function Sum<K>(m: map<K, nat>): nat
    decreases |m|
  {
    if m == map[] then 0
    else
      var k :| k in m;
      m[k] + Sum(m - {k})
  }

  lemma {:induction false} SumRemove<K>(m: map<K, nat>, k: K)
    requires k in m
    ensures Sum(m) == m[k] + Sum(m - {k})
    decreases |m|
  {
    var j :| j in m && Sum(m) == m[j] + Sum(m - {j});
    if j != k {
      SumRemove(m - {j}, k);
      SumRemove(m - {k}, j);
      assert m - {j} - {k} == m - {k} - {j};
    }
  }

  lemma SumInsert<K>(m: map<K, nat>, k: K, v: nat)
    ensures Sum(m[k := v]) == Sum(m - {k}) + v
  {
    SumRemove(m[k := v], k);
    assert m[k := v] - {k} == m - {k};
  }

  lemma {:induction false} SumSubset<K>(m: map<K, nat>, part: map<K, nat>)
    requires part.Keys <= m.Keys && forall k :: k in part ==> part[k] == m[k]
    ensures Sum(part) <= Sum(m)
    decreases |part|
  {
    if part != map[] {
      var k :| k in part;
      SumRemove(part, k);
      SumRemove(m, k);
      SumSubset(m - {k}, part - {k});
    }
  }
}
