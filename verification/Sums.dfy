/** Totals over finite maps, and the two ways they are compared. */
module Sums {

  ghost function Total<K>(m: map<K, nat>): nat
    decreases m.Keys
  {
    if m == map[] then 0 else
      var k :| k in m;
      m[k] + Total(m - {k})
  }

  lemma {:induction false} TotalRemove<K>(m: map<K, nat>, k: K)
    requires k in m
    ensures Total(m) == m[k] + Total(m - {k})
    decreases m.Keys
  {
    var j :| j in m && Total(m) == m[j] + Total(m - {j});
    if j != k {
      TotalRemove(m - {j}, k);
      TotalRemove(m - {k}, j);
      assert m - {j} - {k} == m - {k} - {j};
    }
  }

  lemma TotalAdd<K>(m: map<K, nat>, k: K, v: nat)
    requires k !in m
    ensures Total(m[k := v]) == Total(m) + v
  {
    TotalRemove(m[k := v], k);
    assert m[k := v] - {k} == m;
  }

  ghost predicate Injects<K, L>(m: map<K, nat>, n: map<L, nat>, f: map<K, L>)
  {
    && f.Keys == m.Keys
    && (forall k | k in m :: f[k] in n && m[k] <= n[f[k]])
    && (forall j, k | j in f && k in f && j != k :: f[j] != f[k])
  }

  /** A map whose entries can be charged to distinct, no smaller entries of another has no larger total. */
  lemma {:induction false} TotalInjection<K, L>(m: map<K, nat>, n: map<L, nat>, f: map<K, L>)
    requires Injects(m, n, f)
    ensures Total(m) <= Total(n)
    decreases m.Keys
  {
    if m != map[] {
      var k :| k in m;
      TotalRemove(m, k);
      TotalRemove(n, f[k]);
      TotalInjection(m - {k}, n - {f[k]}, f - {k});
    }
  }

  lemma {:induction false} TotalDisjointUnion<K>(m: map<K, nat>, n: map<K, nat>)
    requires m.Keys !! n.Keys
    ensures Total(m + n) == Total(m) + Total(n)
    decreases m.Keys
  {
    if m == map[] {
      assert m + n == n;
    } else {
      var k :| k in m;
      TotalRemove(m, k);
      TotalRemove(m + n, k);
      assert (m + n) - {k} == (m - {k}) + n;
      TotalDisjointUnion(m - {k}, n);
    }
  }

  lemma TotalSplit<K>(whole: map<K, nat>, m: map<K, nat>, n: map<K, nat>)
    requires forall k | k in m :: k in whole && k !in n && m[k] == whole[k]
    requires forall k | k in n :: k in whole && n[k] == whole[k]
    requires forall k | k in whole :: k in m || k in n
    ensures Total(whole) == Total(m) + Total(n)
  {
    var union := m + n;
    assert whole.Keys == union.Keys;
    assert whole == union;
    TotalDisjointUnion(m, n);
  }
}
