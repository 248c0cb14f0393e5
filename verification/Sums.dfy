/** Sums of the values of a map, whatever order a dictionary yields them in. */
module Sums {

  lemma SameMap<K>(a: map<K, real>, b: map<K, real>)
    requires forall k :: k in a <==> k in b
    requires forall k :: k in a ==> a[k] == b[k]
    ensures a == b
  {
  }

  ghost function Total<K>(m: map<K, real>): real
    decreases |m|
  {
    if m == map[] then 0.0 else
      var k :| k in m;
      m[k] + Total(m - {k})
  }

  lemma {:induction false} TotalRemove<K>(m: map<K, real>, k: K)
    requires k in m
    ensures Total(m) == m[k] + Total(m - {k})
    decreases |m|
  {
    var j :| j in m && Total(m) == m[j] + Total(m - {j});
    if j != k {
      TotalRemove(m - {j}, k);
      TotalRemove(m - {k}, j);
      assert m - {j} - {k} == m - {k} - {j};
    }
  }

  lemma TotalUpdate<K>(m: map<K, real>, k: K, v: real)
    ensures Total(m[k := v]) == Total(m) + v - (if k in m then m[k] else 0.0)
  {
    TotalRemove(m[k := v], k);
    assert m[k := v] - {k} == m - {k};
    if k in m {
      TotalRemove(m, k);
    } else {
      assert m - {k} == m;
    }
  }

  function Value<K>(m: map<K, real>, k: K): real {
    if k in m then m[k] else 0.0
  }

  /** Pointwise sum. */
  function Merge<K>(a: map<K, real>, b: map<K, real>): map<K, real> {
    map k | k in a.Keys + b.Keys :: Value(a, k) + Value(b, k)
  }

  lemma MergeOne<K>(a: map<K, real>, b: map<K, real>, k: K)
    requires k in b
    ensures Merge(a, b) == Merge(a, b - {k})[k := Value(a, k) + b[k]]
    ensures Value(Merge(a, b - {k}), k) == Value(a, k)
  {
    var p, q := Merge(a, b), Merge(a, b - {k})[k := Value(a, k) + b[k]];
    assert p.Keys == q.Keys;
    forall j | j in p
      ensures p[j] == q[j]
    {
    }
  }

  lemma MergeIs<K>(a: map<K, real>, b: map<K, real>, m: map<K, real>)
    requires forall k :: k in m <==> k in a || k in b
    requires forall k :: k in m ==> m[k] == Value(a, k) + Value(b, k)
    ensures m == Merge(a, b)
  {
    assert Merge(a, b).Keys == m.Keys;
  }

  lemma {:induction false} TotalMerge<K>(a: map<K, real>, b: map<K, real>)
    ensures Total(Merge(a, b)) == Total(a) + Total(b)
    decreases |b|
  {
    if b == map[] {
      assert Merge(a, b) == a;
    } else {
      var k :| k in b;
      var rest := b - {k};
      TotalMerge(a, rest);
      TotalRemove(b, k);
      MergeOne(a, b, k);
      TotalUpdate(Merge(a, rest), k, Value(a, k) + b[k]);
    }
  }

  /** A sum does not depend on what its values are filed under. */
  lemma {:induction false} TotalRenamed<K, L>(m: map<K, real>, f: K -> L, n: map<L, real>)
    requires forall k :: k in m ==> f(k) in n && n[f(k)] == m[k]
    requires forall j, k :: j in m && k in m && f(j) == f(k) ==> j == k
    requires forall l :: l in n ==> exists k :: k in m && f(k) == l
    ensures Total(m) == Total(n)
    decreases |m|
  {
    if m == map[] {
      assert forall l :: l !in n;
      SameMap(n, map[]);
    } else {
      var k :| k in m;
      TotalRemove(m, k);
      TotalRemove(n, f(k));
      TotalRenamed(m - {k}, f, n - {f(k)});
    }
  }
}
