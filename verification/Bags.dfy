/** Finite sums of multisets over a map. */
module Bags {

  ghost function Sum<K, T>(m: map<K, multiset<T>>): multiset<T> {
    if m == map[] then multiset{}
    else
      var k :| k in m;
      m[k] + Sum(m - {k})
  }

  /** The sum does not depend on the order in which keys are taken. */
  lemma {:induction false} SumSplit<K, T>(m: map<K, multiset<T>>, k: K)
    requires k in m
    ensures Sum(m) == m[k] + Sum(m - {k})
    decreases |m|
  {
    var first :| first in m && Sum(m) == m[first] + Sum(m - {first});
    if first != k {
      assert (m - {first}) - {k} == (m - {k}) - {first};
      SumSplit(m - {first}, k);
      SumSplit(m - {k}, first);
    }
  }

  lemma SumUpdate<K, T>(m: map<K, multiset<T>>, k: K, b: multiset<T>)
    ensures Sum(m[k := b]) == b + Sum(m - {k})
  {
    SumSplit(m[k := b], k);
    assert m[k := b] - {k} == m - {k};
  }

  /** Whatever occurs in the sum occurs in a summand, and conversely. */
  lemma {:induction false} InSum<K, T>(m: map<K, multiset<T>>, x: T)
    ensures x in Sum(m) <==> exists k :: k in m && x in m[k]
    decreases |m|
  {
    if m != map[] {
      var k :| k in m;
      SumSplit(m, k);
      InSum(m - {k}, x);
      forall j | j in m - {k} ensures m[j] == (m - {k})[j] {}
    }
  }

  lemma {:induction false} SumDisjoint<K, T>(a: map<K, multiset<T>>, b: map<K, multiset<T>>)
    requires a.Keys !! b.Keys
    ensures Sum(a + b) == Sum(a) + Sum(b)
    decreases |a|
  {
    if a == map[] {
      assert a + b == b;
    } else {
      var k :| k in a;
      SumDisjoint(a - {k}, b);
      SumDisjointStep(a, b, k);
    }
  }

  lemma SumDisjointStep<K, T>(a: map<K, multiset<T>>, b: map<K, multiset<T>>, k: K)
    requires a.Keys !! b.Keys && k in a
    requires Sum((a - {k}) + b) == Sum(a - {k}) + Sum(b)
    ensures Sum(a + b) == Sum(a) + Sum(b)
  {
    UnionMinus(a, b, k);
    SumSplit(a, k);
    SumSplit(a + b, k);
  }

  lemma UnionMinus<K, V>(a: map<K, V>, b: map<K, V>, k: K)
    requires k in a && k !in b
    ensures (a + b) - {k} == (a - {k}) + b && (a + b)[k] == a[k]
  {
    var u, v := (a + b) - {k}, (a - {k}) + b;
    assert u.Keys == v.Keys;
    forall j | j in u ensures u[j] == v[j] {
      if j in b {
        assert u[j] == b[j];
      } else {
        assert u[j] == a[j];
      }
    }
  }
}
