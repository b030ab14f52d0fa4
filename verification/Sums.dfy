/** Totals over the values of a map, in whatever order its entries are visited. */
module Sums {

  ghost function Sum<K>(keys: set<K>, m: map<K, int>): int
    requires keys <= m.Keys
  {
    if keys == {} then 0
    else
      var k :| k in keys;
      m[k] + Sum(keys - {k}, m)
  }

  lemma {:induction false} SumRemove<K>(keys: set<K>, m: map<K, int>, k: K)
    requires keys <= m.Keys && k in keys
    ensures Sum(keys, m) == m[k] + Sum(keys - {k}, m)
    decreases keys
  {
    var j :| j in keys && Sum(keys, m) == m[j] + Sum(keys - {j}, m);
    if j != k {
      SumRemove(keys - {j}, m, k);
      SumRemove(keys - {k}, m, j);
      assert keys - {j} - {k} == keys - {k} - {j};
    }
  }

  lemma {:induction false} SumSplit<K>(a: set<K>, b: set<K>, m: map<K, int>)
    requires a + b <= m.Keys && a !! b
    ensures Sum(a + b, m) == Sum(a, m) + Sum(b, m)
    decreases a
  {
    if a == {} {
      assert a + b == b;
    } else {
      var k :| k in a;
      SumRemove(a, m, k);
      SumRemove(a + b, m, k);
      assert (a + b) - {k} == (a - {k}) + b;
      SumSplit(a - {k}, b, m);
    }
  }

  lemma {:induction false} SumSame<K>(keys: set<K>, m: map<K, int>, n: map<K, int>)
    requires keys <= m.Keys && keys <= n.Keys && forall k :: k in keys ==> m[k] == n[k]
    ensures Sum(keys, m) == Sum(keys, n)
    decreases keys
  {
    if keys != {} {
      var k :| k in keys;
      SumRemove(keys, m, k);
      SumRemove(keys, n, k);
      SumSame(keys - {k}, m, n);
    }
  }

  /** Adds up a map's values one entry at a time. */
  method SumValues<K(==)>(m: map<K, int>) returns (total: int)
    ensures total == Sum(m.Keys, m)
  {
    total := 0;
    var left := m.Keys;
    while left != {}
      invariant left <= m.Keys
      invariant total + Sum(left, m) == Sum(m.Keys, m)
      decreases left
    {
      var k :| k in left;
      SumRemove(left, m, k);
      total := total + m[k];
      left := left - {k};
    }
  }

  // ---- counting images ----------------------------------------------------

  ghost function Image<A, B>(domain: set<A>, f: map<A, B>): set<B>
    requires domain <= f.Keys
  {
    set x | x in domain :: f[x]
  }

  lemma {:induction false} ImageSize<A, B>(domain: set<A>, f: map<A, B>)
    requires domain <= f.Keys
    requires forall x, y :: x in domain && y in domain && f[x] == f[y] ==> x == y
    ensures |Image(domain, f)| == |domain|
    decreases domain
  {
    if domain != {} {
      var a :| a in domain;
      ImageSize(domain - {a}, f);
      assert Image(domain, f) == Image(domain - {a}, f) + {f[a]};
    }
  }
}
