/** Finite sums over the values of a map. */
module Sums {
  ghost function Sum<K>(m: map<K, int>): int
    decreases |m|
  {
    if m == map[] then 0 else
      var k :| k in m;
      m[k] + Sum(m - {k})
  }

  lemma {:induction false} SumRemove<K>(m: map<K, int>, k: K)
    requires k in m
    ensures Sum(m) == m[k] + Sum(m - {k})
    decreases |m|
  {
    var j :| j in m && Sum(m) == m[j] + Sum(m - {j});
    if j != k {
      SumRemove(m - {j}, k);
      SumRemove(m - {k}, j);
      assert m - {j} - {k} == m - {k} - {j};
    }
  }

  lemma SumInsert<K>(m: map<K, int>, k: K, v: int)
    ensures Sum(m[k := v]) == Sum(m) + v - if k in m then m[k] else 0
  {
    SumRemove(m[k := v], k);
    assert m[k := v] - {k} == m - {k};
    if k in m {
      SumRemove(m, k);
    } else {
      assert m - {k} == m;
    }
  }

  lemma {:induction false} SumAdd<K>(a: map<K, int>, b: map<K, int>, c: map<K, int>)
    requires a.Keys == b.Keys == c.Keys && forall k :: k in a ==> c[k] == a[k] + b[k]
    ensures Sum(c) == Sum(a) + Sum(b)
    decreases |a|
  {
    if a == map[] {
      assert b == map[] && c == map[];
    } else {
      var k :| k in a;
      SumRemove(a, k);
      SumRemove(b, k);
      SumRemove(c, k);
      SumAdd(a - {k}, b - {k}, c - {k});
    }
  }

  lemma EmptySum<K>()
    ensures Sum<K>(map[]) == 0
  {
  }

  lemma OneMore(n: nat, x: int)
    ensures (n + 1) * x == n * x + x
  {
  }

  lemma {:induction false} SumAtLeast<K>(m: map<K, int>, lo: int)
    requires forall k :: k in m ==> lo <= m[k]
    ensures |m| * lo <= Sum(m)
    decreases |m|
  {
    if m == map[] {
      EmptySum<K>();
    } else {
      hide Sum;
      var k :| k in m;
      var rest := m - {k};
      SumRemove(m, k);
      SumAtLeast(rest, lo);
      assert m.Keys == rest.Keys + {k};
      OneMore(|rest|, lo);
    }
  }

  lemma {:induction false} SumAtMost<K>(m: map<K, int>, hi: int)
    requires forall k :: k in m ==> m[k] <= hi
    ensures Sum(m) <= |m| * hi
    decreases |m|
  {
    if m == map[] {
      EmptySum<K>();
    } else {
      hide Sum;
      var k :| k in m;
      var rest := m - {k};
      SumRemove(m, k);
      SumAtMost(rest, hi);
      assert m.Keys == rest.Keys + {k};
      OneMore(|rest|, hi);
    }
  }

  lemma {:induction false} SumNonPositive<K>(m: map<K, int>)
    requires forall k :: k in m ==> m[k] <= 0
    ensures Sum(m) <= 0
    decreases |m|
  {
    if m != map[] {
      var k :| k in m;
      SumRemove(m, k);
      SumNonPositive(m - {k});
    }
  }

  /** Non-negative values that sum to zero are all zero. */
  lemma SumZero<K>(m: map<K, int>)
    requires Sum(m) == 0 && forall k :: k in m ==> m[k] >= 0
    ensures forall k :: k in m ==> m[k] == 0
  {
    forall k | k in m
      ensures m[k] == 0
    {
      var rest := m - {k};
      SumRemove(m, k);
      var negated := map j | j in rest :: -rest[j];
      SumNonPositive(negated);
      var zeros := map j | j in rest :: 0;
      SumAdd(rest, negated, zeros);
      SumConstantZero(zeros);
    }
  }

  lemma {:induction false} SumConstantZero<K>(m: map<K, int>)
    requires forall k :: k in m ==> m[k] == 0
    ensures Sum(m) == 0
    decreases |m|
  {
    if m != map[] {
      var k :| k in m;
      SumRemove(m, k);
      SumConstantZero(m - {k});
    }
  }

  /** Splitting a map by keys splits its sum. */
  lemma {:induction false} SumSplit<K>(m: map<K, int>, keys: set<K>)
    ensures Sum(m) == Sum(m - keys) + Sum(map k | k in m && k in keys :: m[k])
    decreases |m|
  {
    var inside := map k | k in m && k in keys :: m[k];
    if m == map[] {
      assert m - keys == map[] && inside == map[];
    } else {
      var j :| j in m;
      var rest := m - {j};
      SumRemove(m, j);
      SumSplit(rest, keys);
      var insideRest := map k | k in rest && k in keys :: rest[k];
      if j in keys {
        SumRemove(inside, j);
        assert inside - {j} == insideRest;
        assert rest - keys == m - keys;
      } else {
        SumRemove(m - keys, j);
        assert m - keys - {j} == rest - keys;
        assert inside == insideRest;
      }
    }
  }
}
