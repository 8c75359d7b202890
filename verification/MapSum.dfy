/** Sums over the values of a map, in any iteration order. */
module MapSum {

  ghost function Sum<K, V>(m: map<K, V>, f: V -> int): int
    decreases |m|
  {
    if m == map[] then 0 else
      var k :| k in m;
      assert |m - {k}| < |m| by { assert (m - {k}).Keys == m.Keys - {k}; }
      f(m[k]) + Sum(m - {k}, f)
  }

  /** The order in which keys are taken does not matter. */
  lemma {:induction false} SumRemove<K, V>(m: map<K, V>, f: V -> int, k: K)
    requires k in m
    ensures Sum(m, f) == f(m[k]) + Sum(m - {k}, f)
    decreases |m|
  {
    var p :| p in m && Sum(m, f) == f(m[p]) + Sum(m - {p}, f);
    if p != k {
      assert (m - {p}).Keys == m.Keys - {p};
      assert (m - {k}).Keys == m.Keys - {k};
      SumRemove(m - {p}, f, k);
      SumRemove(m - {k}, f, p);
      assert m - {p} - {k} == m - {k} - {p};
    }
  }

  lemma {:induction false} SumInsert<K, V>(m: map<K, V>, f: V -> int, k: K, v: V)
    requires k !in m
    ensures Sum(m[k := v], f) == Sum(m, f) + f(v)
  {
    SumRemove(m[k := v], f, k);
    assert m[k := v] - {k} == m;
  }

  lemma {:induction false} SumReplace<K, V>(m: map<K, V>, f: V -> int, k: K, v: V)
    requires k in m
    ensures Sum(m[k := v], f) == Sum(m, f) - f(m[k]) + f(v)
  {
    SumRemove(m[k := v], f, k);
    SumRemove(m, f, k);
    assert m[k := v] - {k} == m - {k};
  }

  ghost predicate NonNegative<K, V>(m: map<K, V>, f: V -> int) {
    forall k <- m :: f(m[k]) >= 0
  }

  /** Dropping keys cannot raise a sum of non-negative values. */
  lemma {:induction false} SumSubmap<K, V>(m: map<K, V>, f: V -> int, gone: set<K>)
    requires NonNegative(m, f)
    ensures 0 <= Sum(m - gone, f) <= Sum(m, f)
    decreases |gone|
  {
    if gone == {} {
      assert m - gone == m;
      SumNonNegative(m, f);
    } else {
      var k :| k in gone;
      SumWithout(m, f, k);
      SumSubmap(m - {k}, f, gone - {k});
      assert m - {k} - (gone - {k}) == m - gone;
    }
  }

  lemma {:induction false} SumWithout<K, V>(m: map<K, V>, f: V -> int, k: K)
    requires NonNegative(m, f)
    ensures Sum(m - {k}, f) <= Sum(m, f)
  {
    if k in m {
      SumRemove(m, f, k);
    } else {
      assert m - {k} == m;
    }
  }

  lemma {:induction false} SumNonNegative<K, V>(m: map<K, V>, f: V -> int)
    requires NonNegative(m, f)
    ensures Sum(m, f) >= 0
    decreases |m|
  {
    if m != map[] {
      var k :| k in m;
      assert (m - {k}).Keys == m.Keys - {k};
      SumRemove(m, f, k);
      SumNonNegative(m - {k}, f);
    }
  }

  /** Fewer keys with smaller values give a smaller sum of non-negative values. */
  lemma {:induction false} SumPointwise<K, V>(m: map<K, V>, n: map<K, V>, f: V -> int)
    requires NonNegative(n, f)
    requires forall k <- m :: k in n && f(m[k]) <= f(n[k])
    ensures Sum(m, f) <= Sum(n, f)
    decreases |m|
  {
    if m == map[] {
      SumNonNegative(n, f);
    } else {
      var k :| k in m;
      assert (m - {k}).Keys == m.Keys - {k};
      SumRemove(m, f, k);
      SumRemove(n, f, k);
      SumPointwise(m - {k}, n - {k}, f);
    }
  }

  lemma {:induction false} SizeAtMost<T>(a: set<T>, b: set<T>)
    requires a <= b
    ensures |a| <= |b|
  {
    assert a + (b - a) == b;
  }

  lemma SmallerWithout<T>(s: set<T>, x: T)
    requires x in s
    ensures |s - {x}| < |s|
  {
  }

  lemma SizeWithout<K, V>(m: map<K, V>, k: K)
    requires k in m
    ensures |m - {k}| == |m| - 1
  {
    assert (m - {k}).Keys == m.Keys - {k};
  }
}
