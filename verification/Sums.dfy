/** Sums over the values of a finite map, and sizes of sets. */
module Sums {

  lemma {:induction false} SubsetIsNoLarger<T>(a: set<T>, b: set<T>)
    requires a <= b
    ensures |a| <= |b|
  {
    if a == {} {
    } else {
      var x :| x in a;
      SubsetIsNoLarger(a - {x}, b - {x});
    }
  }

  ghost function Sum<K(!new), T(!new)>(m: map<K, T>, weight: T -> nat): nat
    decreases |m.Keys|
  {
    if m.Keys == {} then 0 else
    var k :| k in m.Keys;
    assert |(m - {k}).Keys| < |m.Keys| by { assert (m - {k}).Keys == m.Keys - {k}; }
    weight(m[k]) + Sum(m - {k}, weight)
  }

  /** Any key may be taken out first. */
  lemma {:induction false} SumRemove<K(!new), T(!new)>(m: map<K, T>, weight: T -> nat, k: K)
    requires k in m
    ensures Sum(m, weight) == weight(m[k]) + Sum(m - {k}, weight)
    decreases |m.Keys|
  {
    var first :| first in m.Keys && Sum(m, weight) == weight(m[first]) + Sum(m - {first}, weight);
    if first == k {
    } else {
      assert (m - {first}).Keys == m.Keys - {first} && (m - {k}).Keys == m.Keys - {k};
      SumRemove(m - {first}, weight, k);
      SumRemove(m - {k}, weight, first);
      assert m - {first} - {k} == m - {k} - {first};
    }
  }

  lemma SumUpdate<K(!new), T(!new)>(m: map<K, T>, weight: T -> nat, k: K, v: T)
    requires k in m
    ensures Sum(m[k := v], weight) == Sum(m, weight) - weight(m[k]) + weight(v)
  {
    SumRemove(m, weight, k);
    SumRemove(m[k := v], weight, k);
    assert m[k := v] - {k} == m - {k};
  }

  lemma SumInsert<K(!new), T(!new)>(m: map<K, T>, weight: T -> nat, k: K, v: T)
    requires k !in m
    ensures Sum(m[k := v], weight) == Sum(m, weight) + weight(v)
  {
    SumRemove(m[k := v], weight, k);
    assert m[k := v] - {k} == m;
  }

  /** A sum of equal weights. */
  lemma {:induction false} SumConstant<K(!new), T(!new)>(m: map<K, T>, weight: T -> nat, w: nat)
    requires forall k | k in m :: weight(m[k]) == w
    ensures Sum(m, weight) == w * |m|
    decreases |m.Keys|
  {
    if m.Keys == {} {
    } else {
      var k :| k in m.Keys;
      SumRemove(m, weight, k);
      assert (m - {k}).Keys == m.Keys - {k};
      SumConstant(m - {k}, weight, w);
      assert |m| == |m - {k}| + 1;
    }
  }
}
