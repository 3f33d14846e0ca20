/** Adding up the values of a finite map, as SQL's sum() does over rows in no particular order. */
module Sums {

  ghost function SumMap<K(!new)>(m: map<K, int>): int
    decreases |m|
  {
    if m == map[] then 0
    else
      var k :| k in m;
      SmallerWithout(m, k);
      m[k] + SumMap(m - {k})
  }

  lemma SmallerWithout<K, V>(m: map<K, V>, k: K)
    requires k in m
    ensures |m - {k}| == |m| - 1
  {
    assert (m - {k}).Keys == m.Keys - {k};
  }

  /** Any row may be taken out first. */
  lemma {:induction false} SumWithout<K(!new)>(m: map<K, int>, k: K)
    requires k in m
    ensures SumMap(m) == m[k] + SumMap(m - {k})
    decreases |m|
  {
    var first :| first in m && SumMap(m) == m[first] + SumMap(m - {first});
    if first != k {
      SmallerWithout(m, first);
      SmallerWithout(m, k);
      SumWithout(m - {first}, k);
      SumWithout(m - {k}, first);
      assert m - {first} - {k} == m - {k} - {first};
    }
  }

  /** Writing one row changes the sum by exactly what that row changed. */
  lemma SumUpdate<K(!new)>(m: map<K, int>, k: K, v: int)
    ensures SumMap(m[k := v]) == SumMap(m) + v - (if k in m then m[k] else 0)
  {
    SumWithout(m[k := v], k);
    assert m[k := v] - {k} == m - {k};
    if k in m {
      SumWithout(m, k);
    } else {
      assert m - {k} == m;
    }
  }

  /** Row by row no more, and over fewer rows of non-negative worth: no more in all. */
  lemma {:induction false} SumBounded<K(!new)>(m: map<K, int>, bound: map<K, int>)
    requires m.Keys <= bound.Keys
    requires forall k :: k in m ==> m[k] <= bound[k]
    requires forall k :: k in bound ==> 0 <= bound[k]
    ensures SumMap(m) <= SumMap(bound)
    decreases |bound|
  {
    if bound == map[] {
      assert m == map[];
    } else {
      var k :| k in bound;
      SumWithout(bound, k);
      SmallerWithout(bound, k);
      SumBounded(m - {k}, bound - {k});
      if k in m {
        SumWithout(m, k);
      } else {
        assert m - {k} == m;
      }
    }
  }

  lemma SumNonNegative<K(!new)>(m: map<K, int>)
    requires forall k :: k in m ==> 0 <= m[k]
    ensures 0 <= SumMap(m)
  {
    SumBounded(map[], m);
  }
}
