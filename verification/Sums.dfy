/** Sums over finite maps, used wherever the agent adds up numbers while
    iterating over a Go map, whose iteration order is unspecified. */
module Sums {

  /** The sum of all values of `m`. */
  ghost function MapSum<K(!new)>(m: map<K, int>): int {
    if m == map[] then 0 else
      var k :| k in m;
      m[k] + MapSum(m - {k})
  }

  /** The sum does not depend on the order in which the keys are visited. */
  lemma {:induction false} MapSumPick<K(!new)>(m: map<K, int>, k: K)
    requires k in m
    ensures MapSum(m) == m[k] + MapSum(m - {k})
    decreases |m|
  {
    var first :| first in m && MapSum(m) == m[first] + MapSum(m - {first});
    if first != k {
      MapSumPick(m - {first}, k);
      MapSumPick(m - {k}, first);
      assert m - {first} - {k} == m - {k} - {first};
    }
  }

  lemma MapSumInsert<K(!new)>(m: map<K, int>, k: K, v: int)
    requires k !in m
    ensures MapSum(m[k := v]) == MapSum(m) + v
  {
    MapSumPick(m[k := v], k);
    assert m[k := v] - {k} == m;
  }

  /** Entries that are zero may be left out of a sum. */
  lemma {:induction false} MapSumSupport<K(!new)>(m: map<K, int>, part: map<K, int>)
    requires forall k :: k in part ==> k in m && m[k] == part[k]
    requires forall k :: k in m && k !in part ==> m[k] == 0
    ensures MapSum(m) == MapSum(part)
    decreases |m|
  {
    if m != map[] {
      var k :| k in m;
      MapSumPick(m, k);
      if k in part {
        MapSumPick(part, k);
        MapSumSupport(m - {k}, part - {k});
      } else {
        assert part - {k} == part;
        MapSumSupport(m - {k}, part);
      }
    } else {
      assert part == map[];
    }
  }

  /** Sums of two maps over one domain subtract pointwise. */
  lemma {:induction false} MapSumDifference<K(!new)>(a: map<K, int>, b: map<K, int>, d: map<K, int>)
    requires a.Keys == b.Keys == d.Keys
    requires forall k :: k in d ==> d[k] == a[k] - b[k]
    ensures MapSum(d) == MapSum(a) - MapSum(b)
    decreases |a|
  {
    if a == map[] {
      assert b == map[] && d == map[];
    } else {
      var k :| k in a;
      MapSumPick(a, k);
      MapSumPick(b, k);
      MapSumPick(d, k);
      MapSumDifference(a - {k}, b - {k}, d - {k});
    }
  }

  lemma {:induction false} MapSumBounds<K(!new)>(m: map<K, int>, n: nat, lo: int, hi: int)
    requires n == |m|
    requires forall k :: k in m ==> lo <= m[k] <= hi
    ensures n * lo <= MapSum(m) <= n * hi
    decreases n
  {
    if m != map[] {
      var k :| k in m;
      MapSumPick(m, k);
      var rest := m - {k};
      assert rest.Keys == m.Keys - {k};
      MapSumBounds(rest, n - 1, lo, hi);
      Distribute(n - 1, lo);
      Distribute(n - 1, hi);
    }
  }

  lemma {:induction false} MapSumNonNegative<K(!new)>(m: map<K, int>)
    requires forall k :: k in m ==> 0 <= m[k]
    ensures 0 <= MapSum(m)
    ensures forall k :: k in m ==> m[k] <= MapSum(m)
    decreases |m|
  {
    forall k | k in m ensures 0 <= m[k] <= MapSum(m) {
      MapSumPick(m, k);
      MapSumNonNegative(m - {k});
    }
  }

  lemma Distribute(n: int, x: int)
    ensures (n + 1) * x == n * x + x
  {
  }
}
