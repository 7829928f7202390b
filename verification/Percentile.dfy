/** The latency probe's summary: sorting in place, the mean, and nearest-rank percentiles. */
module Percentile {

  predicate Sorted(s: seq<int>) {
    forall i, j :: 0 <= i <= j < |s| ==> s[i] <= s[j]
  }

  function Ceil(x: real): int {
    -((-x).Floor)
  }

  /** The index of the p-th percentile in n sorted values, kept inside the slice. */
  function Rank(n: nat, p: real): int
    requires n > 0
  {
    var index := Ceil(p / 100.0 * n as real) - 1;
    if index < 0 then 0 else if index >= n then n - 1 else index
  }

  function PercentileOf(sorted: seq<int>, p: real): int {
    if sorted == [] then 0 else sorted[Rank(|sorted|, p)]
  }

  /** How many values are at most v. */
  function AtMost(s: seq<int>, v: int): nat {
    if s == [] then 0 else AtMost(s[..|s| - 1], v) + if s[|s| - 1] <= v then 1 else 0
  }

  lemma {:induction false} AtMostCounts(s: seq<int>, v: int, k: nat)
    requires k <= |s|
    ensures (forall i :: 0 <= i < k ==> s[i] <= v) ==> AtMost(s, v) >= k
    ensures (forall i :: k <= i < |s| ==> s[i] > v) ==> AtMost(s, v) <= k
  {
    if s != [] {
      var n := |s| - 1;
      AtMostCounts(s[..n], v, if k <= n then k else n);
    }
  }

  lemma {:induction false} AtMostConcat(a: seq<int>, b: seq<int>, v: int)
    ensures AtMost(a + b, v) == AtMost(a, v) + AtMost(b, v)
  {
    if b == [] {
      assert a + b == a;
    } else {
      var n := |b| - 1;
      AtMostConcat(a, b[..n], v);
      assert (a + b)[..|a + b| - 1] == a + b[..n];
    }
  }

  lemma {:induction false} AtMostRemove(s: seq<int>, v: int, i: nat)
    requires i < |s|
    ensures AtMost(s, v) == AtMost(s[..i] + s[i + 1..], v) + if s[i] <= v then 1 else 0
  {
    AtMostConcat(s[..i], s[i + 1..], v);
    AtMostConcat(s[..i + 1], s[i + 1..], v);
    assert s[..i + 1] + s[i + 1..] == s && s[..i + 1][..i] == s[..i];
  }

  lemma {:induction false} RemoveOne(s: seq<int>, i: nat)
    requires i < |s|
    ensures multiset(s[..i] + s[i + 1..]) == multiset(s) - multiset{s[i]}
  {
    assert s == s[..i] + [s[i]] + s[i + 1..];
  }

  /** The last of `a` and the place in a permutation of `a` that it can be taken from. */
  lemma {:induction false} MatchLast(a: seq<int>, b: seq<int>) returns (i: nat)
    requires a != [] && multiset(a) == multiset(b)
    ensures i < |b| && b[i] == a[|a| - 1] && multiset(b[..i] + b[i + 1..]) == multiset(a[..|a| - 1])
  {
    var n := |a| - 1;
    assert a[n] in multiset(a);
    i :| 0 <= i < |b| && b[i] == a[n];
    RemoveOne(b, i);
    RemoveOne(a, n);
    assert a[..n] + a[n + 1..] == a[..n];
  }

  /** The count depends only on which values there are, not on their order. */
  lemma {:induction false} AtMostPermutes(a: seq<int>, b: seq<int>, v: int)
    requires multiset(a) == multiset(b)
    ensures AtMost(a, v) == AtMost(b, v)
  {
    if a == [] {
      assert |multiset(b)| == 0;
    } else {
      var i := MatchLast(a, b);
      AtMostRemove(b, v, i);
      AtMostPermutes(a[..|a| - 1], b[..i] + b[i + 1..], v);
    }
  }

  lemma ShareBounds(n: nat, p: real)
    requires n > 0 && 0.0 < p <= 100.0
    ensures 0.0 < p / 100.0 * n as real <= n as real
  {
    var share := p / 100.0;
    assert 0.0 < share <= 1.0;
    assert share * n as real <= 1.0 * n as real;
  }

  /** For p in (0, 100] the rank is the first index at which p percent of n is reached. */
  lemma RankMeans(n: nat, p: real)
    requires n > 0 && 0.0 < p <= 100.0
    ensures 0 <= Rank(n, p) < n
    ensures Rank(n, p) as real < p / 100.0 * n as real <= (Rank(n, p) + 1) as real
  {
    ShareBounds(n, p);
  }

  /** The value at the first index that reaches the need is the least value that does. */
  lemma {:induction false} LeastReaching(sorted: seq<int>, r: nat, need: real)
    requires r < |sorted| && Sorted(sorted) && r as real < need <= (r + 1) as real
    ensures AtMost(sorted, sorted[r]) as real >= need
    ensures forall u :: AtMost(sorted, u) as real >= need ==> sorted[r] <= u
  {
    AtMostCounts(sorted, sorted[r], r + 1);
    forall u | AtMost(sorted, u) as real >= need ensures sorted[r] <= u {
      if u < sorted[r] {
        AtMostCounts(sorted, u, r);
        assert false;
      }
    }
  }

  /** Nearest rank: the percentile is the least sample v such that at least p percent of
      the samples are at most v. */
  lemma {:induction false} PercentileIsNearestRank(values: seq<int>, sorted: seq<int>, p: real)
    requires sorted != [] && Sorted(sorted) && multiset(values) == multiset(sorted)
    requires 0.0 < p <= 100.0
    ensures var v, need := PercentileOf(sorted, p), p / 100.0 * |sorted| as real;
            && v in values
            && AtMost(values, v) as real >= need
            && forall u :: AtMost(values, u) as real >= need ==> v <= u
  {
    var v := PercentileOf(sorted, p);
    RankMeans(|sorted|, p);
    LeastReaching(sorted, Rank(|sorted|, p), p / 100.0 * |sorted| as real);
    assert v in multiset(sorted);
    forall u ensures AtMost(values, u) == AtMost(sorted, u) {
      AtMostPermutes(values, sorted, u);
    }
  }

  lemma CeilMonotone(x: real, y: real)
    requires x <= y
    ensures Ceil(x) <= Ceil(y)
  {
  }

  lemma {:induction false} PercentilesIncrease(sorted: seq<int>, p: real, q: real)
    requires sorted != [] && Sorted(sorted) && p <= q
    ensures sorted[0] <= PercentileOf(sorted, p) <= PercentileOf(sorted, q) <= sorted[|sorted| - 1]
  {
    var n := |sorted| as real;
    assert p / 100.0 <= q / 100.0;
    assert p / 100.0 * n <= q / 100.0 * n;
    CeilMonotone(p / 100.0 * n, q / 100.0 * n);
  }

  // ----- the mean

  function Sum(s: seq<int>): int {
    if s == [] then 0 else Sum(s[..|s| - 1]) + s[|s| - 1]
  }

  /** Division that truncates toward zero. */
  function TruncDiv(a: int, n: int): int
    requires n > 0
  {
    if a >= 0 then a / n else -((-a) / n)
  }

  lemma {:induction false} SumBounds(s: seq<int>, lo: int, hi: int)
    requires forall i :: 0 <= i < |s| ==> lo <= s[i] <= hi
    ensures |s| * lo <= Sum(s) <= |s| * hi
  {
    if s != [] {
      var n := |s| - 1;
      SumBounds(s[..n], lo, hi);
      assert |s| * lo == n * lo + lo && |s| * hi == n * hi + hi;
    }
  }

  lemma StrictlyLessTimes(x: int, y: int, n: int)
    requires n > 0 && x < y
    ensures x * n + n <= y * n
  {
    assert (x + 1) * n <= y * n;
  }

  lemma FloorBounds(a: int, n: int, lo: int, hi: int)
    requires n > 0 && a >= 0 && n * lo <= a <= n * hi
    ensures lo <= a / n <= hi
  {
    var q := a / n;
    assert q * n <= a < q * n + n;
    if q < lo {
      StrictlyLessTimes(q, lo, n);
    }
    if q > hi {
      StrictlyLessTimes(hi, q, n);
    }
  }

  lemma MeanBounds(a: int, n: int, lo: int, hi: int)
    requires n > 0 && n * lo <= a <= n * hi
    ensures lo <= TruncDiv(a, n) <= hi
  {
    if a >= 0 {
      FloorBounds(a, n, lo, hi);
    } else {
      assert n * -hi == -(n * hi) && n * -lo == -(n * lo);
      FloorBounds(-a, n, -hi, -lo);
    }
  }

  /** The sum of nothing is zero, of one value that value, and of two parts both sums. */
  lemma {:induction false} SumMeans(x: int, a: seq<int>, b: seq<int>)
    ensures Sum([]) == 0 && Sum([x]) == x && Sum(a + b) == Sum(a) + Sum(b)
  {
    assert Sum([x]) == Sum([]) + x by { assert [x][..0] == []; }
    if b == [] {
      assert a + b == a;
    } else {
      var n := |b| - 1;
      SumMeans(x, a, b[..n]);
      assert (a + b)[..|a + b| - 1] == a + b[..n];
    }
  }

  /** `q` is a / n without its fraction: no further from zero, and by less than one. */
  ghost predicate Truncates(q: int, a: int, n: int) {
    if a >= 0 then q * n <= a < q * n + n else q * n - n < a <= q * n
  }

  lemma TruncDivMeans(a: int, n: int)
    requires n > 0
    ensures Truncates(TruncDiv(a, n), a, n)
  {
    if a < 0 {
      var q := (-a) / n;
      assert q * n <= -a < q * n + n;
      assert (-q) * n == -(q * n);
    }
  }

  // ----- the summary

  datatype Stats = Stats(count: nat, min: int, mean: int, p50: int, p90: int, p95: int, p99: int, max: int)

  function StatsOf(sorted: seq<int>): Stats
    requires sorted != []
  {
    Stats(|sorted|, sorted[0], TruncDiv(Sum(sorted), |sorted|),
          PercentileOf(sorted, 50.0), PercentileOf(sorted, 90.0), PercentileOf(sorted, 95.0),
          PercentileOf(sorted, 99.0), sorted[|sorted| - 1])
  }

  /** The reported figures are in order. */
  lemma {:induction false} StatsAreOrdered(sorted: seq<int>)
    requires sorted != [] && Sorted(sorted)
    ensures var t := StatsOf(sorted);
            && t.min <= t.p50 <= t.p90 <= t.p95 <= t.p99 <= t.max
            && t.min <= t.mean <= t.max
  {
    PercentilesIncrease(sorted, 50.0, 90.0);
    PercentilesIncrease(sorted, 90.0, 95.0);
    PercentilesIncrease(sorted, 95.0, 99.0);
    var lo, hi := sorted[0], sorted[|sorted| - 1];
    SumBounds(sorted, lo, hi);
    MeanBounds(Sum(sorted), |sorted|, lo, hi);
  }

  predicate SortedUpTo(a: array<int>, n: nat)
    requires n <= a.Length
    reads a
  {
    forall i, j :: 0 <= i <= j < n ==> a[i] <= a[j]
  }

  /** Stands for the library's in-place sort. */
  method SortInPlace(a: array<int>)
    modifies a
    ensures Sorted(a[..]) && multiset(a[..]) == multiset(old(a[..]))
  {
    for n := 0 to a.Length
      invariant SortedUpTo(a, n)
      invariant multiset(a[..]) == multiset(old(a[..]))
    {
      Insert(a, n);
    }
  }

  /** Moves the element at `n` down to its place among the sorted ones before it. */
  method Insert(a: array<int>, n: nat)
    requires n < a.Length && SortedUpTo(a, n)
    modifies a
    ensures SortedUpTo(a, n + 1) && multiset(a[..]) == multiset(old(a[..]))
  {
    var j := n;
    while j > 0 && a[j - 1] > a[j]
      invariant 0 <= j <= n
      invariant forall i, k :: 0 <= i <= k <= n && i != j && k != j ==> a[i] <= a[k]
      invariant forall k :: j < k <= n ==> a[j] < a[k]
      invariant multiset(a[..]) == multiset(old(a[..]))
    {
      a[j - 1], a[j] := a[j], a[j - 1];
      j := j - 1;
    }
  }

  method Summarize(values: array<int>) returns (t: Stats)
    requires values.Length > 0
    modifies values
    ensures Sorted(values[..]) && multiset(values[..]) == multiset(old(values[..]))
    ensures t == StatsOf(values[..])
    ensures t.count == values.Length && t.min == values[0] && t.max == values[values.Length - 1]
    ensures Truncates(t.mean, Sum(values[..]), values.Length)
    ensures t.p50 == PercentileOf(values[..], 50.0) && t.p90 == PercentileOf(values[..], 90.0)
    ensures t.p95 == PercentileOf(values[..], 95.0) && t.p99 == PercentileOf(values[..], 99.0)
  {
    SortInPlace(values);
    var total := 0;
    for i := 0 to values.Length
      invariant total == Sum(values[..i])
    {
      assert values[..i + 1][..i] == values[..i];
      total := total + values[i];
    }
    assert values[..values.Length] == values[..];
    var sorted := values[..];
    TruncDivMeans(total, values.Length);
    return Stats(values.Length, values[0], TruncDiv(total, values.Length),
                 PercentileOf(sorted, 50.0), PercentileOf(sorted, 90.0), PercentileOf(sorted, 95.0),
                 PercentileOf(sorted, 99.0), values[values.Length - 1]);
  }
}
