/** Statistics over metric samples (pkg/rightsizing/stats.go), with real numbers for float64. */
module RightsizingStats {
  import opened Wrappers

  datatype MetricStats = MetricStats(sampleCount: nat, average: real, p95: real, p99: real, max: real, latest: real)

  const NO_STATS := MetricStats(0, 0.0, 0.0, 0.0, 0.0, 0.0)

  // ----- sorting -----

  ghost predicate Ascending(s: seq<int>) { forall i, j :: 0 <= i < j < |s| ==> s[i] <= s[j] }

  function InsertSorted(x: int, s: seq<int>): seq<int>
  {
    if s == [] then [x] else if x <= s[0] then [x] + s else [s[0]] + InsertSorted(x, s[1..])
  }

  lemma AscendingCons(x: int, s: seq<int>)
    requires Ascending(s) && forall i :: 0 <= i < |s| ==> x <= s[i]
    ensures Ascending([x] + s)
  {
  }

  lemma MultisetCons(x: int, s: seq<int>)
    ensures multiset([x] + s) == multiset(s) + multiset{x}
  {
  }

  lemma {:induction false} InsertKeepsOrder(x: int, s: seq<int>)
    requires Ascending(s)
    ensures Ascending(InsertSorted(x, s)) && multiset(InsertSorted(x, s)) == multiset(s) + multiset{x}
    decreases |s|
  {
    if s == [] {
    } else if x <= s[0] {
      AscendingCons(x, s);
      MultisetCons(x, s);
    } else {
      var r := InsertSorted(x, s[1..]);
      InsertKeepsOrder(x, s[1..]);
      hide InsertSorted;
      assert s == [s[0]] + s[1..];
      MultisetCons(s[0], s[1..]);
      MultisetCons(s[0], r);
      AllAbove(s[0], s[1..], x, r);
      AscendingCons(s[0], r);
    }
  }

  lemma AllAbove(low: int, s: seq<int>, x: int, r: seq<int>)
    requires low <= x && (forall i :: 0 <= i < |s| ==> low <= s[i]) && multiset(r) == multiset(s) + multiset{x}
    ensures forall i :: 0 <= i < |r| ==> low <= r[i]
  {
    forall i | 0 <= i < |r|
      ensures low <= r[i]
    {
      assert r[i] in multiset(r);
      assert r[i] in multiset(s) || r[i] == x;
    }
  }

  /** slices.Sort */
  function Sort(s: seq<int>): (r: seq<int>)
    ensures Ascending(r) && multiset(r) == multiset(s) && |r| == |s|
  {
    if s == [] then []
    else
      assert s == [s[0]] + s[1..];
      InsertKeepsOrder(s[0], Sort(s[1..]));
      var r := InsertSorted(s[0], Sort(s[1..]));
      assert |multiset(r)| == |r| && |multiset(s)| == |s|;
      r
  }

  lemma SortedIsUnique(s: seq<int>, t: seq<int>)
    requires Ascending(s) && Ascending(t) && multiset(s) == multiset(t)
    ensures s == t
  {
    OrderedIsUnique((a: int, b: int) => a <= b, s, t);
  }

  method SortInPlace(a: array<int>)
    modifies a
    ensures a[..] == Sort(old(a[..]))
  {
    var s := Sort(a[..]);
    forall i | 0 <= i < a.Length {
      a[i] := s[i];
    }
    assert a[..] == s;
  }

  // ----- percentiles -----

  function Ceil(x: real): (c: int)
    ensures (c - 1) as real < x <= c as real
  {
    -((-x).Floor)
  }

  function Scaled(p: real, n: nat): real { p * n as real }

  /** ceil(p n) */
  function Rank(n: nat, p: real): int { Ceil(Scaled(p, n)) }

  /** The index of the nearest rank, kept inside the slice. */
  function RankIndex(n: nat, p: real): (i: nat)
    requires n > 0
    ensures i < n
  {
    var k := Rank(n, p) - 1;
    var low := if k > 0 then k else 0;
    if low >= n then n - 1 else low
  }

  function Percentile(sorted: seq<int>, p: real): real
  {
    if sorted == [] then 0.0 else sorted[RankIndex(|sorted|, p)] as real
  }

  /** How many samples are not above x. */
  function AtMost(s: seq<int>, x: int): (c: nat)
    ensures c <= |s|
  {
    if s == [] then 0 else (if s[0] <= x then 1 else 0) + AtMost(s[1..], x)
  }

  lemma {:induction false} AtMostSorted(s: seq<int>, x: int, k: nat)
    requires Ascending(s) && k <= |s| && (forall i :: 0 <= i < k ==> s[i] <= x) && (k < |s| ==> s[k] > x)
    ensures AtMost(s, x) == k
    decreases |s|
  {
    if s != [] {
      AtMostSorted(s[1..], x, if k == 0 then 0 else k - 1);
    }
  }

  lemma {:induction false} AtMostOfMultiset(s: seq<int>, t: seq<int>, x: int)
    requires multiset(s) == multiset(t)
    ensures AtMost(s, x) == AtMost(t, x)
    decreases |s|
  {
    assert |s| == |multiset(s)| == |multiset(t)| == |t|;
    if s != [] {
      assert s[0] in multiset(t);
      var i :| 0 <= i < |t| && t[i] == s[0];
      var u := t[..i] + t[i + 1..];
      TailMultiset(s);
      assert t == t[..i] + ([t[i]] + t[i + 1..]);
      AtMostOfMultiset(s[1..], u, x);
      AtMostAppend(t[..i], [t[i]] + t[i + 1..], x);
      AtMostAppend(t[..i], t[i + 1..], x);
      assert ([t[i]] + t[i + 1..])[1..] == t[i + 1..];
    }
  }

  lemma {:induction false} AtMostAppend(s: seq<int>, t: seq<int>, x: int)
    ensures AtMost(s + t, x) == AtMost(s, x) + AtMost(t, x)
    decreases |s|
  {
    if s == [] {
      assert s + t == t;
    } else {
      assert (s + t)[1..] == s[1..] + t;
      AtMostAppend(s[1..], t, x);
    }
  }

  /** The first index beyond the samples not above x. */
  lemma {:induction false} SplitAt(s: seq<int>, x: int) returns (k: nat)
    requires Ascending(s)
    ensures k <= |s| && (forall i :: 0 <= i < k ==> s[i] <= x) && (k < |s| ==> s[k] > x)
    decreases |s|
  {
    if s == [] || s[0] > x {
      k := 0;
    } else {
      var j := SplitAt(s[1..], x);
      k := j + 1;
      assert forall i :: 0 < i < k ==> s[i] == s[1..][i - 1];
    }
  }

  /** v is the least sample with at least c samples not above it. */
  ghost predicate NearestRank(values: seq<int>, c: int, v: int)
  {
    v in values && AtMost(values, v) >= c && forall x :: x in values && AtMost(values, x) >= c ==> v <= x
  }

  lemma SortMember(values: seq<int>, i: nat)
    requires i < |values|
    ensures Sort(values)[i] in values
  {
    hide Sort;
    assert Sort(values)[i] in multiset(Sort(values));
    assert Sort(values)[i] in multiset(values);
  }

  lemma RankIsNearest(values: seq<int>, c: int)
    requires 1 <= c <= |values|
    ensures NearestRank(values, c, Sort(values)[c - 1])
  {
    hide Sort, AtMost;
    var v := Sort(values)[c - 1];
    SortMember(values, c - 1);
    RankCovers(values, c);
    forall x | x in values && AtMost(values, x) >= c
      ensures v <= x
    {
      CoveringIsAbove(values, x, c);
    }
  }

  /** For every p, the percentile of the sorted samples is a sample; it is the least one with at least ceil(p n) of the n
      samples not above it exactly when p is at most 1, and beyond that no sample is. */
  lemma PercentileIsNearestRank(values: seq<int>, p: real) returns (v: int)
    requires values != []
    ensures v in values && Percentile(Sort(values), p) == v as real
    ensures NearestRank(values, Rank(|values|, p), v) <==> p <= 1.0
    ensures p > 1.0 ==> forall x :: !NearestRank(values, Rank(|values|, p), x)
  {
    hide Sort, Rank, AtMost;
    var n := |values|;
    v := Sort(values)[RankIndex(n, p)];
    SortMember(values, RankIndex(n, p));
    if p <= 0.0 {
      RankNotPositive(n, p);
      SmallestIsNearest(values, Rank(n, p));
    } else if p <= 1.0 {
      RankInRange(n, p);
      RankIsNearest(values, Rank(n, p));
    } else {
      RankBeyond(n, p);
    }
  }

  /** When nothing is asked for, the smallest sample does. */
  lemma SmallestIsNearest(values: seq<int>, c: int)
    requires values != [] && c <= 0
    ensures NearestRank(values, c, Sort(values)[0])
  {
    hide Sort;
    SortMember(values, 0);
    forall x | x in values
      ensures Sort(values)[0] <= x
    {
      assert x in multiset(Sort(values));
    }
  }

  lemma AtMostInSorted(values: seq<int>, x: int) returns (k: nat)
    ensures k == AtMost(values, x) && k <= |values|
    ensures (forall i :: 0 <= i < k ==> Sort(values)[i] <= x) && (k < |values| ==> Sort(values)[k] > x)
  {
    hide Sort, AtMost;
    var s := Sort(values);
    k := SplitAt(s, x);
    AtMostSorted(s, x, k);
    AtMostOfMultiset(values, s, x);
  }

  lemma RankCovers(values: seq<int>, c: int)
    requires 1 <= c <= |values|
    ensures AtMost(values, Sort(values)[c - 1]) >= c
  {
    hide Sort, AtMost;
    var v := Sort(values)[c - 1];
    var k := AtMostInSorted(values, v);
    assert k < |values| ==> Sort(values)[k] > v;
  }

  lemma CoveringIsAbove(values: seq<int>, x: int, c: int)
    requires 1 <= c <= |values| && AtMost(values, x) >= c
    ensures Sort(values)[c - 1] <= x
  {
    hide Sort, AtMost;
    var k := AtMostInSorted(values, x);
  }

  lemma ScaledBounds(p: real, n: nat)
    requires n > 0 && 0.0 < p <= 1.0
    ensures 0.0 < Scaled(p, n) <= n as real
  {
    ScaleBounds(p, n as real);
  }

  lemma ScaleBounds(p: real, m: real)
    requires 0.0 < p <= 1.0 && m > 0.0
    ensures 0.0 < p * m <= m
  {
    assert (1.0 - p) * m >= 0.0;
  }

  lemma RankInRange(n: nat, p: real)
    requires n > 0 && 0.0 < p <= 1.0
    ensures 1 <= Rank(n, p) <= n && RankIndex(n, p) == Rank(n, p) - 1
  {
    hide Scaled, Ceil;
    ScaledBounds(p, n);
  }

  lemma ScaledBeyond(p: real, n: nat)
    requires n > 0
    ensures p <= 0.0 ==> Scaled(p, n) <= 0.0
    ensures p > 1.0 ==> Scaled(p, n) > n as real
  {
    var m := n as real;
    if p <= 0.0 {
      Scale(p, 0.0, m);
    } else if p > 1.0 {
      Strictly(1.0, p, m);
    }
  }

  lemma RankNotPositive(n: nat, p: real)
    requires n > 0 && p <= 0.0
    ensures Rank(n, p) <= 0 && RankIndex(n, p) == 0
  {
    hide Scaled, Ceil;
    ScaledBeyond(p, n);
  }

  lemma RankBeyond(n: nat, p: real)
    requires n > 0 && p > 1.0
    ensures Rank(n, p) > n
  {
    hide Scaled, Ceil;
    ScaledBeyond(p, n);
  }

  lemma ScaledAscends(p: real, q: real, n: nat)
    requires p <= q
    ensures Scaled(p, n) <= Scaled(q, n)
  {
    Scale(p, q, n as real);
  }

  lemma RankAscends(n: nat, p: real, q: real)
    requires p <= q
    ensures Rank(n, p) <= Rank(n, q)
  {
    hide Ceil, Scaled;
    ScaledAscends(p, q, n);
    CeilAscends(Scaled(p, n), Scaled(q, n));
  }

  lemma CeilAscends(x: real, y: real)
    requires x <= y
    ensures Ceil(x) <= Ceil(y)
  {
    hide Ceil;
    var c, d := Ceil(x), Ceil(y);
    assert (c - 1) as real < d as real;
  }

  lemma Scale(p: real, q: real, m: real)
    requires p <= q && m >= 0.0
    ensures p * m <= q * m
  {
    var d := q - p;
    assert d * m >= 0.0;
    assert q * m == p * m + d * m;
  }

  /** A larger fraction has no smaller percentile, and none exceeds the last sample. */
  lemma PercentilesAscend(sorted: seq<int>, p: real, q: real)
    requires sorted != [] && Ascending(sorted) && p <= q
    ensures Percentile(sorted, p) <= Percentile(sorted, q) <= sorted[|sorted| - 1] as real
  {
    hide Rank;
    RankAscends(|sorted|, p, q);
  }

  // ----- the statistics -----

  const TWO63 := 0x8000_0000_0000_0000

  predicate Fits64(x: int) { -TWO63 <= x < TWO63 }

  /** A machine integer after overflow. */
  function Wrap(x: int): (r: int)
    ensures Fits64(r) && (Fits64(x) <==> r == x)
  {
    (x + TWO63) % TWO64 - TWO63
  }

  lemma WrapAdd(a: int, b: int)
    ensures Wrap(Wrap(a) + b) == Wrap(a + b)
  {
    var k := (a + TWO63) / TWO64;
    assert Wrap(a) == a - k * TWO64;
    Modulo(a + b + TWO63, k);
  }

  lemma Modulo(x: int, k: int)
    ensures (x - k * TWO64) % TWO64 == x % TWO64
  {
    var q, r := x / TWO64, x % TWO64;
    assert x - k * TWO64 == (q - k) * TWO64 + r;
    DivisionIsUnique(x - k * TWO64, q - k, r);
  }

  lemma DivisionIsUnique(x: int, q: int, r: int)
    requires x == q * TWO64 + r && 0 <= r < TWO64
    ensures x % TWO64 == r
  {
  }

  function Sum(values: seq<int>): int { if values == [] then 0 else Sum(values[..|values| - 1]) + values[|values| - 1] }

  /** The statistics as a function of the samples. */
  function Stats(values: seq<int>): MetricStats
  {
    if values == [] then NO_STATS
    else
      var s, n := Sort(values), |values|;
      MetricStats(n, Wrap(Sum(values)) as real / n as real, Percentile(s, 0.95), Percentile(s, 0.99),
                  s[n - 1] as real, values[n - 1] as real)
  }

  method WrappedSum(values: array<int>) returns (sum: int)
    ensures sum == Wrap(Sum(values[..]))
  {
    hide Wrap;
    sum := 0;
    var i := 0;
    while i < values.Length
      invariant i <= values.Length && sum == Wrap(Sum(values[..i]))
    {
      WrapAdd(Sum(values[..i]), values[i]);
      assert values[..i + 1][..i] == values[..i];
      sum := Wrap(sum + values[i]);
      i := i + 1;
    }
    assert values[..i] == values[..];
  }

  /** Copies and sorts the samples, and sums them with machine integers; the input stays as it is. */
  method ComputeStats(values: array<int>) returns (r: MetricStats)
    ensures r == Stats(values[..])
    ensures values[..] == old(values[..])
  {
    hide Sort, Wrap, Sum, Percentile;
    if values.Length == 0 {
      return NO_STATS;
    }
    var sorted := new int[values.Length];
    forall i | 0 <= i < values.Length {
      sorted[i] := values[i];
    }
    assert sorted[..] == values[..];
    SortInPlace(sorted);
    var sum := WrappedSum(values);
    var n := values.Length;
    var p95 := Percentile(sorted[..], 0.95);
    var p99 := Percentile(sorted[..], 0.99);
    r := MetricStats(n, sum as real / n as real, p95, p99, sorted[n - 1] as real, values[n - 1] as real);
  }

  lemma LastIsMax(values: seq<int>)
    requires values != []
    ensures var m := Sort(values)[|values| - 1]; m in values && forall x :: x in values ==> x <= m
  {
    hide Sort;
    SortMember(values, |values| - 1);
    forall x | x in values
      ensures x <= Sort(values)[|values| - 1]
    {
      assert x in multiset(Sort(values));
    }
  }

  lemma {:induction false} SumBounds(values: seq<int>, lo: int, hi: int)
    requires forall x :: x in values ==> lo <= x <= hi
    ensures lo * |values| <= Sum(values) <= hi * |values|
    decreases |values|
  {
    if values != [] {
      var n := |values| - 1;
      assert values[n] in values && forall x :: x in values[..n] ==> x in values;
      SumBounds(values[..n], lo, hi);
      assert lo * (n + 1) == lo * n + lo && hi * (n + 1) == hi * n + hi;
    }
  }

  /** P95, P99 and Max are in order, Max is the greatest sample, Latest the last. */
  lemma StatsAreOrdered(values: seq<int>)
    requires values != []
    ensures var r := Stats(values);
            && r.p95 <= r.p99 <= r.max && r.sampleCount == |values| && r.latest == values[|values| - 1] as real
            && (exists m :: m in values && r.max == m as real && forall x :: x in values ==> x <= m)
  {
    hide Sort, Percentile, Wrap;
    PercentilesAscend(Sort(values), 0.95, 0.99);
    LastIsMax(values);
  }

  /** P95 and P99 are the least samples with at least 95 and 99 percent of the samples not above them. */
  lemma StatsAreNearestRanks(values: seq<int>) returns (c: int, v: int, d: int, w: int)
    requires values != []
    ensures (c - 1) as real < 0.95 * |values| as real <= c as real && NearestRank(values, c, v) && Stats(values).p95 == v as real
    ensures (d - 1) as real < 0.99 * |values| as real <= d as real && NearestRank(values, d, w) && Stats(values).p99 == w as real
  {
    hide Sort, NearestRank, Percentile, Wrap, Sum;
    c, d := Rank(|values|, 0.95), Rank(|values|, 0.99);
    v := PercentileIsNearestRank(values, 0.95);
    w := PercentileIsNearestRank(values, 0.99);
  }

  lemma DividedBetween(lo: int, s: int, hi: int, n: nat)
    requires n > 0 && lo * n <= s <= hi * n
    ensures lo as real <= s as real / n as real <= hi as real
  {
    var a := s as real / n as real;
    assert a * n as real == s as real;
    if a < lo as real {
      Strictly(a, lo as real, n as real);
    } else if a > hi as real {
      Strictly(hi as real, a, n as real);
    }
  }

  lemma Strictly(a: real, b: real, m: real)
    requires a < b && m > 0.0
    ensures a * m < b * m
  {
  }

  /** The average is the mean exactly when the sum fits into a machine integer; and then it lies among the samples. */
  lemma AverageIsMeanIffSumFits(values: seq<int>, lo: int, hi: int)
    requires values != [] && forall x :: x in values ==> lo <= x <= hi
    ensures Stats(values).average == Sum(values) as real / |values| as real <==> Fits64(Sum(values))
    ensures Fits64(Sum(values)) ==> lo as real <= Stats(values).average <= hi as real
  {
    hide Sort, Percentile, Sum;
    var s, n := Sum(values), |values|;
    SumBounds(values, lo, hi);
    DividedBetween(lo, s, hi, n);
    if Stats(values).average == s as real / n as real {
      Cancel(Wrap(s) as real, s as real, n as real);
    }
  }

  lemma Cancel(a: real, b: real, m: real)
    requires m > 0.0 && a / m == b / m
    ensures a == b
  {
    assert a == a / m * m && b == b / m * m;
  }

  /** Two samples of the largest size make the sum overflow, and their average is below both. */
  lemma AverageOverflows()
    ensures var big := TWO63 - 1; Fits64(big) && Stats([big, big]).average == -1.0
  {
    var big := TWO63 - 1;
    assert [big, big][..1] == [big] && [big][..0] == [];
    assert Sum([big]) == big;
    assert Sum([big, big]) == big + big;
    assert Wrap(big + big) == -2;
  }

  lemma {:induction false} SumOfMultiset(s: seq<int>, t: seq<int>)
    requires multiset(s) == multiset(t)
    ensures Sum(s) == Sum(t)
    decreases |s|
  {
    assert |s| == |multiset(s)| == |multiset(t)| == |t|;
    if s != [] {
      var n := |s| - 1;
      assert s[n] in multiset(t);
      var i :| 0 <= i < |t| && t[i] == s[n];
      Without(s, n);
      Without(t, i);
      assert s[..n] + s[n + 1..] == s[..n];
      SumOfMultiset(s[..n], t[..i] + t[i + 1..]);
    }
  }

  lemma OneOut(t: seq<int>, i: nat)
    requires i < |t|
    ensures multiset(t[..i] + t[i + 1..]) == multiset(t) - multiset{t[i]}
    ensures t == t[..i] + ([t[i]] + t[i + 1..])
  {
    assert t == t[..i] + ([t[i]] + t[i + 1..]);
  }

  lemma SumOfOne(x: int)
    ensures Sum([x]) == x
  {
    assert [x][..0] == [];
  }

  /** Taking one sample out. */
  lemma Without(t: seq<int>, i: nat)
    requires i < |t|
    ensures multiset(t[..i] + t[i + 1..]) == multiset(t) - multiset{t[i]}
    ensures Sum(t) == Sum(t[..i] + t[i + 1..]) + t[i]
  {
    hide Sum;
    OneOut(t, i);
    var a, b := t[..i], t[i + 1..];
    SumAppend(a, [t[i]] + b);
    SumAppend(a, b);
    SumAppend([t[i]], b);
    SumOfOne(t[i]);
  }

  lemma {:induction false} SumAppend(s: seq<int>, t: seq<int>)
    ensures Sum(s + t) == Sum(s) + Sum(t)
    decreases |t|
  {
    if t == [] {
      assert s + t == s;
    } else {
      var n := |t| - 1;
      assert (s + t)[..|s + t| - 1] == s + t[..n];
      SumAppend(s, t[..n]);
    }
  }

  /** The order of the samples matters for nothing but Latest. */
  lemma OrderOnlyForLatest(s: seq<int>, t: seq<int>)
    requires multiset(s) == multiset(t)
    ensures Stats(s).(latest := 0.0) == Stats(t).(latest := 0.0)
  {
    hide Percentile, Wrap, Sum;
    assert |s| == |multiset(s)| == |multiset(t)| == |t|;
    SumOfMultiset(s, t);
    SortedIsUnique(Sort(s), Sort(t));
  }
}
