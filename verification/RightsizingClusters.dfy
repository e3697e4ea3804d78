/** From metric rows to cluster utilization, with SQL's NULLs (internal/store/rightsizing.go). */
module RightsizingClusters {
  import opened RightsizingStats

  datatype Nullable<T> = Null | Of(value: T)

  /** A row of rightsizing_metrics. */
  datatype MetricRow = MetricRow(key: string, stats: MetricStats)

  const CPU := "cpu.usage.average"
  const MEM := "mem.consumed.average"

  /** What vinfo knows of a VM; NULLs if it knows nothing. */
  datatype Inventory = Inventory(cpus: Nullable<int>, memory: Nullable<int>)

  // ----- the pivot to percentages -----

  function Greater(a: Nullable<real>, b: Nullable<real>): Nullable<real>
  {
    if a.Null? then b else if b.Null? || a.value >= b.value then a else b
  }

  /** MAX(CASE WHEN metric_key = key THEN f END) */
  function Pivot(rows: seq<MetricRow>, key: string, f: MetricStats -> Nullable<real>): Nullable<real>
  {
    if rows == [] then Null
    else Greater(if rows[0].key == key then f(rows[0].stats) else Null, Pivot(rows[1..], key, f))
  }

  /** The cell of the i-th row that the aggregate looks at. */
  ghost predicate CellIs(rows: seq<MetricRow>, key: string, f: MetricStats -> Nullable<real>, i: nat, x: real)
  {
    i < |rows| && rows[i].key == key && f(rows[i].stats) == Of(x)
  }

  /** The pivot is the greatest cell of the metric, and NULL exactly if there is none. */
  lemma {:induction false} PivotIsGreatest(rows: seq<MetricRow>, key: string, f: MetricStats -> Nullable<real>)
    ensures Pivot(rows, key, f).Of? ==> exists i: nat :: CellIs(rows, key, f, i, Pivot(rows, key, f).value)
    ensures forall i: nat, x: real :: CellIs(rows, key, f, i, x) ==> Pivot(rows, key, f).Of? && x <= Pivot(rows, key, f).value
    decreases |rows|
  {
    if rows != [] {
      PivotIsGreatest(rows[1..], key, f);
      var p := Pivot(rows, key, f);
      if p.Of? {
        if CellIs(rows, key, f, 0, p.value) {
        } else {
          var i: nat :| CellIs(rows[1..], key, f, i, p.value);
          assert CellIs(rows, key, f, i + 1, p.value);
        }
      }
      forall i: nat, x: real | CellIs(rows, key, f, i, x)
        ensures p.Of? && x <= p.value
      {
        if i > 0 {
          assert CellIs(rows[1..], key, f, i - 1, x);
        }
      }
    }
  }

  /** Hundredths of a percent to percent. */
  function CpuPct(x: real): Nullable<real> { Of(x / 100.0) }

  /** Kilobytes to percent of the memory in megabytes. */
  function MemPct(memory: Nullable<int>, x: real): Nullable<real>
  {
    if memory.Null? || memory.value == 0 then Null else Of(x / (memory.value as real * 1024.0) * 100.0)
  }

  datatype Utilization = Utilization(
    cpuAvg: Nullable<real>, cpuP95: Nullable<real>, cpuMax: Nullable<real>,
    memAvg: Nullable<real>, memP95: Nullable<real>, memMax: Nullable<real>,
    cpus: Nullable<int>, memoryMb: Nullable<int>)

  function Utilize(rows: seq<MetricRow>, inv: Inventory): Utilization
  {
    Utilization(
      Pivot(rows, CPU, (s: MetricStats) => CpuPct(s.average)),
      Pivot(rows, CPU, (s: MetricStats) => CpuPct(s.p95)),
      Pivot(rows, CPU, (s: MetricStats) => CpuPct(s.max)),
      Pivot(rows, MEM, (s: MetricStats) => MemPct(inv.memory, s.average)),
      Pivot(rows, MEM, (s: MetricStats) => MemPct(inv.memory, s.p95)),
      Pivot(rows, MEM, (s: MetricStats) => MemPct(inv.memory, s.max)),
      inv.cpus, inv.memory)
  }

  /** Both NULL, or both there and in order. */
  predicate InOrder(a: Nullable<real>, b: Nullable<real>)
  {
    (a.Null? && b.Null?) || (a.Of? && b.Of? && a.value <= b.value)
  }

  lemma {:induction false} PivotKeepsOrder(rows: seq<MetricRow>, key: string, f: MetricStats -> Nullable<real>, g: MetricStats -> Nullable<real>)
    requires forall i :: 0 <= i < |rows| ==> InOrder(f(rows[i].stats), g(rows[i].stats))
    ensures InOrder(Pivot(rows, key, f), Pivot(rows, key, g))
    decreases |rows|
  {
    if rows != [] {
      PivotKeepsOrder(rows[1..], key, f, g);
    }
  }

  lemma DivideKeepsOrder(x: real, y: real, d: real)
    requires x <= y && d > 0.0
    ensures x / d <= y / d
  {
    var a, b := x / d, y / d;
    assert a * d == x && b * d == y;
    if a > b {
      Strictly(b, a, d);
    }
  }

  /** Memory that is not negative keeps the order of two amounts, negative memory turns it around. */
  lemma MemPctOrder(memory: Nullable<int>, x: real, y: real)
    requires x <= y
    ensures memory.Of? && memory.value < 0 ==> InOrder(MemPct(memory, y), MemPct(memory, x))
    ensures memory.Null? || memory.value >= 0 ==> InOrder(MemPct(memory, x), MemPct(memory, y))
  {
    if memory.Of? && memory.value != 0 {
      var d := memory.value as real * 1024.0;
      if memory.value > 0 {
        DivideKeepsOrder(x, y, d);
      } else {
        DivideKeepsOrder(x, y, -d);
        assert x / d == -(x / -d) && y / d == -(y / -d);
      }
    }
  }

  /** The rows were computed from samples; rows without samples are not written. */
  ghost predicate FromSamples(rows: seq<MetricRow>) { forall i :: 0 <= i < |rows| ==> Computed(rows[i].stats) }

  ghost predicate Computed(s: MetricStats) { exists values :: values != [] && s == Stats(values) }

  lemma RowsAreOrdered(rows: seq<MetricRow>, i: nat)
    requires FromSamples(rows) && i < |rows|
    ensures rows[i].stats.p95 <= rows[i].stats.max
  {
    hide Stats;
    assert Computed(rows[i].stats);
    var values :| values != [] && rows[i].stats == Stats(values);
    StatsAreOrdered(values);
  }

  /** Each VM's 95th percentiles are at most its maxima, and both are NULL together; only a negative memory size, which
      turns the order of the memory percentages around, makes an exception. */
  lemma UtilizationIsOrdered(rows: seq<MetricRow>, inv: Inventory)
    requires FromSamples(rows)
    ensures var u := Utilize(rows, inv);
            && InOrder(u.cpuP95, u.cpuMax)
            && (if inv.memory.Of? && inv.memory.value < 0 then InOrder(u.memMax, u.memP95) else InOrder(u.memP95, u.memMax))
  {
    hide MemPct, FromSamples;
    var low := (s: MetricStats) => MemPct(inv.memory, s.p95);
    var high := (s: MetricStats) => MemPct(inv.memory, s.max);
    forall i | 0 <= i < |rows|
      ensures InOrder(CpuPct(rows[i].stats.p95), CpuPct(rows[i].stats.max))
      ensures if inv.memory.Of? && inv.memory.value < 0 then InOrder(high(rows[i].stats), low(rows[i].stats))
              else InOrder(low(rows[i].stats), high(rows[i].stats))
    {
      RowsAreOrdered(rows, i);
      MemPctOrder(inv.memory, rows[i].stats.p95, rows[i].stats.max);
    }
    PivotKeepsOrder(rows, CPU, (s: MetricStats) => CpuPct(s.p95), (s: MetricStats) => CpuPct(s.max));
    if inv.memory.Of? && inv.memory.value < 0 {
      PivotKeepsOrder(rows, MEM, high, low);
    } else {
      PivotKeepsOrder(rows, MEM, low, high);
    }
  }

  // ----- weighted sums -----

  /** A percentage and its weight, as one row of the aggregate sees them. */
  datatype Term = Term(pct: Nullable<real>, weight: Nullable<int>)

  function Product(t: Term): real
    requires t.pct.Of? && t.weight.Of?
  {
    t.pct.value * t.weight.value as real
  }

  /** SUM(pct * weight): NULL products are left out, and a sum of nothing is NULL. */
  function WeightedSum(ts: seq<Term>): Nullable<real>
  {
    if ts == [] then Null
    else
      var rest := WeightedSum(ts[1..]);
      if ts[0].pct.Null? || ts[0].weight.Null? then rest
      else
        var x := Product(ts[0]);
        Of(if rest.Null? then x else x + rest.value)
  }

  /** SUM(weight) */
  function TotalWeight(ts: seq<Term>): Nullable<int>
  {
    if ts == [] then Null
    else
      var rest := TotalWeight(ts[1..]);
      if ts[0].weight.Null? then rest
      else Of(if rest.Null? then ts[0].weight.value else ts[0].weight.value + rest.value)
  }

  /** SUM(pct * weight) / NULLIF(SUM(weight), 0) */
  function WeightedAverage(ts: seq<Term>): Nullable<real>
  {
    var s, w := WeightedSum(ts), TotalWeight(ts);
    if s.Null? || w.Null? || w.value == 0 then Null else Of(s.value / w.value as real)
  }

  /** What the scan makes of it: NULL reads as zero. */
  function Scanned(x: Nullable<real>): real { if x.Null? then 0.0 else x.value }

  function Weight(x: Nullable<int>): int { if x.Null? then 0 else x.value }

  function Ratio(s: real, w: int): real { if w == 0 then 0.0 else s / w as real }

  lemma {:induction false} SumNeedsWeight(ts: seq<Term>)
    ensures WeightedSum(ts).Of? ==> TotalWeight(ts).Of?
    decreases |ts|
  {
    if ts != [] {
      SumNeedsWeight(ts[1..]);
    }
  }

  /** Whatever is NULL, what the scan reads is the sum over the weight, or zero. */
  lemma ScannedIsRatio(ts: seq<Term>)
    ensures Scanned(WeightedAverage(ts)) == Ratio(Scanned(WeightedSum(ts)), Weight(TotalWeight(ts)))
  {
    hide WeightedSum, TotalWeight;
    SumNeedsWeight(ts);
  }

  // ----- when two aggregates are in order -----

  /** The same rows under two percentages that are NULL together. */
  ghost predicate SameRows(a: seq<Term>, b: seq<Term>)
  {
    |a| == |b| && forall i :: 0 <= i < |a| ==> a[i].weight == b[i].weight && (a[i].pct.Null? <==> b[i].pct.Null?)
  }

  function Gap(a: Term, b: Term): real
  {
    if a.pct.Of? && b.pct.Of? && a.weight.Of? then (b.pct.value - a.pct.value) * a.weight.value as real else 0.0
  }

  /** By how much the second sum exceeds the first, row by row. */
  function GapSum(a: seq<Term>, b: seq<Term>): real
    requires |a| == |b|
  {
    if a == [] then 0.0 else Gap(a[0], b[0]) + GapSum(a[1..], b[1..])
  }

  lemma GapIsDifference(a: Term, b: Term)
    requires a.weight == b.weight && a.weight.Of? && a.pct.Of? && b.pct.Of?
    ensures Gap(a, b) == Product(b) - Product(a)
  {
  }

  lemma {:induction false} SumsDifferByGaps(a: seq<Term>, b: seq<Term>)
    requires SameRows(a, b)
    ensures WeightedSum(a).Null? <==> WeightedSum(b).Null?
    ensures Scanned(WeightedSum(b)) == Scanned(WeightedSum(a)) + GapSum(a, b) && TotalWeight(a) == TotalWeight(b)
    decreases |a|
  {
    hide Product, Gap;
    if a != [] {
      SumsDifferByGaps(a[1..], b[1..]);
      assert a[0].weight == b[0].weight;
      if a[0].pct.Of? && a[0].weight.Of? {
        GapIsDifference(a[0], b[0]);
      } else {
        NoGap(a[0], b[0]);
      }
    }
  }

  lemma NoGap(a: Term, b: Term)
    requires a.pct.Null? || b.pct.Null? || a.weight.Null?
    ensures Gap(a, b) == 0.0
  {
  }

  lemma RatiosInOrder(s: real, t: real, w: int)
    ensures Ratio(s, w) <= Ratio(t, w) <==> Times(t - s, w) >= 0.0
  {
    if w != 0 {
      var m := w as real;
      var x, y := s / m, t / m;
      assert x * m == s && y * m == t;
      assert (t - s) * m == (y - x) * (m * m);
      Signs(y - x, m * m);
    }
  }

  lemma Signs(d: real, q: real)
    requires q > 0.0
    ensures d * q >= 0.0 <==> d >= 0.0
  {
  }

  function Times(a: real, w: int): real { a * w as real }

  /** Whatever the signs of the weights: two aggregates over the same rows are in order exactly when the weighted gaps
      do not have the opposite sign of the total weight. */
  lemma AveragesInOrderIff(a: seq<Term>, b: seq<Term>)
    requires SameRows(a, b)
    ensures Scanned(WeightedAverage(a)) <= Scanned(WeightedAverage(b)) <==> Times(GapSum(a, b), Weight(TotalWeight(a))) >= 0.0
  {
    hide WeightedSum, TotalWeight, WeightedAverage, Ratio, Times, GapSum;
    SumsDifferByGaps(a, b);
    ScannedIsRatio(a);
    ScannedIsRatio(b);
    RatiosInOrder(Scanned(WeightedSum(a)), Scanned(WeightedSum(b)), Weight(TotalWeight(a)));
  }

  predicate NotNegative(t: Term) { t.weight.Of? ==> t.weight.value >= 0 }

  lemma {:induction false} GapsNotNegative(a: seq<Term>, b: seq<Term>)
    requires SameRows(a, b)
    requires forall i :: 0 <= i < |a| ==> InOrder(a[i].pct, b[i].pct) && NotNegative(a[i])
    ensures GapSum(a, b) >= 0.0 && Weight(TotalWeight(a)) >= 0
    decreases |a|
  {
    if a != [] {
      GapsNotNegative(a[1..], b[1..]);
      assert InOrder(a[0].pct, b[0].pct) && NotNegative(a[0]);
      GapNotNegative(a[0], b[0]);
    }
  }

  lemma GapNotNegative(a: Term, b: Term)
    requires InOrder(a.pct, b.pct) && NotNegative(a)
    ensures Gap(a, b) >= 0.0
  {
  }

  lemma TimesNotNegative(a: real, w: int)
    requires a >= 0.0 && w >= 0
    ensures Times(a, w) >= 0.0
  {
  }

  // ----- the cluster row -----

  function Terms(us: seq<Utilization>, pct: Utilization -> Nullable<real>, weight: Utilization -> Nullable<int>): (r: seq<Term>)
    ensures |r| == |us| && forall i :: 0 <= i < |us| ==> r[i] == Term(pct(us[i]), weight(us[i]))
  {
    seq(|us|, i requires 0 <= i < |us| => Term(pct(us[i]), weight(us[i])))
  }

  /** One row of the cluster query. */
  datatype Cluster = Cluster(vmCount: nat, cpuAvg: real, cpuP95: real, cpuMax: real, memAvg: real, memP95: real, memMax: real)

  function CpuTerms(us: seq<Utilization>, pct: Utilization -> Nullable<real>): seq<Term> { Terms(us, pct, (u: Utilization) => u.cpus) }

  function MemTerms(us: seq<Utilization>, pct: Utilization -> Nullable<real>): seq<Term> { Terms(us, pct, (u: Utilization) => u.memoryMb) }

  function CpuAvg(): Utilization -> Nullable<real> { (u: Utilization) => u.cpuAvg }
  function CpuP95(): Utilization -> Nullable<real> { (u: Utilization) => u.cpuP95 }
  function CpuMax(): Utilization -> Nullable<real> { (u: Utilization) => u.cpuMax }
  function MemAvg(): Utilization -> Nullable<real> { (u: Utilization) => u.memAvg }
  function MemP95(): Utilization -> Nullable<real> { (u: Utilization) => u.memP95 }
  function MemMax(): Utilization -> Nullable<real> { (u: Utilization) => u.memMax }

  function ClusterRow(us: seq<Utilization>): Cluster
  {
    Cluster(|us|,
      Scanned(WeightedAverage(CpuTerms(us, CpuAvg()))),
      Scanned(WeightedAverage(CpuTerms(us, CpuP95()))),
      Scanned(WeightedAverage(CpuTerms(us, CpuMax()))),
      Scanned(WeightedAverage(MemTerms(us, MemAvg()))),
      Scanned(WeightedAverage(MemTerms(us, MemP95()))),
      Scanned(WeightedAverage(MemTerms(us, MemMax()))))
  }

  /** A VM of the cluster: its metric rows and its inventory. */
  datatype Vm = Vm(rows: seq<MetricRow>, inv: Inventory)

  ghost predicate SizesNotNegative(v: Vm)
  {
    (v.inv.memory.Of? ==> v.inv.memory.value >= 0) && (v.inv.cpus.Of? ==> v.inv.cpus.value >= 0)
  }

  function Utilizations(vms: seq<Vm>): (r: seq<Utilization>)
    ensures |r| == |vms| && forall i :: 0 <= i < |vms| ==> r[i] == Utilize(vms[i].rows, vms[i].inv)
  {
    seq(|vms|, i requires 0 <= i < |vms| => Utilize(vms[i].rows, vms[i].inv))
  }

  lemma {:induction false} NullTogether(rows: seq<MetricRow>, key: string, f: MetricStats -> Nullable<real>, g: MetricStats -> Nullable<real>)
    requires forall s :: f(s).Null? <==> g(s).Null?
    ensures Pivot(rows, key, f).Null? <==> Pivot(rows, key, g).Null?
    decreases |rows|
  {
    if rows != [] {
      NullTogether(rows[1..], key, f, g);
    }
  }

  /** The percentages of one kind are NULL together, and the inventory is kept. */
  lemma UtilizeNulls(v: Vm)
    ensures var u := Utilize(v.rows, v.inv);
            && (u.cpuP95.Null? <==> u.cpuMax.Null?) && (u.memP95.Null? <==> u.memMax.Null?)
            && u.cpus == v.inv.cpus && u.memoryMb == v.inv.memory
  {
    NullTogether(v.rows, CPU, (s: MetricStats) => CpuPct(s.p95), (s: MetricStats) => CpuPct(s.max));
    NullTogether(v.rows, MEM, (s: MetricStats) => MemPct(v.inv.memory, s.p95), (s: MetricStats) => MemPct(v.inv.memory, s.max));
  }

  lemma ClusterSameRows(vms: seq<Vm>)
    ensures var us := Utilizations(vms);
            && SameRows(CpuTerms(us, CpuP95()), CpuTerms(us, CpuMax()))
            && SameRows(MemTerms(us, MemP95()), MemTerms(us, MemMax()))
  {
    hide Utilize;
    var us := Utilizations(vms);
    forall i | 0 <= i < |us|
      ensures us[i].cpuP95.Null? <==> us[i].cpuMax.Null?
      ensures us[i].memP95.Null? <==> us[i].memMax.Null?
    {
      UtilizeNulls(vms[i]);
    }
  }

  /** For every cluster, exactly when its 95th percentiles are at most its maxima. */
  lemma ClusterInOrderIff(vms: seq<Vm>)
    ensures var us := Utilizations(vms);
            var c := ClusterRow(us);
            var p, q := CpuTerms(us, CpuP95()), CpuTerms(us, CpuMax());
            var r, s := MemTerms(us, MemP95()), MemTerms(us, MemMax());
            && (c.cpuP95 <= c.cpuMax <==> Times(GapSum(p, q), Weight(TotalWeight(p))) >= 0.0)
            && (c.memP95 <= c.memMax <==> Times(GapSum(r, s), Weight(TotalWeight(r))) >= 0.0)
  {
    hide WeightedAverage, TotalWeight, GapSum, Times, Utilizations, SameRows;
    var us := Utilizations(vms);
    ClusterSameRows(vms);
    AveragesInOrderIff(CpuTerms(us, CpuP95()), CpuTerms(us, CpuMax()));
    AveragesInOrderIff(MemTerms(us, MemP95()), MemTerms(us, MemMax()));
  }

  /** From the samples of each VM through the pivot to the weighted sums: with sizes that are not negative, a cluster's
      95th percentiles are at most its maxima, whatever metrics or inventory fields are NULL. */
  lemma ClusterKeepsOrder(vms: seq<Vm>)
    requires forall i :: 0 <= i < |vms| ==> FromSamples(vms[i].rows) && SizesNotNegative(vms[i])
    ensures var c := ClusterRow(Utilizations(vms)); c.cpuP95 <= c.cpuMax && c.memP95 <= c.memMax
  {
    hide Utilize, FromSamples, ClusterRow, GapSum, TotalWeight, Times, SameRows;
    var us := Utilizations(vms);
    forall i | 0 <= i < |us|
      ensures InOrder(us[i].cpuP95, us[i].cpuMax) && InOrder(us[i].memP95, us[i].memMax)
      ensures NotNegative(Term(Null, us[i].cpus)) && NotNegative(Term(Null, us[i].memoryMb))
    {
      UtilizationIsOrdered(vms[i].rows, vms[i].inv);
      UtilizeNulls(vms[i]);
    }
    var p, q := CpuTerms(us, CpuP95()), CpuTerms(us, CpuMax());
    var r, s := MemTerms(us, MemP95()), MemTerms(us, MemMax());
    ClusterSameRows(vms);
    GapsNotNegative(p, q);
    GapsNotNegative(r, s);
    TimesNotNegative(GapSum(p, q), Weight(TotalWeight(p)));
    TimesNotNegative(GapSum(r, s), Weight(TotalWeight(r)));
    ClusterInOrderIff(vms);
  }

  // ----- what NULL percentages do -----

  /** The rows that have a percentage. */
  function Present(ts: seq<Term>): seq<Term>
  {
    if ts == [] then [] else if ts[0].pct.Null? then Present(ts[1..]) else [ts[0]] + Present(ts[1..])
  }

  /** The weight of those that have none. */
  function NullWeight(ts: seq<Term>): int
  {
    if ts == [] then 0 else NullWeight(ts[1..]) + if ts[0].pct.Null? then Weight(ts[0].weight) else 0
  }

  /** NULL percentages leave the sum alone and add to the weight. */
  lemma {:induction false} NullsOnlyWeigh(ts: seq<Term>)
    ensures WeightedSum(ts) == WeightedSum(Present(ts))
    ensures Weight(TotalWeight(ts)) == Weight(TotalWeight(Present(ts))) + NullWeight(ts)
    decreases |ts|
  {
    hide Product;
    if ts != [] {
      NullsOnlyWeigh(ts[1..]);
      if ts[0].pct.Of? {
        assert Present(ts)[1..] == Present(ts[1..]);
      }
    }
  }

  lemma RatiosEqualIff(s: real, v: int, w: int)
    ensures Ratio(s, v) == Ratio(s, w) <==> v == w || s == 0.0
  {
    if v != 0 && w != 0 {
      var x, y := s / v as real, s / w as real;
      assert x * v as real == s && y * w as real == s;
      if x == y {
        assert x * (v - w) as real == 0.0;
      }
    }
  }

  /** Whatever the weights: NULL percentages leave the aggregate what it is over the others exactly when they have no
      weight, or the others sum to nothing. */
  lemma UndilutedIff(ts: seq<Term>)
    ensures Scanned(WeightedAverage(ts)) == Scanned(WeightedAverage(Present(ts))) <==>
            NullWeight(ts) == 0 || Scanned(WeightedSum(ts)) == 0.0
  {
    hide WeightedSum, TotalWeight, WeightedAverage, Ratio, Present, NullWeight;
    NullsOnlyWeigh(ts);
    ScannedIsRatio(ts);
    ScannedIsRatio(Present(ts));
    RatiosEqualIff(Scanned(WeightedSum(ts)), Weight(TotalWeight(ts)), Weight(TotalWeight(Present(ts))));
  }

  /** The cluster row as it would be over the VMs that have the metric. */
  function MembersRow(us: seq<Utilization>): Cluster
  {
    Cluster(|us|,
      Scanned(WeightedAverage(Present(CpuTerms(us, CpuAvg())))),
      Scanned(WeightedAverage(Present(CpuTerms(us, CpuP95())))),
      Scanned(WeightedAverage(Present(CpuTerms(us, CpuMax())))),
      Scanned(WeightedAverage(Present(MemTerms(us, MemAvg())))),
      Scanned(WeightedAverage(Present(MemTerms(us, MemP95())))),
      Scanned(WeightedAverage(Present(MemTerms(us, MemMax())))))
  }

  /** The VMs without the metric have no weight, or those with it sum to nothing. */
  predicate Harmless(ts: seq<Term>) { NullWeight(ts) == 0 || Scanned(WeightedSum(ts)) == 0.0 }

  /** Each column of the query is the weighted average over the VMs that have the metric exactly when its NULLs are
      harmless. */
  lemma ClusterUndilutedIff(us: seq<Utilization>)
    ensures var c, m := ClusterRow(us), MembersRow(us);
            && (c.cpuAvg == m.cpuAvg <==> Harmless(CpuTerms(us, CpuAvg())))
            && (c.cpuP95 == m.cpuP95 <==> Harmless(CpuTerms(us, CpuP95())))
            && (c.cpuMax == m.cpuMax <==> Harmless(CpuTerms(us, CpuMax())))
            && (c.memAvg == m.memAvg <==> Harmless(MemTerms(us, MemAvg())))
            && (c.memP95 == m.memP95 <==> Harmless(MemTerms(us, MemP95())))
            && (c.memMax == m.memMax <==> Harmless(MemTerms(us, MemMax())))
  {
    hide WeightedSum, WeightedAverage, Present, NullWeight, Terms;
    UndilutedIff(CpuTerms(us, CpuAvg()));
    UndilutedIff(CpuTerms(us, CpuP95()));
    UndilutedIff(CpuTerms(us, CpuMax()));
    UndilutedIff(MemTerms(us, MemAvg()));
    UndilutedIff(MemTerms(us, MemP95()));
    UndilutedIff(MemTerms(us, MemMax()));
  }

  /** Percentages that are there lie between the bounds, and weights are not negative. */
  ghost predicate Within(ts: seq<Term>, lo: real, hi: real)
  {
    forall i :: 0 <= i < |ts| ==> NotNegative(ts[i]) && (ts[i].pct.Of? ==> lo <= ts[i].pct.value <= hi)
  }

  lemma TimesAdd(a: real, x: int, y: int)
    ensures Times(a, x + y) == Times(a, x) + Times(a, y)
  {
  }

  lemma ProductBetween(t: Term, lo: real, hi: real)
    requires t.pct.Of? && t.weight.Of? && t.weight.value >= 0 && lo <= t.pct.value <= hi
    ensures Times(lo, t.weight.value) <= Product(t) <= Times(hi, t.weight.value)
  {
    Scale(lo, t.pct.value, t.weight.value as real);
    Scale(t.pct.value, hi, t.weight.value as real);
  }

  lemma {:induction false} SumBetween(ts: seq<Term>, lo: real, hi: real)
    requires Within(ts, lo, hi)
    ensures var w := Weight(TotalWeight(Present(ts)));
            w >= 0 && NullWeight(ts) >= 0 && Times(lo, w) <= Scanned(WeightedSum(ts)) <= Times(hi, w)
    decreases |ts|
  {
    hide Product;
    if ts != [] {
      var t := ts[0];
      SumBetween(ts[1..], lo, hi);
      assert NotNegative(t);
      if t.pct.Of? {
        assert Present(ts)[1..] == Present(ts[1..]);
        if t.weight.Of? {
          ProductBetween(t, lo, hi);
          TimesAdd(lo, t.weight.value, Weight(TotalWeight(Present(ts[1..]))));
          TimesAdd(hi, t.weight.value, Weight(TotalWeight(Present(ts[1..]))));
        }
      }
    }
  }

  lemma QuotientBetween(lo: real, s: real, hi: real, w: int)
    requires w > 0 && Times(lo, w) <= s <= Times(hi, w)
    ensures lo <= Ratio(s, w) <= hi
  {
    DivideKeepsOrder(lo * w as real, s, w as real);
    DivideKeepsOrder(s, hi * w as real, w as real);
  }

  /** An aggregate lies among its members if those that have a percentage weigh something and those that have none
      weigh nothing; NULLs that weigh scale it towards zero by exactly their share of the weight. */
  lemma AverageAmongMembers(ts: seq<Term>, lo: real, hi: real)
    requires Within(ts, lo, hi) && Weight(TotalWeight(Present(ts))) > 0
    ensures lo <= Scanned(WeightedAverage(Present(ts))) <= hi
    ensures NullWeight(ts) == 0 ==> lo <= Scanned(WeightedAverage(ts)) <= hi
    ensures var w := Weight(TotalWeight(Present(ts)));
            Times(Scanned(WeightedAverage(ts)), w + NullWeight(ts)) == Times(Scanned(WeightedAverage(Present(ts))), w)
  {
    hide WeightedSum, TotalWeight, WeightedAverage, Present, NullWeight;
    var s, w := Scanned(WeightedSum(ts)), Weight(TotalWeight(Present(ts)));
    SumBetween(ts, lo, hi);
    NullsOnlyWeigh(ts);
    ScannedIsRatio(ts);
    ScannedIsRatio(Present(ts));
    QuotientBetween(lo, s, hi, w);
    assert Times(Ratio(s, w + NullWeight(ts)), w + NullWeight(ts)) == s == Times(Ratio(s, w), w) by {
      TimesRatio(s, w);
      TimesRatio(s, w + NullWeight(ts));
    }
  }

  lemma TimesRatio(s: real, w: int)
    requires w != 0
    ensures Times(Ratio(s, w), w) == s
  {
  }

  /** The column's percentages lie between the bounds, and only those that are there weigh. */
  ghost predicate Bounded(ts: seq<Term>, lo: real, hi: real)
  {
    Within(ts, lo, hi) && Weight(TotalWeight(Present(ts))) > 0 && NullWeight(ts) == 0
  }

  /** So for each column of the query. */
  lemma ClusterAmongMembers(us: seq<Utilization>, lo: real, hi: real)
    ensures var c := ClusterRow(us);
            && (Bounded(CpuTerms(us, CpuAvg()), lo, hi) ==> lo <= c.cpuAvg <= hi)
            && (Bounded(CpuTerms(us, CpuP95()), lo, hi) ==> lo <= c.cpuP95 <= hi)
            && (Bounded(CpuTerms(us, CpuMax()), lo, hi) ==> lo <= c.cpuMax <= hi)
            && (Bounded(MemTerms(us, MemAvg()), lo, hi) ==> lo <= c.memAvg <= hi)
            && (Bounded(MemTerms(us, MemP95()), lo, hi) ==> lo <= c.memP95 <= hi)
            && (Bounded(MemTerms(us, MemMax()), lo, hi) ==> lo <= c.memMax <= hi)
  {
    hide WeightedAverage, Bounded, Terms;
    BoundedAverage(CpuTerms(us, CpuAvg()), lo, hi);
    BoundedAverage(CpuTerms(us, CpuP95()), lo, hi);
    BoundedAverage(CpuTerms(us, CpuMax()), lo, hi);
    BoundedAverage(MemTerms(us, MemAvg()), lo, hi);
    BoundedAverage(MemTerms(us, MemP95()), lo, hi);
    BoundedAverage(MemTerms(us, MemMax()), lo, hi);
  }

  lemma BoundedAverage(ts: seq<Term>, lo: real, hi: real)
    ensures Bounded(ts, lo, hi) ==> lo <= Scanned(WeightedAverage(ts)) <= hi
  {
    hide WeightedSum, TotalWeight, WeightedAverage, Present, NullWeight, Within;
    if Bounded(ts, lo, hi) {
      AverageAmongMembers(ts, lo, hi);
    }
  }

  // ----- the percentages in terms of the samples -----

  /** The VM has this metric: one row of it, or several with the same statistics. */
  ghost predicate HasMetric(rows: seq<MetricRow>, key: string, s: MetricStats)
  {
    && (exists i :: 0 <= i < |rows| && rows[i].key == key)
    && forall i :: 0 <= i < |rows| && rows[i].key == key ==> rows[i].stats == s
  }

  lemma {:induction false} PivotOfMetric(rows: seq<MetricRow>, key: string, s: MetricStats, f: MetricStats -> Nullable<real>)
    requires forall i :: 0 <= i < |rows| && rows[i].key == key ==> rows[i].stats == s
    ensures Pivot(rows, key, f) == if exists i :: 0 <= i < |rows| && rows[i].key == key then f(s) else Null
    decreases |rows|
  {
    if rows != [] {
      PivotOfMetric(rows[1..], key, s, f);
      if i :| 0 <= i < |rows[1..]| && rows[1..][i].key == key {
        assert rows[i + 1].key == key;
      }
      if i :| 0 < i < |rows| && rows[i].key == key {
        assert rows[1..][i - 1].key == key;
      }
    }
  }

  /** A percentage x of a memory of m megabytes, for an amount in kilobytes. */
  ghost predicate PercentOf(x: Nullable<real>, m: int, kb: real) { x.Of? && x.value * (m as real * 1024.0) == kb * 100.0 }

  lemma MemPctIs(m: int, kb: real)
    requires m != 0
    ensures PercentOf(MemPct(Of(m), kb), m, kb)
  {
    var d := m as real * 1024.0;
    assert kb / d * 100.0 * d == kb * 100.0;
  }

  /** With one row for each metric: CPU percentages are hundredths of the samples' statistics, memory percentages the
      share of the samples' kilobytes in the VM's memory, each column of its own statistic. */
  lemma VmPercentages(rows: seq<MetricRow>, inv: Inventory, cpu: MetricStats, mem: MetricStats)
    requires HasMetric(rows, CPU, cpu) && HasMetric(rows, MEM, mem) && inv.memory.Of? && inv.memory.value != 0
    ensures var u := Utilize(rows, inv);
            && u.cpuAvg == Of(cpu.average / 100.0) && u.cpuP95 == Of(cpu.p95 / 100.0) && u.cpuMax == Of(cpu.max / 100.0)
            && PercentOf(u.memAvg, inv.memory.value, mem.average)
            && PercentOf(u.memP95, inv.memory.value, mem.p95)
            && PercentOf(u.memMax, inv.memory.value, mem.max)
            && u.cpus == inv.cpus && u.memoryMb == inv.memory
  {
    hide Pivot, MemPct, PercentOf;
    PivotOfMetric(rows, CPU, cpu, (s: MetricStats) => CpuPct(s.average));
    PivotOfMetric(rows, CPU, cpu, (s: MetricStats) => CpuPct(s.p95));
    PivotOfMetric(rows, CPU, cpu, (s: MetricStats) => CpuPct(s.max));
    VmMemory(Vm(rows, inv), mem);
  }

  /** A VM without the metric has no percentage. */
  lemma VmWithoutMetric(rows: seq<MetricRow>, inv: Inventory)
    ensures var u := Utilize(rows, inv);
            && ((forall i :: 0 <= i < |rows| ==> rows[i].key != CPU) ==> u.cpuAvg.Null? && u.cpuP95.Null? && u.cpuMax.Null?)
            && ((forall i :: 0 <= i < |rows| ==> rows[i].key != MEM) ==> u.memAvg.Null? && u.memP95.Null? && u.memMax.Null?)
  {
    hide Pivot, MemPct;
    if forall i :: 0 <= i < |rows| ==> rows[i].key != CPU {
      PivotOfMetric(rows, CPU, NO_STATS, (s: MetricStats) => CpuPct(s.average));
      PivotOfMetric(rows, CPU, NO_STATS, (s: MetricStats) => CpuPct(s.p95));
      PivotOfMetric(rows, CPU, NO_STATS, (s: MetricStats) => CpuPct(s.max));
    }
    if forall i :: 0 <= i < |rows| ==> rows[i].key != MEM {
      PivotOfMetric(rows, MEM, NO_STATS, (s: MetricStats) => MemPct(inv.memory, s.average));
      PivotOfMetric(rows, MEM, NO_STATS, (s: MetricStats) => MemPct(inv.memory, s.p95));
      PivotOfMetric(rows, MEM, NO_STATS, (s: MetricStats) => MemPct(inv.memory, s.max));
    }
  }

  /** The kilobytes of all VMs, and their memory in megabytes. */
  function SumOf(xs: seq<real>): real { if xs == [] then 0.0 else xs[0] + SumOf(xs[1..]) }

  function MemoryOf(ms: seq<int>): int { if ms == [] then 0 else ms[0] + MemoryOf(ms[1..]) }

  /** Term by term: the percentage of an amount in a memory that is not zero, weighted with that memory. */
  ghost predicate MemoryTerms(ts: seq<Term>, xs: seq<real>, ms: seq<int>)
  {
    |ts| == |xs| == |ms| && forall i :: 0 <= i < |ts| ==> ts[i].weight == Of(ms[i]) && PercentOf(ts[i].pct, ms[i], xs[i])
  }

  lemma MemoryProduct(t: Term, x: real, m: int)
    requires t.weight == Of(m) && PercentOf(t.pct, m, x)
    ensures Product(t) * 1024.0 == x * 100.0
  {
    var p, w := t.pct.value, m as real;
    assert p * w * 1024.0 == p * (w * 1024.0);
  }

  lemma {:induction false} MemorySums(ts: seq<Term>, xs: seq<real>, ms: seq<int>)
    requires MemoryTerms(ts, xs, ms)
    ensures Scanned(WeightedSum(ts)) * 1024.0 == SumOf(xs) * 100.0 && Weight(TotalWeight(ts)) == MemoryOf(ms)
    decreases |ts|
  {
    hide Product, PercentOf;
    if ts != [] {
      MemorySums(ts[1..], xs[1..], ms[1..]);
      assert ts[0].weight == Of(ms[0]) && PercentOf(ts[0].pct, ms[0], xs[0]);
      assert ts[0].pct.Of? by { PercentIsThere(ts[0].pct, ms[0], xs[0]); }
      MemoryProduct(ts[0], xs[0], ms[0]);
    }
  }

  lemma PercentIsThere(x: Nullable<real>, m: int, kb: real)
    requires PercentOf(x, m, kb)
    ensures x.Of?
  {
  }

  /** So a memory column of a cluster is the percentage that all its kilobytes are of all its memory. */
  lemma ClusterMemoryIs(ts: seq<Term>, xs: seq<real>, ms: seq<int>)
    requires MemoryTerms(ts, xs, ms) && MemoryOf(ms) != 0
    ensures PercentOf(Of(Scanned(WeightedAverage(ts))), MemoryOf(ms), SumOf(xs))
  {
    hide WeightedSum, TotalWeight, WeightedAverage, SumOf, MemoryOf, MemoryTerms;
    MemorySums(ts, xs, ms);
    ScannedIsRatio(ts);
    var w := MemoryOf(ms) as real;
    var s := Scanned(WeightedSum(ts));
    assert s / w * (w * 1024.0) == s * 1024.0;
  }

  /** The statistics of each VM's memory metric. */
  ghost predicate MemoryMetrics(vms: seq<Vm>, stats: seq<MetricStats>)
  {
    |stats| == |vms| &&
    forall i :: 0 <= i < |vms| ==>
      HasMetric(vms[i].rows, MEM, stats[i]) && vms[i].inv.memory.Of? && vms[i].inv.memory.value != 0
  }

  /** For a cluster whose VMs all have the memory metric: its maximum is the percentage that the sum of the VMs' maximal
      kilobytes is of their memory together; and so for the 95th percentile and the average. */
  lemma ClusterMemory(vms: seq<Vm>, stats: seq<MetricStats>)
    requires MemoryMetrics(vms, stats)
    ensures var ms := seq(|vms|, i requires 0 <= i < |vms| => Weight(vms[i].inv.memory));
            var c := ClusterRow(Utilizations(vms));
            MemoryOf(ms) != 0 ==>
              && PercentOf(Of(c.memAvg), MemoryOf(ms), SumOf(seq(|vms|, i requires 0 <= i < |vms| => stats[i].average)))
              && PercentOf(Of(c.memP95), MemoryOf(ms), SumOf(seq(|vms|, i requires 0 <= i < |vms| => stats[i].p95)))
              && PercentOf(Of(c.memMax), MemoryOf(ms), SumOf(seq(|vms|, i requires 0 <= i < |vms| => stats[i].max)))
  {
    hide Utilize, PercentOf, MemoryOf, SumOf, WeightedAverage;
    var ms := seq(|vms|, i requires 0 <= i < |vms| => Weight(vms[i].inv.memory));
    var us := Utilizations(vms);
    forall i | 0 <= i < |vms|
      ensures us[i].memoryMb == Of(ms[i]) && PercentOf(us[i].memAvg, ms[i], stats[i].average)
      ensures PercentOf(us[i].memP95, ms[i], stats[i].p95) && PercentOf(us[i].memMax, ms[i], stats[i].max)
    {
      VmMemory(vms[i], stats[i]);
    }
    if MemoryOf(ms) != 0 {
      ClusterMemoryIs(MemTerms(us, MemAvg()), seq(|vms|, i requires 0 <= i < |vms| => stats[i].average), ms);
      ClusterMemoryIs(MemTerms(us, MemP95()), seq(|vms|, i requires 0 <= i < |vms| => stats[i].p95), ms);
      ClusterMemoryIs(MemTerms(us, MemMax()), seq(|vms|, i requires 0 <= i < |vms| => stats[i].max), ms);
    }
  }

  lemma VmMemory(v: Vm, mem: MetricStats)
    requires HasMetric(v.rows, MEM, mem) && v.inv.memory.Of? && v.inv.memory.value != 0
    ensures var u := Utilize(v.rows, v.inv);
            && u.memoryMb == v.inv.memory && PercentOf(u.memAvg, v.inv.memory.value, mem.average)
            && PercentOf(u.memP95, v.inv.memory.value, mem.p95) && PercentOf(u.memMax, v.inv.memory.value, mem.max)
  {
    hide Pivot, MemPct, PercentOf;
    var m := v.inv.memory;
    PivotOfMetric(v.rows, MEM, mem, (s: MetricStats) => MemPct(m, s.average));
    PivotOfMetric(v.rows, MEM, mem, (s: MetricStats) => MemPct(m, s.p95));
    PivotOfMetric(v.rows, MEM, mem, (s: MetricStats) => MemPct(m, s.max));
    MemPctIs(m.value, mem.average);
    MemPctIs(m.value, mem.p95);
    MemPctIs(m.value, mem.max);
  }

  // ----- failing inputs -----

  lemma OneSample(x: int)
    ensures Stats([x]).p95 == x as real && Stats([x]).max == x as real
  {
    assert Sort([x]) == [x] by { SortedIsUnique(Sort([x]), [x]); }
  }

  /** A VM with one CPU sample of 80 percent and a VM with only a memory metric, one CPU each. */
  ghost function Diluted(): seq<Vm>
  {
    [Vm([MetricRow(CPU, Stats([8000]))], Inventory(Of(1), Of(1024))),
     Vm([MetricRow(MEM, Stats([1]))], Inventory(Of(1), Of(1024)))]
  }

  lemma PivotOfOne(row: MetricRow, key: string, f: MetricStats -> Nullable<real>)
    ensures Pivot([row], key, f) == if row.key == key then f(row.stats) else Null
  {
    assert [row][1..] == [];
  }

  lemma TwoTerms(a: Term, b: Term)
    requires a.weight.Of? && b.weight.Of? && a.pct.Of?
    ensures WeightedSum([a, b]) == Of(if b.pct.Of? then Product(a) + Product(b) else Product(a))
    ensures TotalWeight([a, b]) == Of(a.weight.value + b.weight.value)
  {
    assert [a, b][1..] == [b] && [b][1..] == [];
    assert WeightedSum([b]) == if b.pct.Of? then Of(Product(b)) else Null;
    assert TotalWeight([b]) == b.weight;
  }

  /** The cluster of these two reads 40 percent, below the only member that has a percentage. */
  lemma NullsDilute()
    ensures forall i :: 0 <= i < |Diluted()| ==> FromSamples(Diluted()[i].rows) && SizesNotNegative(Diluted()[i])
    ensures var us := Utilizations(Diluted());
            us[0].cpuMax == Of(80.0) && us[1].cpuMax == Null && ClusterRow(us).cpuMax == 40.0
  {
    hide Stats, MemPct, WeightedSum, TotalWeight, Pivot;
    var vms := Diluted();
    var us := Utilizations(vms);
    OneSample(8000);
    PivotOfOne(vms[0].rows[0], CPU, (s: MetricStats) => CpuPct(s.max));
    PivotOfOne(vms[1].rows[0], CPU, (s: MetricStats) => CpuPct(s.max));
    assert Computed(Stats([8000])) && Computed(Stats([1]));
    var ts := CpuTerms(us, CpuMax());
    assert ts == [Term(Of(80.0), Of(1)), Term(Null, Of(1))];
    TwoTerms(ts[0], ts[1]);
  }

  /** Nineteen idle samples and one of 100 percent. */
  function Spike(): seq<int> { seq(19, _ => 0) + [10000] }

  lemma SpikeStats()
    ensures Stats(Spike()).p95 == 0.0 && Stats(Spike()).max == 10000.0
  {
    hide Sort;
    assert Sort(Spike()) == Spike() by { SortedIsUnique(Sort(Spike()), Spike()); }
    assert Rank(20, 0.95) == 19;
  }

  /** Two CPUs at a steady 50 percent, and minus one CPU that is idle but for one sample. */
  ghost function Inverted(): seq<Vm>
  {
    [Vm([MetricRow(CPU, Stats([5000]))], Inventory(Of(2), Null)), Vm([MetricRow(CPU, Stats(Spike()))], Inventory(Of(-1), Null))]
  }

  /** The maximum of this cluster reads below its 95th percentile. */
  lemma NegativeCpusBreakOrder()
    ensures var c := ClusterRow(Utilizations(Inverted())); c.cpuP95 == 100.0 && c.cpuMax == 0.0
  {
    hide Stats, MemPct, Spike, WeightedSum, TotalWeight, Pivot;
    var vms := Inverted();
    var us := Utilizations(vms);
    OneSample(5000);
    SpikeStats();
    PivotOfOne(vms[0].rows[0], CPU, (s: MetricStats) => CpuPct(s.max));
    PivotOfOne(vms[1].rows[0], CPU, (s: MetricStats) => CpuPct(s.max));
    PivotOfOne(vms[0].rows[0], CPU, (s: MetricStats) => CpuPct(s.p95));
    PivotOfOne(vms[1].rows[0], CPU, (s: MetricStats) => CpuPct(s.p95));
    var ps, ms := CpuTerms(us, CpuP95()), CpuTerms(us, CpuMax());
    assert ps == [Term(Of(50.0), Of(2)), Term(Of(0.0), Of(-1))];
    assert ms == [Term(Of(50.0), Of(2)), Term(Of(100.0), Of(-1))];
    TwoTerms(ps[0], ps[1]);
    TwoTerms(ms[0], ms[1]);
  }
}
