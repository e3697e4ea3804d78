/** Querying metrics in batches (pkg/rightsizing/vsphere.go) and the batch count a report expects
    (internal/store/rightsizing.go). What vCenter answers is arbitrary. */
module RightsizingBatches {
  import opened Wrappers
  import opened RightsizingStats

  datatype VmInfo = VmInfo(name: string, moid: string)

  datatype Series = IntSeries(counter: int, values: seq<int>) | OtherSeries

  datatype Entity = Entity(moid: string, series: seq<Series>) | OtherEntity

  datatype Response = QueryFailed | Answered(entities: seq<Entity>)

  datatype Warning = NoSamples(metric: string) | NothingReturned | NoData | BatchFailed

  datatype Report = Report(name: string, moid: string, metrics: map<string, MetricStats>, warnings: seq<Warning>)

  /** Counter keys to metric names. */
  type Counters = map<int, string>

  // ----- one entity -----

  predicate Named(s: Series, counters: Counters, name: string)
  {
    s.IntSeries? && s.counter in counters && counters[s.counter] == name
  }

  /** The samples of a metric: the first series of that name that has any. */
  function Samples(series: seq<Series>, counters: Counters, name: string): Option<seq<int>>
  {
    if series == [] then None
    else
      var n := |series| - 1;
      var before := Samples(series[..n], counters, name);
      if before.Some? then before
      else if Named(series[n], counters, name) && series[n].values != [] then Some(series[n].values)
      else None
  }

  /** The metrics hold exactly the names that have samples, with their statistics. */
  ghost predicate Measures(series: seq<Series>, counters: Counters, metrics: map<string, MetricStats>)
  {
    forall name :: if Samples(series, counters, name).Some?
                   then name in metrics && metrics[name] == Stats(Samples(series, counters, name).value)
                   else name !in metrics
  }

  /** A warning for each series without samples whose metric has none yet. */
  function EmptySeries(series: seq<Series>, counters: Counters): seq<Warning>
  {
    if series == [] then []
    else
      var n := |series| - 1;
      var s := series[n];
      EmptySeries(series[..n], counters) +
      if s.IntSeries? && s.counter in counters && s.values == [] && Samples(series[..n], counters, counters[s.counter]).None?
      then [NoSamples(counters[s.counter])]
      else []
  }

  /** What is wrong with an entity's series; one that has nothing at all gets a warning of its own. */
  function WarningsOf(series: seq<Series>, counters: Counters, metrics: map<string, MetricStats>): seq<Warning>
  {
    var empty := EmptySeries(series, counters);
    if metrics == map[] && empty == [] then [NothingReturned] else empty
  }

  lemma EmptySeriesSnoc(series: seq<Series>, s: Series, counters: Counters, metrics: map<string, MetricStats>)
    requires Measures(series, counters, metrics)
    ensures EmptySeries(series + [s], counters) ==
            EmptySeries(series, counters) +
            if s.IntSeries? && s.counter in counters && s.values == [] && counters[s.counter] !in metrics
            then [NoSamples(counters[s.counter])]
            else []
  {
    hide Samples, Stats;
    assert (series + [s])[..|series|] == series;
  }

  lemma SamplesSnoc(series: seq<Series>, s: Series, counters: Counters, name: string)
    ensures Samples(series + [s], counters, name) ==
            if Samples(series, counters, name).Some? then Samples(series, counters, name)
            else if Named(s, counters, name) && s.values != [] then Some(s.values)
            else None
  {
    assert (series + [s])[..|series|] == series;
  }

  lemma MeasuresSkip(series: seq<Series>, s: Series, counters: Counters, metrics: map<string, MetricStats>)
    requires Measures(series, counters, metrics)
    requires forall name :: Named(s, counters, name) ==> name in metrics || s.values == []
    ensures Measures(series + [s], counters, metrics)
  {
    hide Stats, Samples;
    forall name
      ensures Samples(series + [s], counters, name) == Samples(series, counters, name)
    {
      SamplesSnoc(series, s, counters, name);
    }
  }

  lemma MeasuresNew(series: seq<Series>, s: Series, counters: Counters, metrics: map<string, MetricStats>, name: string)
    requires Measures(series, counters, metrics) && Named(s, counters, name) && name !in metrics && s.values != []
    ensures Measures(series + [s], counters, metrics[name := Stats(s.values)])
  {
    hide Stats, Samples;
    forall n
      ensures Samples(series + [s], counters, n) == if n == name then Some(s.values) else Samples(series, counters, n)
    {
      SamplesSnoc(series, s, counters, n);
    }
  }

  method ParseEntity(series: seq<Series>, counters: Counters) returns (metrics: map<string, MetricStats>, warnings: seq<Warning>)
    ensures Measures(series, counters, metrics)
    ensures warnings == WarningsOf(series, counters, metrics)
    ensures metrics != map[] || warnings != []
  {
    hide Stats, Measures, EmptySeries;
    metrics, warnings := map[], [];
    assert Measures([], counters, map[]) by { NothingMeasured(counters); }
    assert series[..0] == [] && EmptySeries([], counters) == [] by { NoSeries(counters); }
    var i := 0;
    while i < |series|
      invariant i <= |series| && Measures(series[..i], counters, metrics) && warnings == EmptySeries(series[..i], counters)
    {
      var s := series[i];
      EmptySeriesSnoc(series[..i], s, counters, metrics);
      assert series[..i + 1] == series[..i] + [s];
      i := i + 1;
      if s.OtherSeries? || s.counter !in counters {
        MeasuresSkip(series[..i - 1], s, counters, metrics);
        continue;
      }
      var name := counters[s.counter];
      if name in metrics {
        MeasuresSkip(series[..i - 1], s, counters, metrics);
        continue;
      }
      if |s.values| == 0 {
        MeasuresSkip(series[..i - 1], s, counters, metrics);
        warnings := warnings + [NoSamples(name)];
        continue;
      }
      MeasuresNew(series[..i - 1], s, counters, metrics, name);
      metrics := metrics[name := Stats(s.values)];
    }
    assert series[..i] == series;
    if metrics == map[] && |warnings| == 0 {
      warnings := [NothingReturned];
    }
  }

  lemma NoSeries(counters: Counters)
    ensures EmptySeries([], counters) == []
  {
  }

  lemma NothingMeasured(counters: Counters)
    ensures Measures([], counters, map[])
  {
  }

  // ----- one batch -----

  predicate Names(e: Entity, moid: string) { e.Entity? && e.moid == moid }

  /** The last entity of the response for a VM, which overwrites the others. */
  function LastEntity(entities: seq<Entity>, moid: string): Option<seq<Series>>
  {
    if entities == [] then None
    else
      var n := |entities| - 1;
      if Names(entities[n], moid) then Some(entities[n].series) else LastEntity(entities[..n], moid)
  }

  lemma LastEntitySnoc(entities: seq<Entity>, e: Entity, moid: string)
    ensures LastEntity(entities + [e], moid) == if Names(e, moid) then Some(e.series) else LastEntity(entities, moid)
  {
    assert (entities + [e])[..|entities|] == entities;
  }

  /** The report measures what the response has for the VM, and says something in any case. */
  ghost predicate Reports(r: Report, moid: string, series: Option<seq<Series>>, counters: Counters)
  {
    && r.moid == moid && (r.metrics != map[] || r.warnings != [])
    && (if series.Some? then Measures(series.value, counters, r.metrics) && r.warnings == WarningsOf(series.value, counters, r.metrics)
        else r.metrics == map[] && r.warnings == [NoData])
  }

  ghost predicate Parsed(results: map<string, Report>, entities: seq<Entity>, counters: Counters)
  {
    forall m :: if LastEntity(entities, m).Some? then m in results && Reports(results[m], m, LastEntity(entities, m), counters)
                else m !in results
  }

  lemma ParsedSkip(results: map<string, Report>, entities: seq<Entity>, e: Entity, counters: Counters)
    requires Parsed(results, entities, counters) && e.OtherEntity?
    ensures Parsed(results, entities + [e], counters)
  {
    hide Reports, LastEntity;
    forall m
      ensures LastEntity(entities + [e], m) == LastEntity(entities, m)
    {
      LastEntitySnoc(entities, e, m);
    }
  }

  lemma ParsedNext(results: map<string, Report>, entities: seq<Entity>, e: Entity, counters: Counters, r: Report)
    requires Parsed(results, entities, counters) && e.Entity? && Reports(r, e.moid, Some(e.series), counters)
    ensures Parsed(results[e.moid := r], entities + [e], counters)
  {
    hide Reports, LastEntity;
    forall m
      ensures LastEntity(entities + [e], m) == if m == e.moid then Some(e.series) else LastEntity(entities, m)
    {
      LastEntitySnoc(entities, e, m);
    }
  }

  /** The response turned into reports, one for each VM it names. */
  method ParseEntities(entities: seq<Entity>, counters: Counters) returns (results: map<string, Report>)
    ensures Parsed(results, entities, counters)
  {
    hide Parsed, Reports, Measures;
    results := map[];
    assert Parsed(map[], [], counters) by { NothingParsed(counters); }
    assert entities[..0] == [];
    var i := 0;
    while i < |entities|
      invariant i <= |entities| && Parsed(results, entities[..i], counters)
    {
      var e := entities[i];
      assert entities[..i + 1] == entities[..i] + [e];
      i := i + 1;
      if e.OtherEntity? {
        ParsedSkip(results, entities[..i - 1], e, counters);
        continue;
      }
      var metrics, warnings := ParseEntity(e.series, counters);
      var r := Report("", e.moid, metrics, warnings);
      assert Reports(r, e.moid, Some(e.series), counters) by { ReportsEntity(r, e, counters); }
      ParsedNext(results, entities[..i - 1], e, counters, r);
      results := results[e.moid := r];
    }
    assert entities[..i] == entities;
  }

  lemma NothingParsed(counters: Counters)
    ensures Parsed(map[], [], counters)
  {
  }

  lemma ReportsEntity(r: Report, e: Entity, counters: Counters)
    requires e.Entity? && r.moid == e.moid && (r.metrics != map[] || r.warnings != []) && Measures(e.series, counters, r.metrics)
    requires r.warnings == WarningsOf(e.series, counters, r.metrics)
    ensures Reports(r, e.moid, Some(e.series), counters)
  {
  }

  /** Some VM of the batch has this identifier and this name. */
  ghost predicate NamedIn(batch: seq<VmInfo>, moid: string, name: string)
  {
    exists i :: 0 <= i < |batch| && batch[i] == VmInfo(name, moid)
  }

  ghost predicate IsMember(batch: seq<VmInfo>, moid: string) { exists i :: 0 <= i < |batch| && batch[i].moid == moid }

  /** What the loop over the batch has done for the VMs in done: named them, and reported those that were missing. */
  ghost predicate Filled(results: map<string, Report>, entities: seq<Entity>, counters: Counters, done: seq<VmInfo>)
  {
    && (forall m :: m in results ==> Reports(results[m], m, LastEntity(entities, m), counters))
    && (forall m :: m in results <==> LastEntity(entities, m).Some? || IsMember(done, m))
    && (forall m :: IsMember(done, m) ==> NamedIn(done, m, results[m].name))
  }

  lemma MemberSnoc(done: seq<VmInfo>, vm: VmInfo, m: string)
    ensures IsMember(done + [vm], m) <==> IsMember(done, m) || m == vm.moid
    ensures forall name :: NamedIn(done, m, name) ==> NamedIn(done + [vm], m, name)
    ensures NamedIn(done + [vm], vm.moid, vm.name)
  {
    var d := done + [vm];
    assert d[|done|] == vm;
    if i :| 0 <= i < |done| && done[i].moid == m {
      assert d[i].moid == m;
    }
    forall name | NamedIn(done, m, name)
      ensures NamedIn(d, m, name)
    {
      var i :| 0 <= i < |done| && done[i] == VmInfo(name, m);
      assert d[i] == VmInfo(name, m);
    }
  }

  lemma FilledNext(results: map<string, Report>, entities: seq<Entity>, counters: Counters, done: seq<VmInfo>, vm: VmInfo, r: Report)
    requires Filled(results, entities, counters, done) && r.name == vm.name
    requires Reports(r, vm.moid, LastEntity(entities, vm.moid), counters)
    ensures Filled(results[vm.moid := r], entities, counters, done + [vm])
  {
    hide Reports, LastEntity, IsMember, NamedIn;
    forall m
      ensures IsMember(done + [vm], m) <==> IsMember(done, m) || m == vm.moid
      ensures forall name :: NamedIn(done, m, name) ==> NamedIn(done + [vm], m, name)
      ensures NamedIn(done + [vm], vm.moid, vm.name)
    {
      MemberSnoc(done, vm, m);
    }
  }

  lemma FilledStart(results: map<string, Report>, entities: seq<Entity>, counters: Counters)
    requires Parsed(results, entities, counters)
    ensures Filled(results, entities, counters, [])
  {
    hide Reports, LastEntity;
  }

  lemma Renamed(r: Report, name: string, m: string, series: Option<seq<Series>>, counters: Counters)
    requires Reports(r, m, series, counters)
    ensures Reports(r.(name := name), m, series, counters)
  {
  }

  /** Every VM of the batch gets a named report with what the response has for it, or a warning that it has nothing. */
  method ParseBatchResults(entities: seq<Entity>, counters: Counters, batch: seq<VmInfo>) returns (results: map<string, Report>)
    ensures Filled(results, entities, counters, batch)
  {
    hide Parsed, Reports, Measures, Filled, LastEntity, IsMember;
    results := ParseEntities(entities, counters);
    FilledStart(results, entities, counters);
    assert batch[..0] == [];
    var i := 0;
    while i < |batch|
      invariant i <= |batch| && Filled(results, entities, counters, batch[..i])
    {
      var vm := batch[i];
      assert batch[..i + 1] == batch[..i] + [vm];
      var r;
      if vm.moid !in results {
        r := Report(vm.name, vm.moid, map[], [NoData]);
        MissingReport(results, entities, counters, batch[..i], vm, r);
      } else {
        r := results[vm.moid].(name := vm.name);
        PresentReport(results, entities, counters, batch[..i], vm);
      }
      FilledNext(results, entities, counters, batch[..i], vm, r);
      results := results[vm.moid := r];
      i := i + 1;
    }
    assert batch[..i] == batch;
  }

  lemma MissingReport(results: map<string, Report>, entities: seq<Entity>, counters: Counters, done: seq<VmInfo>, vm: VmInfo, r: Report)
    requires Filled(results, entities, counters, done) && vm.moid !in results && r == Report(vm.name, vm.moid, map[], [NoData])
    ensures Reports(r, vm.moid, LastEntity(entities, vm.moid), counters)
  {
    hide LastEntity, IsMember, NamedIn;
  }

  lemma PresentReport(results: map<string, Report>, entities: seq<Entity>, counters: Counters, done: seq<VmInfo>, vm: VmInfo)
    requires Filled(results, entities, counters, done) && vm.moid in results
    ensures Reports(results[vm.moid].(name := vm.name), vm.moid, LastEntity(entities, vm.moid), counters)
  {
    hide LastEntity, IsMember, NamedIn;
    Renamed(results[vm.moid], vm.name, vm.moid, LastEntity(entities, vm.moid), counters);
  }

  // ----- all batches -----

  function CeilDiv(n: nat, m: nat): (k: nat)
    requires m > 0
  {
    (n + m - 1) / m
  }

  function Flatten<T>(parts: seq<seq<T>>): seq<T>
  {
    if parts == [] then [] else Flatten(parts[..|parts| - 1]) + parts[|parts| - 1]
  }

  lemma FlattenSnoc<T>(parts: seq<seq<T>>, p: seq<T>)
    ensures Flatten(parts + [p]) == Flatten(parts) + p
  {
    assert (parts + [p])[..|parts|] == parts;
  }

  /** A report any VM of the input may have: named after a VM with that identifier, and not empty. */
  ghost predicate Proper(r: Report, moid: string, vms: seq<VmInfo>)
  {
    r.moid == moid && (r.metrics != map[] || r.warnings != []) && NamedIn(vms, moid, r.name)
  }

  ghost predicate Covered(results: map<string, Report>, vms: seq<VmInfo>, n: nat)
    requires n <= |vms|
  {
    && (forall i :: 0 <= i < n ==> vms[i].moid in results)
    && (forall m :: m in results ==> Proper(results[m], m, vms))
  }

  /** The response names only VMs of the batch it was asked for. */
  ghost predicate OnlyMembers(r: Response, batch: seq<VmInfo>)
  {
    r.Answered? ==> forall i :: 0 <= i < |r.entities| && r.entities[i].Entity? ==> IsMember(batch, r.entities[i].moid)
  }

  ghost predicate BatchReports(reports: map<string, Report>, batch: seq<VmInfo>)
  {
    && (forall i :: 0 <= i < |batch| ==> batch[i].moid in reports)
    && (forall m :: m in reports ==> Proper(reports[m], m, batch))
  }

  lemma {:induction false} LastEntityIsMember(entities: seq<Entity>, batch: seq<VmInfo>, m: string)
    requires LastEntity(entities, m).Some?
    requires forall i :: 0 <= i < |entities| && entities[i].Entity? ==> IsMember(batch, entities[i].moid)
    ensures IsMember(batch, m)
    decreases |entities|
  {
    var n := |entities| - 1;
    if !Names(entities[n], m) {
      LastEntityIsMember(entities[..n], batch, m);
    }
  }

  lemma FilledIsReported(results: map<string, Report>, entities: seq<Entity>, counters: Counters, batch: seq<VmInfo>)
    requires Filled(results, entities, counters, batch) && OnlyMembers(Answered(entities), batch)
    ensures BatchReports(results, batch)
  {
    hide LastEntity, NamedIn, Measures;
    forall m | m in results
      ensures Proper(results[m], m, batch)
    {
      assert Reports(results[m], m, LastEntity(entities, m), counters);
      if LastEntity(entities, m).Some? {
        LastEntityIsMember(entities, batch, m);
      }
    }
    forall i | 0 <= i < |batch|
      ensures batch[i].moid in results
    {
      assert IsMember(batch, batch[i].moid);
    }
  }

  /** The report says what the response has for the VM, or that the query failed. */
  ghost predicate Content(r: Report, m: string, response: Response, counters: Counters)
  {
    if response.Answered? then Reports(r, m, LastEntity(response.entities, m), counters)
    else r.moid == m && r.metrics == map[] && r.warnings == [BatchFailed]
  }

  ghost predicate AllContent(reports: map<string, Report>, response: Response, counters: Counters)
  {
    forall m :: m in reports ==> Content(reports[m], m, response, counters)
  }

  /** When the query fails, every VM of the batch gets that warning and nothing else. */
  method FailedBatch(batch: seq<VmInfo>, counters: Counters) returns (reports: map<string, Report>)
    ensures BatchReports(reports, batch) && AllContent(reports, QueryFailed, counters)
  {
    reports := map[];
    var i := 0;
    while i < |batch|
      invariant i <= |batch|
      invariant forall k :: 0 <= k < i ==> batch[k].moid in reports
      invariant forall m :: m in reports ==> Proper(reports[m], m, batch)
      invariant AllContent(reports, QueryFailed, counters)
    {
      hide Proper;
      var r := Report(batch[i].name, batch[i].moid, map[], [BatchFailed]);
      assert Proper(r, batch[i].moid, batch) by { FailedIsProper(r, batch, i); }
      reports := reports[batch[i].moid := r];
      i := i + 1;
    }
  }

  lemma FailedIsProper(r: Report, batch: seq<VmInfo>, i: nat)
    requires i < |batch| && r == Report(batch[i].name, batch[i].moid, map[], [BatchFailed])
    ensures Proper(r, batch[i].moid, batch)
  {
    assert batch[i] == VmInfo(r.name, r.moid);
  }

  lemma FilledContent(reports: map<string, Report>, entities: seq<Entity>, counters: Counters, batch: seq<VmInfo>)
    requires Filled(reports, entities, counters, batch)
    ensures AllContent(reports, Answered(entities), counters)
  {
    hide Reports, LastEntity, IsMember, NamedIn;
  }

  /** The reports for one batch. */
  method QueryBatch(raw: Response, counters: Counters, batch: seq<VmInfo>) returns (reports: map<string, Report>)
    ensures OnlyMembers(raw, batch) ==> BatchReports(reports, batch)
    ensures AllContent(reports, raw, counters)
  {
    hide OnlyMembers, BatchReports, Filled, AllContent;
    if raw.QueryFailed? {
      reports := FailedBatch(batch, counters);
    } else {
      reports := ParseBatchResults(raw.entities, counters, batch);
      FilledContent(reports, raw.entities, counters, batch);
      if OnlyMembers(raw, batch) {
        FilledIsReported(reports, raw.entities, counters, batch);
      }
    }
  }

  /** The last batch that holds the VM. */
  ghost predicate LastBatch(batches: seq<seq<VmInfo>>, m: string, k: nat)
  {
    && k < |batches| && IsMember(batches[k], m)
    && forall j :: k < j < |batches| ==> !IsMember(batches[j], m)
  }

  /** Each report has the content of the answer to the last batch that holds its VM, and a name from that batch. */
  ghost predicate AnsweredLast(results: map<string, Report>, batches: seq<seq<VmInfo>>, responses: nat -> Response, counters: Counters)
  {
    forall m :: m in results ==> exists k: nat :: IsAnswer(results[m], m, batches, responses, counters, k)
  }

  ghost predicate IsAnswer(r: Report, m: string, batches: seq<seq<VmInfo>>, responses: nat -> Response, counters: Counters, k: nat)
  {
    LastBatch(batches, m, k) && Content(r, m, responses(k), counters) && NamedIn(batches[k], m, r.name)
  }

  lemma MemberIsReported(reports: map<string, Report>, batch: seq<VmInfo>, m: string)
    requires BatchReports(reports, batch)
    ensures m in reports <==> IsMember(batch, m)
  {
    if m in reports {
      assert Proper(reports[m], m, batch);
      var i :| 0 <= i < |batch| && batch[i] == VmInfo(reports[m].name, m);
      assert batch[i].moid == m;
    }
  }

  lemma LastBatchNext(batches: seq<seq<VmInfo>>, batch: seq<VmInfo>, m: string, k: nat)
    ensures IsMember(batch, m) ==> LastBatch(batches + [batch], m, |batches|)
    ensures !IsMember(batch, m) && LastBatch(batches, m, k) ==> LastBatch(batches + [batch], m, k)
  {
    hide IsMember;
    var next := batches + [batch];
    assert next[|batches|] == batch && forall j :: 0 <= j < |batches| ==> next[j] == batches[j];
  }

  lemma AnsweredNext(results: map<string, Report>, batches: seq<seq<VmInfo>>, responses: nat -> Response, counters: Counters,
                     reports: map<string, Report>, batch: seq<VmInfo>)
    requires AnsweredLast(results, batches, responses, counters) && BatchReports(reports, batch)
    requires AllContent(reports, responses(|batches|), counters)
    ensures AnsweredLast(results + reports, batches + [batch], responses, counters)
  {
    hide Content, IsMember, NamedIn, LastBatch;
    var next, all := batches + [batch], results + reports;
    forall m | m in all
      ensures exists k: nat :: IsAnswer(all[m], m, next, responses, counters, k)
    {
      MemberIsReported(reports, batch, m);
      if m in reports {
        LastBatchNext(batches, batch, m, 0);
        assert Proper(reports[m], m, batch);
        assert IsAnswer(all[m], m, next, responses, counters, |batches|);
      } else {
        var k: nat :| IsAnswer(results[m], m, batches, responses, counters, k);
        LastBatchNext(batches, batch, m, k);
        assert k < |batches| by { LastBatchInRange(batches, m, k); }
        assert IsAnswer(all[m], m, next, responses, counters, k);
      }
    }
  }

  lemma LastBatchInRange(batches: seq<seq<VmInfo>>, m: string, k: nat)
    requires LastBatch(batches, m, k)
    ensures k < |batches|
  {
  }

  lemma CoveredNext(results: map<string, Report>, vms: seq<VmInfo>, i: nat, j: nat, reports: map<string, Report>)
    requires i <= j <= |vms| && Covered(results, vms, i) && BatchReports(reports, vms[i..j])
    ensures Covered(results + reports, vms, j)
  {
    var batch := vms[i..j];
    forall k | 0 <= k < j
      ensures vms[k].moid in results + reports
    {
      if k >= i {
        assert batch[k - i] == vms[k];
      }
    }
    forall m | m in results + reports
      ensures Proper((results + reports)[m], m, vms)
    {
      if m in reports {
        WiderProper(reports[m], m, vms, i, j);
      }
    }
  }

  lemma WiderProper(r: Report, m: string, vms: seq<VmInfo>, i: nat, j: nat)
    requires i <= j <= |vms| && Proper(r, m, vms[i..j])
    ensures Proper(r, m, vms)
  {
    var k :| 0 <= k < j - i && vms[i..j][k] == VmInfo(r.name, m);
    assert vms[i + k] == VmInfo(r.name, m);
  }

  function Upto(i: nat, size: nat, n: nat): (j: nat)
    requires i < n && size > 0
    ensures i < j <= n && j - i <= size && (j < n ==> j == i + size)
  {
    if i + size <= n then i + size else n
  }

  lemma OneMoreBatch(i: nat, j: nat, n: nat, size: nat, count: nat)
    requires size > 0 && i < n && j == Upto(i, size, n) && i == count * size
    ensures j == n ==> count + 1 == CeilDiv(n, size)
    ensures j < n ==> j == (count + 1) * size
  {
    assert (count + 1) * size == count * size + size;
    if j == n {
      Quotient(n + size - 1, count + 1, n + size - 1 - (count + 1) * size, size);
    }
  }

  lemma Quotient(x: int, q: int, r: int, m: int)
    requires m > 0 && 0 <= r < m && x == q * m + r
    ensures x / m == q
  {
    var d := x / m - q;
    assert x == (x / m) * m + x % m;
    assert d * m == r - x % m by { assert d * m == (x / m) * m - q * m; }
    assert (-d) * m == -(d * m);
    if d > 0 {
      AtLeast(d, m);
    } else if d < 0 {
      AtLeast(-d, m);
    }
  }

  lemma AtLeast(d: int, m: int)
    requires d >= 1 && m > 0
    ensures d * m >= m
  {
    assert (d - 1) * m >= 0;
  }

  datatype Queried = NoCounters | Queried(results: map<string, Report>, batches: seq<seq<VmInfo>>)

  /** The batches are the input cut into pieces, and there are as many as a report of that many VMs expects. */
  ghost predicate Cut(batches: seq<seq<VmInfo>>, vms: seq<VmInfo>, size: nat)
    requires size > 0
  {
    && Flatten(batches) == vms && |batches| == CeilDiv(|vms|, size)
    && forall i :: 0 <= i < |batches| ==> 1 <= |batches[i]| <= size
  }

  /** The first i VMs are cut into the batches. */
  ghost predicate CutUpto(batches: seq<seq<VmInfo>>, vms: seq<VmInfo>, size: nat, i: nat)
    requires size > 0
  {
    && i <= |vms| && Flatten(batches) == vms[..i]
    && (if i < |vms| then i == |batches| * size else |batches| == CeilDiv(|vms|, size))
    && forall k :: 0 <= k < |batches| ==> 1 <= |batches[k]| <= size
  }

  lemma CutStart(vms: seq<VmInfo>, size: nat)
    requires size > 0
    ensures CutUpto([], vms, size, 0)
  {
    assert vms[..0] == [];
    Quotient(size - 1, 0, size - 1, size);
  }

  lemma CutNext(batches: seq<seq<VmInfo>>, vms: seq<VmInfo>, size: nat, i: nat, j: nat)
    requires size > 0 && i < |vms| && j == Upto(i, size, |vms|) && CutUpto(batches, vms, size, i)
    ensures CutUpto(batches + [vms[i..j]], vms, size, j)
  {
    hide Flatten, CeilDiv;
    OneMoreBatch(i, j, |vms|, size, |batches|);
    FlattenSnoc(batches, vms[i..j]);
    assert vms[..i] + vms[i..j] == vms[..j];
  }

  lemma CutEnd(batches: seq<seq<VmInfo>>, vms: seq<VmInfo>, size: nat)
    requires size > 0 && CutUpto(batches, vms, size, |vms|)
    ensures Cut(batches, vms, size)
  {
    assert vms[..|vms|] == vms;
  }

  /** Every response names only members of the batch it was asked for. */
  ghost predicate WellAnswered(responses: nat -> Response, batches: seq<seq<VmInfo>>)
  {
    forall k: nat :: k < |batches| ==> OnlyMembers(responses(k), batches[k])
  }

  lemma WellAnsweredNext(responses: nat -> Response, batches: seq<seq<VmInfo>>, batch: seq<VmInfo>)
    ensures WellAnswered(responses, batches + [batch]) <==>
            WellAnswered(responses, batches) && OnlyMembers(responses(|batches|), batch)
  {
    hide OnlyMembers;
    var next := batches + [batch];
    assert next[|batches|] == batch;
    if WellAnswered(responses, next) {
      forall k: nat | k < |batches|
        ensures OnlyMembers(responses(k), batches[k])
      {
        assert next[k] == batches[k];
      }
    }
  }

  /** One query for each batch; responses are what vCenter answers, query by query. With answers that name only members
      of their batch, every VM has a named report with a metric or a warning, and its content is what the answer to the
      last batch that holds the VM has for it. */
  method QueryMetrics(vms: seq<VmInfo>, size: nat, recognized: nat, counters: Counters, responses: nat -> Response) returns (r: Queried)
    requires size > 0
    ensures r == NoCounters <==> recognized == 0
    ensures r.Queried? ==> Cut(r.batches, vms, size)
    ensures r.Queried? && WellAnswered(responses, r.batches) ==>
              Covered(r.results, vms, |vms|) && AnsweredLast(r.results, r.batches, responses, counters)
  {
    hide Cut, CutUpto, WellAnswered, Covered, OnlyMembers, BatchReports, AllContent, IsAnswer;
    if recognized == 0 {
      return NoCounters;
    }
    var results: map<string, Report> := map[];
    var batches: seq<seq<VmInfo>> := [];
    var i := 0;
    CutStart(vms, size);
    NothingCovered(vms);
    while i < |vms|
      invariant i <= |vms| && CutUpto(batches, vms, size, i)
      invariant WellAnswered(responses, batches) ==> Covered(results, vms, i)
      invariant WellAnswered(responses, batches) ==> AnsweredLast(results, batches, responses, counters)
      decreases |vms| - i
    {
      var j := Upto(i, size, |vms|);
      var batch := vms[i..j];
      var reports := QueryBatch(responses(|batches|), counters, batch);
      WellAnsweredNext(responses, batches, batch);
      if WellAnswered(responses, batches + [batch]) {
        CoveredNext(results, vms, i, j, reports);
        AnsweredNext(results, batches, responses, counters, reports, batch);
      }
      CutNext(batches, vms, size, i, j);
      results := results + reports;
      batches := batches + [batch];
      i := j;
    }
    CutEnd(batches, vms, size);
    r := Queried(results, batches);
  }

  lemma NothingCovered(vms: seq<VmInfo>)
    ensures Covered(map[], vms, 0)
  {
  }

  /** CreateReport refuses a batch size that is not positive, and otherwise stores the batch count. */
  function ExpectedBatches(vmCount: nat, batchSize: int): Option<int>
  {
    if batchSize <= 0 then None else Some(Ceil(vmCount as real / batchSize as real))
  }

  /** The count stored with a report is the number of queries made for it. */
  lemma ExpectedIsQueried(vmCount: nat, batchSize: nat)
    requires batchSize > 0
    ensures ExpectedBatches(vmCount, batchSize) == Some(CeilDiv(vmCount, batchSize))
  {
    hide Ceil, CeilDiv;
    var k: int := CeilDiv(vmCount, batchSize);
    CeilDivBounds(vmCount, batchSize);
    var x := vmCount as real / batchSize as real;
    assert (k - 1) as real < x <= k as real by { QuotientBounds(vmCount, batchSize, k); }
    SameCeil(Ceil(x), k, x);
  }

  lemma CeilDivBounds(n: nat, m: nat)
    requires m > 0
    ensures (CeilDiv(n, m) - 1) * m < n <= CeilDiv(n, m) * m
  {
    var k := CeilDiv(n, m);
    assert n + m - 1 == k * m + (n + m - 1) % m;
    assert (k - 1) * m == k * m - m;
  }

  lemma QuotientBounds(n: nat, m: nat, k: int)
    requires m > 0 && (k - 1) * m < n <= k * m
    ensures (k - 1) as real < n as real / m as real <= k as real
  {
    var x, d := n as real / m as real, m as real;
    assert x * d == n as real;
    assert ((k - 1) * m) as real == (k - 1) as real * d && (k * m) as real == k as real * d;
    if x > k as real {
      Strictly(k as real, x, d);
    } else if x <= (k - 1) as real {
      Scale(x, (k - 1) as real, d);
    }
  }

  lemma SameCeil(a: int, b: int, x: real)
    requires (a - 1) as real < x <= a as real && (b - 1) as real < x <= b as real
    ensures a == b
  {
    assert (a - 1) as real < b as real && (b - 1) as real < a as real;
  }
}
