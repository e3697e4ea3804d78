/** The object behind the Pool2 machine (pkg/work/pool2.go): what its methods do under the mutex. */
module Pool2Object {
  import opened Wrappers
  import opened Dispatch
  import opened SchedulerProtocol
  import opened Pool2Protocol
  import opened Pool2Invariant

  datatype Entry = Entry(done: bool, cancel: Option<nat>)

  datatype StartResult = PoolStarted | NoBuilders | AlreadyStarted | BadWorkers | NilBuilder(key: nat)

  /** What the locked part of Cancel finds: no such pipeline, one that is done, or a channel to wait on. */
  datatype CancelResult = UnknownKey | AlreadyDone | WaitOn(chan: nat)

  /** The entries of the map, pipeline by pipeline, are those of the machine. */
  ghost predicate Mirrors(pipelines: map<nat, Entry>, s: Pool)
  {
    && (forall p: nat :: p in pipelines <==> p < |s.slots|)
    && (forall p: nat :: p in pipelines ==> pipelines[p] == Entry(s.slots[p].done, s.slots[p].cancel))
  }

  lemma MirrorsUpdate(pipelines: map<nat, Entry>, s: Pool, s': Pool, p: nat)
    requires Mirrors(pipelines, s) && p < |s.slots| && |s'.slots| == |s.slots| && s'.slots == s.slots[p := s'.slots[p]]
    ensures Mirrors(pipelines[p := Entry(s'.slots[p].done, s'.slots[p].cancel)], s')
  {
  }

  /** As many fresh entries as there are keys in started. */
  ghost predicate FreshEntries(pipelines: map<nat, Entry>, started: set<nat>)
  {
    && (forall p: nat :: p in pipelines <==> p in started)
    && (forall p: nat :: p in pipelines ==> pipelines[p] == Entry(false, None))
  }

  /** The pipelines are started in some order, up to the first builder that is nil. */
  method StartPipelines(builders: nat, nils: set<nat>) returns (pipelines: map<nat, Entry>, failed: Option<nat>)
    requires nils <= Pipes(builders)
    ensures failed.None? <==> nils == {}
    ensures failed.None? ==> FreshEntries(pipelines, Pipes(builders))
    ensures failed.Some? ==> failed.value in nils && pipelines.Keys !! nils && FreshEntries(pipelines, pipelines.Keys)
  {
    pipelines := map[];
    var left := Pipes(builders);
    while left != {}
      invariant left <= Pipes(builders) && nils <= left
      invariant FreshEntries(pipelines, Pipes(builders) - left)
      decreases left
    {
      var key :| key in left;
      if key in nils {
        return pipelines, Some(key);
      }
      pipelines := pipelines[key := Entry(false, None)];
      left := left - {key};
    }
    failed := None;
  }

  class Pool2 {
    const builders: nat
    const nils: set<nat>
    const workers: int
    const reservedWorkers: int
    const finalizer: bool
    var started: bool
    var pipelines: map<nat, Entry>
    var remaining: int
    var channels: nat
    ghost var machine: Option<Pool>

    /** Once Start has succeeded the fields are those of a state of the machine. A pool whose Start failed at a nil
        builder is started all the same, but nothing receives from its pipelines. */
    ghost predicate Valid()
      reads this
    {
      && nils <= Pipes(builders) && (machine.Some? ==> started)
      && (!started ==> pipelines == map[])
      && (machine.Some? ==>
            && PoolInv(machine.value) && Mirrors(pipelines, machine.value) && channels == |machine.value.chans|
            && (machine.value.loop.Waiting? ==> machine.value.loop.remaining == remaining))
    }

    /** By default there are as many workers of each kind as there are pipelines. */
    constructor (builders: nat, nils: set<nat>, finalizer: bool)
      requires nils <= Pipes(builders)
      ensures Valid() && !started && this.builders == builders && this.nils == nils && this.finalizer == finalizer
      ensures workers == builders && reservedWorkers == builders
    {
      this.builders, this.nils, workers, reservedWorkers, this.finalizer := builders, nils, builders, builders, finalizer;
      started, pipelines, remaining, channels, machine := false, map[], 0, 0, None;
    }

    /** Start succeeds once, for at least one builder and none that is nil, one normal worker and no negative number of
        reserved ones; then a run of the machine begins. A failed Start changes nothing exactly if it does not come to
        starting pipelines, that is if no builder is nil; failing at a nil builder it leaves the pool started, with
        some of the other pipelines launched and no event loop. */
    method Start() returns (r: StartResult)
      requires Valid()
      modifies this
      ensures Valid()
      ensures r == NoBuilders <==> builders == 0
      ensures r == AlreadyStarted <==> builders > 0 && old(started)
      ensures r == BadWorkers <==> builders > 0 && !old(started) && (workers < 1 || reservedWorkers < 0)
      ensures r == PoolStarted ==> nils == {} && workers >= 1 && reservedWorkers >= 0 && machine.Some? &&
                                   PoolRun([machine.value], builders, workers, reservedWorkers, finalizer)
      ensures r.NilBuilder? <==> builders > 0 && !old(started) && workers >= 1 && reservedWorkers >= 0 && nils != {}
      ensures r.NilBuilder? ==> r.key in nils && started && machine.None? && pipelines.Keys !! nils
      ensures r != PoolStarted ==>
                (started == old(started) && pipelines == old(pipelines) && machine == old(machine) <==> !r.NilBuilder?)
    {
      hide PoolInv, PoolRun, PoolInit, Mirrors;
      if builders == 0 {
        return NoBuilders;
      }
      if started {
        return AlreadyStarted;
      }
      if workers < 1 || reservedWorkers < 0 {
        return BadWorkers;
      }
      started := true;
      var failed;
      pipelines, failed := StartPipelines(builders, nils);
      if failed.Some? {
        return NilBuilder(failed.value);
      }
      remaining, channels := builders, 0;
      ghost var s := Begin(builders, workers, reservedWorkers, finalizer);
      BeginIsRight(s, pipelines, builders, workers, reservedWorkers, finalizer);
      machine := Some(s);
      r := PoolStarted;
    }

    /** The locked part of Cancel: a step of the machine if there is an event loop to close the channel. */
    method CancelSection(key: nat) returns (r: CancelResult)
      requires Valid()
      modifies this
      ensures Valid() && started == old(started) && machine.Some? == old(machine).Some?
      ensures r == UnknownKey <==> key !in old(pipelines)
      ensures r == AlreadyDone <==> key in old(pipelines) && old(pipelines)[key].done
      ensures if r.WaitOn? then pipelines == old(pipelines)[key := Entry(false, Some(r.chan))] &&
                                 (machine.Some? ==> CancelBegins(old(machine).value, machine.value, key))
              else machine == old(machine) && pipelines == old(pipelines)
    {
      hide PoolInv;
      if key !in pipelines {
        return UnknownKey;
      }
      var pl := pipelines[key];
      if pl.done {
        return AlreadyDone;
      }
      ghost var m := machine;
      if m.Some? {
        ghost var s := m.value;
        ghost var s' := AfterCancel(s, key);
        KeepsInv(s, s', key);
        MirrorsUpdate(pipelines, s, if pl.cancel.Some? then s else s', key);
        machine := Some(s');
      }
      hide Mirrors;
      if pl.cancel.None? {
        pl := pl.(cancel := Some(channels));
        pipelines := pipelines[key := pl];
        channels := channels + 1;
      }
      r := WaitOn(pl.cancel.value);
    }

    /** The event loop receives the report of a pipeline: it is marked done and its cancel channel, if any, closed. */
    method HandleEvent(key: nat) returns (closes: Option<nat>, last: bool)
      requires Valid() && machine.Some? && machine.value.loop.Waiting?
      requires key < |machine.value.slots| && machine.value.slots[key].drain == Reporting
      modifies this
      ensures Valid() && machine.Some?
      ensures Reports(old(machine.value), machine.value, key)
      ensures pipelines == old(pipelines)[key := Entry(true, old(pipelines)[key].cancel)]
      ensures closes == old(pipelines)[key].cancel
      ensures last <==> !machine.value.loop.Waiting?
    {
      hide PoolInv;
      var e := pipelines[key];
      e := e.(done := true);
      closes := e.cancel;
      ghost var s := machine.value;
      ghost var s' := AfterReport(s, key);
      KeepsInv(s, s', key);
      MirrorsUpdate(pipelines, s, s', key);
      hide Mirrors;
      pipelines := pipelines[key := e];
      remaining := remaining - 1;
      machine := Some(s');
      last := remaining == 0;
    }

    /** Some pipeline is not done. */
    method IsRunning() returns (r: bool)
      ensures r <==> exists p :: p in pipelines && !pipelines[p].done
    {
      var left := pipelines.Keys;
      while left != {}
        invariant left <= pipelines.Keys
        invariant forall p :: p in pipelines && p !in left ==> pipelines[p].done
        decreases left
      {
        var p :| p in left;
        if !pipelines[p].done {
          return true;
        }
        left := left - {p};
      }
      r := false;
    }
  }

  /** A pool of one nil builder: Start fails, and so does every later call, because the pool counts as started. */
  method NilBuilderExample() returns (first: StartResult, second: StartResult)
    ensures first == NilBuilder(0) && second == AlreadyStarted
  {
    assert 0 in Pipes(1);
    var pool := new Pool2(1, {0}, false);
    first := pool.Start();
    second := pool.Start();
  }

  ghost function Begin(k: nat, normal: nat, reserved: nat, finalizer: bool): (s: Pool)
    requires k >= 1 && normal >= 1
    ensures PoolInit(s, k, normal, reserved, finalizer)
  {
    Pool(finalizer,
         Sched(normal, reserved, seq(normal, _ => Worker(false)) + seq(reserved, _ => Worker(true)), [], [], [],
               [], [], [], Open),
         seq(k, _ => FRESH), Waiting(k), [], [], [], false)
  }

  ghost function AfterCancel(s: Pool, p: nat): (s': Pool)
    requires p < |s.slots| && !s.slots[p].done
    ensures CancelBegins(s, s', p)
  {
    match s.slots[p].cancel
    case Some(c) => s.(cancellers := s.cancellers + [Canceller(p, c, ToStop)])
    case None =>
      s.(chans := s.chans + [Channel(p, 0)],
         slots := s.slots[p := s.slots[p].(cancel := Some(|s.chans|))],
         cancellers := s.cancellers + [Canceller(p, |s.chans|, ToStop)])
  }

  ghost function AfterReport(s: Pool, p: nat): (s': Pool)
    requires p < |s.slots| && s.loop.Waiting? && s.slots[p].drain == Reporting
    ensures Reports(s, s', p)
  {
    s.(slots := s.slots[p := s.slots[p].(drain := Reported, done := true)],
       chans := CloseChannel(s.chans, s.slots[p].cancel),
       loop := AfterEvent(s, s.loop.remaining - 1))
  }

  lemma BeginIsRight(s: Pool, pipelines: map<nat, Entry>, k: nat, normal: nat, reserved: nat, finalizer: bool)
    requires PoolInit(s, k, normal, reserved, finalizer) && FreshEntries(pipelines, Pipes(k))
    ensures PoolRun([s], k, normal, reserved, finalizer) && PoolInv(s) && Mirrors(pipelines, s)
    ensures s.loop == Waiting(k) && s.chans == []
  {
    hide PoolInv;
    InitPoolInv(s, k, normal, reserved, finalizer);
  }

  lemma KeepsInv(s: Pool, s': Pool, p: nat)
    requires PoolInv(s) && (CancelBegins(s, s', p) || Reports(s, s', p))
    ensures PoolInv(s')
  {
    hide PoolInv, CancelBegins, Reports;
    assert PoolNext(s, s');
    hide PoolNext;
    NextPoolInv(s, s');
  }
}
