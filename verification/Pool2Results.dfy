/** What Pool2 promises over every run: the order of shutdown, cleanup that waits for no user work, Cancel that misses
    no wake-up, and no deadlock. */
module Pool2Results {
  import opened Wrappers
  import opened Dispatch
  import opened DispatchLaws
  import opened SchedulerProtocol
  import opened SchedulerLaws
  import opened SchedulerProgress
  import opened Pool2Protocol
  import opened Pool2Laws
  import opened Pool2Invariant

  // ----- the order of shutdown -----

  /** The i-th goroutine runs the job, it is the only one, and its function has ended. */
  ghost predicate OnlyTask(d: Sched<Job>, j: Job, i: nat)
  {
    && i < |d.tasks| && d.tasks[i].item.job == j && d.tasks[i].phase != Running
    && forall k :: 0 <= k < |d.tasks| && d.tasks[k].item.job == j ==> k == i
  }

  /** Submitted exactly once, executed exactly once, its one result produced. */
  ghost predicate RanOnce(d: Sched<Job>, j: Job)
  {
    && multiset(Jobs(d.accepted))[j] == 1 && multiset(d.delivered)[j] == 1
    && exists i :: OnlyTask(d, j, i)
  }

  lemma DeliveredRanOnce(d: Sched<Job>, j: Job)
    requires Inv(d) && d.refused == [] && j in d.delivered
    ensures RanOnce(d, j)
  {
    hide Conserved, Stuck, NoDup;
    AcceptedOnce(d);
    OnceEach(Jobs(d.accepted), j);
    OnceEach(d.delivered, j);
    assert Resolved(d, j);
    var i: nat :| i < |d.tasks| && d.tasks[i].item.job == j && d.tasks[i].phase != Running;
    TaskWasAccepted(d, i);
    assert j in multiset(Jobs(d.accepted)) && j in multiset(d.delivered);
    forall k | 0 <= k < |d.tasks| && k != i
      ensures d.tasks[k].item.job != j
    {
      if k < i {
        StartedOnce(d, k, i);
      } else {
        StartedOnce(d, i, k);
      }
    }
    assert OnlyTask(d, j, i);
  }

  lemma FinalizedAfterReports(s: Pool, p: nat)
    requires PoolInv(s) && !s.loop.Waiting? && p < |s.slots|
    ensures Finalize(p) in s.sched.delivered
  {
    hide Inv, CancelInv, StopInv, AcceptedInv, SlotsInv, LoopInv;
    AllReported(s, p);
    assert SlotJobs(s.sched, p, s.slots[p]);
  }

  lemma AcceptedIsKnown(s: Pool, j: Job)
    requires AcceptedInv(s) && j in Jobs(s.sched.accepted)
    ensures Known(s, Order(j)) && Order(j) in s.sched.accepted
  {
    hide Known;
    var i :| 0 <= i < |s.sched.accepted| && Jobs(s.sched.accepted)[i] == j;
    var x := s.sched.accepted[i];
    assert x in s.sched.accepted;
    KnownOrder(s, x);
  }

  lemma KnownOrder(s: Pool, x: Item<Job>)
    requires Known(s, x)
    ensures x == Order(x.job)
  {
  }

  /** In every state of every run: the finalizer of the pool is submitted only when every pipeline was finalized; the
      scheduler is told to close only when, in addition, the finalizer of the pool has run, and by one caller of Stop;
      nothing is ever refused;
      and a caller of Stop that has returned left a closed scheduler whose goroutines are all gone. */
  lemma ShutdownOrder(run: seq<Pool>, k: nat, normal: nat, reserved: nat, finalizer: bool, n: nat)
    requires PoolRun(run, k, normal, reserved, finalizer) && n < |run|
    ensures var d := run[n].sched;
            && d.refused == []
            && (FinalizePool in Jobs(d.accepted) ==> finalizer && forall p: nat :: p < k ==> RanOnce(d, Finalize(p)))
            && (d.closing != Open ==>
                (forall p: nat :: p < k ==> RanOnce(d, Finalize(p))) && (finalizer ==> RanOnce(d, FinalizePool)))
            && OneCloser(run[n].stoppers)
            && (Returned in run[n].stoppers ==> d.closing == Closed && AllGone(d))
  {
    hide PoolRun, RanOnce, Inv, CancelInv, SlotsInv, LoopInv, SlotsJobs, AcceptedInv, StopperInv;
    RunPoolInv(run, k, normal, reserved, finalizer, n);
    var s := run[n];
    NothingRefused(s);
    if FinalizePool in Jobs(s.sched.accepted) {
      AcceptedIsKnown(s, FinalizePool);
    }
    if !s.loop.Waiting? {
      forall p: nat | p < k
        ensures RanOnce(s.sched, Finalize(p))
      {
        FinalizedAfterReports(s, p);
        DeliveredRanOnce(s.sched, Finalize(p));
      }
    }
    if s.sched.closing != Open && finalizer {
      DeliveredRanOnce(s.sched, FinalizePool);
    }
    if Returned in s.stoppers {
      ReturnedIsClosed(s);
    }
  }

  lemma NothingRefused(s: Pool)
    requires AcceptedInv(s)
    ensures s.sched.refused == []
  {
  }

  lemma ReturnedIsClosed(s: Pool)
    requires StopInv(s) && Inv(s.sched) && Returned in s.stoppers
    ensures s.sched.closing == Closed && AllGone(s.sched) && s.loop == LoopExited
  {
    hide Conserved, Stuck, NoDup, Resolved;
    var c :| 0 <= c < |s.stoppers| && s.stoppers[c] == Returned;
    assert StopperInv(s, s.stoppers[c]);
  }

  /** Each submission the pool makes is a new job, so that accepting it is possible. */
  lemma SubmissionsAreFresh(s: Pool, p: nat)
    requires PoolInv(s)
    ensures p < |s.slots| && s.slots[p].control == AtSubmit ==> Fresh(s.sched, Unit(p, s.slots[p].units))
    ensures p < |s.slots| && s.slots[p].control == AtFinalize ==> Fresh(s.sched, Finalize(p))
    ensures s.loop == AtPoolFinalize ==> Fresh(s.sched, FinalizePool)
  {
    hide Inv, SlotsInv, LoopInv, SlotsJobs, LoopJobs, CancelInv, StopInv;
    forall j | j in Jobs(s.sched.accepted)
      ensures Known(s, Order(j))
    {
      AcceptedIsKnown(s, j);
    }
  }

  // ----- the units of a pipeline -----

  /** In every state of every run: a unit is submitted only when the one before it has been answered; and Finalize is
      submitted only when the builder had no more units, a unit failed, or the pipeline was stopped. */
  lemma UnitsInOrder(run: seq<Pool>, k: nat, normal: nat, reserved: nat, finalizer: bool, n: nat, p: nat, i: nat)
    requires PoolRun(run, k, normal, reserved, finalizer) && n < |run| && p < k
    ensures |run[n].slots| == k
    ensures Unit(p, i + 1) in Jobs(run[n].sched.accepted) ==> Unit(p, i) in run[n].sched.delivered
    ensures Finalize(p) in Jobs(run[n].sched.accepted) ==>
              run[n].slots[p].ending != InUnits || run[n].slots[p].stopCloses == 1
  {
    hide PoolRun, Inv, LoopInv, LoopJobs, CancelInv, StopInv, AcceptedInv;
    RunPoolInv(run, k, normal, reserved, finalizer, n);
    var s := run[n];
    assert SlotJobs(s.sched, p, s.slots[p]) && SlotInv(s.slots[p]);
    if Unit(p, i + 1) in Jobs(s.sched.accepted) {
      AcceptedIsKnown(s, Unit(p, i + 1));
    }
    if Finalize(p) in Jobs(s.sched.accepted) {
      AcceptedIsKnown(s, Finalize(p));
    }
  }

  /** After the first unit that failed, or the last of the builder, no unit of the pipeline is submitted. */
  lemma NoUnitAfterFailure(run: seq<Pool>, k: nat, normal: nat, reserved: nat, finalizer: bool, m: nat, n: nat, p: nat, i: nat)
    requires PoolRun(run, k, normal, reserved, finalizer) && m <= n < |run| && p < |run[m].slots|
    requires run[m].slots[p].ending != InUnits
    ensures Unit(p, i) in Jobs(run[n].sched.accepted) ==> i < run[m].slots[p].units
    ensures p < |run[n].slots| && run[n].slots[p].ending == run[m].slots[p].ending
  {
    hide Inv, LoopInv, LoopJobs, CancelInv, StopInv, AcceptedInv, PoolNext, PoolInit;
    RunPoolInv(run, k, normal, reserved, finalizer, m);
    RunPoolInv(run, k, normal, reserved, finalizer, n);
    RunAhead(run, k, normal, reserved, finalizer, m, n);
    assert SlotInv(run[m].slots[p]) && SlotAhead(run[m].slots[p], run[n].slots[p]);
    if Unit(p, i) in Jobs(run[n].sched.accepted) {
      AcceptedIsKnown(run[n], Unit(p, i));
    }
  }

  // ----- cleanup waits for no user work -----

  lemma {:induction false} RunUsed(run: seq<Pool>, k: nat, normal: nat, reserved: nat, finalizer: bool, n: nat, b: bool)
    requires PoolRun(run, k, normal, reserved, finalizer) && n < |run|
    ensures Used(run[n].sched, b)
    decreases n
  {
    hide PoolNext, Used, Next;
    if n == 0 {
      assert Used(run[0].sched, b) by { FreshUsed(run[0].sched, normal, reserved, b); }
    } else {
      RunUsed(run, k, normal, reserved, finalizer, n - 1, b);
      assert PoolNext(run[n - 1], run[n - 1 + 1]);
      SchedulerSteps(run[n - 1], run[n]);
      if run[n].sched != run[n - 1].sched {
        NextUses(run[n - 1].sched, run[n].sched, b);
      }
    }
  }

  lemma FreshUsed(d: Sched<Job>, normal: nat, reserved: nat, b: bool)
    requires Init(d, normal, reserved)
    ensures Used(d, b)
  {
  }

  /** The pipelines whose Finalize runs on a reserved worker. */
  function ReservedPipes(ts: seq<Task<Job>>): (r: set<nat>)
  {
    if ts == [] then {}
    else ReservedPipes(ts[1..]) + if ts[0].worker.isReserved && ts[0].item.job.Finalize? then {ts[0].item.job.pipe} else {}
  }

  lemma {:induction false} ReservedPipesFrom(ts: seq<Task<Job>>, p: nat)
    requires p in ReservedPipes(ts)
    ensures exists i :: 0 <= i < |ts| && ts[i].item.job == Finalize(p)
    decreases |ts|
  {
    if p in ReservedPipes(ts[1..]) {
      ReservedPipesFrom(ts[1..], p);
      var i :| 0 <= i < |ts[1..]| && ts[1..][i].item.job == Finalize(p);
      assert ts[i + 1].item.job == Finalize(p);
    } else {
      assert ts[0].item.job == Finalize(p);
    }
  }

  ghost predicate DistinctJobs(ts: seq<Task<Job>>)
  {
    forall i, k :: 0 <= i < k < |ts| ==> ts[i].item.job != ts[k].item.job
  }

  /** Every reserved worker ever taken was taken for another pipeline. */
  lemma {:induction false} ReservedPipesCount(ts: seq<Task<Job>>)
    requires DistinctJobs(ts) && forall t :: t in ts && t.worker.isReserved ==> t.item.job.Finalize?
    ensures |ReservedPipes(ts)| == Count(On(true), ts)
    decreases |ts|
  {
    if ts != [] {
      var t := ts[0];
      ReservedPipesCount(ts[1..]);
      if t.worker.isReserved {
        assert t in ts;
        if t.item.job.pipe in ReservedPipes(ts[1..]) {
          ReservedPipesFrom(ts[1..], t.item.job.pipe);
        }
      }
    }
  }

  /** A task on a reserved worker is a finalizer. */
  lemma ReservedRunsFinalizers(s: Pool, i: nat)
    requires PoolInv(s) && i < |s.sched.tasks| && s.sched.tasks[i].worker.isReserved
    ensures !s.sched.tasks[i].item.job.Unit? && Known(s, s.sched.tasks[i].item)
  {
    hide Conserved, Stuck, NoDup, Resolved, CancelInv, StopInv, SlotsInv, LoopInv, SlotsJobs;
    var t := s.sched.tasks[i];
    TaskWasAccepted(s.sched, i);
    assert Eligible(t.worker, t.item) by { assert t in s.sched.tasks; }
    assert Known(s, t.item);
  }

  /** While a Finalize waits, the finalizer of the pool has not been submitted. */
  lemma WaitingFinalizeIsBeforePool(s: Pool, x: Item<Job>)
    requires PoolInv(s) && x in s.sched.queue && x.job.Finalize?
    ensures Known(s, x) && s.loop.Waiting? && x.job.pipe < |s.slots|
  {
    hide Conserved, Stuck, NoDup, Resolved, CancelInv, StopInv, SlotsInv, LoopInv, SlotsJobs;
    QueuedNotResolved(s.sched, x);
    assert x in multiset(s.sched.accepted);
    assert Known(s, x);
    if !s.loop.Waiting? {
      FinalizedAfterReports(s, x.job.pipe);
    }
  }

  lemma ReservedTasks(s: Pool, x: Item<Job>)
    requires PoolInv(s) && x in s.sched.queue && x.job.Finalize?
    ensures Count(On(true), s.sched.tasks) < |s.slots|
  {
    hide Inv, CancelInv, StopInv, SlotsInv, LoopInv, SlotsJobs, AcceptedInv, Known, Count, ReservedPipes;
    var ts := s.sched.tasks;
    WaitingFinalizeIsBeforePool(s, x);
    forall i | 0 <= i < |ts| && ts[i].worker.isReserved
      ensures ts[i].item.job.Finalize? && ts[i].item.job.pipe < |s.slots|
    {
      ReservedRunsFinalizers(s, i);
      KnownFinalizer(s, ts[i].item);
    }
    forall i, k | 0 <= i < k < |ts|
      ensures ts[i].item.job != ts[k].item.job
    {
      StartedOnce(s.sched, i, k);
    }
    ReservedPipesCount(ts);
    QueuedNotResolved(s.sched, x);
    forall p | p in ReservedPipes(ts)
      ensures p in Pipes(|s.slots|) - {x.job.pipe}
    {
      ReservedPipesFrom(ts, p);
      var i: nat :| i < |ts| && ts[i].item.job == Finalize(p);
      FinalizerPipe(s, i);
    }
    FewerPipes(ReservedPipes(ts), |s.slots|, x.job.pipe);
  }

  lemma FinalizerPipe(s: Pool, i: nat)
    requires PoolInv(s) && i < |s.sched.tasks| && s.sched.tasks[i].item.job.Finalize?
    ensures s.sched.tasks[i].item.job.pipe < |s.slots|
  {
    hide Conserved, Stuck, NoDup, Resolved, CancelInv, StopInv, SlotsInv, LoopInv, SlotsJobs;
    TaskWasAccepted(s.sched, i);
    assert Known(s, s.sched.tasks[i].item);
  }

  lemma KnownFinalizer(s: Pool, x: Item<Job>)
    requires Known(s, x) && !x.job.Unit? && s.loop.Waiting?
    ensures x.job.Finalize? && x.job.pipe < |s.slots|
  {
  }

  lemma FewerPipes(a: set<nat>, k: nat, p: nat)
    requires p < k && forall q :: q in a ==> q in Pipes(k) - {p}
    ensures |a| < k
  {
    var b := Pipes(k) - {p};
    assert Pipes(k) == b + {p};
    assert |b| == k - 1;
    Smaller(a, b);
  }

  lemma {:induction false} Smaller(a: set<nat>, b: set<nat>)
    requires a <= b
    ensures |a| <= |b|
    decreases |a|
  {
    if x :| x in a {
      Smaller(a - {x}, b - {x});
    }
  }

  /** With a reserved worker for each pipeline, no Finalize ever waits: it is started in the step that accepts it,
      whatever the units are doing. */
  lemma FinalizeNeverWaits(run: seq<Pool>, k: nat, normal: nat, reserved: nat, finalizer: bool, n: nat, x: Item<Job>)
    requires PoolRun(run, k, normal, reserved, finalizer) && n < |run|
    requires reserved >= k && x in run[n].sched.queue
    ensures !x.job.Finalize?
  {
    hide PoolRun, PoolInv;
    RunPoolInv(run, k, normal, reserved, finalizer, n);
    RunUsed(run, k, normal, reserved, finalizer, n, true);
    if x.job.Finalize? {
      ReservedTasks(run[n], x);
      ReservedAllBusy(run[n], x);
    }
  }

  /** While a finalizer waits, no reserved worker is idle. */
  lemma ReservedAllBusy(s: Pool, x: Item<Job>)
    requires PoolInv(s) && x in s.sched.queue && !x.job.Unit?
    ensures s.sched.idle == []
    ensures Count(Holds(true), s.sched.tasks) + Count(Pending(true), s.sched.done) == s.sched.reserved
    ensures Count(Holds(false), s.sched.tasks) + Count(Pending(false), s.sched.done) == s.sched.normal
  {
    hide NoDup, Resolved, CancelInv, StopInv, SlotsInv, LoopInv, SlotsJobs;
    assert x in multiset(s.sched.accepted);
    assert Known(s, x);
  }

  /** On reserved workers, a finalizer that holds one while the finalizer of the pool waits has ended. */
  lemma HolderHasEnded(s: Pool, x: Item<Job>, i: nat)
    requires PoolInv(s) && x in s.sched.queue && x.job == FinalizePool
    requires i < |s.sched.tasks| && s.sched.tasks[i].worker.isReserved
    ensures s.sched.tasks[i].phase != Running && s.sched.closing == Open
  {
    hide Conserved, Stuck, NoDup, Resolved, CancelInv, StopperInv, SlotsInv, LoopInv, SlotsJobs;
    QueuedNotResolved(s.sched, x);
    assert x in multiset(s.sched.accepted);
    assert Known(s, x);
    ReservedRunsFinalizers(s, i);
    var j := s.sched.tasks[i].item.job;
    FinalizedAfterReports(s, j.pipe);
    if s.sched.tasks[i].phase == Running {
      RunningNotResolved(s.sched, i);
    }
  }

  lemma PoolFinalizerMoves(s: Pool, x: Item<Job>) returns (d': Sched<Job>)
    requires PoolInv(s) && x in s.sched.queue && x.job == FinalizePool && s.sched.reserved >= 1
    ensures Internal(s.sched, d')
  {
    hide Inv, CancelInv, SlotsInv, LoopInv, SlotsJobs, AcceptedInv, Count, StopperInv, Release;
    ReservedAllBusy(s, x);
    if Count(Pending(true), s.sched.done) > 0 {
      var b := CountWitness(Pending(true), s.sched.done);
      PoolFinalizerOpen(s, x);
      d' := ReleasePossible(s.sched);
    } else {
      var t := CountWitness(Holds(true), s.sched.tasks);
      var i: nat :| i < |s.sched.tasks| && s.sched.tasks[i] == t;
      HolderHasEnded(s, x, i);
      d' := TaskMoves(s.sched, i);
    }
  }

  lemma PoolFinalizerOpen(s: Pool, x: Item<Job>)
    requires PoolInv(s) && x in s.sched.queue && x.job == FinalizePool
    ensures s.sched.closing == Open
  {
    hide Conserved, Stuck, NoDup, Resolved, CancelInv, StopperInv, SlotsInv, LoopInv, SlotsJobs;
    QueuedNotResolved(s.sched, x);
    assert x in multiset(s.sched.accepted);
    assert Known(s, x);
  }

  lemma {:induction false} FewErrands(run: seq<Pool>, m: nat)
    requires m < |run| && forall i :: m <= i < |run| - 1 ==> SchedulerMoves(run[i], run[i + 1])
    ensures |run| - 1 - m <= Errands(run[m].sched)
    decreases |run| - m
  {
    hide Internal, Errands;
    if m < |run| - 1 {
      assert SchedulerMoves(run[m], run[m + 1]);
      InternalIsAnErrand(run[m].sched, run[m + 1].sched);
      FewErrands(run, m + 1);
    }
  }

  /** With a reserved worker for each pipeline, as by default, a finalizer waits for nothing but finitely many steps
      of the scheduler itself: no function has to return. Whatever a run did before, from m on only such steps may
      follow each other at most as often as there are errands, and while a finalizer waits there is one to take. */
  lemma CleanupNeverWaits(run: seq<Pool>, k: nat, normal: nat, reserved: nat, finalizer: bool, m: nat)
    requires PoolRun(run, k, normal, reserved, finalizer) && m < |run| && reserved >= k
    requires forall i :: m <= i < |run| - 1 ==> SchedulerMoves(run[i], run[i + 1])
    ensures |run| - 1 - m <= Errands(run[m].sched)
    ensures var s := run[|run| - 1];
            (exists x :: x in s.sched.queue && !x.job.Unit?) ==> exists s' :: SchedulerMoves(s, s')
  {
    hide SchedulerMoves, PoolInv, PoolNext, Errands;
    FewErrands(run, m);
    var s := run[|run| - 1];
    if x :| x in s.sched.queue && !x.job.Unit? {
      RunPoolInv(run, k, normal, reserved, finalizer, |run| - 1);
      FinalizeNeverWaits(run, k, normal, reserved, finalizer, |run| - 1, x);
      var d' := PoolFinalizerMoves(s, x);
      InternalMoves(s, d');
    }
  }

  lemma InternalMoves(s: Pool, d': Sched<Job>)
    requires Internal(s.sched, d')
    ensures SchedulerMoves(s, s.(sched := d'))
  {
  }

  // ----- Cancel -----

  /** The channel is the one its pipeline has, closed exactly if the pipeline is marked done, and then once. */
  ghost predicate ClosedWithDone(s: Pool, c: nat, ch: Channel)
  {
    && ch.pipe < |s.slots| && s.slots[ch.pipe].cancel == Some(c)
    && (if s.slots[ch.pipe].done then ch.closes == 1 else ch.closes == 0)
    && forall p :: 0 <= p < |s.slots| && s.slots[p].cancel == Some(c) ==> p == ch.pipe
  }

  ghost predicate ReturnsWhenDone(s: Pool, k: Canceller)
  {
    && k.pipe < |s.slots| && s.slots[k.pipe].cancel == Some(k.chan)
    && (k.at == CancelReturned ==> Finished(s.slots[k.pipe]) && s.slots[k.pipe].done)
  }

  /** In every state of every run a cancel channel belongs to one pipeline, is its only one, and has been closed once
      if the pipeline is done and not at all if it is not; a stop channel is closed at most once; and a Cancel that
      has returned found its pipeline finished. */
  lemma ChannelsCloseOnce(run: seq<Pool>, k: nat, normal: nat, reserved: nat, finalizer: bool, n: nat)
    requires PoolRun(run, k, normal, reserved, finalizer) && n < |run|
    ensures var s := run[n];
            && |s.slots| == k
            && (forall c :: 0 <= c < |s.chans| ==> ClosedWithDone(s, c, s.chans[c]))
            && (forall p: nat :: p < k ==> s.slots[p].stopCloses <= 1)
            && (forall c :: 0 <= c < |s.cancellers| ==> ReturnsWhenDone(s, s.cancellers[c]))
  {
    hide PoolRun, Inv, StopInv, LoopInv, SlotsJobs, AcceptedInv;
    RunPoolInv(run, k, normal, reserved, finalizer, n);
    var s := run[n];
    forall c | 0 <= c < |s.chans|
      ensures ClosedWithDone(s, c, s.chans[c])
    {
      assert ChannelInv(s, c, s.chans[c]);
    }
    forall p: nat | p < k
      ensures s.slots[p].stopCloses <= 1
    {
      assert SlotInv(s.slots[p]);
    }
    forall c | 0 <= c < |s.cancellers|
      ensures ReturnsWhenDone(s, s.cancellers[c])
    {
      assert CancellerInv(s, s.cancellers[c]);
    }
  }

  function AtRank(a: CancelAt): nat { match a case ToStop => 3 case ToJoin => 2 case ToReceive => 1 case CancelReturned => 0 }

  function DrainRank(d: Drain): nat { match d case Ranging => 2 case Reporting => 1 case Reported => 0 }

  /** What is left between a Cancel and its return, once its pipeline has finished. */
  function CancelLeft(s: Pool, c: nat): nat
    requires c < |s.cancellers| && s.cancellers[c].pipe < |s.slots|
  {
    AtRank(s.cancellers[c].at) + DrainRank(s.slots[s.cancellers[c].pipe].drain)
  }

  /** The steps a Cancel waits for once its pipeline has finished: its own, the end of the drain, the report. */
  ghost predicate CancelProgress(s: Pool, s': Pool, c: nat)
    requires c < |s.cancellers|
  {
    var p := s.cancellers[c].pipe;
    || CancelMoves(s, s', c)
    || Reports(s, s', p)
    || (PipelineMoves(s, s', p, Quiet) && DrainStep(s.slots[p], s'.slots[p], Quiet))
  }

  /** Once its pipeline has finished, a Cancel that has not returned can come nearer to its return. */
  lemma CancelReturns(s: Pool, c: nat) returns (s': Pool)
    requires PoolInv(s) && c < |s.cancellers|
    requires Finished(s.slots[s.cancellers[c].pipe]) && s.cancellers[c].at != CancelReturned
    ensures CancelProgress(s, s', c)
    ensures |s'.cancellers| == |s.cancellers| && |s'.slots| == |s.slots| && s'.cancellers[c].pipe == s.cancellers[c].pipe
    ensures CancelLeft(s', c) < CancelLeft(s, c)
  {
    hide Inv, StopInv, SlotsJobs, AcceptedInv, Count;
    var k := s.cancellers[c];
    assert CancellerInv(s, k) && ChannelInv(s, k.chan, s.chans[k.chan]);
    var a := s.slots[k.pipe];
    assert SlotInv(a);
    match k.at
    case ToStop => s' := SetCanceller(s, c, ToJoin).(slots := s.slots[k.pipe := StopSection(a)]);
    case ToJoin => s' := SetCanceller(s, c, ToReceive);
    case ToReceive =>
      if a.drain == Reported {
        s' := SetCanceller(s, c, CancelReturned);
      } else {
        s' := DrainMoves(s, k.pipe);
      }
  }

  /** The drain of a finished pipeline can report. */
  lemma DrainMoves(s: Pool, p: nat) returns (s': Pool)
    requires SlotsInv(s) && LoopInv(s) && p < |s.slots| && Finished(s.slots[p]) && s.slots[p].drain != Reported
    ensures Reports(s, s', p) || (PipelineMoves(s, s', p, Quiet) && DrainStep(s.slots[p], s'.slots[p], Quiet))
  {
    hide Count;
    var a := s.slots[p];
    if a.drain == Ranging {
      s' := s.(slots := s.slots[p := a.(drain := Reporting)]);
    } else {
      CountPositive(Unreported(), s.slots, a);
      s' := s.(slots := s.slots[p := a.(drain := Reported, done := true)], chans := CloseChannel(s.chans, a.cancel),
               loop := AfterEvent(s, s.loop.remaining - 1));
    }
  }

  /** No step of anybody takes a Cancel further from its return. */
  lemma CancelNotDelayed(s: Pool, s': Pool, c: nat)
    requires PoolInv(s) && PoolNext(s, s') && c < |s.cancellers|
    ensures c < |s'.cancellers| && s'.cancellers[c].pipe == s.cancellers[c].pipe && s'.cancellers[c].chan == s.cancellers[c].chan
    ensures s.cancellers[c].pipe < |s.slots| == |s'.slots| && CancelLeft(s', c) <= CancelLeft(s, c)
  {
    hide PoolInv, PoolNext;
    assert CancellerInv(s, s.cancellers[c]) by { CancellerHere(s, c); }
    NextAhead(s, s');
    CancellersKept(s, s', c);
    DrainsKept(s, s', s.cancellers[c].pipe);
  }

  lemma CancellerHere(s: Pool, c: nat)
    requires PoolInv(s) && c < |s.cancellers|
    ensures CancellerInv(s, s.cancellers[c])
  {
    hide Inv, StopInv, SlotsJobs, AcceptedInv, Count, SlotsInv, LoopInv;
  }

  lemma CancelRanks(s: Pool, s': Pool, d: nat, c: nat)
    requires (CancelMoves(s, s', d) || CancelBegins(s, s', d)) && c < |s.cancellers|
    ensures c < |s'.cancellers| && s'.cancellers[c].pipe == s.cancellers[c].pipe && s'.cancellers[c].chan == s.cancellers[c].chan
    ensures AtRank(s'.cancellers[c].at) <= AtRank(s.cancellers[c].at)
  {
  }

  lemma CancellersKept(s: Pool, s': Pool, c: nat)
    requires PoolNext(s, s') && c < |s.cancellers|
    ensures c < |s'.cancellers| && s'.cancellers[c].pipe == s.cancellers[c].pipe && s'.cancellers[c].chan == s.cancellers[c].chan
    ensures AtRank(s'.cancellers[c].at) <= AtRank(s.cancellers[c].at)
  {
    hide PipelineMoves, StopMoves, Does, Internal, Finish, CancelMoves, CancelBegins;
    if d: nat :| CancelMoves(s, s', d) || CancelBegins(s, s', d) {
      CancelRanks(s, s', d, c);
    } else if d: nat :| StopMoves(s, s', d) {
      StopMovesEntries(s, s', d);
    } else if p: nat, act: Act :| PipelineMoves(s, s', p, act) {
      PipelineEntries(s, s', p, act);
    }
  }

  lemma DrainsKept(s: Pool, s': Pool, p: nat)
    requires PoolNext(s, s') && p < |s.slots| == |s'.slots|
    ensures DrainRank(s'.slots[p].drain) <= DrainRank(s.slots[p].drain)
  {
    hide SlotStep, Does, Internal, Finish, StopMoves, CancelMoves, CancelBegins;
    if q: nat, act: Act :| PipelineMoves(s, s', q, act) {
      SlotStepAhead(q, s.slots[q], s'.slots[q], act);
    } else if d: nat :| StopMoves(s, s', d) {
      SameDrains(s, s', d, p);
    } else if d: nat :| CancelMoves(s, s', d) || CancelBegins(s, s', d) {
      SameDrains(s, s', d, p);
    }
  }

  lemma SameDrains(s: Pool, s': Pool, c: nat, p: nat)
    requires StopMoves(s, s', c) || CancelMoves(s, s', c) || CancelBegins(s, s', c)
    requires p < |s.slots| == |s'.slots|
    ensures s'.slots[p].drain == s.slots[p].drain
  {
    hide CloseStep;
  }
}
