/** Every run of a pool ends: if builders end, every step brings the end nearer, so Stop and Cancel return; and a stopped
    pipeline with a reserved worker to itself needs no unit function to return. */
module Pool2Termination {
  import opened Wrappers
  import opened Dispatch
  import opened DispatchLaws
  import opened SchedulerProtocol
  import opened SchedulerProgress
  import opened Pool2Protocol
  import opened Pool2Laws
  import opened Pool2Invariant
  import opened Pool2Results
  import opened Pool2Progress

  // ----- sums -----

  function Total<T>(f: T -> nat, s: seq<T>): nat { if s == [] then 0 else f(s[0]) + Total(f, s[1..]) }

  lemma {:induction false} TotalAppend<T(!new)>(f: T -> nat, s: seq<T>, t: seq<T>)
    ensures Total(f, s + t) == Total(f, s) + Total(f, t)
    decreases |s|
  {
    if s == [] {
      assert s + t == t;
    } else {
      assert (s + t)[1..] == s[1..] + t;
      TotalAppend(f, s[1..], t);
    }
  }

  lemma {:induction false} TotalUpdate<T(!new)>(f: T -> nat, s: seq<T>, i: nat, x: T)
    requires i < |s|
    ensures Total(f, s[i := x]) + f(s[i]) == Total(f, s) + f(x)
    decreases |s|
  {
    if i == 0 {
      assert s[i := x][1..] == s[1..];
    } else {
      assert s[i := x][1..] == s[1..][i - 1 := x];
      TotalUpdate(f, s[1..], i - 1, x);
    }
  }

  // ----- what is left to the scheduler -----

  function TaskWeight(): Task<Job> -> nat
  {
    (t: Task<Job>) => match t.phase case Running => 5 case Sending => 3 case Leaving => 1 case Gone => 0
  }

  function SchedWeight(d: Sched<Job>): nat
  {
    6 * |d.queue| + Total(TaskWeight(), d.tasks) + |d.done| + (3 - ClosingStage(d.closing))
  }

  lemma {:induction false} LaunchWeight(st: seq<Start<Job>>)
    ensures Total(TaskWeight(), Launch(st)) == 5 * |st|
    decreases |st|
  {
    if st != [] {
      assert Launch(st)[1..] == Launch(st[1..]);
      LaunchWeight(st[1..]);
    }
  }

  lemma DispatchWeight(d: Sched<Job>, q: seq<Item<Job>>, ws: seq<Worker>, d': Sched<Job>, st: seq<Start<Job>>)
    requires Dispatched(d, q, ws, d', st)
    ensures 6 * |d'.queue| + Total(TaskWeight(), d'.tasks) <= 6 * |q| + Total(TaskWeight(), d.tasks)
  {
    hide Total, Outcome;
    OutcomeIsAssignment(q, ws, d'.queue, d'.idle, st);
    TotalAppend(TaskWeight(), d.tasks, Launch(st));
    LaunchWeight(st);
  }

  /** A submission adds at most what a waiting item weighs. */
  lemma DoesWeight(d: Sched<Job>, d': Sched<Job>, act: Act)
    requires Does(d, d', act)
    ensures SchedWeight(d') <= SchedWeight(d) + if act.Submit? then 6 else 0
  {
    hide Outcome, Total, Fresh;
    if act.Submit? && Accept(d, d', Order(act.job)) {
      var q := d.queue + [Order(act.job)];
      var st :| Dispatched(d, q, d.idle, d', st);
      DispatchWeight(d, q, d.idle, d', st);
    }
  }

  lemma TaskWeighsLess(d: Sched<Job>, d': Sched<Job>, i: nat)
    requires Finish(d, d', i) || SendDone(d, d', i) || Leave(d, d', i)
    ensures SchedWeight(d') < SchedWeight(d)
  {
    hide Total;
    TotalUpdate(TaskWeight(), d.tasks, i, d'.tasks[i]);
  }

  lemma ReleaseWeighsLess(d: Sched<Job>, d': Sched<Job>)
    requires Release(d, d')
    ensures SchedWeight(d') < SchedWeight(d)
  {
    hide Total, Outcome;
    var ws := d.idle + [Worker(d.done[0])];
    var st :| Dispatched(d, d.queue, ws, d', st);
    DispatchWeight(d, d.queue, ws, d', st);
  }

  lemma WorksWeighsLess(d: Sched<Job>, d': Sched<Job>)
    requires Works(d, d')
    ensures SchedWeight(d') < SchedWeight(d)
  {
    hide Release, Finish, SendDone, Leave, SchedWeight;
    if Release(d, d') {
      ReleaseWeighsLess(d, d');
    } else {
      var i: nat :| Finish(d, d', i) || SendDone(d, d', i) || Leave(d, d', i);
      TaskWeighsLess(d, d', i);
    }
  }

  // ----- what is left to the goroutines of the pool and the pending calls -----

  function ControlWeight(c: Control): nat
  {
    match c
    case Exited => 0
    case AtCloseDone => 1
    case AtCloseTicks => 2
    case AtClearStop => 3
    case AtResult => 4
    case AtFinalize => 11
    case AtErrorTick => 12
    case AtSubmit => 13
    case AtTick => 14
    case AtNext => 15
    case AtAwait => 16
  }

  /** With at most bound units from each builder. */
  function SlotWeight(bound: nat): Slot -> nat
  {
    (a: Slot) => 10 * (if a.units <= bound then bound - a.units else 0) + ControlWeight(a.control) + DrainRank(a.drain)
  }

  lemma SlotStepWeight(p: nat, a: Slot, b: Slot, act: Act, bound: nat)
    requires SlotStep(p, a, b, act) && b.units <= bound
    ensures SlotWeight(bound)(b) + (if act.Submit? then 7 else 1) <= SlotWeight(bound)(a)
  {
  }

  function LoopWeight(l: Loop): nat
  {
    match l
    case Waiting(_) => 10
    case AtPoolFinalize => 9
    case AtPoolResult => 2
    case AtClosePool => 1
    case LoopExited => 0
  }

  function StopperWeight(): Stopper -> nat
  {
    (t: Stopper) =>
      match t
      case ToPipes(left) => 10 + 2 * |left|
      case Joining(_, left) => 11 + 2 * |left|
      case AtPoolDone => 9
      case AtClose => 8
      case InClose => 7
      case Returned => 0
  }

  function CancellerWeight(): Canceller -> nat { (k: Canceller) => AtRank(k.at) }

  /** Everything that is left to do. */
  function PoolWeight(s: Pool, bound: nat): nat
  {
    SchedWeight(s.sched) + Total(SlotWeight(bound), s.slots) + LoopWeight(s.loop) +
    Total(StopperWeight(), s.stoppers) + Total(CancellerWeight(), s.cancellers)
  }

  /** No pipeline takes more than bound units from its builder. */
  ghost predicate Bounded(s: Pool, bound: nat) { forall p :: 0 <= p < |s.slots| ==> Taken(s.slots[p]) <= bound }

  lemma SectionWeight(slots: seq<Slot>, p: nat, bound: nat)
    requires p < |slots|
    ensures Total(SlotWeight(bound), slots[p := StopSection(slots[p])]) == Total(SlotWeight(bound), slots)
  {
    hide Total;
    TotalUpdate(SlotWeight(bound), slots, p, StopSection(slots[p]));
  }

  lemma PipelineWeighsLess(s: Pool, s': Pool, p: nat, act: Act, bound: nat)
    requires PipelineMoves(s, s', p, act) && Bounded(s', bound)
    ensures PoolWeight(s', bound) < PoolWeight(s, bound)
  {
    hide Total, SlotStep, Does, SchedWeight, SlotWeight;
    assert Taken(s'.slots[p]) <= bound;
    SlotStepWeight(p, s.slots[p], s'.slots[p], act, bound);
    TotalUpdate(SlotWeight(bound), s.slots, p, s'.slots[p]);
    DoesWeight(s.sched, s'.sched, act);
  }

  lemma ReportWeighsLess(s: Pool, s': Pool, p: nat, bound: nat)
    requires Reports(s, s', p)
    ensures PoolWeight(s', bound) < PoolWeight(s, bound)
  {
    hide Total, SchedWeight;
    TotalUpdate(SlotWeight(bound), s.slots, p, s'.slots[p]);
  }

  lemma LoopWeighsLess(s: Pool, s': Pool, bound: nat)
    requires LoopMoves(s, s')
    ensures PoolWeight(s', bound) < PoolWeight(s, bound)
  {
    hide Total, SchedWeight, Does;
    if s.loop == AtPoolFinalize {
      DoesWeight(s.sched, s'.sched, Submit(FinalizePool));
    }
  }

  lemma StopperWeighsLess(s: Pool, s': Pool, c: nat, t: Stopper, bound: nat)
    requires c < |s.stoppers| && s'.stoppers == s.stoppers[c := t] && StopperWeight()(t) < StopperWeight()(s.stoppers[c])
    requires s'.sched == s.sched && s'.loop == s.loop && s'.cancellers == s.cancellers
    requires Total(SlotWeight(bound), s'.slots) == Total(SlotWeight(bound), s.slots)
    ensures PoolWeight(s', bound) < PoolWeight(s, bound)
  {
    hide Total, SchedWeight, SlotWeight, StopperWeight;
    TotalUpdate(StopperWeight(), s.stoppers, c, t);
  }

  lemma CloseWeighsLess(s: Pool, s': Pool, bound: nat)
    requires CloseStep(s.sched, s'.sched) && s' == s.(sched := s'.sched)
    ensures PoolWeight(s', bound) < PoolWeight(s, bound)
  {
    hide Total;
  }

  lemma StopsPipeWeighsLess(s: Pool, s': Pool, c: nat, left: set<nat>, p: nat, bound: nat)
    requires c < |s.stoppers| && s.stoppers[c] == ToPipes(left) && StopsPipe(s, s', c, left, p)
    ensures PoolWeight(s', bound) < PoolWeight(s, bound)
  {
    hide Total, SlotWeight;
    SectionWeight(s.slots, p, bound);
    StopperWeighsLess(s, s', c, Joining(p, left - {p}), bound);
  }

  lemma StopWeighsLess(s: Pool, s': Pool, c: nat, bound: nat)
    requires StopMoves(s, s', c)
    ensures PoolWeight(s', bound) < PoolWeight(s, bound)
  {
    hide Total, SlotWeight, PoolWeight, CloseStep, StopsPipe;
    match s.stoppers[c]
    case ToPipes(left) =>
      if left == {} {
        StopperWeighsLess(s, s', c, AtPoolDone, bound);
      } else {
        var p: nat :| StopsPipe(s, s', c, left, p);
        StopsPipeWeighsLess(s, s', c, left, p, bound);
      }
    case InClose =>
      if CloseStep(s.sched, s'.sched) && s' == s.(sched := s'.sched) {
        CloseWeighsLess(s, s', bound);
      } else {
        StopperWeighsLess(s, s', c, Returned, bound);
      }
    case Joining(p, left) => StopperWeighsLess(s, s', c, ToPipes(left), bound);
    case AtPoolDone => StopperWeighsLess(s, s', c, AtClose, bound);
    case AtClose => StopperWeighsLess(s, s', c, s'.stoppers[c], bound);
  }

  lemma CancelWeighsLess(s: Pool, s': Pool, c: nat, bound: nat)
    requires CancelMoves(s, s', c)
    ensures PoolWeight(s', bound) < PoolWeight(s, bound)
  {
    hide Total, SlotWeight, SchedWeight;
    var k := s.cancellers[c];
    SectionWeight(s.slots, k.pipe, bound);
    TotalUpdate(CancellerWeight(), s.cancellers, c, s'.cancellers[c]);
  }

  /** Every step of a goroutine or a pending call leaves less to do. */
  lemma ProgressWeighsLess(s: Pool, s': Pool, bound: nat)
    requires Progress(s, s') && Bounded(s', bound)
    ensures PoolWeight(s', bound) < PoolWeight(s, bound)
  {
    hide PipelineMoves, Reports, LoopMoves, StopMoves, CancelMoves, Internal, Finish, Total, SchedWeight, Bounded;
    if p: nat, act: Act :| PipelineMoves(s, s', p, act) {
      PipelineWeighsLess(s, s', p, act, bound);
    } else if p: nat :| Reports(s, s', p) {
      ReportWeighsLess(s, s', p, bound);
    } else if LoopMoves(s, s') {
      LoopWeighsLess(s, s', bound);
    } else if c: nat :| StopMoves(s, s', c) {
      StopWeighsLess(s, s', c, bound);
    } else if c: nat :| CancelMoves(s, s', c) {
      CancelWeighsLess(s, s', c, bound);
    } else {
      WorksWeighsLess(s.sched, s'.sched);
    }
  }

  lemma {:induction false} FewStepsLeft(run: seq<Pool>, m: nat, bound: nat)
    requires m < |run| && forall i :: m <= i < |run| - 1 ==> Progress(run[i], run[i + 1])
    requires forall i :: m <= i < |run| ==> Bounded(run[i], bound)
    ensures |run| - 1 - m <= PoolWeight(run[m], bound)
    decreases |run| - m
  {
    hide Progress, Bounded, PoolWeight;
    if m < |run| - 1 {
      assert Progress(run[m], run[m + 1]);
      ProgressWeighsLess(run[m], run[m + 1], bound);
      FewStepsLeft(run, m + 1, bound);
    }
  }

  lemma StaysBounded(s: Pool, s': Pool, bound: nat)
    requires Bounded(s, bound) && NoNewUnits(s, s')
    ensures Bounded(s', bound)
  {
    forall p | 0 <= p < |s'.slots|
      ensures Taken(s'.slots[p]) <= bound
    {
      assert Taken(s.slots[p]) <= bound;
    }
  }

  /** Whatever a run did before m: if from then on no further call of Stop or Cancel begins and no builder gives more
      than bound units, the run has at most PoolWeight more steps, and it can go on until everything has ended. So every
      pending Stop and Cancel returns, without any assumption on which ready arm a select takes. */
  lemma EveryoneReturns(run: seq<Pool>, k: nat, normal: nat, reserved: nat, finalizer: bool, m: nat, bound: nat)
    requires PoolRun(run, k, normal, reserved, finalizer) && m < |run|
    requires forall i :: m <= i < |run| - 1 ==> Progress(run[i], run[i + 1])
    requires forall i :: m <= i < |run| ==> Bounded(run[i], bound)
    ensures |run| - 1 - m <= PoolWeight(run[m], bound)
    ensures AllEnded(run[|run| - 1]) || exists s' :: Progress(run[|run| - 1], s') && Bounded(s', bound)
  {
    hide Progress, Bounded, PoolWeight, PoolNext, PoolInit, NoNewUnits, AllEnded;
    FewStepsLeft(run, m, bound);
    var s := run[|run| - 1];
    NeverDeadlocks(run, k, normal, reserved, finalizer, |run| - 1);
    if !AllEnded(s) {
      var s' :| Advances(s, s');
      StaysBounded(s, s', bound);
      assert Progress(s, s') && Bounded(s', bound);
    }
  }

  // ----- a stopped pipeline -----

  /** How far a stopped pipeline is from its end, if its stop is taken wherever it waits. */
  function StopRank(d: Sched<Job>, p: nat, a: Slot): nat
  {
    match a.control
    case AtNext => 10
    case AtSubmit => 9
    case AtTick => 8
    case AtAwait => 8
    case AtErrorTick => 8
    case AtFinalize => 7
    case AtResult => if Finalize(p) in d.delivered then 4 else 6
    case AtClearStop => 3
    case AtCloseTicks => 2
    case AtCloseDone => 1
    case Exited => 0
  }

  /** A step of the pipeline's own goroutine, or the end of its Finalize. */
  ghost predicate OwnStep(s: Pool, s': Pool, p: nat)
  {
    || (exists act :: PipelineMoves(s, s', p, act))
    || (s' == s.(sched := s'.sched) &&
        exists i: nat :: Finish(s.sched, s'.sched, i) && s.sched.tasks[i].item.job == Finalize(p))
  }

  lemma MoveOwn(s: Pool, p: nat, b: Slot, act: Act, d': Sched<Job>) returns (s': Pool)
    requires p < |s.slots| && SlotStep(p, s.slots[p], b, act) && Does(s.sched, d', act)
    ensures OwnStep(s, s', p) && s'.sched == d' && |s'.slots| == |s.slots| && s'.slots[p] == b
  {
    hide SlotStep, Does;
    s' := s.(sched := d', slots := s.slots[p := b]);
    assert PipelineMoves(s, s', p, act);
  }

  /** The Finalize of a pipeline that waits for it is running, if it is not done and not queued. */
  lemma FinalizeRuns(s: Pool, p: nat) returns (i: nat)
    requires PoolInv(s) && p < |s.slots| && s.slots[p].control == AtResult && Finalize(p) !in s.sched.delivered
    requires Order(Finalize(p)) !in s.sched.queue
    ensures i < |s.sched.tasks| && s.sched.tasks[i].item.job == Finalize(p) && s.sched.tasks[i].phase == Running
  {
    hide Conserved, Stuck, NoDup, CancelInv, StopInv, SlotsInv, LoopInv, AcceptedInv, LoopJobs;
    var d := s.sched;
    assert SlotJobs(d, p, s.slots[p]);
    assert Order(Finalize(p)) in multiset(d.accepted);
    assert Order(Finalize(p)) in TaskItems(d.tasks);
    i :| 0 <= i < |d.tasks| && TaskItems(d.tasks)[i] == Order(Finalize(p));
    assert !Resolved(d, Finalize(p));
  }

  lemma FinalizeEnds(s: Pool, p: nat) returns (s': Pool)
    requires PoolInv(s) && p < |s.slots| && s.slots[p].control == AtResult && Finalize(p) !in s.sched.delivered
    requires Order(Finalize(p)) !in s.sched.queue
    ensures OwnStep(s, s', p) && s'.slots == s.slots && Finalize(p) in s'.sched.delivered
  {
    hide PoolInv, Inv, Finish;
    var i := FinalizeRuns(s, p);
    ScheduledInv(s);
    var d' := TaskMoves(s.sched, i);
    s' := s.(sched := d');
    FinishDelivers(s.sched, d', i);
  }

  lemma FinishDelivers(d: Sched<Job>, d': Sched<Job>, i: nat)
    requires Finish(d, d', i)
    ensures d.tasks[i].item.job in d'.delivered
  {
  }

  /** Up to the submission of Finalize the stop is all a pipeline needs. */
  lemma StoppedMoves(s: Pool, p: nat) returns (s': Pool)
    requires PoolInv(s) && p < |s.slots| && s.slots[p].stopCloses > 0 && Stage(s.slots[p].control) <= 1
    ensures OwnStep(s, s', p) && |s'.slots| == |s.slots|
    ensures StopRank(s'.sched, p, s'.slots[p]) < StopRank(s.sched, p, s.slots[p])
  {
    hide PoolInv, OwnStep, Does;
    var a, d := s.slots[p], s.sched;
    SlotFacts(s, p);
    SubmissionsAreFresh(s, p);
    QuietDoes(d);
    match a.control
    case AtNext => s' := MoveOwn(s, p, a.(control := AtTick), Quiet, d);
    case AtSubmit =>
      var d' := SubmitPossible(d, Unit(p, a.units));
      s' := MoveOwn(s, p, a.(control := AtAwait, units := a.units + 1), Submit(Unit(p, a.units)), d');
    case AtFinalize =>
      var d' := SubmitPossible(d, Finalize(p));
      s' := MoveOwn(s, p, a.(control := AtResult), Submit(Finalize(p)), d');
    case _ => s' := MoveOwn(s, p, a.(control := AtFinalize), Quiet, d);
  }

  /** From then on its Finalize is, if it does not wait in the queue. */
  lemma CleanupMoves(s: Pool, p: nat) returns (s': Pool)
    requires PoolInv(s) && p < |s.slots| && Stage(s.slots[p].control) > 1 && !Finished(s.slots[p])
    requires Order(Finalize(p)) !in s.sched.queue
    ensures OwnStep(s, s', p) && |s'.slots| == |s.slots|
    ensures StopRank(s'.sched, p, s'.slots[p]) < StopRank(s.sched, p, s.slots[p])
  {
    hide PoolInv, OwnStep, Does;
    var a, d := s.slots[p], s.sched;
    QuietDoes(d);
    match a.control
    case AtResult =>
      if Finalize(p) in d.delivered {
        ReceiveDoes(d, Finalize(p));
        s' := MoveOwn(s, p, a.(control := AtClearStop), Receive(Finalize(p)), d);
      } else {
        s' := FinalizeEnds(s, p);
      }
    case AtClearStop => s' := MoveOwn(s, p, a.(control := AtCloseTicks, stopSet := false), Quiet, d);
    case AtCloseTicks => s' := MoveOwn(s, p, a.(control := AtCloseDone), Quiet, d);
    case AtCloseDone => s' := MoveOwn(s, p, a.(control := Exited), Quiet, d);
  }

  /** A caller of Stop or Cancel has been through the critical section that stops the pipeline, and waits for it. */
  ghost predicate Joined(s: Pool, p: nat)
  {
    || (exists c: nat :: c < |s.stoppers| && s.stoppers[c].Joining? && s.stoppers[c].pipe == p)
    || (exists c: nat :: c < |s.cancellers| && s.cancellers[c].pipe == p && s.cancellers[c].at == ToJoin)
  }

  /** Whoever waits for a pipeline has stopped it: its stop channel is closed, exactly once, or it is on its way out. */
  lemma JoinedIsStopped(run: seq<Pool>, k: nat, normal: nat, reserved: nat, finalizer: bool, n: nat, p: nat)
    requires PoolRun(run, k, normal, reserved, finalizer) && n < |run| && Joined(run[n], p)
    ensures p < |run[n].slots| && (run[n].slots[p].stopCloses == 1 || Stage(run[n].slots[p].control) >= 4)
  {
    hide PoolRun, Inv, LoopInv, AcceptedInv, SlotsJobs, LoopJobs, FinishedBut;
    RunPoolInv(run, k, normal, reserved, finalizer, n);
    var s := run[n];
    if c: nat :| c < |s.stoppers| && s.stoppers[c].Joining? && s.stoppers[c].pipe == p {
      assert StopperInv(s, s.stoppers[c]);
    } else {
      var c: nat :| c < |s.cancellers| && s.cancellers[c].pipe == p && s.cancellers[c].at == ToJoin;
      assert CancellerInv(s, s.cancellers[c]);
    }
    assert SlotInv(s.slots[p]);
  }

  /** With a reserved worker for each pipeline, a pipeline that a caller of Stop or Cancel waits for always has a step
      towards its end that is its own or the end of its Finalize: no unit function has to return. */
  lemma StopNeedsNoUnits(run: seq<Pool>, k: nat, normal: nat, reserved: nat, finalizer: bool, n: nat, p: nat) returns (s': Pool)
    requires PoolRun(run, k, normal, reserved, finalizer) && n < |run| && reserved >= k
    requires Joined(run[n], p)
    ensures p < |run[n].slots| == |s'.slots|
    ensures !Finished(run[n].slots[p]) ==>
              OwnStep(run[n], s', p) && StopRank(s'.sched, p, s'.slots[p]) < StopRank(run[n].sched, p, run[n].slots[p])
  {
    hide PoolRun, PoolInv, OwnStep, StopRank, Joined;
    RunPoolInv(run, k, normal, reserved, finalizer, n);
    JoinedIsStopped(run, k, normal, reserved, finalizer, n, p);
    var s := run[n];
    s' := s;
    if Finished(s.slots[p]) {
    } else if Stage(s.slots[p].control) <= 1 {
      s' := StoppedMoves(s, p);
    } else {
      forall x | x in s.sched.queue
        ensures x != Order(Finalize(p))
      {
        FinalizeNeverWaits(run, k, normal, reserved, finalizer, n, x);
      }
      s' := CleanupMoves(s, p);
    }
  }

  lemma QuietDoes(d: Sched<Job>)
    ensures Does(d, d, Quiet)
  {
  }

  lemma ReceiveDoes(d: Sched<Job>, j: Job)
    requires j in d.delivered
    ensures Does(d, d, Receive(j))
  {
  }

  /** Why builders must end: a stopped pipeline whose ticks are still received may pass over its stop in both selects and
      come back for the next unit, as often as its builder gives one and the unit is answered. */
  lemma StopMayBePassedOver(p: nat, a: Slot) returns (b: Slot, c: Slot, d: Slot)
    requires a.control == AtNext && a.stopCloses > 0 && a.drain == Ranging && a.ending == InUnits
    ensures SlotStep(p, a, b, Quiet) && SlotStep(p, b, c, Quiet) && SlotStep(p, c, d, Submit(Unit(p, a.units)))
    ensures SlotStep(p, d, a.(units := a.units + 1), Receive(Unit(p, a.units)))
  {
    b := a.(control := AtTick);
    c := a.(control := AtSubmit);
    d := a.(control := AtAwait, units := a.units + 1);
  }
}
