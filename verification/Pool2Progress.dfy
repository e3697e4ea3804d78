/** A pool never deadlocks: in every reachable state some goroutine can move, or all of them have ended. */
module Pool2Progress {
  import opened DispatchLaws
  import opened SchedulerProtocol
  import opened SchedulerProgress
  import opened Pool2Protocol
  import opened Pool2Invariant
  import opened Pool2Results

  /** How many units the pipeline has taken from its builder and not dropped. */
  function Taken(a: Slot): nat { a.units + if a.control == AtTick || a.control == AtSubmit then 1 else 0 }

  /** No builder is asked for more. */
  ghost predicate NoNewUnits(s: Pool, s': Pool)
  {
    |s'.slots| == |s.slots| && forall p :: 0 <= p < |s.slots| ==> Taken(s'.slots[p]) <= Taken(s.slots[p])
  }

  ghost predicate Advances(s: Pool, s': Pool) { Progress(s, s') && NoNewUnits(s, s') }

  lemma SameWorkNoNewUnits(s: Pool, s': Pool)
    requires SameWork(s.slots, s'.slots)
    ensures NoNewUnits(s, s')
  {
  }

  lemma SchedulerOpen(s: Pool)
    requires PoolInv(s) && s.loop != LoopExited
    ensures LoopAlive(s.sched) && s.sched.closing == Open
  {
    hide Inv, SlotsInv, LoopInv, AcceptedInv, SlotsJobs, LoopJobs, CancelInv;
  }

  lemma MoveSlot(s: Pool, p: nat, b: Slot, act: Act, d': Sched<Job>) returns (s': Pool)
    requires p < |s.slots| && SlotStep(p, s.slots[p], b, act) && Does(s.sched, d', act) && Taken(b) <= Taken(s.slots[p])
    ensures Advances(s, s')
  {
    hide SlotStep, Does;
    s' := s.(sched := d', slots := s.slots[p := b]);
    assert PipelineMoves(s, s', p, act);
  }

  lemma SubmitPossible(d: Sched<Job>, j: Job) returns (d': Sched<Job>)
    requires LoopAlive(d) && Fresh(d, j)
    ensures Does(d, d', Submit(j))
  {
    hide Fresh, Accept;
    d' := AcceptPossible(d, Order(j));
  }

  /** A pipeline that has not finished can move, if what it waits for has been delivered. */
  lemma PipelineCanMove(s: Pool, p: nat) returns (s': Pool)
    requires PoolInv(s) && Settled(s.sched) && p < |s.slots| && !Finished(s.slots[p])
    ensures Advances(s, s')
  {
    hide Inv, SlotsInv, LoopInv, AcceptedInv, SlotsJobs, LoopJobs, CancelInv, StopInv, Advances, Does, Settled;
    var a := s.slots[p];
    SlotFacts(s, p);
    SubmissionsAreFresh(s, p);
    match a.control
    case AtNext => s' := Quietly(s, p, a.(control := AtFinalize, ending := Exhausted));
    case AtTick => s' := Quietly(s, p, a.(control := AtSubmit));
    case AtSubmit =>
      var d' := SubmitPossible(s.sched, Unit(p, a.units));
      s' := MoveSlot(s, p, a.(control := AtAwait, units := a.units + 1), Submit(Unit(p, a.units)), d');
    case AtAwait =>
      SettledDelivers(s.sched, Order(Unit(p, a.units - 1)));
      s' := Received(s, p, a.(control := AtNext), Unit(p, a.units - 1));
    case AtErrorTick => s' := Quietly(s, p, a.(control := AtFinalize));
    case AtFinalize =>
      var d' := SubmitPossible(s.sched, Finalize(p));
      s' := MoveSlot(s, p, a.(control := AtResult), Submit(Finalize(p)), d');
    case AtResult =>
      SettledDelivers(s.sched, Order(Finalize(p)));
      s' := Received(s, p, a.(control := AtClearStop), Finalize(p));
    case AtClearStop => s' := Quietly(s, p, a.(control := AtCloseTicks, stopSet := false));
    case AtCloseTicks => s' := Quietly(s, p, a.(control := AtCloseDone));
    case AtCloseDone => s' := Quietly(s, p, a.(control := Exited));
  }

  lemma Quietly(s: Pool, p: nat, b: Slot) returns (s': Pool)
    requires p < |s.slots| && SlotStep(p, s.slots[p], b, Quiet) && Taken(b) <= Taken(s.slots[p])
    ensures Advances(s, s')
  {
    hide SlotStep, Advances;
    s' := MoveSlot(s, p, b, Quiet, s.sched);
  }

  lemma Received(s: Pool, p: nat, b: Slot, j: Job) returns (s': Pool)
    requires p < |s.slots| && SlotStep(p, s.slots[p], b, Receive(j)) && j in s.sched.delivered && Taken(b) <= Taken(s.slots[p])
    ensures Advances(s, s')
  {
    hide SlotStep, Advances;
    s' := MoveSlot(s, p, b, Receive(j), s.sched);
  }

  /** What the invariant says of a pipeline that has not come to its last steps. */
  lemma SlotFacts(s: Pool, p: nat)
    requires PoolInv(s) && p < |s.slots|
    ensures Inv(s.sched) && SlotJobs(s.sched, p, s.slots[p])
    ensures Stage(s.slots[p].control) < 5 ==> s.slots[p].drain == Ranging && LoopAlive(s.sched)
  {
    hide Inv, AcceptedInv, LoopJobs, CancelInv, StopInv, Count;
    assert SlotInv(s.slots[p]);
    if s.loop == LoopExited {
      AllReported(s, p);
    } else {
      SchedulerOpen(s);
    }
  }

  /** The event loop can move when all have reported. */
  lemma LoopCanMove(s: Pool) returns (s': Pool)
    requires PoolInv(s) && Settled(s.sched) && !s.loop.Waiting? && s.loop != LoopExited
    ensures Advances(s, s')
  {
    hide Inv, SlotsInv, LoopInv, AcceptedInv, SlotsJobs, CancelInv, StopInv, Does, Settled;
    SchedulerOpen(s);
    match s.loop
    case AtPoolFinalize =>
      SubmissionsAreFresh(s, 0);
      var d' := SubmitPossible(s.sched, FinalizePool);
      s' := s.(sched := d', loop := AtPoolResult);
      assert LoopMoves(s, s');
    case AtPoolResult =>
      HasFinalizer(s);
      SettledDelivers(s.sched, Order(FinalizePool));
      s' := s.(loop := AtClosePool);
      assert LoopMoves(s, s');
    case AtClosePool =>
      s' := s.(loop := LoopExited);
      assert LoopMoves(s, s');
  }

  lemma HasFinalizer(s: Pool)
    requires LoopInv(s) && s.loop == AtPoolResult
    ensures s.finalizer
  {
  }

  lemma WorkMoves(s: Pool, d': Sched<Job>) returns (s': Pool)
    requires Works(s.sched, d')
    ensures Advances(s, s')
  {
    hide Internal, Finish;
    s' := s.(sched := d');
    assert FunctionEnds(s, s') || SchedulerMoves(s, s');
  }

  lemma SetStopperMoves(s: Pool, s': Pool, c: nat)
    requires StopMoves(s, s', c)
    ensures Advances(s, s')
  {
    hide StopMoves, SameWork;
    StopSameWork(s, s', c);
    SameWorkNoNewUnits(s, s');
  }

  /** A caller of Stop can move, or another one inside the once can, or a worker goroutine can, when the event loop
      has ended. */
  lemma StopperCanMove(s: Pool, c: nat) returns (s': Pool)
    requires PoolInv(s) && s.loop == LoopExited && c < |s.stoppers| && s.stoppers[c] != Returned
    requires forall p :: 0 <= p < |s.slots| ==> Finished(s.slots[p])
    ensures Advances(s, s')
  {
    hide Inv, SlotsInv, LoopInv, AcceptedInv, SlotsJobs, LoopJobs, CancelInv, Advances, CloseStep, FinishedBut;
    assert StopperInv(s, s.stoppers[c]);
    match s.stoppers[c]
    case ToPipes(left) =>
      if left == {} {
        s' := SetStopper(s, c, AtPoolDone);
      } else {
        var p :| p in left;
        s' := SetStopper(s, c, Joining(p, left - {p})).(slots := s.slots[p := StopSection(s.slots[p])]);
        assert StopsPipe(s, s', c, left, p);
      }
      SetStopperMoves(s, s', c);
    case Joining(p, left) =>
      s' := SetStopper(s, c, ToPipes(left));
      SetStopperMoves(s, s', c);
    case AtPoolDone =>
      s' := SetStopper(s, c, AtClose);
      SetStopperMoves(s, s', c);
    case _ =>
      s' := CloserCanMove(s, c);
  }

  lemma CloserCanMove(s: Pool, c: nat) returns (s': Pool)
    requires PoolInv(s) && c < |s.stoppers| && (s.stoppers[c] == AtClose || s.stoppers[c] == InClose)
    ensures Advances(s, s')
  {
    hide Inv, SlotsInv, LoopInv, AcceptedInv, SlotsJobs, LoopJobs, CancelInv, Advances, CloseStep, StopperInv;
    if s.sched.closing == Closed {
      s' := SetStopper(s, c, Returned);
      SetStopperMoves(s, s', c);
    } else if s.stoppers[c] == AtClose && !s.onceTaken {
      s' := SetStopper(s, c, InClose).(onceTaken := true);
      SetStopperMoves(s, s', c);
    } else {
      var e: nat :| e < |s.stoppers| && s.stoppers[e] == InClose;
      s' := CloseMoves(s, e);
    }
  }

  lemma CloseMoves(s: Pool, c: nat) returns (s': Pool)
    requires PoolInv(s) && c < |s.stoppers| && s.stoppers[c] == InClose && s.sched.closing != Closed
    ensures Advances(s, s')
  {
    hide Inv, SlotsInv, LoopInv, AcceptedInv, SlotsJobs, LoopJobs, CancelInv, Advances, StopperInv;
    if s.sched.closing == Stopping && !AllGone(s.sched) {
      var d' := TasksMoveOn(s.sched);
      s' := WorkMoves(s, d');
    } else {
      var next := match s.sched.closing case Open => Cancelled case Cancelled => Stopping case _ => Closed;
      s' := s.(sched := s.sched.(closing := next));
      assert CloseStep(s.sched, s'.sched);
      SetStopperMoves(s, s', c);
    }
  }

  lemma CancellerCanMove(s: Pool, c: nat) returns (s': Pool)
    requires PoolInv(s) && c < |s.cancellers| && s.cancellers[c].at != CancelReturned
    requires Finished(s.slots[s.cancellers[c].pipe])
    ensures Advances(s, s')
  {
    hide PoolInv, CancelMoves, Reports, PipelineMoves, CancelLeft, Advances;
    s' := CancelReturns(s, c);
    if CancelMoves(s, s', c) {
      CancelAdvances(s, s', c);
    } else {
      DrainProgress(s, s', s.cancellers[c].pipe);
    }
  }

  lemma CancelAdvances(s: Pool, s': Pool, c: nat)
    requires CancelMoves(s, s', c)
    ensures Advances(s, s')
  {
    hide CancelMoves, SameWork;
    CancelSameWork(s, s', c);
    SameWorkNoNewUnits(s, s');
  }

  /** Everything the pool started and every call of Stop and Cancel has ended. */
  ghost predicate AllEnded(s: Pool)
  {
    && s.loop == LoopExited && AllGone(s.sched)
    && (forall p :: 0 <= p < |s.slots| ==> Finished(s.slots[p]) && s.slots[p].drain == Reported)
    && (forall c :: 0 <= c < |s.stoppers| ==> s.stoppers[c] == Returned)
    && (forall c :: 0 <= c < |s.cancellers| ==> s.cancellers[c].at == CancelReturned)
  }

  lemma CancellersOnSlots(s: Pool)
    requires PoolInv(s)
    ensures forall c :: 0 <= c < |s.cancellers| ==> s.cancellers[c].pipe < |s.slots|
  {
    hide Inv, SlotsInv, LoopInv, AcceptedInv, SlotsJobs, LoopJobs, StopInv;
    forall c | 0 <= c < |s.cancellers|
      ensures s.cancellers[c].pipe < |s.slots|
    {
      assert CancellerInv(s, s.cancellers[c]);
    }
  }

  /** The goroutines of the pool move while the event loop has not ended. */
  lemma BeforeLoopExits(s: Pool) returns (s': Pool)
    requires PoolInv(s) && s.loop != LoopExited && s.sched.normal >= 1
    ensures Advances(s, s')
  {
    hide Inv, SlotsInv, AcceptedInv, SlotsJobs, LoopJobs, CancelInv, StopInv, Advances, Settled, Works, LoopInv;
    SchedulerOpen(s);
    if !Settled(s.sched) {
      var d' := MovesOrSettled(s.sched);
      s' := WorkMoves(s, d');
    } else if p: nat :| p < |s.slots| && !Finished(s.slots[p]) {
      s' := PipelineCanMove(s, p);
    } else if s.loop.Waiting? {
      var p := Unreporting(s);
      s' := DrainMoves(s, p);
      DrainProgress(s, s', p);
    } else {
      s' := LoopCanMove(s);
    }
  }

  lemma Unreporting(s: Pool) returns (p: nat)
    requires LoopInv(s) && s.loop.Waiting?
    ensures p < |s.slots| && s.slots[p].drain != Reported
  {
    hide Count;
    var a := CountWitness(Unreported(), s.slots);
    p :| 0 <= p < |s.slots| && s.slots[p] == a;
  }

  lemma DrainProgress(s: Pool, s': Pool, p: nat)
    requires Reports(s, s', p) || (PipelineMoves(s, s', p, Quiet) && DrainStep(s.slots[p], s'.slots[p], Quiet))
    ensures Advances(s, s')
  {
    if Reports(s, s', p) {
      hide Reports, SameWork;
      CancelSameWork(s, s', p);
      SameWorkNoNewUnits(s, s');
    } else {
      assert SameWork(s.slots, s'.slots);
      hide PipelineMoves;
    }
  }

  /** In every reachable state some goroutine of the pool, the scheduler or a pending call can move, taking it that a
      started function ends, and no builder needs to give another unit for it; or everything has ended. So no call of
      Stop or Cancel hangs for want of a step. */
  lemma NeverDeadlocks(run: seq<Pool>, k: nat, normal: nat, reserved: nat, finalizer: bool, n: nat)
    requires PoolRun(run, k, normal, reserved, finalizer) && n < |run|
    ensures AllEnded(run[n]) || exists s' :: Advances(run[n], s')
  {
    hide PoolInv, PoolNext, Advances, Works;
    RunPoolInv(run, k, normal, reserved, finalizer, n);
    var s := run[n];
    if s.loop != LoopExited {
      var s' := BeforeLoopExits(s);
    } else if !AllGone(s.sched) {
      ScheduledInv(s);
      var d' := TasksMoveOn(s.sched);
      var s' := WorkMoves(s, d');
    } else {
      EndedOrMoves(s);
    }
  }

  lemma ScheduledInv(s: Pool)
    requires PoolInv(s)
    ensures Inv(s.sched) && SlotsInv(s) && LoopInv(s)
  {
  }

  lemma LastStep(s: Pool, p: nat) returns (s': Pool)
    requires PoolInv(s) && s.loop == LoopExited && p < |s.slots| && !Finished(s.slots[p])
    ensures Advances(s, s')
  {
    hide PoolInv, Advances, SlotsInv, LoopInv, Inv;
    ScheduledInv(s);
    AllReported(s, p);
    s' := Quietly(s, p, s.slots[p].(control := Exited));
  }

  lemma EndedOrMoves(s: Pool)
    requires PoolInv(s) && s.loop == LoopExited && AllGone(s.sched)
    ensures AllEnded(s) || exists s' :: Advances(s, s')
  {
    hide PoolInv, Advances, SlotsInv, LoopInv, Inv;
    ScheduledInv(s);
    CancellersOnSlots(s);
    if p: nat :| p < |s.slots| && !Finished(s.slots[p]) {
      var s' := LastStep(s, p);
    } else if c: nat :| c < |s.stoppers| && s.stoppers[c] != Returned {
      var s' := StopperCanMove(s, c);
    } else if c: nat :| c < |s.cancellers| && s.cancellers[c].at != CancelReturned {
      var s' := CancellerCanMove(s, c);
    } else {
      forall p | 0 <= p < |s.slots|
        ensures s.slots[p].drain == Reported
      {
        AllReported(s, p);
      }
    }
  }
}
