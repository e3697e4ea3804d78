/** The invariant of Pool2: pipelines, the event loop, cancel channels, the callers of Stop and Cancel, and the
    scheduler's ledger fit together in every reachable state. */
module Pool2Invariant {
  import opened Wrappers
  import opened Dispatch
  import opened DispatchLaws
  import opened SchedulerProtocol
  import opened SchedulerLaws
  import opened Pool2Protocol
  import opened Pool2Laws

  // ----- the parts -----

  /** Its stop channel was closed, or it has forgotten it on its way out. */
  predicate Stopped(a: Slot) { a.stopCloses > 0 || Stage(a.control) >= 4 }

  /** A stop channel is closed at most once, and forgotten only when it was or the pipeline is on its way out; a pipeline
      leaves its units for a reason; it reports only after its ticks are closed, and is done exactly when the report was
      received. */
  predicate SlotInv(a: Slot)
  {
    && a.stopCloses + (if a.stopSet then 1 else 0) <= 1
    && (a.stopSet || Stopped(a))
    && (PastUnits(a) ==> a.ending != InUnits || a.stopCloses > 0)
    && (a.ending != InUnits ==> PastUnits(a))
    && (Stage(a.control) >= 4 ==> !a.stopSet)
    && (a.drain != Ranging ==> TicksClosed(a))
    && (a.done <==> a.drain == Reported)
  }

  ghost predicate SlotsInv(s: Pool) { forall p :: 0 <= p < |s.slots| ==> SlotInv(s.slots[p]) }

  function Unreported(): Slot -> bool { (a: Slot) => a.drain != Reported }

  /** The event loop waits for exactly the pipelines that have not reported. */
  ghost predicate LoopInv(s: Pool)
  {
    && (s.loop.Waiting? ==> s.loop.remaining == Count(Unreported(), s.slots) > 0)
    && (!s.loop.Waiting? ==> Count(Unreported(), s.slots) == 0)
    && (LoopStage(s.loop) == 1 || LoopStage(s.loop) == 2 ==> s.finalizer)
  }

  /** An accepted item was submitted by the goroutine that should, at the priority it should have. */
  ghost predicate Known(s: Pool, x: Item<Job>)
  {
    && x.priority == Priority(x.job)
    && match x.job
       case Unit(p, i) => p < |s.slots| && i < s.slots[p].units
       case Finalize(p) => p < |s.slots| && Submitted(s.slots[p])
       case FinalizePool => s.finalizer && LoopStage(s.loop) >= 2
  }

  ghost predicate AcceptedInv(s: Pool) { s.sched.refused == [] && forall x :: x in s.sched.accepted ==> Known(s, x) }

  /** What a pipeline has submitted is with the scheduler, and what it has received was delivered. */
  ghost predicate SlotJobs(d: Sched<Job>, p: nat, a: Slot)
  {
    && (Submitted(a) ==> Order(Finalize(p)) in d.accepted)
    && (Finalized(a) ==> Finalize(p) in d.delivered)
    && (a.control == AtAwait ==> a.units > 0 && Order(Unit(p, a.units - 1)) in d.accepted)
    && (forall i: nat :: i + 1 < a.units ==> Unit(p, i) in d.delivered)
    && (a.units > 0 && BetweenUnits(a) ==> Unit(p, a.units - 1) in d.delivered)
  }

  /** The last unit submitted has been answered. */
  predicate BetweenUnits(a: Slot)
  {
    a.control == AtNext || a.control == AtTick || a.control == AtSubmit || a.control == AtErrorTick
  }

  ghost predicate SlotsJobs(d: Sched<Job>, slots: seq<Slot>)
  {
    forall p :: 0 <= p < |slots| ==> SlotJobs(d, p, slots[p])
  }

  ghost predicate LoopJobs(s: Pool)
  {
    && (s.finalizer && LoopStage(s.loop) >= 2 ==> Order(FinalizePool) in s.sched.accepted)
    && (s.finalizer && LoopStage(s.loop) >= 3 ==> FinalizePool in s.sched.delivered)
  }

  ghost predicate OwnsChannel(s: Pool, p: nat, a: Slot)
  {
    a.cancel.Some? ==> a.cancel.value < |s.chans| && s.chans[a.cancel.value].pipe == p
  }

  ghost predicate ChannelInv(s: Pool, c: nat, ch: Channel)
  {
    && ch.pipe < |s.slots| && s.slots[ch.pipe].cancel == Some(c)
    && ch.closes == if s.slots[ch.pipe].done then 1 else 0
  }

  ghost predicate CancellerInv(s: Pool, k: Canceller)
  {
    && k.pipe < |s.slots| && k.chan < |s.chans| && s.chans[k.chan].pipe == k.pipe
    && (k.at == ToJoin ==> Stopped(s.slots[k.pipe]))
    && (k.at == ToReceive || k.at == CancelReturned ==> Finished(s.slots[k.pipe]))
    && (k.at == CancelReturned ==> s.chans[k.chan].closes > 0)
  }

  /** Every pipeline has at most one cancel channel, it is closed once, with the done mark, and every waiting Cancel
      waits on the channel of its pipeline. */
  ghost predicate CancelInv(s: Pool)
  {
    && (forall p :: 0 <= p < |s.slots| ==> OwnsChannel(s, p, s.slots[p]))
    && (forall c :: 0 <= c < |s.chans| ==> ChannelInv(s, c, s.chans[c]))
    && (forall c :: 0 <= c < |s.cancellers| ==> CancellerInv(s, s.cancellers[c]))
  }

  ghost predicate FinishedBut(s: Pool, left: set<nat>)
  {
    forall p :: 0 <= p < |s.slots| && p !in left ==> Finished(s.slots[p])
  }

  ghost predicate StopperInv(s: Pool, t: Stopper)
  {
    match t
    case ToPipes(left) => left <= Pipes(|s.slots|) && FinishedBut(s, left)
    case Joining(p, left) =>
      p < |s.slots| && Stopped(s.slots[p]) && left <= Pipes(|s.slots|) && FinishedBut(s, left + {p})
    case AtPoolDone => FinishedBut(s, {})
    case AtClose => s.loop == LoopExited
    case InClose => s.loop == LoopExited && s.onceTaken
    case Returned => s.loop == LoopExited && s.sched.closing == Closed
  }

  /** The scheduler is closed by nobody before the event loop has ended, and by one caller of Stop. */
  ghost predicate StopInv(s: Pool)
  {
    && (forall c :: 0 <= c < |s.stoppers| ==> StopperInv(s, s.stoppers[c]))
    && (s.sched.closing != Open ==> s.loop == LoopExited && s.onceTaken)
    && (s.onceTaken && s.sched.closing != Closed ==> InClose in s.stoppers)
    && OneCloser(s.stoppers)
  }

  /** At most one caller is inside the once. */
  ghost predicate OneCloser(ts: seq<Stopper>) { forall i, j :: 0 <= i < j < |ts| ==> ts[i] != InClose || ts[j] != InClose }

  ghost predicate PoolInv(s: Pool)
  {
    && Inv(s.sched) && SlotsInv(s) && LoopInv(s) && AcceptedInv(s) && SlotsJobs(s.sched, s.slots) && LoopJobs(s)
    && CancelInv(s) && StopInv(s)
  }

  // ----- the scheduler inside -----

  lemma SchedulerSteps(s: Pool, s': Pool)
    requires PoolNext(s, s')
    ensures s'.sched == s.sched || Next(s.sched, s'.sched)
  {
    hide SlotStep, Accept, Refuse, Finish, Internal, CloseStep, CancelBegins, CancelMoves, Reports, StopsPipe;
    if p: nat, act: Act :| PipelineMoves(s, s', p, act) {
    } else if p: nat :| Reports(s, s', p) {
      NoSchedulerStep(s, s');
    } else if c: nat :| CancelMoves(s, s', c) {
      NoSchedulerStep(s, s');
    } else if p: nat :| CancelBegins(s, s', p) {
      NoSchedulerStep(s, s');
    } else if c: nat :| StopMoves(s, s', c) {
      StopSchedulerStep(s, s', c);
    }
  }

  lemma StopSchedulerStep(s: Pool, s': Pool, c: nat)
    requires StopMoves(s, s', c)
    ensures s'.sched == s.sched || CloseStep(s.sched, s'.sched)
  {
    hide CloseStep;
  }

  lemma NoSchedulerStep(s: Pool, s': Pool)
    requires (exists p :: Reports(s, s', p)) || (exists c :: CancelMoves(s, s', c)) || (exists p :: CancelBegins(s, s', p))
    ensures s'.sched == s.sched
  {
  }

  lemma SchedulerKeepsInv(s: Pool, s': Pool)
    requires Inv(s.sched) && PoolNext(s, s')
    ensures Inv(s'.sched) && SameConfig(s.sched, s'.sched)
  {
    hide Inv, PoolNext, Next;
    SchedulerSteps(s, s');
    if s'.sched != s.sched {
      NextInv(s.sched, s'.sched);
    }
  }

  // ----- slots and event loop -----

  lemma SlotStepKeeps(p: nat, a: Slot, b: Slot, act: Act)
    requires SlotInv(a) && SlotStep(p, a, b, act)
    ensures SlotInv(b) && (b.drain == Reported <==> a.drain == Reported)
  {
  }

  lemma SlotsUpdate(s: Pool, s': Pool, p: nat)
    requires SlotsInv(s) && p < |s.slots| == |s'.slots| && s'.slots == s.slots[p := s'.slots[p]] && SlotInv(s'.slots[p])
    ensures SlotsInv(s')
  {
  }

  lemma UnreportedUpdate(s: seq<Slot>, p: nat, b: Slot)
    requires p < |s| && (b.drain == Reported <==> s[p].drain == Reported)
    ensures Count(Unreported(), s[p := b]) == Count(Unreported(), s)
  {
    CountUpdate(Unreported(), s, p, b);
  }

  lemma PipelineKeepsSlots(s: Pool, s': Pool, p: nat, act: Act)
    requires SlotsInv(s) && LoopInv(s) && PipelineMoves(s, s', p, act)
    ensures SlotsInv(s') && LoopInv(s')
  {
    hide SlotStep, Does, Count, SlotInv;
    SlotStepKeeps(p, s.slots[p], s'.slots[p], act);
    SlotsUpdate(s, s', p);
    UnreportedUpdate(s.slots, p, s'.slots[p]);
  }

  lemma ReportKeepsSlots(s: Pool, s': Pool, p: nat)
    requires SlotsInv(s) && LoopInv(s) && Reports(s, s', p)
    ensures SlotsInv(s') && LoopInv(s')
  {
    hide Count;
    SlotsUpdate(s, s', p);
    CountUpdate(Unreported(), s.slots, p, s'.slots[p]);
  }

  lemma StopSectionKeepsSlots(s: Pool, s': Pool, p: nat)
    requires SlotsInv(s) && LoopInv(s) && s'.loop == s.loop && s'.finalizer == s.finalizer
    requires p < |s.slots| && s'.slots == s.slots[p := StopSection(s.slots[p])]
    ensures SlotsInv(s') && LoopInv(s')
  {
    hide Count;
    SlotsUpdate(s, s', p);
    UnreportedUpdate(s.slots, p, s'.slots[p]);
  }

  lemma StopKeepsSlots(s: Pool, s': Pool, c: nat)
    requires SlotsInv(s) && LoopInv(s) && StopMoves(s, s', c)
    ensures SlotsInv(s') && LoopInv(s')
  {
    hide Count, SlotInv, CloseStep;
    match s.stoppers[c]
    case ToPipes(left) =>
      if left != {} {
        var p: nat :| StopsPipe(s, s', c, left, p);
        StopSectionKeepsSlots(s, s', p);
      }
    case _ =>
  }

  lemma CancelKeepsSlots(s: Pool, s': Pool, c: nat)
    requires SlotsInv(s) && LoopInv(s) && (CancelMoves(s, s', c) || CancelBegins(s, s', c))
    ensures SlotsInv(s') && LoopInv(s')
  {
    hide Count, SlotInv;
    if CancelMoves(s, s', c) {
      if s.cancellers[c].at == ToStop {
        StopSectionKeepsSlots(s, s', s.cancellers[c].pipe);
      }
    } else {
      NewChannelKeepsSlots(s, s', c);
    }
  }

  lemma NewChannelKeepsSlots(s: Pool, s': Pool, p: nat)
    requires SlotsInv(s) && LoopInv(s) && CancelBegins(s, s', p)
    ensures SlotsInv(s') && LoopInv(s')
  {
    hide Count;
    SlotsUpdate(s, s', p);
    UnreportedUpdate(s.slots, p, s'.slots[p]);
  }

  lemma LoopKeepsSlots(s: Pool, s': Pool)
    requires SlotsInv(s) && LoopInv(s) && LoopMoves(s, s')
    ensures SlotsInv(s') && LoopInv(s')
  {
    hide Count, SlotInv, Does;
  }

  lemma NextKeepsSlots(s: Pool, s': Pool)
    requires SlotsInv(s) && LoopInv(s) && PoolNext(s, s')
    ensures SlotsInv(s') && LoopInv(s')
  {
    hide PipelineMoves, Reports, LoopMoves, Internal, Finish, StopMoves, CancelMoves, CancelBegins, Count, SlotInv;
    if p: nat, act: Act :| PipelineMoves(s, s', p, act) {
      PipelineKeepsSlots(s, s', p, act);
    } else if p: nat :| Reports(s, s', p) {
      ReportKeepsSlots(s, s', p);
    } else if LoopMoves(s, s') {
      LoopKeepsSlots(s, s');
    } else if c: nat :| StopMoves(s, s', c) {
      StopKeepsSlots(s, s', c);
    } else if c: nat :| CancelMoves(s, s', c) || CancelBegins(s, s', c) {
      CancelKeepsSlots(s, s', c);
    }
  }

  // ----- jobs -----

  lemma AllReported(s: Pool, p: nat)
    requires SlotsInv(s) && LoopInv(s) && !s.loop.Waiting? && p < |s.slots|
    ensures s.slots[p].drain == Reported && s.slots[p].done && Stage(s.slots[p].control) >= 5
  {
    hide Count;
    if s.slots[p].drain != Reported {
      CountPositive(Unreported(), s.slots, s.slots[p]);
    }
    assert SlotInv(s.slots[p]);
  }

  /** Nothing is submitted to a scheduler that is closing. */
  lemma SubmitsWhileOpen(s: Pool, s': Pool, p: nat, act: Act)
    requires SlotsInv(s) && LoopInv(s) && StopInv(s) && PipelineMoves(s, s', p, act) && act.Submit?
    ensures s.sched.closing == Open
  {
    hide Count, Does, SlotInv;
    if s.sched.closing != Open {
      AllReported(s, p);
    }
  }

  /** What each step adds to the accepted items; none is refused. */
  lemma StepAdds(s: Pool, s': Pool) returns (added: seq<Item<Job>>)
    requires SlotsInv(s) && LoopInv(s) && StopInv(s) && AcceptedInv(s) && PoolNext(s, s')
    ensures Extends(s.sched, s'.sched, added)
    ensures forall x :: x in added ==> Known(s', x)
  {
    hide Count, Does, SlotInv, PipelineMoves, Reports, LoopMoves, Internal, Finish, CancelMoves, CancelBegins, CloseStep, StopMoves;
    added := [];
    if p: nat, act: Act :| PipelineMoves(s, s', p, act) {
      added := PipelineAdds(s, s', p, act);
    } else if LoopMoves(s, s') {
      added := LoopAdds(s, s');
    } else if c: nat :| StopMoves(s, s', c) {
      StopSchedulerStep(s, s', c);
      CloseAdds(s.sched, s'.sched);
    } else if FunctionEnds(s, s') || SchedulerMoves(s, s') {
      SchedulerAhead(s.sched, s'.sched);
    } else if !StopBegins(s, s') {
      NoSchedulerStep(s, s');
    }
  }

  lemma CloseAdds(d: Sched<Job>, d': Sched<Job>)
    requires d == d' || CloseStep(d, d')
    ensures Extends(d, d', [])
  {
  }

  lemma PipelineAdds(s: Pool, s': Pool, p: nat, act: Act) returns (added: seq<Item<Job>>)
    requires SlotsInv(s) && LoopInv(s) && StopInv(s) && PipelineMoves(s, s', p, act)
    ensures added == if act.Submit? then [Order(act.job)] else []
    ensures Extends(s.sched, s'.sched, added)
    ensures forall x :: x in added ==> Known(s', x)
  {
    hide Count, Does, SlotInv;
    added := if act.Submit? then [Order(act.job)] else [];
    if act.Submit? {
      SubmitsWhileOpen(s, s', p, act);
      DoesAhead(s.sched, s'.sched, act);
    } else {
      NoSubmission(s.sched, s'.sched, act);
    }
  }

  lemma NoSubmission(d: Sched<Job>, d': Sched<Job>, act: Act)
    requires Does(d, d', act) && !act.Submit?
    ensures d' == d && Extends(d, d', [])
  {
  }

  lemma LoopAdds(s: Pool, s': Pool) returns (added: seq<Item<Job>>)
    requires LoopInv(s) && StopInv(s) && LoopMoves(s, s')
    ensures added == if s.loop == AtPoolFinalize then [Order(FinalizePool)] else []
    ensures Extends(s.sched, s'.sched, added)
    ensures forall x :: x in added ==> Known(s', x)
  {
    hide Count, Does;
    added := if s.loop == AtPoolFinalize then [Order(FinalizePool)] else [];
    if s.loop == AtPoolFinalize {
      DoesAhead(s.sched, s'.sched, Submit(FinalizePool));
    }
  }

  lemma KnownStays(s: Pool, s': Pool, x: Item<Job>)
    requires Ahead(s, s') && Known(s, x)
    ensures Known(s', x)
  {
    if x.job.Unit? || x.job.Finalize? {
      assert SlotAhead(s.slots[x.job.pipe], s'.slots[x.job.pipe]);
    }
  }

  lemma NextKeepsAccepted(s: Pool, s': Pool)
    requires SlotsInv(s) && LoopInv(s) && StopInv(s) && AcceptedInv(s) && PoolNext(s, s')
    ensures AcceptedInv(s')
  {
    hide Known, PoolNext, SlotsInv, LoopInv, StopInv, Ahead;
    NextAhead(s, s');
    var added := StepAdds(s, s');
    forall x | x in s'.sched.accepted
      ensures Known(s', x)
    {
      if x in s.sched.accepted {
        KnownStays(s, s', x);
      }
    }
  }

  lemma SlotJobsStay(d: Sched<Job>, d': Sched<Job>, added: seq<Item<Job>>, p: nat, a: Slot, b: Slot)
    requires SlotJobs(d, p, a) && Extends(d, d', added) && b.control == a.control && b.units == a.units
    ensures SlotJobs(d', p, b)
  {
  }

  lemma SlotsJobsStay(d: Sched<Job>, d': Sched<Job>, added: seq<Item<Job>>, slots: seq<Slot>, p: nat, b: Slot)
    requires SlotsJobs(d, slots) && Extends(d, d', added) && p < |slots| && SlotJobs(d', p, b)
    ensures SlotsJobs(d', slots[p := b])
  {
    hide SlotJobs, Extends;
    var after := slots[p := b];
    forall q | 0 <= q < |after|
      ensures SlotJobs(d', q, after[q])
    {
      if q != p {
        SlotJobsStay(d, d', added, q, slots[q], slots[q]);
      }
    }
  }

  lemma SlotStepJobs(d: Sched<Job>, d': Sched<Job>, p: nat, a: Slot, b: Slot, act: Act)
    requires SlotJobs(d, p, a) && SlotStep(p, a, b, act) && Does(d, d', act)
    requires Extends(d, d', if act.Submit? then [Order(act.job)] else [])
    ensures SlotJobs(d', p, b)
  {
    hide Accept, Refuse;
  }

  lemma PipelineKeepsJobs(s: Pool, s': Pool, p: nat, act: Act)
    requires SlotsInv(s) && LoopInv(s) && StopInv(s) && SlotsJobs(s.sched, s.slots) && PipelineMoves(s, s', p, act)
    ensures SlotsJobs(s'.sched, s'.slots)
  {
    hide SlotStep, Does, SlotInv, Count, SlotJobs, Extends, StopInv;
    var added := PipelineAdds(s, s', p, act);
    SlotStepJobs(s.sched, s'.sched, p, s.slots[p], s'.slots[p], act);
    SlotsJobsStay(s.sched, s'.sched, added, s.slots, p, s'.slots[p]);
  }

  /** Any step but those of the pipeline goroutines leaves control and unit counts alone. */
  ghost predicate SameWork(a: seq<Slot>, b: seq<Slot>)
  {
    |a| == |b| && forall p :: 0 <= p < |a| ==> b[p].control == a[p].control && b[p].units == a[p].units
  }

  lemma SectionSameWork(s: Pool, s': Pool, p: nat)
    requires p < |s.slots| && s'.slots == s.slots[p := StopSection(s.slots[p])]
    ensures SameWork(s.slots, s'.slots)
  {
  }

  lemma StopSameWork(s: Pool, s': Pool, c: nat)
    requires StopMoves(s, s', c)
    ensures SameWork(s.slots, s'.slots)
  {
    hide CloseStep;
    match s.stoppers[c]
    case ToPipes(left) =>
      if left != {} {
        var p: nat :| StopsPipe(s, s', c, left, p);
        SectionSameWork(s, s', p);
      }
    case _ =>
  }

  lemma CancelSameWork(s: Pool, s': Pool, c: nat)
    requires CancelMoves(s, s', c) || CancelBegins(s, s', c) || Reports(s, s', c)
    ensures SameWork(s.slots, s'.slots)
  {
    if CancelMoves(s, s', c) {
      SectionSameWork(s, s.(slots := s.slots[s.cancellers[c].pipe := StopSection(s.slots[s.cancellers[c].pipe])]), s.cancellers[c].pipe);
    }
  }

  lemma OthersSameWork(s: Pool, s': Pool)
    requires PoolNext(s, s')
    ensures SameWork(s.slots, s'.slots) || exists p, act :: PipelineMoves(s, s', p, act)
  {
    hide PipelineMoves, Does, Finish, Internal, StopMoves, CancelMoves, CancelBegins, Reports;
    if c: nat :| StopMoves(s, s', c) {
      StopSameWork(s, s', c);
    } else if c: nat :| CancelMoves(s, s', c) || CancelBegins(s, s', c) || Reports(s, s', c) {
      CancelSameWork(s, s', c);
    }
  }

  lemma SameWorkKeepsJobs(d: Sched<Job>, d': Sched<Job>, added: seq<Item<Job>>, a: seq<Slot>, b: seq<Slot>)
    requires SlotsJobs(d, a) && Extends(d, d', added) && SameWork(a, b)
    ensures SlotsJobs(d', b)
  {
    hide SlotJobs, Extends;
    forall p | 0 <= p < |b|
      ensures SlotJobs(d', p, b[p])
    {
      SlotJobsStay(d, d', added, p, a[p], b[p]);
    }
  }

  lemma NextKeepsSlotJobs(s: Pool, s': Pool)
    requires SlotsInv(s) && LoopInv(s) && StopInv(s) && AcceptedInv(s) && SlotsJobs(s.sched, s.slots) && PoolNext(s, s')
    ensures SlotsJobs(s'.sched, s'.slots)
  {
    hide PoolNext, SlotsInv, LoopInv, StopInv, AcceptedInv, SlotsJobs, SameWork, PipelineMoves;
    OthersSameWork(s, s');
    if p: nat, act: Act :| PipelineMoves(s, s', p, act) {
      PipelineKeepsJobs(s, s', p, act);
    } else {
      var added := StepAdds(s, s');
      SameWorkKeepsJobs(s.sched, s'.sched, added, s.slots, s'.slots);
    }
  }

  lemma LoopMovesOrStays(s: Pool, s': Pool)
    requires PoolNext(s, s') && !LoopMoves(s, s') && LoopInv(s)
    ensures LoopStage(s'.loop) >= 2 && s'.finalizer ==> s.finalizer && s'.loop == s.loop
  {
    hide PipelineMoves, LoopMoves, CloseStep, Finish, Internal, CancelMoves, CancelBegins, StopMoves, Count;
    if p: nat, act: Act :| PipelineMoves(s, s', p, act) {
      PipelineLoop(s, s', p, act);
    } else if c: nat :| CancelMoves(s, s', c) || CancelBegins(s, s', c) {
      CancelLoop(s, s', c);
    } else if c: nat :| StopMoves(s, s', c) {
      StopLoop(s, s', c);
    }
  }

  lemma PipelineLoop(s: Pool, s': Pool, p: nat, act: Act)
    requires PipelineMoves(s, s', p, act)
    ensures s'.loop == s.loop && s'.finalizer == s.finalizer
  {
  }

  lemma StopLoop(s: Pool, s': Pool, c: nat)
    requires StopMoves(s, s', c)
    ensures s'.loop == s.loop && s'.finalizer == s.finalizer
  {
    hide CloseStep;
  }

  lemma CancelLoop(s: Pool, s': Pool, c: nat)
    requires CancelMoves(s, s', c) || CancelBegins(s, s', c)
    ensures s'.loop == s.loop && s'.finalizer == s.finalizer
  {
  }

  lemma NextKeepsLoopJobs(s: Pool, s': Pool)
    requires SlotsInv(s) && LoopInv(s) && StopInv(s) && AcceptedInv(s) && LoopJobs(s) && PoolNext(s, s')
    ensures LoopJobs(s')
  {
    hide PoolNext, SlotsInv, LoopInv, StopInv, AcceptedInv;
    if LoopMoves(s, s') {
      var added := LoopAdds(s, s');
    } else {
      var added := StepAdds(s, s');
      LoopMovesOrStays(s, s');
    }
  }

  // ----- cancel channels -----

  /** The map entries and channels are as they were. */
  ghost predicate SameEntries(s: Pool, s': Pool)
  {
    && s'.chans == s.chans && |s'.slots| == |s.slots|
    && forall p :: 0 <= p < |s.slots| ==> s'.slots[p].cancel == s.slots[p].cancel && s'.slots[p].done == s.slots[p].done
  }

  lemma CancellerStays(s: Pool, s': Pool, k: Canceller)
    requires Ahead(s, s') && CancellerInv(s, k)
    ensures CancellerInv(s', k)
  {
    assert SlotAhead(s.slots[k.pipe], s'.slots[k.pipe]) && ChannelAhead(s.chans[k.chan], s'.chans[k.chan]);
  }

  ghost predicate EntriesInv(s: Pool)
  {
    && (forall p :: 0 <= p < |s.slots| ==> OwnsChannel(s, p, s.slots[p]))
    && (forall c :: 0 <= c < |s.chans| ==> ChannelInv(s, c, s.chans[c]))
  }

  lemma SameEntriesKeep(s: Pool, s': Pool)
    requires EntriesInv(s) && SameEntries(s, s')
    ensures EntriesInv(s')
  {
  }

  lemma CancellersStay(s: Pool, s': Pool)
    requires CancelInv(s) && Ahead(s, s') && EntriesInv(s') && s'.cancellers == s.cancellers
    ensures CancelInv(s')
  {
    hide Ahead, CancellerInv, ChannelInv, OwnsChannel;
    forall c | 0 <= c < |s.cancellers|
      ensures CancellerInv(s', s'.cancellers[c])
    {
      CancellerStays(s, s', s.cancellers[c]);
    }
  }

  lemma NewCanceller(s: Pool, s': Pool, k: Canceller)
    requires CancelInv(s) && Ahead(s, s') && EntriesInv(s') && s'.cancellers == s.cancellers + [k] && CancellerInv(s', k)
    ensures CancelInv(s')
  {
    hide Ahead, CancellerInv, ChannelInv, OwnsChannel;
    forall c | 0 <= c < |s'.cancellers|
      ensures CancellerInv(s', s'.cancellers[c])
    {
      if c < |s.cancellers| {
        CancellerStays(s, s', s.cancellers[c]);
      }
    }
  }

  lemma MovedCanceller(s: Pool, s': Pool, d: nat, k: Canceller)
    requires CancelInv(s) && Ahead(s, s') && EntriesInv(s') && CancellerInv(s', k)
    requires d < |s.cancellers| && s'.cancellers == s.cancellers[d := k]
    ensures CancelInv(s')
  {
    hide Ahead, CancellerInv, ChannelInv, OwnsChannel;
    forall c | 0 <= c < |s'.cancellers|
      ensures CancellerInv(s', s'.cancellers[c])
    {
      if c != d {
        CancellerStays(s, s', s.cancellers[c]);
      }
    }
  }

  lemma ReportKeepsEntries(s: Pool, s': Pool, p: nat)
    requires EntriesInv(s) && Reports(s, s', p) && SlotInv(s.slots[p])
    ensures EntriesInv(s')
  {
    assert OwnsChannel(s, p, s.slots[p]);
    forall c | 0 <= c < |s'.chans|
      ensures ChannelInv(s', c, s'.chans[c])
    {
      assert ChannelInv(s, c, s.chans[c]);
    }
    forall q | 0 <= q < |s'.slots|
      ensures OwnsChannel(s', q, s'.slots[q])
    {
      assert OwnsChannel(s, q, s.slots[q]);
    }
  }

  lemma NewChannelKeepsEntries(s: Pool, s': Pool, p: nat)
    requires EntriesInv(s) && CancelBegins(s, s', p)
    ensures EntriesInv(s')
  {
    if s.slots[p].cancel.None? {
      forall c | 0 <= c < |s'.chans|
        ensures ChannelInv(s', c, s'.chans[c])
      {
        if c < |s.chans| {
          assert ChannelInv(s, c, s.chans[c]);
        }
      }
      forall q | 0 <= q < |s'.slots|
        ensures OwnsChannel(s', q, s'.slots[q])
      {
        assert OwnsChannel(s, q, s.slots[q]);
      }
    }
  }

  lemma CancelBeginsKeeps(s: Pool, s': Pool, p: nat)
    requires CancelInv(s) && CancelBegins(s, s', p)
    ensures CancelInv(s')
  {
    hide CancellerInv, ChannelInv, Ahead;
    CancelBeginsAhead(s, s', p);
    NewChannelKeepsEntries(s, s', p);
    assert OwnsChannel(s, p, s.slots[p]);
    var c := if s.slots[p].cancel.Some? then s.slots[p].cancel.value else |s.chans|;
    StartsWaiting(s', Canceller(p, c, ToStop));
    NewCanceller(s, s', Canceller(p, c, ToStop));
  }

  lemma StartsWaiting(s: Pool, k: Canceller)
    requires k.pipe < |s.slots| && k.chan < |s.chans| && s.chans[k.chan].pipe == k.pipe && k.at == ToStop
    ensures CancellerInv(s, k)
  {
  }

  lemma SectionSameEntries(s: Pool, s': Pool, p: nat)
    requires p < |s.slots| && s'.chans == s.chans && s'.slots == s.slots[p := StopSection(s.slots[p])]
    ensures SameEntries(s, s')
  {
  }

  /** After the critical section of Stop the pipeline is stopped. */
  lemma SectionStops(s: Pool, p: nat)
    requires SlotsInv(s) && p < |s.slots|
    ensures Stopped(StopSection(s.slots[p]))
  {
    assert SlotInv(s.slots[p]);
  }

  lemma CancelMovesKeeps(s: Pool, s': Pool, c: nat)
    requires SlotsInv(s) && CancelInv(s) && CancelMoves(s, s', c)
    ensures CancelInv(s')
  {
    hide ChannelInv, Ahead, SameEntries, EntriesInv, SlotsInv, Stopped;
    CancelMovesAhead(s, s', c);
    var k := s.cancellers[c];
    assert CancellerInv(s, k);
    if k.at == ToStop {
      SectionSameEntries(s, s', k.pipe);
      SectionStops(s, k.pipe);
    } else {
      assert SameEntries(s, s') by { SameSlotsSameEntries(s, s'); }
    }
    assert EntriesInv(s) by { CancelEntries(s); }
    SameEntriesKeep(s, s');
    MovedCanceller(s, s', c, s'.cancellers[c]);
  }

  lemma CancelEntries(s: Pool)
    requires CancelInv(s)
    ensures EntriesInv(s)
  {
  }

  lemma SameSlotsSameEntries(s: Pool, s': Pool)
    requires s'.slots == s.slots && s'.chans == s.chans
    ensures SameEntries(s, s')
  {
  }

  lemma StopMovesEntries(s: Pool, s': Pool, c: nat)
    requires StopMoves(s, s', c)
    ensures SameEntries(s, s') && s'.cancellers == s.cancellers
  {
    hide CloseStep;
    match s.stoppers[c]
    case ToPipes(left) =>
      if left != {} {
        var p: nat :| StopsPipe(s, s', c, left, p);
        SectionSameEntries(s, s', p);
      }
    case _ =>
  }

  lemma PipelineEntries(s: Pool, s': Pool, p: nat, act: Act)
    requires PipelineMoves(s, s', p, act)
    ensures SameEntries(s, s') && s'.cancellers == s.cancellers
  {
    hide SlotStep, Does;
    SlotStepAhead(p, s.slots[p], s'.slots[p], act);
  }

  lemma NextKeepsCancel(s: Pool, s': Pool)
    requires SlotsInv(s) && CancelInv(s) && PoolNext(s, s')
    ensures CancelInv(s')
  {
    hide CancelMoves, CancelBegins, StopMoves, PipelineMoves, Does, Internal, Finish, Ahead, CancelInv, SameEntries, SlotInv;
    NextAhead(s, s');
    CancelEntries(s);
    if c: nat :| CancelMoves(s, s', c) {
      CancelMovesKeeps(s, s', c);
    } else if p: nat :| CancelBegins(s, s', p) {
      CancelBeginsKeeps(s, s', p);
    } else {
      if p: nat :| Reports(s, s', p) {
        ReportKeepsEntries(s, s', p);
      } else {
        if p: nat, act: Act :| PipelineMoves(s, s', p, act) {
          PipelineEntries(s, s', p, act);
        } else if c: nat :| StopMoves(s, s', c) {
          StopMovesEntries(s, s', c);
        } else {
          SameSlotsSameEntries(s, s');
        }
        SameEntriesKeep(s, s');
      }
      CancellersStay(s, s');
    }
  }

  // ----- the callers of Stop -----

  lemma StopperStays(s: Pool, s': Pool, t: Stopper)
    requires Ahead(s, s') && StopperInv(s, t)
    ensures StopperInv(s', t)
  {
    hide FinishedBut;
    match t
    case ToPipes(left) => FinishedStays(s, s', left);
    case Joining(p, left) => FinishedStays(s, s', left + {p});
    case AtPoolDone => FinishedStays(s, s', {});
    case _ =>
  }

  lemma FinishedStays(s: Pool, s': Pool, left: set<nat>)
    requires SlotsAhead(s.slots, s'.slots) && FinishedBut(s, left)
    ensures FinishedBut(s', left)
  {
    assert forall p :: 0 <= p < |s.slots| ==> SlotAhead(s.slots[p], s'.slots[p]);
  }

  ghost predicate StoppersInv(s: Pool) { forall c :: 0 <= c < |s.stoppers| ==> StopperInv(s, s.stoppers[c]) }

  lemma StoppersStay(s: Pool, s': Pool)
    requires StoppersInv(s) && Ahead(s, s') && s'.stoppers == s.stoppers
    ensures StoppersInv(s')
  {
    hide Ahead, StopperInv;
    forall c | 0 <= c < |s.stoppers|
      ensures StopperInv(s', s'.stoppers[c])
    {
      StopperStays(s, s', s.stoppers[c]);
    }
  }

  lemma StopperMoved(s: Pool, s': Pool, d: nat, t: Stopper)
    requires StoppersInv(s) && Ahead(s, s') && StopperInv(s', t)
    requires d < |s.stoppers| && s'.stoppers == s.stoppers[d := t]
    ensures StoppersInv(s')
  {
    hide Ahead, StopperInv;
    forall c | 0 <= c < |s'.stoppers|
      ensures StopperInv(s', s'.stoppers[c])
    {
      if c != d {
        StopperStays(s, s', s.stoppers[c]);
      }
    }
  }

  lemma StopBeginsKeeps(s: Pool, s': Pool)
    requires StopInv(s) && StopBegins(s, s')
    ensures StopInv(s')
  {
    hide StopperInv;
    var t := ToPipes(Pipes(|s.slots|));
    assert StopperInv(s', t) by { NewStopper(s'); }
    forall c | 0 <= c < |s'.stoppers|
      ensures StopperInv(s', s'.stoppers[c])
    {
      if c < |s.stoppers| {
        StopperStays(s, s', s.stoppers[c]);
      }
    }
    if InClose in s.stoppers {
      var c :| 0 <= c < |s.stoppers| && s.stoppers[c] == InClose;
      assert s'.stoppers[c] == InClose;
    }
  }

  lemma NewStopper(s: Pool)
    ensures StopperInv(s, ToPipes(Pipes(|s.slots|)))
  {
  }

  lemma StopsPipeRight(s: Pool, s': Pool, c: nat, left: set<nat>, p: nat)
    requires SlotsInv(s) && StopperInv(s, ToPipes(left)) && StopsPipe(s, s', c, left, p)
    ensures StopperInv(s', s'.stoppers[c])
  {
    hide FinishedBut, SlotsInv, Stopped;
    SectionStops(s, p);
    SlotsAheadBy(s.slots, p, StopSection(s.slots[p]));
    StopperStays(s, s', ToPipes(left));
    assert left - {p} + {p} == left;
  }

  lemma JoinRight(s: Pool, s': Pool, c: nat)
    requires c < |s.stoppers| && s.stoppers[c].Joining? && StopperInv(s, s.stoppers[c]) && StopMoves(s, s', c)
    ensures StopperInv(s', s'.stoppers[c])
  {
    hide FinishedBut, StopsPipe, CloseStep;
    var Joining(p, left) := s.stoppers[c];
    FinishedOne(s, left, p);
    StopperStays(s, s', ToPipes(left));
  }

  /** The new place of a caller of Stop is right for the new state. */
  lemma StopMovesRight(s: Pool, s': Pool, c: nat)
    requires SlotsInv(s) && StoppersInv(s) && StopMoves(s, s', c)
    ensures StopperInv(s', s'.stoppers[c])
  {
    hide FinishedBut, StopsPipe, SlotsInv, Stopped;
    var t := s.stoppers[c];
    assert StopperInv(s, t);
    match t
    case ToPipes(left) =>
      if left != {} {
        var p: nat :| StopsPipe(s, s', c, left, p);
        StopsPipeRight(s, s', c, left, p);
      } else {
        StopperStays(s, s', AtPoolDone);
      }
    case Joining(p, left) =>
      JoinRight(s, s', c);
    case _ =>
  }

  lemma FinishedOne(s: Pool, left: set<nat>, p: nat)
    requires FinishedBut(s, left + {p}) && p < |s.slots| && Finished(s.slots[p])
    ensures FinishedBut(s, left)
  {
  }

  lemma StopMovesKeeps(s: Pool, s': Pool, c: nat)
    requires SlotsInv(s) && StopInv(s) && StopMoves(s, s', c)
    ensures StopInv(s')
  {
    hide StopperInv, Ahead, SlotsInv;
    StopMovesAhead(s, s', c);
    StopMovesRight(s, s', c);
    StopperMoved(s, s', c, s'.stoppers[c]);
    assert StoppersInv(s');
    StopMovesOnce(s, s', c);
    StopMovesOneCloser(s, s', c);
  }

  lemma OneCloserUpdate(ts: seq<Stopper>, c: nat, t: Stopper)
    requires c < |ts| && OneCloser(ts) && (t == InClose ==> ts[c] == InClose || InClose !in ts)
    ensures OneCloser(ts[c := t])
  {
  }

  /** Only the first to come enters the once. */
  lemma StopMovesOneCloser(s: Pool, s': Pool, c: nat)
    requires StopInv(s) && StopMoves(s, s', c)
    ensures OneCloser(s'.stoppers)
  {
    hide FinishedBut, OneCloser, CloseStep;
    if !s.onceTaken {
      forall d | 0 <= d < |s.stoppers|
        ensures s.stoppers[d] != InClose
      {
        assert StopperInv(s, s.stoppers[d]);
      }
    }
    assert s'.stoppers == s.stoppers[c := s'.stoppers[c]];
    OneCloserUpdate(s.stoppers, c, s'.stoppers[c]);
  }

  lemma StopMovesOnce(s: Pool, s': Pool, c: nat)
    requires StopInv(s) && StopMoves(s, s', c)
    ensures s'.sched.closing != Open ==> s'.loop == LoopExited && s'.onceTaken
    ensures s'.onceTaken && s'.sched.closing != Closed ==> InClose in s'.stoppers
  {
    hide FinishedBut;
    StopLoop(s, s', c);
    assert StopperInv(s, s.stoppers[c]);
    if s.stoppers[c] == InClose {
      assert s'.stoppers[c] == InClose || s'.stoppers[c] == Returned;
    } else if s'.onceTaken && s'.sched.closing != Closed {
      OthersClose(s, s', c);
    }
  }

  lemma OthersClose(s: Pool, s': Pool, c: nat)
    requires StopInv(s) && StopMoves(s, s', c) && s.stoppers[c] != InClose && s'.onceTaken && s'.sched.closing != Closed
    ensures InClose in s'.stoppers
  {
    hide CloseStep, StopperInv;
    if !s.onceTaken {
      assert s'.stoppers[c] == InClose;
    } else {
      var d :| 0 <= d < |s.stoppers| && s.stoppers[d] == InClose;
      assert s'.stoppers[d] == InClose;
    }
  }

  lemma OthersKeepStop(s: Pool, s': Pool)
    requires StopInv(s) && Ahead(s, s') && s'.stoppers == s.stoppers && s'.onceTaken == s.onceTaken
    requires s'.sched.closing == s.sched.closing
    ensures StopInv(s')
  {
    hide StopperInv;
    StoppersStay(s, s');
    assert StoppersInv(s');
  }

  lemma CancelStoppers(s: Pool, s': Pool, c: nat)
    requires CancelMoves(s, s', c) || CancelBegins(s, s', c)
    ensures s'.stoppers == s.stoppers && s'.onceTaken == s.onceTaken && s'.sched == s.sched
  {
  }

  lemma SameStoppers(s: Pool, s': Pool)
    requires PoolNext(s, s') && !StopBegins(s, s') && forall c :: !StopMoves(s, s', c)
    ensures s'.stoppers == s.stoppers && s'.onceTaken == s.onceTaken && s'.sched.closing == s.sched.closing
  {
    hide StopMoves, Does, SlotStep, Internal, Finish, CancelMoves, CancelBegins;
    if c: nat :| CancelMoves(s, s', c) || CancelBegins(s, s', c) {
      CancelStoppers(s, s', c);
    } else if p: nat, act: Act :| PipelineMoves(s, s', p, act) {
      DoesAhead(s.sched, s'.sched, act);
    } else if LoopMoves(s, s') {
      if s.loop == AtPoolFinalize {
        DoesAhead(s.sched, s'.sched, Submit(FinalizePool));
      }
    } else if FunctionEnds(s, s') || SchedulerMoves(s, s') {
      SchedulerAhead(s.sched, s'.sched);
    }
  }

  lemma NextKeepsStop(s: Pool, s': Pool)
    requires SlotsInv(s) && StopInv(s) && PoolNext(s, s')
    ensures StopInv(s')
  {
    hide PoolNext, StopMoves, StopBegins, StopInv, Ahead, SlotsInv;
    if StopBegins(s, s') {
      StopBeginsKeeps(s, s');
    } else if c: nat :| StopMoves(s, s', c) {
      StopMovesKeeps(s, s', c);
    } else {
      NextAhead(s, s');
      SameStoppers(s, s');
      OthersKeepStop(s, s');
    }
  }

  // ----- all together -----

  lemma NextPoolInv(s: Pool, s': Pool)
    requires PoolInv(s) && PoolNext(s, s')
    ensures PoolInv(s') && SameConfig(s.sched, s'.sched) && |s'.slots| == |s.slots| && s'.finalizer == s.finalizer
  {
    hide PoolNext, Inv, SlotsInv, LoopInv, AcceptedInv, SlotsJobs, LoopJobs, CancelInv, StopInv;
    SchedulerKeepsInv(s, s');
    NextKeepsSlots(s, s');
    NextKeepsAccepted(s, s');
    NextKeepsSlotJobs(s, s');
    NextKeepsLoopJobs(s, s');
    NextKeepsCancel(s, s');
    NextKeepsStop(s, s');
    NextAhead(s, s');
  }

  lemma FreshScheduler(d: Sched<Job>, normal: nat, reserved: nat)
    requires Init(d, normal, reserved)
    ensures d.accepted == [] && d.refused == [] && d.closing == Open
  {
  }

  lemma FreshSlots(s: Pool, k: nat)
    requires s.slots == seq(k, _ => FRESH) && s.chans == [] && s.cancellers == []
    ensures SlotsInv(s) && SlotsJobs(s.sched, s.slots) && CancelInv(s) && Count(Unreported(), s.slots) == k
  {
    assert forall a :: a in s.slots ==> Unreported()(a);
    CountAll(Unreported(), s.slots);
  }

  lemma InitPoolInv(s: Pool, k: nat, normal: nat, reserved: nat, finalizer: bool)
    requires PoolInit(s, k, normal, reserved, finalizer)
    ensures PoolInv(s)
  {
    hide Inv, Init, SlotsInv, SlotsJobs, CancelInv, Count;
    InitInv(s.sched, normal, reserved);
    FreshScheduler(s.sched, normal, reserved);
    FreshSlots(s, k);
  }

  /** The invariant holds in every state of every run. */
  lemma {:induction false} RunPoolInv(run: seq<Pool>, k: nat, normal: nat, reserved: nat, finalizer: bool, n: nat)
    requires PoolRun(run, k, normal, reserved, finalizer) && n < |run|
    ensures PoolInv(run[n]) && |run[n].slots| == k && run[n].finalizer == finalizer
    ensures run[n].sched.normal == normal && run[n].sched.reserved == reserved
    decreases n
  {
    hide PoolInv, PoolNext;
    if n == 0 {
      InitPoolInv(run[0], k, normal, reserved, finalizer);
    } else {
      RunPoolInv(run, k, normal, reserved, finalizer, n - 1);
      assert PoolNext(run[n - 1], run[n - 1 + 1]);
      NextPoolInv(run[n - 1], run[n]);
    }
  }
}
