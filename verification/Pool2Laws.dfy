/** What every step of a Pool2 run keeps. */
module Pool2Laws {
  import opened Dispatch
  import opened SchedulerProtocol
  import opened Pool2Protocol

  // ----- what only grows -----

  function ClosingStage(c: Closing): nat
  {
    match c
    case Open => 0
    case Cancelled => 1
    case Stopping => 2
    case Closed => 3
  }

  /** The pipeline takes no more units. */
  predicate PastUnits(a: Slot) { a.control == AtErrorTick || Stage(a.control) >= 1 }

  /** A pipeline never goes back, past its units it submits no more of them, its done mark stays, and so does its cancel
      channel. */
  predicate SlotAhead(a: Slot, b: Slot)
  {
    && a.units <= b.units && Stage(a.control) <= Stage(b.control)
    && (PastUnits(a) ==> PastUnits(b) && b.units == a.units && b.ending == a.ending)
    && a.stopCloses <= b.stopCloses && (b.stopSet ==> a.stopSet)
    && (a.done ==> b.done) && (a.cancel.Some? ==> b.cancel == a.cancel)
  }

  predicate ChannelAhead(c: Channel, d: Channel) { c.pipe == d.pipe && c.closes <= d.closes }

  ghost predicate SlotsAhead(a: seq<Slot>, b: seq<Slot>)
  {
    |a| == |b| && forall p :: 0 <= p < |a| ==> SlotAhead(a[p], b[p])
  }

  ghost predicate ChannelsAhead(a: seq<Channel>, b: seq<Channel>)
  {
    |a| <= |b| && forall c :: 0 <= c < |a| ==> ChannelAhead(a[c], b[c])
  }

  /** The scheduler took in the items added, and results only came. */
  ghost predicate Extends(d: Sched<Job>, d': Sched<Job>, added: seq<Item<Job>>)
  {
    && d'.accepted == d.accepted + added && d'.refused == d.refused
    && (forall j :: j in d.delivered ==> j in d'.delivered)
  }

  /** The parts of a pool that no step takes back. */
  ghost predicate Ahead(s: Pool, s': Pool)
  {
    && s'.finalizer == s.finalizer
    && SlotsAhead(s.slots, s'.slots)
    && ChannelsAhead(s.chans, s'.chans)
    && LoopStage(s.loop) <= LoopStage(s'.loop)
    && ClosingStage(s.sched.closing) <= ClosingStage(s'.sched.closing)
    && (s.onceTaken ==> s'.onceTaken)
  }

  lemma SlotStepAhead(p: nat, a: Slot, b: Slot, act: Act)
    requires SlotStep(p, a, b, act)
    ensures SlotAhead(a, b) && b.drain == (if DrainStep(a, b, act) then Reporting else a.drain)
    ensures b.done == a.done && b.cancel == a.cancel
  {
  }

  lemma SchedulerAhead(d: Sched<Job>, d': Sched<Job>)
    requires Internal(d, d') || exists i :: Finish(d, d', i)
    ensures d'.closing == d.closing && Extends(d, d', [])
  {
    hide Dispatched, DoneFits, ResultFits;
  }

  lemma DoesAhead(d: Sched<Job>, d': Sched<Job>, act: Act)
    requires Does(d, d', act)
    ensures d'.closing == d.closing
    ensures d.closing == Open ==> Extends(d, d', if act.Submit? then [Order(act.job)] else [])
  {
    hide Dispatched, Fresh;
  }

  lemma SlotsAheadBy(a: seq<Slot>, p: nat, b: Slot)
    requires p < |a| && SlotAhead(a[p], b)
    ensures SlotsAhead(a, a[p := b])
  {
  }

  lemma StopMovesAhead(s: Pool, s': Pool, c: nat)
    requires StopMoves(s, s', c)
    ensures Ahead(s, s')
  {
    hide AllGone;
    match s.stoppers[c]
    case ToPipes(left) =>
      if left != {} {
        var p: nat :| StopsPipe(s, s', c, left, p);
        SlotsAheadBy(s.slots, p, StopSection(s.slots[p]));
      }
    case _ =>
  }

  lemma CancelMovesAhead(s: Pool, s': Pool, c: nat)
    requires CancelMoves(s, s', c)
    ensures Ahead(s, s')
  {
    var p := s.cancellers[c].pipe;
    SlotsAheadBy(s.slots, p, StopSection(s.slots[p]));
  }

  lemma PipelineMovesAhead(s: Pool, s': Pool, p: nat, act: Act)
    requires PipelineMoves(s, s', p, act)
    ensures Ahead(s, s')
  {
    hide SlotStep, Does;
    SlotStepAhead(p, s.slots[p], s'.slots[p], act);
    DoesAhead(s.sched, s'.sched, act);
  }

  lemma LoopMovesAhead(s: Pool, s': Pool)
    requires LoopMoves(s, s')
    ensures Ahead(s, s')
  {
    hide Does;
    if s.loop == AtPoolFinalize {
      DoesAhead(s.sched, s'.sched, Submit(FinalizePool));
    }
  }

  lemma ReportsAhead(s: Pool, s': Pool, p: nat)
    requires Reports(s, s', p)
    ensures Ahead(s, s')
  {
    SlotsAheadBy(s.slots, p, s.slots[p].(drain := Reported, done := true));
  }

  lemma CancelBeginsAhead(s: Pool, s': Pool, p: nat)
    requires CancelBegins(s, s', p)
    ensures Ahead(s, s')
  {
  }

  /** No step takes a pipeline, the event loop or the scheduler back, clears a done mark or replaces a cancel channel. */
  lemma NextAhead(s: Pool, s': Pool)
    requires PoolNext(s, s')
    ensures Ahead(s, s')
  {
    hide PipelineMoves, Reports, LoopMoves, Internal, Finish, StopMoves, CancelMoves, CancelBegins;
    if p: nat, act: Act :| PipelineMoves(s, s', p, act) {
      PipelineMovesAhead(s, s', p, act);
    } else if p: nat :| Reports(s, s', p) {
      ReportsAhead(s, s', p);
    } else if LoopMoves(s, s') {
      LoopMovesAhead(s, s');
    } else if c: nat :| StopMoves(s, s', c) {
      StopMovesAhead(s, s', c);
    } else if c: nat :| CancelMoves(s, s', c) {
      CancelMovesAhead(s, s', c);
    } else if p: nat :| CancelBegins(s, s', p) {
      CancelBeginsAhead(s, s', p);
    } else if !StopBegins(s, s') {
      SchedulerAhead(s.sched, s'.sched);
    }
  }

  /** So over a whole run. */
  lemma {:induction false} RunAhead(run: seq<Pool>, k: nat, normal: nat, reserved: nat, finalizer: bool, m: nat, n: nat)
    requires PoolRun(run, k, normal, reserved, finalizer) && m <= n < |run|
    ensures Ahead(run[m], run[n])
    decreases n
  {
    hide PoolNext, PoolInit;
    if m < n {
      RunAhead(run, k, normal, reserved, finalizer, m, n - 1);
      assert PoolNext(run[n - 1], run[n - 1 + 1]);
      NextAhead(run[n - 1], run[n]);
    }
  }
}
