/** Pool2 and its Pipeline2s on one scheduler (pkg/work/pool2.go, pkg/work/pipeline2.go) as a state machine. The
    goroutines are those of the pipelines, their tick drains, the event loop, the callers of Stop and Cancel, and the
    scheduler with its workers. A critical section is one step; so is a send, a receive or the closing of a channel.
    A run begins where Start succeeds. */
module Pool2Protocol {
  import opened Wrappers
  import opened Dispatch
  import opened SchedulerProtocol

  /** What the pool submits: the units of a pipeline, its Finalize, and the finalizer of the pool. */
  datatype Job = Unit(pipe: nat, index: nat) | Finalize(pipe: nat) | FinalizePool

  function Priority(j: Job): int { if j.Unit? then 0 else 1 }

  function Order(j: Job): Item<Job> { Item(j, Priority(j)) }

  /** Where the goroutine of a pipeline is: which statement it executes next. */
  datatype Control =
    | AtNext | AtTick | AtSubmit | AtAwait | AtErrorTick
    | AtFinalize | AtResult
    | AtClearStop | AtCloseTicks | AtCloseDone | Exited

  /** The goroutine that drains the ticks, then reports that the pipeline is done. */
  datatype Drain = Ranging | Reporting | Reported

  /** How the loop over the units came to its end by itself: the builder had no more, or a unit failed. */
  datatype Ending = InUnits | Exhausted | UnitFailed

  /** A pipeline with its drain and its entry in the map of the pool. stopSet says that the stop field is not nil,
      stopCloses how often the stop channel was closed. */
  datatype Slot = Slot(control: Control, units: nat, ending: Ending, stopSet: bool, stopCloses: nat,
                       drain: Drain, done: bool, cancel: Option<nat>)

  /** A cancel channel, made for a pipeline, and how often it was closed. */
  datatype Channel = Channel(pipe: nat, closes: nat)

  datatype Loop = Waiting(remaining: int) | AtPoolFinalize | AtPoolResult | AtClosePool | LoopExited

  /** A caller of Pool2.Stop: stopping the pipelines that are left, joining one, waiting for the event loop, closing
      the scheduler (inside the once or waiting for whoever is), returned. */
  datatype Stopper =
    | ToPipes(left: set<nat>) | Joining(pipe: nat, left: set<nat>)
    | AtPoolDone | AtClose | InClose | Returned

  /** A caller of Pool2.Cancel that found its pipeline not done. */
  datatype CancelAt = ToStop | ToJoin | ToReceive | CancelReturned

  datatype Canceller = Canceller(pipe: nat, chan: nat, at: CancelAt)

  datatype Pool = Pool(
    finalizer: bool,
    sched: Sched<Job>,
    slots: seq<Slot>,
    loop: Loop,
    chans: seq<Channel>,
    stoppers: seq<Stopper>,
    cancellers: seq<Canceller>,
    onceTaken: bool)

  /** How far a pipeline is past its units. */
  function Stage(c: Control): nat
  {
    match c
    case AtFinalize => 1
    case AtResult => 2
    case AtClearStop => 3
    case AtCloseTicks => 4
    case AtCloseDone => 5
    case Exited => 6
    case _ => 0
  }

  /** Finalize was submitted. */
  predicate Submitted(a: Slot) { Stage(a.control) >= 2 }

  /** The result of Finalize was received. */
  predicate Finalized(a: Slot) { Stage(a.control) >= 3 }

  predicate TicksClosed(a: Slot) { Stage(a.control) >= 5 }

  /** The done channel of the pipeline is closed. */
  predicate Finished(a: Slot) { a.control == Exited }

  function LoopStage(l: Loop): nat
  {
    match l
    case Waiting(_) => 0
    case AtPoolFinalize => 1
    case AtPoolResult => 2
    case AtClosePool => 3
    case LoopExited => 4
  }

  // ----- the goroutine of a pipeline -----

  /** What a step asks of the scheduler. */
  datatype Act = Quiet | Submit(job: Job) | Receive(job: Job)

  /** The loop over the units. A stop that came leaves it, wherever it waits. */
  ghost predicate UnitStep(p: nat, a: Slot, b: Slot, act: Act)
  {
    match a.control
    case AtNext => act == Quiet && (b == a.(control := AtTick) || b == a.(control := AtFinalize, ending := Exhausted))
    case AtTick =>
      && act == Quiet
      && ((a.drain == Ranging && b == a.(control := AtSubmit)) || (a.stopCloses > 0 && b == a.(control := AtFinalize)))
    case AtSubmit => act == Submit(Unit(p, a.units)) && b == a.(control := AtAwait, units := a.units + 1)
    case AtAwait =>
      || (act == Quiet && a.stopCloses > 0 && b == a.(control := AtFinalize))
      || (a.units > 0 && act == Receive(Unit(p, a.units - 1)) &&
          (b == a.(control := AtNext) || b == a.(control := AtErrorTick, ending := UnitFailed)))
    case AtErrorTick => act == Quiet && (a.drain == Ranging || a.stopCloses > 0) && b == a.(control := AtFinalize)
    case _ => false
  }

  /** Finalize as priority work, then the deferred cleanup. */
  ghost predicate CleanupStep(p: nat, a: Slot, b: Slot, act: Act)
  {
    match a.control
    case AtFinalize => act == Submit(Finalize(p)) && b == a.(control := AtResult)
    case AtResult => act == Receive(Finalize(p)) && b == a.(control := AtClearStop)
    case AtClearStop => act == Quiet && b == a.(control := AtCloseTicks, stopSet := false)
    case AtCloseTicks => act == Quiet && b == a.(control := AtCloseDone)
    case AtCloseDone => act == Quiet && b == a.(control := Exited)
    case _ => false
  }

  /** The range over ticks ends when they are closed. */
  ghost predicate DrainStep(a: Slot, b: Slot, act: Act)
  {
    act == Quiet && a.drain == Ranging && TicksClosed(a) && b == a.(drain := Reporting)
  }

  ghost predicate SlotStep(p: nat, a: Slot, b: Slot, act: Act)
  {
    UnitStep(p, a, b, act) || CleanupStep(p, a, b, act) || DrainStep(a, b, act)
  }

  /** The critical section of Pipeline2.Stop. */
  function StopSection(a: Slot): Slot
  {
    if a.stopSet then a.(stopSet := false, stopCloses := a.stopCloses + 1) else a
  }

  // ----- the pool -----

  ghost predicate Does(d: Sched<Job>, d': Sched<Job>, act: Act)
  {
    match act
    case Quiet => d' == d
    case Submit(j) => Accept(d, d', Order(j)) || Refuse(d, d', j)
    case Receive(j) => d' == d && j in d.delivered
  }

  ghost predicate PipelineMoves(s: Pool, s': Pool, p: nat, act: Act)
  {
    && p < |s.slots| == |s'.slots|
    && SlotStep(p, s.slots[p], s'.slots[p], act)
    && Does(s.sched, s'.sched, act)
    && s' == s.(sched := s'.sched, slots := s.slots[p := s'.slots[p]])
  }

  function AfterEvent(s: Pool, remaining: int): Loop
  {
    if remaining != 0 then Waiting(remaining) else if s.finalizer then AtPoolFinalize else AtClosePool
  }

  function CloseChannel(chans: seq<Channel>, c: Option<nat>): (r: seq<Channel>)
    ensures |r| == |chans|
  {
    if c.Some? && c.value < |chans| then chans[c.value := chans[c.value].(closes := chans[c.value].closes + 1)] else chans
  }

  /** The event loop receives a report and marks the pipeline done. */
  ghost predicate Reports(s: Pool, s': Pool, p: nat)
  {
    && p < |s.slots| && s.loop.Waiting? && s.slots[p].drain == Reporting
    && s' == s.(slots := s.slots[p := s.slots[p].(drain := Reported, done := true)],
                chans := CloseChannel(s.chans, s.slots[p].cancel),
                loop := AfterEvent(s, s.loop.remaining - 1))
  }

  /** The rest of the event loop: the finalizer of the pool as priority work, then done is closed. */
  ghost predicate LoopMoves(s: Pool, s': Pool)
  {
    match s.loop
    case AtPoolFinalize =>
      Does(s.sched, s'.sched, Submit(FinalizePool)) && s' == s.(sched := s'.sched, loop := AtPoolResult)
    case AtPoolResult => FinalizePool in s.sched.delivered && s' == s.(loop := AtClosePool)
    case AtClosePool => s' == s.(loop := LoopExited)
    case _ => false
  }

  /** The numbers of k pipelines. */
  function Pipes(k: nat): (r: set<nat>)
    ensures |r| == k && forall p: nat :: p in r <==> p < k
  {
    if k == 0 then {} else Pipes(k - 1) + {k - 1}
  }

  ghost predicate StopBegins(s: Pool, s': Pool) { s' == s.(stoppers := s.stoppers + [ToPipes(Pipes(|s.slots|))]) }

  function SetStopper(s: Pool, c: nat, t: Stopper): Pool
    requires c < |s.stoppers|
  {
    s.(stoppers := s.stoppers[c := t])
  }

  /** One caller of Stop: each pipeline in some order is stopped and joined, then the event loop is, then the
      scheduler is closed by the first to come. */
  ghost predicate StopMoves(s: Pool, s': Pool, c: nat)
  {
    && c < |s.stoppers|
    && match s.stoppers[c]
       case ToPipes(left) =>
         if left == {} then s' == SetStopper(s, c, AtPoolDone)
         else exists p: nat :: StopsPipe(s, s', c, left, p)
       case Joining(p, left) =>
         p < |s.slots| && Finished(s.slots[p]) && s' == SetStopper(s, c, ToPipes(left))
       case AtPoolDone => s.loop == LoopExited && s' == SetStopper(s, c, AtClose)
       case AtClose =>
         || (!s.onceTaken && s' == SetStopper(s, c, InClose).(onceTaken := true))
         || (s.sched.closing == Closed && s' == SetStopper(s, c, Returned))
       case InClose =>
         || (CloseStep(s.sched, s'.sched) && s' == s.(sched := s'.sched))
         || (s.sched.closing == Closed && s' == SetStopper(s, c, Returned))
       case Returned => false
  }

  ghost predicate StopsPipe(s: Pool, s': Pool, c: nat, left: set<nat>, p: nat)
  {
    && c < |s.stoppers| && p in left && p < |s.slots|
    && s' == SetStopper(s, c, Joining(p, left - {p})).(slots := s.slots[p := StopSection(s.slots[p])])
  }

  /** The critical section of Cancel for a known pipeline that is not done: it shares the channel that is there or
      makes one. */
  ghost predicate CancelBegins(s: Pool, s': Pool, p: nat)
  {
    && p < |s.slots| && !s.slots[p].done
    && match s.slots[p].cancel
       case Some(c) => s' == s.(cancellers := s.cancellers + [Canceller(p, c, ToStop)])
       case None =>
         s' == s.(chans := s.chans + [Channel(p, 0)],
                  slots := s.slots[p := s.slots[p].(cancel := Some(|s.chans|))],
                  cancellers := s.cancellers + [Canceller(p, |s.chans|, ToStop)])
  }

  function SetCanceller(s: Pool, c: nat, at: CancelAt): Pool
    requires c < |s.cancellers|
  {
    s.(cancellers := s.cancellers[c := s.cancellers[c].(at := at)])
  }

  /** One caller of Cancel: stop the pipeline, join it, wait for the cancel channel. */
  ghost predicate CancelMoves(s: Pool, s': Pool, c: nat)
  {
    && c < |s.cancellers|
    && var k := s.cancellers[c];
       k.pipe < |s.slots| &&
       match k.at
       case ToStop => s' == SetCanceller(s, c, ToJoin).(slots := s.slots[k.pipe := StopSection(s.slots[k.pipe])])
       case ToJoin => Finished(s.slots[k.pipe]) && s' == SetCanceller(s, c, ToReceive)
       case ToReceive => k.chan < |s.chans| && s.chans[k.chan].closes > 0 && s' == SetCanceller(s, c, CancelReturned)
       case CancelReturned => false
  }

  /** A function handed to the scheduler ends. */
  ghost predicate FunctionEnds(s: Pool, s': Pool)
  {
    (exists i :: Finish(s.sched, s'.sched, i)) && s' == s.(sched := s'.sched)
  }

  /** The scheduler's own goroutines move. */
  ghost predicate SchedulerMoves(s: Pool, s': Pool) { Internal(s.sched, s'.sched) && s' == s.(sched := s'.sched) }

  /** A step of a goroutine that was started by the pool or is inside Stop or Cancel. */
  ghost predicate Progress(s: Pool, s': Pool)
  {
    || (exists p, act :: PipelineMoves(s, s', p, act))
    || (exists p :: Reports(s, s', p))
    || LoopMoves(s, s')
    || (exists c :: StopMoves(s, s', c))
    || (exists c :: CancelMoves(s, s', c))
    || FunctionEnds(s, s')
    || SchedulerMoves(s, s')
  }

  ghost predicate PoolNext(s: Pool, s': Pool)
  {
    Progress(s, s') || StopBegins(s, s') || exists p :: CancelBegins(s, s', p)
  }

  const FRESH := Slot(AtNext, 0, InUnits, true, 0, Ranging, false, None)

  /** The state a successful Start leaves, for k builders. */
  ghost predicate PoolInit(s: Pool, k: nat, normal: nat, reserved: nat, finalizer: bool)
  {
    && k >= 1 && Init(s.sched, normal, reserved)
    && s == Pool(finalizer, s.sched, seq(k, _ => FRESH), Waiting(k), [], [], [], false)
  }

  ghost predicate PoolRun(run: seq<Pool>, k: nat, normal: nat, reserved: nat, finalizer: bool)
  {
    && run != [] && PoolInit(run[0], k, normal, reserved, finalizer)
    && forall i :: 0 <= i < |run| - 1 ==> PoolNext(run[i], run[i + 1])
  }
}
