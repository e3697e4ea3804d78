/** The scheduler as a state machine (pkg/scheduler/scheduler.go): the event loop, the worker goroutines with their
    done and result channels, submissions, and Close. One step is one atomic action of one goroutine. */
module SchedulerProtocol {
  import opened Wrappers
  import opened Dispatch
  import opened DispatchLaws

  /** Where a worker goroutine is: inside the function, about to send on done, about to leave the wait group, gone. */
  datatype Phase = Running | Sending | Leaving | Gone

  datatype Task<J> = Task(item: Item<J>, worker: Worker, phase: Phase)

  /** How far Close has come: not called, context cancelled, loop stopped, returned. */
  datatype Closing = Open | Cancelled | Stopping | Closed

  datatype Sched<J> = Sched(
    normal: nat, reserved: nat,
    idle: seq<Worker>, queue: seq<Item<J>>, tasks: seq<Task<J>>,
    done: seq<bool>,
    accepted: seq<Item<J>>, refused: seq<J>,
    delivered: seq<J>,
    closing: Closing)

  /** The event loop has not returned. */
  predicate LoopAlive<J>(s: Sched<J>) { s.closing == Open || s.closing == Cancelled }

  function Jobs<J>(q: seq<Item<J>>): (r: seq<J>)
    ensures |r| == |q| && forall i :: 0 <= i < |q| ==> r[i] == q[i].job
  {
    seq(|q|, i requires 0 <= i < |q| => q[i].job)
  }

  function TaskItems<J>(ts: seq<Task<J>>): (r: seq<Item<J>>)
    ensures |r| == |ts| && forall i :: 0 <= i < |ts| ==> r[i] == ts[i].item
  {
    seq(|ts|, i requires 0 <= i < |ts| => ts[i].item)
  }

  /** The goroutines a dispatch launches. */
  function Launch<J>(st: seq<Start<J>>): (r: seq<Task<J>>)
    ensures |r| == |st| && forall i :: 0 <= i < |st| ==> r[i] == Task(st[i].item, st[i].worker, Running)
  {
    seq(|st|, i requires 0 <= i < |st| => Task(st[i].item, st[i].worker, Running))
  }

  /** A submission is new. */
  ghost predicate Fresh<J>(s: Sched<J>, j: J) { j !in Jobs(s.accepted) && j !in s.refused }

  ghost predicate Init<J>(s: Sched<J>, normal: nat, reserved: nat)
  {
    normal >= 1 &&
    s == Sched(normal, reserved, seq(normal, _ => Worker(false)) + seq(reserved, _ => Worker(true)), [], [], [],
               [], [], [], Open)
  }

  /** The loop puts what came in on the queue or among the idle workers and dispatches. */
  ghost predicate Dispatched<J(!new)>(s: Sched<J>, q: seq<Item<J>>, ws: seq<Worker>, s': Sched<J>, st: seq<Start<J>>)
  {
    && Outcome(q, ws, s'.queue, s'.idle, st)
    && s'.tasks == s.tasks + Launch(st)
  }

  /** case w := <-s.work */
  ghost predicate Accept<J(!new)>(s: Sched<J>, s': Sched<J>, w: Item<J>)
  {
    && LoopAlive(s) && Fresh(s, w.job)
    && (exists st :: Dispatched(s, s.queue + [w], s.idle, s', st))
    && s' == s.(queue := s'.queue, idle := s'.idle, tasks := s'.tasks, accepted := s.accepted + [w])
  }

  /** case <-s.mainCtx.Done() in addWork: the future gets context.Canceled. */
  ghost predicate Refuse<J>(s: Sched<J>, s': Sched<J>, j: J)
  {
    && s.closing != Open && Fresh(s, j)
    && s' == s.(refused := s.refused + [j], delivered := s.delivered + [j])
  }

  /** The room left in the result channel of a job: its capacity is one. */
  ghost predicate ResultFits<J>(s: Sched<J>, j: J) { j !in s.delivered }

  /** The room left in the done channel. */
  predicate DoneFits<J>(s: Sched<J>) { |s.done| < s.normal + s.reserved }

  /** The function returns or panics; either way one result is sent. */
  ghost predicate Finish<J>(s: Sched<J>, s': Sched<J>, i: nat)
  {
    && i < |s.tasks| && s.tasks[i].phase == Running && ResultFits(s, s.tasks[i].item.job)
    && s' == s.(tasks := s.tasks[i := s.tasks[i].(phase := Sending)], delivered := s.delivered + [s.tasks[i].item.job])
  }

  /** w.done <- w.isReserved */
  ghost predicate SendDone<J>(s: Sched<J>, s': Sched<J>, i: nat)
  {
    && i < |s.tasks| && s.tasks[i].phase == Sending && DoneFits(s)
    && s' == s.(tasks := s.tasks[i := s.tasks[i].(phase := Leaving)], done := s.done + [s.tasks[i].worker.isReserved])
  }

  /** w.wg.Done() */
  ghost predicate Leave<J>(s: Sched<J>, s': Sched<J>, i: nat)
  {
    && i < |s.tasks| && s.tasks[i].phase == Leaving
    && s' == s.(tasks := s.tasks[i := s.tasks[i].(phase := Gone)])
  }

  /** case isReserved := <-s.done */
  ghost predicate Release<J(!new)>(s: Sched<J>, s': Sched<J>)
  {
    && LoopAlive(s) && s.done != []
    && (exists st :: Dispatched(s, s.queue, s.idle + [Worker(s.done[0])], s', st))
    && s' == s.(queue := s'.queue, idle := s'.idle, tasks := s'.tasks, done := s.done[1..])
  }

  ghost predicate AllGone<J(!new)>(s: Sched<J>) { forall t :: t in s.tasks ==> t.phase == Gone }

  /** The three statements of Close: cancel, stop the loop, wait for the workers. */
  ghost predicate CloseStep<J(!new)>(s: Sched<J>, s': Sched<J>)
  {
    || (s.closing == Open && s' == s.(closing := Cancelled))
    || (s.closing == Cancelled && s' == s.(closing := Stopping))
    || (s.closing == Stopping && AllGone(s) && s' == s.(closing := Closed))
  }

  /** Steps of the scheduler's own goroutines that wait for nobody outside. */
  ghost predicate Internal<J(!new)>(s: Sched<J>, s': Sched<J>)
  {
    || Release(s, s')
    || (exists i :: SendDone(s, s', i))
    || (exists i :: Leave(s, s', i))
  }

  ghost predicate Next<J(!new)>(s: Sched<J>, s': Sched<J>)
  {
    || (exists w :: Accept(s, s', w))
    || (exists j :: Refuse(s, s', j))
    || (exists i :: Finish(s, s', i))
    || Internal(s, s')
    || CloseStep(s, s')
  }

  /** A run from a fresh scheduler. */
  ghost predicate Run<J(!new)>(run: seq<Sched<J>>, normal: nat, reserved: nat)
  {
    && run != [] && Init(run[0], normal, reserved)
    && forall i :: 0 <= i < |run| - 1 ==> Next(run[i], run[i + 1])
  }

  // ----- the invariant -----

  function KindIs(b: bool): Worker -> bool { (w: Worker) => w.isReserved == b }

  function Holds<J>(b: bool): Task<J> -> bool
  {
    (t: Task<J>) => t.worker.isReserved == b && (t.phase == Running || t.phase == Sending)
  }

  function Pending(b: bool): bool -> bool { (x: bool) => x == b }

  /** Workers of one kind: idle, in the hands of a goroutine, or on their way back through done. */
  function Workers3<J>(s: Sched<J>, b: bool): nat
  {
    Count(KindIs(b), s.idle) + Count(Holds(b), s.tasks) + Count(Pending(b), s.done)
  }

  ghost predicate Conserved<J>(s: Sched<J>)
  {
    Workers3(s, false) == s.normal && Workers3(s, true) == s.reserved
  }

  /** The future of j has its result. */
  ghost predicate Resolved<J(!new)>(s: Sched<J>, j: J)
  {
    j in s.refused || exists i :: 0 <= i < |s.tasks| && s.tasks[i].item.job == j && s.tasks[i].phase != Running
  }

  ghost predicate Inv<J(!new)>(s: Sched<J>)
  {
    && Conserved(s)
    && Stuck(s.queue, s.idle)
    && multiset(s.accepted) == multiset(s.queue) + multiset(TaskItems(s.tasks))
    && NoDup(Jobs(s.accepted) + s.refused)
    && NoDup(s.delivered)
    && (forall j :: j in s.delivered <==> Resolved(s, j))
    && (forall t :: t in s.tasks ==> Eligible(t.worker, t.item))
    && (s.closing == Closed ==> AllGone(s))
    && (s.closing == Open ==> s.refused == [])
  }
}
