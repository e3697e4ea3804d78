/** When the scheduler can move: accepting is always possible while the loop runs, and a scheduler that cannot move by
    itself and whose functions have ended has finished all it accepted. */
module SchedulerProgress {
  import opened Wrappers
  import opened Dispatch
  import opened DispatchLaws
  import opened SchedulerProtocol
  import opened SchedulerLaws

  lemma AcceptPossible<J(!new)>(s: Sched<J>, w: Item<J>) returns (s': Sched<J>)
    requires LoopAlive(s) && Fresh(s, w.job)
    ensures Accept(s, s', w)
  {
    hide Outcome;
    var q, ws, st := OutcomeExists(s.queue + [w], s.idle);
    s' := s.(queue := q, idle := ws, tasks := s.tasks + Launch(st), accepted := s.accepted + [w]);
    assert Dispatched(s, s.queue + [w], s.idle, s', st);
  }

  lemma ReleasePossible<J(!new)>(s: Sched<J>) returns (s': Sched<J>)
    requires LoopAlive(s) && s.done != []
    ensures Release(s, s')
  {
    hide Outcome;
    var ws := s.idle + [Worker(s.done[0])];
    var q, idle, st := OutcomeExists(s.queue, ws);
    s' := s.(queue := q, idle := idle, tasks := s.tasks + Launch(st), done := s.done[1..]);
    assert Dispatched(s, s.queue, ws, s', st);
  }

  lemma SendPossible<J(!new)>(s: Sched<J>, i: nat) returns (s': Sched<J>)
    requires Conserved(s) && i < |s.tasks| && s.tasks[i].phase == Sending
    ensures SendDone(s, s', i)
  {
    hide Count;
    HolderCounts(s, i);
    DoneLength(s.done);
    s' := s.(tasks := s.tasks[i := s.tasks[i].(phase := Leaving)], done := s.done + [s.tasks[i].worker.isReserved]);
  }

  /** A worker goroutine that has not gone can take its next step, if its function has ended or ends. */
  lemma TaskMoves<J(!new)>(s: Sched<J>, i: nat) returns (s': Sched<J>)
    requires Inv(s) && i < |s.tasks| && s.tasks[i].phase != Gone
    ensures if s.tasks[i].phase == Running then Finish(s, s', i) else Internal(s, s')
  {
    hide Stuck, NoDup, Resolved;
    match s.tasks[i].phase
    case Running =>
      RunningNotResolved(s, i);
      s' := s.(tasks := s.tasks[i := s.tasks[i].(phase := Sending)], delivered := s.delivered + [s.tasks[i].item.job]);
    case Sending =>
      s' := SendPossible(s, i);
    case Leaving =>
      s' := s.(tasks := s.tasks[i := s.tasks[i].(phase := Gone)]);
      assert Leave(s, s', i);
  }

  /** All accepted work has been done and every worker is back. */
  ghost predicate Settled<J(!new)>(s: Sched<J>) { s.queue == [] && s.done == [] && AllGone(s) }

  lemma IdleWhenGone<J(!new)>(s: Sched<J>)
    requires Inv(s) && s.normal >= 1 && AllGone(s) && s.done == []
    ensures s.queue == []
  {
    CountNone(Holds(false), s.tasks);
    var w := CountWitness(KindIs(false), s.idle);
  }

  /** A step of the scheduler's goroutines, including a function that ends. */
  ghost predicate Works<J(!new)>(s: Sched<J>, s': Sched<J>) { Internal(s, s') || exists i :: Finish(s, s', i) }

  lemma MovesOrSettled<J(!new)>(s: Sched<J>) returns (s': Sched<J>)
    requires Inv(s) && s.normal >= 1 && LoopAlive(s) && !Settled(s)
    ensures Works(s, s')
  {
    hide Inv, Release;
    if AllGone(s) {
      IdleOrReturning(s);
      s' := ReleasePossible(s);
    } else {
      s' := TasksMoveOn(s);
    }
  }

  lemma IdleOrReturning<J(!new)>(s: Sched<J>)
    requires Inv(s) && s.normal >= 1 && AllGone(s) && !Settled(s)
    ensures s.done != []
  {
    hide Inv;
    if s.done == [] {
      IdleWhenGone(s);
    }
  }

  lemma TasksMoveOn<J(!new)>(s: Sched<J>) returns (s': Sched<J>)
    requires Inv(s) && !AllGone(s)
    ensures Works(s, s')
  {
    hide Inv, Internal, Finish;
    var i: nat :| i < |s.tasks| && s.tasks[i].phase != Gone;
    s' := TaskMoves(s, i);
  }

  /** What was accepted has its result once all is settled. */
  lemma SettledDelivers<J(!new)>(s: Sched<J>, x: Item<J>)
    requires Inv(s) && Settled(s) && x in s.accepted
    ensures x.job in s.delivered
  {
    hide Stuck, NoDup, Conserved;
    assert x in multiset(s.accepted);
    assert x in TaskItems(s.tasks);
    var i :| 0 <= i < |s.tasks| && TaskItems(s.tasks)[i] == x;
    assert s.tasks[i] in s.tasks;
    assert Resolved(s, x.job);
  }

  // ----- errands: what the scheduler has to do by itself -----

  function Errands<J>(s: Sched<J>): nat { TaskErrands(s.tasks) + |s.done| }

  lemma {:induction false} ErrandsLaunch<J>(ts: seq<Task<J>>, st: seq<Start<J>>)
    ensures TaskErrands(ts + Launch(st)) == TaskErrands(ts)
    decreases |ts| + |st|
  {
    if ts != [] {
      ErrandsLaunch(ts[1..], st);
      assert (ts + Launch(st))[1..] == ts[1..] + Launch(st);
    } else if st != [] {
      ErrandsLaunch(ts, st[1..]);
      assert ts + Launch(st) == Launch(st) && ts + Launch(st[1..]) == Launch(st[1..]);
      assert Launch(st)[1..] == Launch(st[1..]);
    } else {
      assert ts + Launch(st) == [];
    }
  }

  /** Every step the scheduler takes by itself is one errand less. */
  lemma InternalIsAnErrand<J(!new)>(s: Sched<J>, s': Sched<J>)
    requires Internal(s, s')
    ensures Errands(s') < Errands(s)
  {
    hide TaskErrands, Outcome;
    if Release(s, s') {
      var st :| Dispatched(s, s.queue, s.idle + [Worker(s.done[0])], s', st);
      ErrandsLaunch(s.tasks, st);
    } else if i: nat :| SendDone(s, s', i) {
      ErrandsUpdate(s.tasks, i, s'.tasks[i]);
    } else {
      var i: nat :| Leave(s, s', i);
      ErrandsUpdate(s.tasks, i, s'.tasks[i]);
    }
  }

  // ----- workers that were ever used -----

  function On<J>(b: bool): Task<J> -> bool { (t: Task<J>) => t.worker.isReserved == b }

  /** A worker that is held or on its way back was taken by a task. */
  ghost predicate Used<J>(s: Sched<J>, b: bool)
  {
    Count(Holds(b), s.tasks) + Count(Pending(b), s.done) <= Count(On(b), s.tasks)
  }

  lemma {:induction false} LaunchUses<J(!new)>(st: seq<Start<J>>, b: bool)
    ensures Count(Holds(b), Launch(st)) == Count(On(b), Launch(st))
    decreases |st|
  {
    if st != [] {
      LaunchUses(st[1..], b);
      assert Launch(st)[1..] == Launch(st[1..]);
    }
  }

  lemma DispatchUses<J(!new)>(s: Sched<J>, q: seq<Item<J>>, ws: seq<Worker>, s': Sched<J>, st: seq<Start<J>>, b: bool)
    requires Dispatched(s, q, ws, s', st)
    ensures Count(Holds(b), s'.tasks) - Count(Holds(b), s.tasks) == Count(On(b), s'.tasks) - Count(On(b), s.tasks)
  {
    hide Count, Outcome;
    LaunchUses(st, b);
    CountAppend(Holds(b), s.tasks, Launch(st));
    CountAppend(On(b), s.tasks, Launch(st));
  }

  lemma TaskStepUses<J(!new)>(s: Sched<J>, s': Sched<J>, i: nat, b: bool)
    requires Used(s, b) && (Finish(s, s', i) || SendDone(s, s', i) || Leave(s, s', i))
    ensures Used(s', b)
  {
    hide Count;
    CountUpdate(Holds(b), s.tasks, i, s'.tasks[i]);
    CountUpdate(On(b), s.tasks, i, s'.tasks[i]);
    var x := s.tasks[i].worker.isReserved;
    CountAppend(Pending(b), s.done, [x]);
    CountOne(Pending(b), x);
  }

  lemma CountOne<T>(p: T -> bool, x: T)
    ensures Count(p, [x]) == if p(x) then 1 else 0
  {
  }

  lemma ReleaseUses<J(!new)>(s: Sched<J>, s': Sched<J>, b: bool)
    requires Used(s, b) && Release(s, s')
    ensures Used(s', b)
  {
    hide Count, Outcome;
    var st :| Dispatched(s, s.queue, s.idle + [Worker(s.done[0])], s', st);
    DispatchUses(s, s.queue, s.idle + [Worker(s.done[0])], s', st, b);
    CountAppend(Pending(b), [s.done[0]], s.done[1..]);
    assert s.done == [s.done[0]] + s.done[1..];
  }

  lemma NextUses<J(!new)>(s: Sched<J>, s': Sched<J>, b: bool)
    requires Used(s, b) && Next(s, s')
    ensures Used(s', b)
  {
    hide Count, Outcome, Fresh, Finish, SendDone, Leave, Release;
    if w :| Accept(s, s', w) {
      var st :| Dispatched(s, s.queue + [w], s.idle, s', st);
      DispatchUses(s, s.queue + [w], s.idle, s', st, b);
    } else if i: nat :| Finish(s, s', i) || SendDone(s, s', i) || Leave(s, s', i) {
      TaskStepUses(s, s', i, b);
    } else if Release(s, s') {
      ReleaseUses(s, s', b);
    }
  }
}
