/** What every run of the scheduler keeps: workers are conserved, no send blocks, no work is lost or doubled, every
    future gets at most one result, and Close returns. */
module SchedulerLaws {
  import opened Wrappers
  import opened Dispatch
  import opened DispatchLaws
  import opened SchedulerProtocol

  // ----- counting over updates and launches -----

  lemma CountUpdate<T(!new)>(p: T -> bool, s: seq<T>, i: nat, x: T)
    requires i < |s|
    ensures Count(p, s[i := x]) + (if p(s[i]) then 1 else 0) == Count(p, s) + if p(x) then 1 else 0
  {
    assert s == s[..i] + ([s[i]] + s[i + 1..]);
    assert s[i := x] == s[..i] + ([x] + s[i + 1..]);
    CountAppend(p, s[..i], [s[i]] + s[i + 1..]);
    CountAppend(p, s[..i], [x] + s[i + 1..]);
    assert ([s[i]] + s[i + 1..])[1..] == s[i + 1..] == ([x] + s[i + 1..])[1..];
  }

  lemma {:induction false} LaunchCount<J(!new)>(st: seq<Start<J>>, b: bool)
    ensures Count(Holds(b), Launch(st)) == Count(KindIs(b), Workers(st))
    decreases |st|
  {
    if st != [] {
      LaunchCount(st[1..], b);
      assert Launch(st)[1..] == Launch(st[1..]);
      assert Workers(st)[1..] == Workers(st[1..]);
    }
  }

  lemma {:induction false} LaunchItems<J>(st: seq<Start<J>>)
    ensures TaskItems(Launch(st)) == Items(st)
    decreases |st|
  {
    if st != [] {
      LaunchItems(st[1..]);
      assert Launch(st)[1..] == Launch(st[1..]);
      assert TaskItems(Launch(st)) == [st[0].item] + TaskItems(Launch(st)[1..]);
    }
  }

  lemma {:induction false} CountRepeat<T(!new)>(p: T -> bool, n: nat, x: T)
    ensures Count(p, seq(n, _ => x)) == if p(x) then n else 0
    decreases n
  {
    if n > 0 {
      assert seq(n, _ => x)[1..] == seq(n - 1, _ => x);
      CountRepeat(p, n - 1, x);
    }
  }

  lemma InitInv<J(!new)>(s: Sched<J>, normal: nat, reserved: nat)
    requires Init(s, normal, reserved)
    ensures Inv(s)
  {
    var a, b := seq(normal, _ => Worker(false)), seq(reserved, _ => Worker(true));
    forall k: bool
      ensures Count(KindIs(k), s.idle) == if k then reserved else normal
    {
      CountAppend(KindIs(k), a, b);
      CountRepeat(KindIs(k), normal, Worker(false));
      CountRepeat(KindIs(k), reserved, Worker(true));
    }
    assert s.idle == a + b;
  }

  // ----- what a dispatch keeps -----

  /** Workers given to a dispatch are idle or running afterwards, kind by kind. */
  lemma DispatchKeepsWorkers<J(!new)>(s: Sched<J>, q: seq<Item<J>>, ws: seq<Worker>, s': Sched<J>, st: seq<Start<J>>, b: bool)
    requires Dispatched(s, q, ws, s', st)
    ensures Count(KindIs(b), ws) + Count(Holds(b), s.tasks) == Count(KindIs(b), s'.idle) + Count(Holds(b), s'.tasks)
  {
    hide Count, Stuck, AllEligible, Items, Workers;
    CountSplit(KindIs(b), ws, Workers(st), s'.idle);
    LaunchCount(st, b);
    CountAppend(Holds(b), s.tasks, Launch(st));
  }

  lemma DispatchKeepsItems<J(!new)>(s: Sched<J>, q: seq<Item<J>>, ws: seq<Worker>, s': Sched<J>, st: seq<Start<J>>)
    requires Dispatched(s, q, ws, s', st)
    ensures multiset(q) + multiset(TaskItems(s.tasks)) == multiset(s'.queue) + multiset(TaskItems(s'.tasks))
    ensures Stuck(s'.queue, s'.idle)
  {
    hide Stuck, AllEligible, Items, Workers;
    LaunchItems(st);
    assert TaskItems(s'.tasks) == TaskItems(s.tasks) + TaskItems(Launch(st));
  }

  lemma DispatchKeepsTasks<J(!new)>(s: Sched<J>, q: seq<Item<J>>, ws: seq<Worker>, s': Sched<J>, st: seq<Start<J>>)
    requires Dispatched(s, q, ws, s', st) && s'.refused == s.refused
    requires forall t :: t in s.tasks ==> Eligible(t.worker, t.item)
    ensures forall t :: t in s'.tasks ==> Eligible(t.worker, t.item)
    ensures forall j :: Resolved(s, j) <==> Resolved(s', j)
  {
    hide Stuck, Items, Workers;
    assert forall i :: 0 <= i < |st| ==> st[i] in st;
    forall j
      ensures Resolved(s, j) <==> Resolved(s', j)
    {
      if j !in s.refused && Resolved(s, j) {
        var i :| 0 <= i < |s.tasks| && s.tasks[i].item.job == j && s.tasks[i].phase != Running;
        assert s'.tasks[i] == s.tasks[i];
      }
    }
  }

  // ----- every step keeps the invariant -----

  /** Workers of both kinds are conserved by every step. */
  ghost predicate SameConfig<J>(s: Sched<J>, s': Sched<J>) { s'.normal == s.normal && s'.reserved == s.reserved }

  lemma AcceptConserves<J(!new)>(s: Sched<J>, s': Sched<J>, w: Item<J>)
    requires Conserved(s) && Accept(s, s', w)
    ensures Conserved(s')
  {
    hide Count, Outcome, Fresh;
    var st :| Dispatched(s, s.queue + [w], s.idle, s', st);
    DispatchKeepsWorkers(s, s.queue + [w], s.idle, s', st, false);
    DispatchKeepsWorkers(s, s.queue + [w], s.idle, s', st, true);
  }

  lemma ReleaseConserves<J(!new)>(s: Sched<J>, s': Sched<J>)
    requires Conserved(s) && Release(s, s')
    ensures Conserved(s')
  {
    hide Outcome;
    var w := Worker(s.done[0]);
    var st :| Dispatched(s, s.queue, s.idle + [w], s', st);
    forall b: bool
      ensures Workers3(s, b) == Workers3(s', b)
    {
      hide Dispatched;
      DispatchKeepsWorkers(s, s.queue, s.idle + [w], s', st, b);
      CountAppend(KindIs(b), s.idle, [w]);
      assert Count(KindIs(b), [w]) == if w.isReserved == b then 1 else 0;
    }
  }

  lemma TaskStepConserves<J(!new)>(s: Sched<J>, s': Sched<J>, i: nat)
    requires Conserved(s) && (Finish(s, s', i) || SendDone(s, s', i) || Leave(s, s', i))
    ensures Conserved(s')
  {
    forall b: bool
      ensures Workers3(s, b) == Workers3(s', b)
    {
      CountUpdate(Holds(b), s.tasks, i, s'.tasks[i]);
      if SendDone(s, s', i) {
        var x := s.tasks[i].worker.isReserved;
        CountAppend(Pending(b), s.done, [x]);
        assert [x][1..] == [];
      }
    }
  }

  lemma {:induction false} NextConserves<J(!new)>(s: Sched<J>, s': Sched<J>)
    requires Conserved(s) && Next(s, s')
    ensures Conserved(s') && SameConfig(s, s')
  {
    hide Conserved, Outcome, Fresh;
    if w :| Accept(s, s', w) {
      AcceptConserves(s, s', w);
    } else if j :| Refuse(s, s', j) {
      SameWorkers(s, s');
    } else if i :| Finish(s, s', i) {
      TaskStepConserves(s, s', i);
    } else if Release(s, s') {
      ReleaseConserves(s, s');
    } else if i :| SendDone(s, s', i) {
      TaskStepConserves(s, s', i);
    } else if i :| Leave(s, s', i) {
      TaskStepConserves(s, s', i);
    } else {
      SameWorkers(s, s');
    }
  }

  lemma SameWorkers<J>(s: Sched<J>, s': Sched<J>)
    requires Conserved(s) && SameConfig(s, s') && s'.idle == s.idle && s'.tasks == s.tasks && s'.done == s.done
    ensures Conserved(s')
  {
  }

  /** The rest of the invariant. */
  ghost predicate Ledger<J(!new)>(s: Sched<J>)
  {
    && Stuck(s.queue, s.idle)
    && multiset(s.accepted) == multiset(s.queue) + multiset(TaskItems(s.tasks))
    && NoDup(Jobs(s.accepted) + s.refused)
    && NoDup(s.delivered)
    && (forall j :: j in s.delivered <==> Resolved(s, j))
    && (forall t :: t in s.tasks ==> Eligible(t.worker, t.item))
    && (s.closing == Closed ==> AllGone(s))
    && (s.closing == Open ==> s.refused == [])
  }

  lemma NoDupSnoc<T(!new)>(s: seq<T>, x: T)
    requires NoDup(s) && x !in s
    ensures NoDup(s + [x])
  {
  }

  lemma NoDupMiddle<T(!new)>(a: seq<T>, b: seq<T>, x: T)
    requires NoDup(a + b) && x !in a && x !in b
    ensures NoDup((a + [x]) + b)
  {
    var c, d := a + b, (a + [x]) + b;
    forall i, j | 0 <= i < j < |d|
      ensures d[i] != d[j]
    {
      if i != |a| && j != |a| {
        assert d[i] == c[if i < |a| then i else i - 1] && d[j] == c[if j < |a| then j else j - 1];
      } else if i == |a| {
        assert d[j] == b[j - |a| - 1];
      } else {
        assert d[i] == a[i];
      }
    }
  }

  lemma AcceptLedger<J(!new)>(s: Sched<J>, s': Sched<J>, w: Item<J>)
    requires Ledger(s) && Accept(s, s', w)
    ensures Ledger(s')
  {
    hide Outcome, Stuck, NoDup, Resolved;
    var st :| Dispatched(s, s.queue + [w], s.idle, s', st);
    DispatchKeepsItems(s, s.queue + [w], s.idle, s', st);
    DispatchKeepsTasks(s, s.queue + [w], s.idle, s', st);
    NoDupMiddle(Jobs(s.accepted), s.refused, w.job);
    assert Jobs(s'.accepted) == Jobs(s.accepted) + [w.job];
  }

  lemma ReleaseLedger<J(!new)>(s: Sched<J>, s': Sched<J>)
    requires Ledger(s) && Release(s, s')
    ensures Ledger(s')
  {
    hide Outcome, Stuck, NoDup, Resolved;
    var ws := s.idle + [Worker(s.done[0])];
    var st :| Dispatched(s, s.queue, ws, s', st);
    DispatchKeepsItems(s, s.queue, ws, s', st);
    DispatchKeepsTasks(s, s.queue, ws, s', st);
  }

  lemma RefuseLedger<J(!new)>(s: Sched<J>, s': Sched<J>, j: J)
    requires Ledger(s) && Refuse(s, s', j)
    ensures Ledger(s')
  {
    hide Stuck, NoDup;
    assert (Jobs(s.accepted) + s.refused) + [j] == Jobs(s'.accepted) + s'.refused;
    NoDupSnoc(Jobs(s.accepted) + s.refused, j);
    NotResolvedYet(s, j);
    NoDupSnoc(s.delivered, j);
    forall k
      ensures k in s'.delivered <==> Resolved(s', k)
    {
      assert Resolved(s', k) <==> k == j || Resolved(s, k);
    }
  }

  /** What runs or waits was accepted. */
  lemma TaskWasAccepted<J(!new)>(s: Sched<J>, i: nat)
    requires multiset(s.accepted) == multiset(s.queue) + multiset(TaskItems(s.tasks)) && i < |s.tasks|
    ensures s.tasks[i].item in s.accepted && s.tasks[i].item.job in Jobs(s.accepted)
  {
    assert TaskItems(s.tasks)[i] in multiset(s.accepted);
    var k :| 0 <= k < |s.accepted| && s.accepted[k] == s.tasks[i].item;
    assert Jobs(s.accepted)[k] == s.tasks[i].item.job;
  }

  /** A job never submitted has no task. */
  lemma NotResolvedYet<J(!new)>(s: Sched<J>, j: J)
    requires multiset(s.accepted) == multiset(s.queue) + multiset(TaskItems(s.tasks)) && Fresh(s, j)
    ensures !Resolved(s, j)
  {
    forall i | 0 <= i < |s.tasks|
      ensures s.tasks[i].item.job != j
    {
      TaskWasAccepted(s, i);
    }
  }

  lemma TaskStepLedger<J(!new)>(s: Sched<J>, s': Sched<J>, i: nat)
    requires Ledger(s) && (SendDone(s, s', i) || Leave(s, s', i))
    ensures Ledger(s')
  {
    hide Stuck, NoDup, DoneFits;
    assert TaskItems(s'.tasks) == TaskItems(s.tasks);
    assert s.tasks[i] in s.tasks;
    forall j
      ensures Resolved(s, j) <==> Resolved(s', j)
    {
      SamePhases(s, s', i, j);
    }
  }

  lemma SamePhases<J(!new)>(s: Sched<J>, s': Sched<J>, i: nat, j: J)
    requires i < |s.tasks| == |s'.tasks| && s'.refused == s.refused
    requires s'.tasks == s.tasks[i := s'.tasks[i]] && s'.tasks[i].item == s.tasks[i].item
    requires s.tasks[i].phase != Running && s'.tasks[i].phase != Running
    ensures Resolved(s, j) <==> Resolved(s', j)
  {
    if j !in s.refused {
      if Resolved(s, j) {
        var k :| 0 <= k < |s.tasks| && s.tasks[k].item.job == j && s.tasks[k].phase != Running;
        assert s'.tasks[k].item.job == j && s'.tasks[k].phase != Running;
      }
      if Resolved(s', j) {
        var k :| 0 <= k < |s'.tasks| && s'.tasks[k].item.job == j && s'.tasks[k].phase != Running;
        assert s.tasks[k].item.job == j && s.tasks[k].phase != Running;
      }
    }
  }

  lemma FinishLedger<J(!new)>(s: Sched<J>, s': Sched<J>, i: nat)
    requires Ledger(s) && Finish(s, s', i)
    ensures Ledger(s')
  {
    hide Stuck, NoDup;
    var j := s.tasks[i].item.job;
    assert TaskItems(s'.tasks) == TaskItems(s.tasks);
    assert s.tasks[i] in s.tasks;
    NoDupSnoc(s.delivered, j);
    forall k
      ensures k in s'.delivered <==> Resolved(s', k)
    {
      FinishResolves(s, s', i, k);
    }
  }

  lemma FinishResolves<J(!new)>(s: Sched<J>, s': Sched<J>, i: nat, k: J)
    requires Finish(s, s', i)
    ensures Resolved(s', k) <==> k == s.tasks[i].item.job || Resolved(s, k)
  {
    if k == s.tasks[i].item.job {
      assert s'.tasks[i].item.job == k && s'.tasks[i].phase != Running;
    } else if k !in s.refused {
      if Resolved(s, k) {
        var m :| 0 <= m < |s.tasks| && s.tasks[m].item.job == k && s.tasks[m].phase != Running;
        assert s'.tasks[m].item.job == k && s'.tasks[m].phase != Running;
      }
      if Resolved(s', k) {
        var m :| 0 <= m < |s'.tasks| && s'.tasks[m].item.job == k && s'.tasks[m].phase != Running;
        assert s.tasks[m].item.job == k && s.tasks[m].phase != Running;
      }
    }
  }

  lemma CloseLedger<J(!new)>(s: Sched<J>, s': Sched<J>)
    requires Ledger(s) && CloseStep(s, s')
    ensures Ledger(s')
  {
    hide Stuck, NoDup;
    assert forall j :: Resolved(s, j) <==> Resolved(s', j);
  }

  lemma {:induction false} NextLedger<J(!new)>(s: Sched<J>, s': Sched<J>)
    requires Ledger(s) && Next(s, s')
    ensures Ledger(s')
  {
    hide Ledger, Outcome, Fresh;
    if w :| Accept(s, s', w) {
      AcceptLedger(s, s', w);
    } else if j :| Refuse(s, s', j) {
      RefuseLedger(s, s', j);
    } else if i :| Finish(s, s', i) {
      FinishLedger(s, s', i);
    } else if Release(s, s') {
      ReleaseLedger(s, s');
    } else if i :| SendDone(s, s', i) {
      TaskStepLedger(s, s', i);
    } else if i :| Leave(s, s', i) {
      TaskStepLedger(s, s', i);
    } else {
      CloseLedger(s, s');
    }
  }

  lemma NextInv<J(!new)>(s: Sched<J>, s': Sched<J>)
    requires Inv(s) && Next(s, s')
    ensures Inv(s') && SameConfig(s, s')
  {
    hide Next, Conserved, Stuck, NoDup, Resolved, AllGone;
    NextConserves(s, s');
    NextLedger(s, s');
  }

  /** The invariant holds in every state of every run. */
  lemma {:induction false} RunInv<J(!new)>(run: seq<Sched<J>>, normal: nat, reserved: nat, n: nat)
    requires Run(run, normal, reserved) && n < |run|
    ensures Inv(run[n]) && run[n].normal == normal && run[n].reserved == reserved
    decreases n
  {
    hide Inv, Next;
    if n == 0 {
      InitInv(run[0], normal, reserved);
    } else {
      RunInv(run, normal, reserved, n - 1);
      assert Next(run[n - 1], run[n - 1 + 1]);
      NextInv(run[n - 1], run[n]);
    }
  }

  // ----- what the invariant means -----

  lemma AcceptedOnce<J(!new)>(s: Sched<J>)
    requires Inv(s)
    ensures NoDup(Jobs(s.accepted)) && NoDup(s.accepted)
    ensures forall j :: j in s.refused ==> j !in Jobs(s.accepted)
  {
    hide Stuck, Conserved, Resolved;
    var a, b := Jobs(s.accepted), s.refused;
    assert forall i :: 0 <= i < |a| ==> a[i] == (a + b)[i];
    assert forall i :: 0 <= i < |b| ==> b[i] == (a + b)[|a| + i];
  }

  lemma SameJobSameItem<J(!new)>(s: Sched<J>, x: Item<J>, y: Item<J>)
    requires NoDup(Jobs(s.accepted)) && x in s.accepted && y in s.accepted && x.job == y.job
    ensures x == y
  {
    var i :| 0 <= i < |s.accepted| && s.accepted[i] == x;
    var k :| 0 <= k < |s.accepted| && s.accepted[k] == y;
    assert Jobs(s.accepted)[i] == Jobs(s.accepted)[k];
  }

  /** No job is started twice. */
  lemma StartedOnce<J(!new)>(s: Sched<J>, i: nat, k: nat)
    requires Inv(s) && i < k < |s.tasks|
    ensures s.tasks[i].item.job != s.tasks[k].item.job
  {
    hide Stuck, Conserved, Resolved, NoDup;
    AcceptedOnce(s);
    TaskWasAccepted(s, i);
    TaskWasAccepted(s, k);
    if s.tasks[i].item.job == s.tasks[k].item.job {
      SameJobSameItem(s, s.tasks[i].item, s.tasks[k].item);
      OnceEach(s.accepted, s.tasks[i].item);
      TwiceInMultiset(TaskItems(s.tasks), i, k);
    }
  }

  /** An item that waits and one that was started are accepted twice over. */
  lemma QueuedAndStarted<J(!new)>(s: Sched<J>, x: Item<J>, i: nat)
    requires multiset(s.accepted) == multiset(s.queue) + multiset(TaskItems(s.tasks))
    requires x in s.queue && i < |s.tasks| && s.tasks[i].item == x
    ensures multiset(s.accepted)[x] >= 2
  {
    assert TaskItems(s.tasks)[i] in multiset(TaskItems(s.tasks));
    assert x in multiset(s.queue);
  }

  /** A waiting job has neither started nor been refused. */
  lemma QueuedNotResolved<J(!new)>(s: Sched<J>, x: Item<J>)
    requires Inv(s) && x in s.queue
    ensures x.job !in s.delivered && forall i :: 0 <= i < |s.tasks| ==> s.tasks[i].item.job != x.job
  {
    hide Stuck, Conserved, NoDup;
    AcceptedOnce(s);
    assert x in multiset(s.accepted);
    var k :| 0 <= k < |s.accepted| && s.accepted[k] == x;
    assert Jobs(s.accepted)[k] == x.job;
    OnceEach(s.accepted, x);
    forall i | 0 <= i < |s.tasks|
      ensures s.tasks[i].item.job != x.job
    {
      TaskWasAccepted(s, i);
      if s.tasks[i].item.job == x.job {
        SameJobSameItem(s, s.tasks[i].item, x);
        QueuedAndStarted(s, x, i);
      }
    }
  }

  /** Until the loop stops and after, accepted work is what waits and what was started; a job starts at most once;
      a future holds at most one result, and holds one exactly when its job was refused or its function ended. */
  lemma NothingLostNothingDoubled<J(!new)>(run: seq<Sched<J>>, normal: nat, reserved: nat, n: nat)
    requires Run(run, normal, reserved) && n < |run|
    ensures var s := run[n];
            && multiset(s.accepted) == multiset(s.queue) + multiset(TaskItems(s.tasks))
            && (forall i, k :: 0 <= i < k < |s.tasks| ==> s.tasks[i].item.job != s.tasks[k].item.job)
            && (forall j :: multiset(s.delivered)[j] <= 1)
            && (forall j :: multiset(s.delivered)[j] == 1 <==> Resolved(s, j))
  {
    hide Run, Stuck, Conserved, Resolved, NoDup;
    RunInv(run, normal, reserved, n);
    var s := run[n];
    forall i, k | 0 <= i < k < |s.tasks|
      ensures s.tasks[i].item.job != s.tasks[k].item.job
    {
      StartedOnce(s, i, k);
    }
    forall j
      ensures multiset(s.delivered)[j] <= 1 && (multiset(s.delivered)[j] == 1 <==> Resolved(s, j))
    {
      OnceEach(s.delivered, j);
      assert j in multiset(s.delivered) <==> j in s.delivered;
    }
  }

  lemma {:induction false} DoneLength(d: seq<bool>)
    ensures Count(Pending(false), d) + Count(Pending(true), d) == |d|
    decreases |d|
  {
    if d != [] {
      DoneLength(d[1..]);
    }
  }

  lemma HolderCounts<J(!new)>(s: Sched<J>, i: nat)
    requires i < |s.tasks| && s.tasks[i].phase == Sending
    ensures Count(Holds(s.tasks[i].worker.isReserved), s.tasks) > 0
  {
    CountPositive(Holds(s.tasks[i].worker.isReserved), s.tasks, s.tasks[i]);
  }

  /** The next send of the i-th worker goroutine has room. */
  ghost predicate HasRoom<J>(s: Sched<J>, i: nat)
    requires i < |s.tasks|
  {
    && (s.tasks[i].phase == Sending ==> DoneFits(s))
    && (s.tasks[i].phase == Running ==> ResultFits(s, s.tasks[i].item.job))
  }

  /** In every state of every run workers of each kind are conserved, and the sends on done and on the result channels
      have room: no worker blocks. */
  lemma SendsNeverBlock<J(!new)>(run: seq<Sched<J>>, normal: nat, reserved: nat, n: nat)
    requires Run(run, normal, reserved) && n < |run|
    ensures Workers3(run[n], false) == normal && Workers3(run[n], true) == reserved
    ensures forall i :: 0 <= i < |run[n].tasks| ==> HasRoom(run[n], i)
  {
    hide Run, Stuck, NoDup, Count;
    RunInv(run, normal, reserved, n);
    var s := run[n];
    forall i | 0 <= i < |s.tasks|
      ensures HasRoom(s, i)
    {
      if s.tasks[i].phase == Sending {
        HolderCounts(s, i);
        DoneLength(s.done);
      }
      if s.tasks[i].phase == Running {
        RunningNotResolved(s, i);
      }
    }
  }

  lemma RunningNotResolved<J(!new)>(s: Sched<J>, i: nat)
    requires Inv(s) && i < |s.tasks| && s.tasks[i].phase == Running
    ensures !Resolved(s, s.tasks[i].item.job)
  {
    hide Stuck, Conserved, NoDup;
    AcceptedOnce(s);
    TaskWasAccepted(s, i);
    forall k | 0 <= k < |s.tasks| && k != i
      ensures s.tasks[k].item.job != s.tasks[i].item.job
    {
      if k < i {
        StartedOnce(s, k, i);
      } else {
        StartedOnce(s, i, k);
      }
    }
  }

  // ----- Close -----

  /** What is left to do for the worker goroutines whose functions have ended; a send brings the loop one errand. */
  function TaskErrands<J>(ts: seq<Task<J>>): nat
  {
    if ts == [] then 0
    else TaskErrands(ts[1..]) + (if ts[0].phase == Sending then 3 else if ts[0].phase == Leaving then 1 else 0)
  }

  ghost predicate Ended<J(!new)>(s: Sched<J>)
  {
    s.closing == Stopping && forall i :: 0 <= i < |s.tasks| ==> s.tasks[i].phase != Running
  }

  lemma {:induction false} ErrandsUpdate<J>(ts: seq<Task<J>>, i: nat, t: Task<J>)
    requires i < |ts| && ((ts[i].phase == Sending && t.phase == Leaving) || (ts[i].phase == Leaving && t.phase == Gone))
    ensures TaskErrands(ts[i := t]) == TaskErrands(ts) - if t.phase == Leaving then 2 else 1
    decreases |ts|
  {
    if i > 0 {
      ErrandsUpdate(ts[1..], i - 1, t);
      assert ts[i := t][1..] == ts[1..][i - 1 := t];
    } else {
      assert ts[i := t][1..] == ts[1..];
    }
  }

  lemma {:induction false} ErrandsZero<J(!new)>(ts: seq<Task<J>>) returns (i: nat)
    requires forall k :: 0 <= k < |ts| ==> ts[k].phase != Running
    ensures TaskErrands(ts) == 0 ==> forall t :: t in ts ==> t.phase == Gone
    ensures TaskErrands(ts) > 0 ==> i < |ts| && (ts[i].phase == Sending || ts[i].phase == Leaving)
    decreases |ts|
  {
    i := 0;
    if ts != [] && (ts[0].phase == Gone) {
      var k := ErrandsZero(ts[1..]);
      i := k + 1;
    }
  }

  /** Once the loop has stopped and the started functions have ended, every step of a worker brings Close nearer to
      its return, one such step is possible as long as it has not got there, and then it returns. */
  lemma CloseReturns<J(!new)>(s: Sched<J>)
    requires Inv(s) && Ended(s)
    ensures forall s' :: Internal(s, s') ==> Ended(s') && TaskErrands(s'.tasks) < TaskErrands(s.tasks)
    ensures TaskErrands(s.tasks) > 0 ==> exists s' :: Internal(s, s')
    ensures TaskErrands(s.tasks) == 0 ==> CloseStep(s, s.(closing := Closed))
  {
    hide Stuck, NoDup, Resolved, Count, TaskErrands;
    forall s' | Internal(s, s')
      ensures Ended(s') && TaskErrands(s'.tasks) < TaskErrands(s.tasks)
    {
      if i: nat :| SendDone(s, s', i) {
        ErrandsUpdate(s.tasks, i, s'.tasks[i]);
      } else {
        var i: nat :| Leave(s, s', i);
        ErrandsUpdate(s.tasks, i, s'.tasks[i]);
      }
    }
    var i := ErrandsZero(s.tasks);
    if TaskErrands(s.tasks) > 0 {
      var t := s.tasks[i];
      if t.phase == Sending {
        HolderCounts(s, i);
        DoneLength(s.done);
        var s' := s.(tasks := s.tasks[i := t.(phase := Leaving)], done := s.done + [t.worker.isReserved]);
        assert SendDone(s, s', i);
        assert Internal(s, s');
      } else {
        var s' := s.(tasks := s.tasks[i := t.(phase := Gone)]);
        assert Leave(s, s', i);
        assert Internal(s, s');
      }
    }
  }

  /** Work that waits when the loop stops is dropped: it stays where it is and its future never resolves. */
  lemma {:induction false} DroppedForever<J(!new)>(run: seq<Sched<J>>, normal: nat, reserved: nat, m: nat, n: nat, x: Item<J>)
    requires Run(run, normal, reserved) && m <= n < |run| && !LoopAlive(run[m]) && x in run[m].queue
    ensures !LoopAlive(run[n]) && run[n].queue == run[m].queue && x.job !in run[n].delivered
    decreases n
  {
    hide Inv, Outcome;
    if m < n {
      DroppedForever(run, normal, reserved, m, n - 1, x);
      assert Next(run[n - 1], run[n - 1 + 1]);
    }
    hide Run;
    RunInv(run, normal, reserved, n);
    QueuedNotResolved(run[n], x);
  }

  /** Once Close has returned, of the accepted work exactly what still waits has no result. */
  lemma ClosedDelivers<J(!new)>(s: Sched<J>, x: Item<J>)
    requires Inv(s) && s.closing == Closed && x in s.accepted
    ensures x.job in s.delivered <==> x !in s.queue
  {
    hide Stuck, Conserved, NoDup;
    if x in s.queue {
      QueuedNotResolved(s, x);
    } else {
      assert x in multiset(s.accepted);
      assert x in TaskItems(s.tasks);
      var i :| 0 <= i < |s.tasks| && TaskItems(s.tasks)[i] == x;
      assert s.tasks[i] in s.tasks;
      assert Resolved(s, x.job);
    }
  }

  // ----- a run that drops work -----

  function Ran(p: Phase): Task<int> { Task(Item(0, 0), Worker(false), p) }

  /** One worker, two jobs: the first runs, the second waits, then the scheduler is closed. */
  function DroppingRun(): seq<Sched<int>>
  {
    var a, b := Item(0, 0), Item(1, 0);
    var s0 := Sched(1, 0, [Worker(false)], [], [], [], [], [], [], Open);
    var s1 := s0.(idle := [], tasks := [Ran(Running)], accepted := [a]);
    var s2 := s1.(queue := [b], accepted := [a, b]);
    var s3 := s2.(closing := Cancelled);
    var s4 := s3.(closing := Stopping);
    var s5 := s4.(tasks := [Ran(Sending)], delivered := [0]);
    var s6 := s5.(tasks := [Ran(Leaving)], done := [false]);
    var s7 := s6.(tasks := [Ran(Gone)]);
    [s0, s1, s2, s3, s4, s5, s6, s7, s7.(closing := Closed)]
  }

  lemma FirstStarts()
    ensures Outcome([Item(0, 0)], [Worker(false)], [], [], [Start(Item(0, 0), Worker(false))])
  {
    var s := Start(Item(0, 0), Worker(false));
    assert [s][1..] == [];
    assert Items([s]) == [Item(0, 0)] && Workers([s]) == [Worker(false)];
  }

  lemma SecondWaits()
    ensures Outcome([Item(1, 0)], [], [Item(1, 0)], [], [])
  {
  }

  lemma DroppingAccepts()
    ensures var r := DroppingRun(); Accept(r[0], r[1], Item(0, 0)) && Accept(r[1], r[2], Item(1, 0))
  {
    hide Outcome;
    var r := DroppingRun();
    FirstStarts();
    SecondWaits();
    assert [] + [Item(0, 0)] == [Item(0, 0)] && [] + [Item(1, 0)] == [Item(1, 0)];
    assert Launch([Start(Item(0, 0), Worker(false))]) == [Ran(Running)];
    assert Dispatched(r[0], r[0].queue + [Item(0, 0)], r[0].idle, r[1], [Start(Item(0, 0), Worker(false))]);
    assert r[1].tasks + Launch([]) == r[2].tasks;
    assert Dispatched(r[1], r[1].queue + [Item(1, 0)], r[1].idle, r[2], []);
  }

  lemma DroppingEnds()
    ensures var r := DroppingRun();
            && CloseStep(r[2], r[3]) && CloseStep(r[3], r[4]) && Finish(r[4], r[5], 0)
            && SendDone(r[5], r[6], 0) && Leave(r[6], r[7], 0) && CloseStep(r[7], r[8])
  {
  }

  /** Work is dropped indeed: in this run Close returns while an accepted job waits. */
  lemma DroppedExample()
    ensures var r := DroppingRun();
            Run(r, 1, 0) && r[8].closing == Closed && r[8].queue == [Item(1, 0)] && 1 !in r[8].delivered
  {
    hide Accept, Finish, SendDone, Leave, CloseStep;
    var r := DroppingRun();
    DroppingAccepts();
    DroppingEnds();
    assert Init(r[0], 1, 0) by {
      assert seq(1, _ => Worker(false)) + seq(0, _ => Worker(true)) == [Worker(false)];
    }
  }
}
