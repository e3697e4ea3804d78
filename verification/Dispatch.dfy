/** How the scheduler hands queued work to idle workers (pkg/scheduler/scheduler.go, dispatch). */
module Dispatch {
  import opened Wrappers

  datatype Item<J> = Item(job: J, priority: int)

  datatype Worker = Worker(isReserved: bool)

  /** A goroutine launched for an item on a worker. */
  datatype Start<J> = Start(item: Item<J>, worker: Worker)

  /** Only work of priority zero is barred from reserved workers. */
  predicate Eligible<J>(w: Worker, i: Item<J>) { !(w.isReserved && i.priority == 0) }

  ghost predicate Descending<J>(q: seq<Item<J>>)
  {
    forall i, j :: 0 <= i < j < |q| ==> q[i].priority >= q[j].priority
  }

  ghost predicate ReservedFirst(ws: seq<Worker>)
  {
    forall i, j :: 0 <= i < j < |ws| && ws[j].isReserved ==> ws[i].isReserved
  }

  function Items<J>(st: seq<Start<J>>): (r: seq<Item<J>>)
    ensures |r| == |st|
  {
    if st == [] then [] else [st[0].item] + Items(st[1..])
  }

  function Workers<J>(st: seq<Start<J>>): (r: seq<Worker>)
    ensures |r| == |st|
  {
    if st == [] then [] else [st[0].worker] + Workers(st[1..])
  }

  ghost predicate AllEligible<J(!new)>(st: seq<Start<J>>)
  {
    forall s :: s in st ==> Eligible(s.worker, s.item)
  }

  /** Nothing more can be launched: no work, no worker, or only reserved workers and no work above priority zero. */
  ghost predicate Stuck<J(!new)>(q: seq<Item<J>>, ws: seq<Worker>)
  {
    || q == []
    || ws == []
    || ((forall w :: w in ws ==> w.isReserved) && (forall i :: i in q ==> i.priority <= 0) &&
        (exists i :: i in q && i.priority == 0))
  }

  /** What one call of dispatch does to queue q and idle workers ws, whatever order the sort gives to equals. */
  ghost predicate Outcome<J(!new)>(q: seq<Item<J>>, ws: seq<Worker>,
                                  q': seq<Item<J>>, ws': seq<Worker>, st: seq<Start<J>>)
  {
    && multiset(q) == multiset(Items(st)) + multiset(q')
    && multiset(ws) == multiset(Workers(st)) + multiset(ws')
    && AllEligible(st)
    && (forall s, i :: s in st && i in q' ==> s.item.priority >= i.priority)
    && ((exists s :: s in st && s.item.priority > 0 && !s.worker.isReserved) ==> forall w :: w in ws' ==> !w.isReserved)
    && Stuck(q', ws')
  }

  // ----- the loop over the sorted queue -----

  /** Index of the first worker that may take the item, or the number of workers. */
  function FirstFit<J>(ws: seq<Worker>, i: Item<J>): (k: nat)
    ensures k <= |ws|
    ensures forall j :: 0 <= j < k ==> !Eligible(ws[j], i)
    ensures k < |ws| ==> Eligible(ws[k], i)
  {
    if ws == [] || Eligible(ws[0], i) then 0 else 1 + FirstFit(ws[1..], i)
  }

  /** The first worker that may take the item is taken, those passed over go to the back; or none may. */
  ghost predicate Took<J>(ws: seq<Worker>, i: Item<J>, taken: Option<Worker>, ws': seq<Worker>)
  {
    var k := FirstFit(ws, i);
    if k == |ws| then taken == None && ws' == ws
    else taken == Some(ws[k]) && ws' == ws[k + 1..] + ws[..k]
  }

  ghost predicate Passed<J>(ws: seq<Worker>, i: Item<J>) { forall j :: 0 <= j < |ws| ==> !Eligible(ws[j], i) }

  lemma PassedNone<J>(i: Item<J>)
    ensures Passed([], i)
  {
  }

  lemma PassedMore<J>(passed: seq<Worker>, w: Worker, i: Item<J>)
    requires Passed(passed, i) && !Eligible(w, i)
    ensures Passed(passed + [w], i)
  {
  }

  lemma FitsBehind<J>(passed: seq<Worker>, w: Worker, rest: seq<Worker>, i: Item<J>)
    requires Eligible(w, i) && Passed(passed, i)
    ensures Took(passed + ([w] + rest), i, Some(w), rest + passed)
  {
    var ws := passed + ([w] + rest);
    assert ws[|passed|] == w;
    assert forall j :: 0 <= j < |passed| ==> ws[j] == passed[j];
    assert FirstFit(ws, i) == |passed|;
    assert ws[|passed| + 1..] == rest && ws[..|passed|] == passed;
  }

  lemma NoneFits<J>(ws: seq<Worker>, i: Item<J>)
    requires Passed(ws, i)
    ensures Took(ws, i, None, [] + ws)
  {
  }

  datatype Result<J> = Result(started: seq<Start<J>>, queue: seq<Item<J>>, idle: seq<Worker>)

  /** Takes items from the front while a worker fits; workers passed over go to the back, and the item that finds
      none goes to the back of the queue. */
  function Assign<J>(q: seq<Item<J>>, ws: seq<Worker>): Result<J>
    decreases |q|
  {
    if q == [] then Result([], q, ws)
    else
      var k := FirstFit(ws, q[0]);
      if k == |ws| then Result([], q[1..] + [q[0]], ws)
      else
        var r := Assign(q[1..], ws[k + 1..] + ws[..k]);
        r.(started := [Start(q[0], ws[k])] + r.started)
  }

  lemma RotateMultiset(ws: seq<Worker>, k: nat)
    requires k < |ws|
    ensures multiset(ws) == multiset{ws[k]} + multiset(ws[k + 1..] + ws[..k])
  {
    assert ws == ws[..k] + ([ws[k]] + ws[k + 1..]);
  }

  lemma HeadMultiset<J>(q: seq<Item<J>>)
    requires q != []
    ensures multiset(q) == multiset{q[0]} + multiset(q[1..]) == multiset(q[1..] + [q[0]])
  {
    assert q == [q[0]] + q[1..];
  }

  lemma ConsStart<J>(s: Start<J>, st: seq<Start<J>>)
    ensures multiset(Items([s] + st)) == multiset{s.item} + multiset(Items(st))
    ensures multiset(Workers([s] + st)) == multiset{s.worker} + multiset(Workers(st))
  {
    assert ([s] + st)[1..] == st;
  }

  lemma DescendingTail<J(!new)>(q: seq<Item<J>>)
    requires Descending(q) && q != []
    ensures Descending(q[1..]) && forall i :: i in q[1..] ==> q[0].priority >= i.priority
  {
  }

  lemma InMultiset<T>(x: T, s: seq<T>, a: multiset<T>, t: seq<T>)
    requires multiset(s) == a + multiset(t) && x in t
    ensures x in s
  {
    assert x in multiset(s);
  }

  lemma StuckHead<J(!new)>(q: seq<Item<J>>, ws: seq<Worker>)
    requires Descending(q) && q != [] && FirstFit(ws, q[0]) == |ws|
    ensures Stuck(q[1..] + [q[0]], ws)
  {
    var q' := q[1..] + [q[0]];
    assert q'[|q'| - 1] == q[0];
    if ws != [] {
      assert !Eligible(ws[0], q[0]);
      DescendingTail(q);
    }
  }

  /** The loop has the outcome promised, if the queue is sorted and reserved workers stand first. */
  lemma {:induction false} AssignOutcome<J(!new)>(q: seq<Item<J>>, ws: seq<Worker>)
    requires Descending(q) && (q != [] && q[0].priority > 0 ==> ReservedFirst(ws))
    ensures Outcome(q, ws, Assign(q, ws).queue, Assign(q, ws).idle, Assign(q, ws).started)
    decreases |q|
  {
    hide Stuck;
    if q == [] {
      NothingQueued<J>(ws);
    } else {
      var k := FirstFit(ws, q[0]);
      HeadMultiset(q);
      DescendingTail(q);
      if k == |ws| {
        StuckHead(q, ws);
        assert multiset(ws) == multiset(Workers<J>([])) + multiset(ws);
      } else {
        var ws1 := ws[k + 1..] + ws[..k];
        RotateMultiset(ws, k);
        var r := Assign(q[1..], ws1);
        if q[0].priority > 0 {
          assert k == 0;
          assert ws1 == ws[1..];
        }
        AssignOutcome(q[1..], ws1);
        OutcomeCons(q, ws, k, r);
      }
    }
  }

  lemma NothingQueued<J(!new)>(ws: seq<Worker>)
    ensures Outcome<J>([], ws, [], ws, [])
  {
  }

  lemma OutcomeCons<J(!new)>(q: seq<Item<J>>, ws: seq<Worker>, k: nat, r: Result<J>)
    requires q != [] && k < |ws| && Eligible(ws[k], q[0])
    requires forall i :: i in q[1..] ==> q[0].priority >= i.priority
    requires q[0].priority > 0 ==> k == 0 && ReservedFirst(ws)
    requires multiset(q) == multiset{q[0]} + multiset(q[1..])
    requires multiset(ws) == multiset{ws[k]} + multiset(ws[k + 1..] + ws[..k])
    requires Outcome(q[1..], ws[k + 1..] + ws[..k], r.queue, r.idle, r.started)
    ensures Outcome(q, ws, r.queue, r.idle, [Start(q[0], ws[k])] + r.started)
  {
    hide Stuck, Items, Workers;
    var s := Start(q[0], ws[k]);
    var st := [s] + r.started;
    ConsStart(s, r.started);
    forall i | i in r.queue
      ensures q[0].priority >= i.priority
    {
      InMultiset(i, q[1..], multiset(Items(r.started)), r.queue);
    }
    if q[0].priority > 0 && !ws[k].isReserved {
      forall w | w in r.idle
        ensures !w.isReserved
      {
        InMultiset(w, ws[1..] + ws[..0], multiset(Workers(r.started)), r.idle);
      }
    }
  }

  // ----- sorting -----

  function InsertItem<J>(x: Item<J>, q: seq<Item<J>>): seq<Item<J>>
  {
    if q == [] || x.priority >= q[0].priority then [x] + q else [q[0]] + InsertItem(x, q[1..])
  }

  lemma DescendingCons<J(!new)>(x: Item<J>, q: seq<Item<J>>)
    requires Descending(q) && forall i :: 0 <= i < |q| ==> x.priority >= q[i].priority
    ensures Descending([x] + q)
  {
  }

  lemma {:induction false} InsertItemSorted<J(!new)>(x: Item<J>, q: seq<Item<J>>)
    requires Descending(q)
    ensures Descending(InsertItem(x, q)) && multiset(InsertItem(x, q)) == multiset{x} + multiset(q)
    decreases |q|
  {
    if q == [] || x.priority >= q[0].priority {
      DescendingCons(x, q);
    } else {
      DescendingTail(q);
      InsertItemSorted(x, q[1..]);
      HeadMultiset(q);
      var t := InsertItem(x, q[1..]);
      forall i | 0 <= i < |t|
        ensures q[0].priority >= t[i].priority
      {
        assert t[i] in multiset(t);
      }
      DescendingCons(q[0], t);
    }
  }

  /** slices.SortFunc by falling priority: some permutation in that order. */
  method SortQueue<J(!new)>(q: seq<Item<J>>) returns (r: seq<Item<J>>)
    ensures Descending(r) && multiset(r) == multiset(q)
  {
    r := [];
    for i := 0 to |q|
      invariant Descending(r) && multiset(r) == multiset(q[..i])
    {
      InsertItemSorted(q[i], r);
      r := InsertItem(q[i], r);
      assert q[..i + 1] == q[..i] + [q[i]];
    }
    assert q[..|q|] == q;
  }

  /** slices.SortFunc putting reserved workers in front. */
  method SortWorkers(ws: seq<Worker>) returns (r: seq<Worker>)
    ensures ReservedFirst(r) && multiset(r) == multiset(ws)
  {
    r := [];
    for i := 0 to |ws|
      invariant ReservedFirst(r) && multiset(r) == multiset(ws[..i])
    {
      PlaceWorker(ws[i], r);
      r := Place(ws[i], r);
      assert ws[..i + 1] == ws[..i] + [ws[i]];
    }
    assert ws[..|ws|] == ws;
  }

  function Place(w: Worker, ws: seq<Worker>): seq<Worker> { if w.isReserved then [w] + ws else ws + [w] }

  lemma PlaceWorker(w: Worker, ws: seq<Worker>)
    requires ReservedFirst(ws)
    ensures ReservedFirst(Place(w, ws)) && multiset(Place(w, ws)) == multiset{w} + multiset(ws)
  {
  }

  lemma OutcomeOfPermutation<J(!new)>(q: seq<Item<J>>, ws: seq<Worker>, p: seq<Item<J>>, vs: seq<Worker>,
                                      q': seq<Item<J>>, ws': seq<Worker>, st: seq<Start<J>>)
    requires multiset(q) == multiset(p) && multiset(ws) == multiset(vs) && Outcome(p, vs, q', ws', st)
    ensures Outcome(q, ws, q', ws', st)
  {
  }

  lemma NothingToDo<J(!new)>(q: seq<Item<J>>, ws: seq<Worker>)
    requires q == [] || ws == []
    ensures Outcome(q, ws, q, ws, [])
  {
  }

  /** Some outcome exists for every queue and every idle set. */
  lemma OutcomeExists<J(!new)>(q: seq<Item<J>>, ws: seq<Worker>)
    returns (q': seq<Item<J>>, ws': seq<Worker>, st: seq<Start<J>>)
    ensures Outcome(q, ws, q', ws', st)
  {
    var p := SortedItems(q);
    var vs := SortedWorkers(ws);
    AssignOutcome(p, vs);
    var r := Assign(p, vs);
    OutcomeOfPermutation(q, ws, p, vs, r.queue, r.idle, r.started);
    q', ws', st := r.queue, r.idle, r.started;
  }

  lemma {:induction false} SortedItems<J(!new)>(q: seq<Item<J>>) returns (p: seq<Item<J>>)
    ensures Descending(p) && multiset(p) == multiset(q)
    decreases |q|
  {
    if q == [] {
      p := [];
    } else {
      var r := SortedItems(q[1..]);
      InsertItemSorted(q[0], r);
      p := InsertItem(q[0], r);
      HeadMultiset(q);
    }
  }

  lemma {:induction false} SortedWorkers(ws: seq<Worker>) returns (vs: seq<Worker>)
    ensures ReservedFirst(vs) && multiset(vs) == multiset(ws)
    decreases |ws|
  {
    if ws == [] {
      vs := [];
    } else {
      var r := SortedWorkers(ws[1..]);
      assert ws == [ws[0]] + ws[1..];
      PlaceWorker(ws[0], r);
      vs := Place(ws[0], r);
    }
  }

  // ----- the queues of the scheduler -----

  /** What was launched so far and what the loop will still do make up the whole. */
  ghost predicate Continues<J>(whole: Result<J>, started: seq<Start<J>>, q: seq<Item<J>>, ws: seq<Worker>)
  {
    var r := Assign(q, ws);
    whole == r.(started := started + r.started)
  }

  lemma AppendAssociates<T>(a: seq<T>, x: T, b: seq<T>)
    ensures a + ([x] + b) == (a + [x]) + b
  {
  }

  lemma ContinuesStep<J>(whole: Result<J>, started: seq<Start<J>>, q: seq<Item<J>>, ws: seq<Worker>,
                         taken: Option<Worker>, ws': seq<Worker>)
    requires q != [] && Continues(whole, started, q, ws) && Took(ws, q[0], taken, ws')
    ensures if taken.None? then whole == Result(started, q[1..] + [q[0]], ws')
            else Continues(whole, started + [Start(q[0], taken.value)], q[1..], ws')
  {
    if taken.None? {
      assert started + [] == started;
    } else {
      AppendAssociates(started, Start(q[0], taken.value), Assign(q[1..], ws').started);
    }
  }

  class Scheduler<J(!new)> {
    var workers: seq<Worker>
    var workQueue: seq<Item<J>>

    constructor (normalWorkers: nat, reservedWorkers: nat)
      ensures workQueue == []
      ensures workers == seq(normalWorkers, _ => Worker(false)) + seq(reservedWorkers, _ => Worker(true))
    {
      workers := seq(normalWorkers, _ => Worker(false)) + seq(reservedWorkers, _ => Worker(true));
      workQueue := [];
    }

    /** Launches what can be launched; the result lists the launches in order. */
    method DispatchAll() returns (started: seq<Start<J>>)
      modifies this
      ensures Outcome(old(workQueue), old(workers), workQueue, workers, started)
    {
      hide Outcome, Assign;
      if |workers| == 0 || |workQueue| == 0 {
        NothingToDo(workQueue, workers);
        return [];
      }
      ghost var q0, ws0 := workQueue, workers;
      workQueue := SortQueue(workQueue);
      workers := SortWorkers(workers);
      ghost var q, ws := workQueue, workers;
      AssignOutcome(q, ws);
      started := Drain();
      OutcomeOfPermutation(q0, ws0, q, ws, workQueue, workers, started);
    }

    /** The loop over the sorted queue. */
    method Drain() returns (started: seq<Start<J>>)
      modifies this
      ensures Result(started, workQueue, workers) == Assign(old(workQueue), old(workers))
    {
      ghost var whole := Assign(workQueue, workers);
      started := [];
      assert [] + whole.started == whole.started;
      while |workQueue| > 0
        invariant Continues(whole, started, workQueue, workers)
        decreases |workQueue|
      {
        hide Continues, Assign, Took;
        var work := workQueue[0];
        var rest := workQueue[1..];
        ghost var ws := workers;
        var k := TakeWorker(work);
        ContinuesStep(whole, started, workQueue, ws, k, workers);
        if k.None? {
          workQueue := rest + [work];
          return;
        }
        workQueue := rest;
        started := started + [Start(work, k.value)];
      }
      assert started + [] == started;
    }

    /** case w := <-s.work */
    method Receive(w: Item<J>) returns (started: seq<Start<J>>)
      modifies this
      ensures Outcome(old(workQueue) + [w], old(workers), workQueue, workers, started)
      ensures Stuck(workQueue, workers)
    {
      workQueue := workQueue + [w];
      started := DispatchAll();
    }

    /** case isReserved := <-s.done */
    method Release(isReserved: bool) returns (started: seq<Start<J>>)
      modifies this
      ensures Outcome(old(workQueue), old(workers) + [Worker(isReserved)], workQueue, workers, started)
      ensures Stuck(workQueue, workers)
    {
      workers := workers + [Worker(isReserved)];
      started := DispatchAll();
    }

    /** The inner loop: workers that may not take the item are set aside and put back behind the others. */
    method TakeWorker(work: Item<J>) returns (taken: Option<Worker>)
      modifies this`workers
      ensures Took(old(workers), work, taken, workers)
    {
      hide Took, Passed;
      ghost var ws := workers;
      var tmpList := [];
      PassedNone(work);
      while |workers| > 0
        invariant ws == tmpList + workers && Passed(tmpList, work)
        decreases |workers|
      {
        var worker := workers[0];
        workers := workers[1..];
        assert ws == tmpList + ([worker] + workers);
        if worker.isReserved && work.priority == 0 {
          PassedMore(tmpList, worker, work);
          tmpList := tmpList + [worker];
          continue;
        }
        FitsBehind(tmpList, worker, workers, work);
        workers := workers + tmpList;
        return Some(worker);
      }
      NoneFits(tmpList, work);
      assert ws == tmpList;
      workers := workers + tmpList;
      taken := None;
    }
  }
}
