/** Pipeline is a stoppable fold: what a run publishes is the fold over the units that succeeded before the first error
    or the stop, one run is active at a time, and its stop channel is closed at most once. */
module PipelineLaws {
  import opened Wrappers
  import opened PipelineProtocol

  // ----- one run -----

  /** The result after the answers: the last value, or what it was. */
  function After<R, E>(zero: R, answers: seq<Answer<R, E>>): R
  {
    if answers == [] then zero
    else
      var a := answers[|answers| - 1];
      if a.Value? then a.data else After(zero, answers[..|answers| - 1])
  }

  lemma AfterSnoc<R, E>(zero: R, answers: seq<Answer<R, E>>, a: Answer<R, E>)
    ensures After(zero, answers + [a]) == if a.Value? then a.data else After(zero, answers)
  {
    assert (answers + [a])[..|answers|] == answers;
  }

  /** Units come from the builder in order without a gap, each with the result its predecessors left; only the last
      answer may be a failure, and then it is the error of the run. */
  ghost predicate Threaded<S, U, R, E>(c: Config<S, U, R>, g: Go<U, R, E>)
  {
    && |g.answers| <= |g.submitted| <= |g.answers| + 1
    && (forall i :: 0 <= i < |g.submitted| ==> c.next(g.first + i) == Some(g.submitted[i].unit))
    && (forall i :: 0 <= i < |g.submitted| ==> g.submitted[i].input == After(c.zero, g.answers[..i]))
    && g.result == After(c.zero, g.answers)
    && (forall i :: 0 <= i < |g.answers| && g.answers[i].Failure? ==>
          i == |g.answers| - 1 && g.err == Some(UnitError(g.answers[i].error)))
  }

  ghost predicate Ended<S, U, R, E>(c: Config<S, U, R>, g: Go<U, R, E>)
  {
    match g.err
    case None => |g.submitted| == |g.answers| && c.next(g.first + |g.submitted|).None?
    case Some(ErrStopped) => g.stopCloses > 0
    case Some(UnitError(e)) => |g.submitted| == |g.answers| > 0 && g.answers[|g.answers| - 1] == Failure(e)
  }

  ghost predicate GoInv<S, U, R, E>(c: Config<S, U, R>, g: Go<U, R, E>)
  {
    && Threaded(c, g) && g.stopCloses <= 1
    && (g.stopCloses > 0 ==> g.stoppedAt <= |g.submitted| <= g.stoppedAt + if g.control.AtSubmit? then 0 else 1)
    && match g.control
       case AtNext | AtCheck(_) | AtSubmit(_) => g.err.None? && |g.submitted| == |g.answers|
       case AtAwait(u) => g.err.None? && |g.submitted| == |g.answers| + 1
       case _ => Ended(c, g)
  }

  /** How often the builder has been asked, as the run sees it. */
  ghost predicate Asked<S, U, R, E>(c: Config<S, U, R>, g: Go<U, R, E>, calls: nat)
  {
    match g.control
    case AtNext | AtAwait(_) => calls == g.first + |g.submitted|
    case AtCheck(u) => calls == g.first + |g.submitted| + 1 && c.next(calls - 1) == Some(u)
    case AtSubmit(u) => calls == g.first + |g.submitted| + 1 && c.next(calls - 1) == Some(u)
    case _ => true
  }

  // ----- the pipeline -----

  ghost predicate Fields<S, U, R, E>(p: Pipe<S, U, R, E>)
  {
    && (p.done.Some? ==> |p.runs| > 0 && p.done.value == |p.runs| - 1)
    && (forall r :: 0 <= r < |p.runs| ==> (Active(p.runs[r]) <==> p.done == Some(r)))
    && (p.stop.Some? ==> p.stop == p.done && p.runs[p.stop.value].stopCloses == 0)
    && (p.done.Some? && p.stop.None? ==> p.runs[p.done.value].stopCloses == 1)
    && (p.done.None? && p.runs != [] ==>
          p.status.result == p.runs[|p.runs| - 1].result && p.status.err == p.runs[|p.runs| - 1].err)
  }

  /** The run a caller of Stop joins has been stopped, and is gone when Stop has returned. */
  ghost predicate JoinInv<S, U, R, E>(p: Pipe<S, U, R, E>, j: Join)
  {
    j.run.Some? ==> j.run.value < |p.runs| && p.runs[j.run.value].stopCloses == 1 && (j.returned ==> p.runs[j.run.value].control == Gone)
  }

  /** While a run is active the status has no error, and shows the state of the unit submitted last and the result it
      was given. */
  ghost predicate ShowsUnit<S, U, R, E>(c: Config<S, U, R>, p: Pipe<S, U, R, E>, g: Go<U, R, E>)
  {
    && p.status.err.None?
    && (g.submitted != [] ==>
          var last := g.submitted[|g.submitted| - 1];
          p.status.state == c.status(last.unit) && p.status.result == last.input)
  }

  ghost predicate Inv<S, U, R, E>(c: Config<S, U, R>, p: Pipe<S, U, R, E>)
  {
    && Fields(p) && (p.done.Some? ==> ShowsUnit(c, p, p.runs[p.done.value]))
    && (forall r :: 0 <= r < |p.runs| ==> GoInv(c, p.runs[r]))
    && (p.done.Some? ==> Asked(c, p.runs[p.done.value], p.calls))
    && (forall i :: 0 <= i < |p.joins| ==> JoinInv(p, p.joins[i]))
  }

  // ----- steps of a run -----

  lemma SubmitKeeps<S, U, R, E>(c: Config<S, U, R>, g: Go<U, R, E>, g': Go<U, R, E>, calls: nat)
    requires GoInv(c, g) && Asked(c, g, calls) && g.control.AtSubmit?
    requires g' == g.(control := AtAwait(g.control.unit), submitted := g.submitted + [Submission(g.control.unit, g.result)])
    ensures GoInv(c, g') && Asked(c, g', calls)
  {
    hide After;
    assert g.answers[..|g.submitted|] == g.answers;
  }

  lemma AnswerKeeps<S, U, R, E>(c: Config<S, U, R>, g: Go<U, R, E>, a: Answer<R, E>, calls: nat)
    requires GoInv(c, g) && Asked(c, g, calls) && g.control.AtAwait?
    ensures GoInv(c, Answered(g, a)) && Asked(c, Answered(g, a), calls)
  {
    hide After;
    AfterSnoc(c.zero, g.answers, a);
    var g' := Answered(g, a);
    forall i | 0 <= i < |g'.submitted|
      ensures g'.submitted[i].input == After(c.zero, g'.answers[..i])
    {
      assert g'.answers[..i] == g.answers[..i];
    }
  }

  lemma GoKeeps<S, U, R, E>(c: Config<S, U, R>, p: Pipe<S, U, R, E>, p': Pipe<S, U, R, E>, r: nat)
    requires Goes(c, p, p', r) && GoInv(c, p.runs[r]) && (Active(p.runs[r]) ==> Asked(c, p.runs[r], p.calls))
    ensures GoInv(c, p'.runs[r]) && (Active(p'.runs[r]) ==> Asked(c, p'.runs[r], p'.calls))
  {
    hide After;
    var g, g' := p.runs[r], p'.runs[r];
    if g.control.AtSubmit? {
      SubmitKeeps(c, g, g', p.calls);
    } else if g.control.AtAwait? && |g'.answers| == |g.answers| + 1 {
      AnswerKeeps(c, g, g'.answers[|g.answers|], p.calls);
    }
  }

  // ----- steps of the pipeline -----

  lemma JoinStays<S, U, R, E>(p: Pipe<S, U, R, E>, p': Pipe<S, U, R, E>, j: Join)
    requires JoinInv(p, j) && |p.runs| <= |p'.runs|
    requires j.run.Some? ==>
               var g, g' := p.runs[j.run.value], p'.runs[j.run.value];
               (g.control == Gone ==> g'.control == Gone) && g'.stopCloses == g.stopCloses
    ensures JoinInv(p', j)
  {
  }

  lemma GoesFields<S, U, R, E>(c: Config<S, U, R>, p: Pipe<S, U, R, E>, p': Pipe<S, U, R, E>, r: nat)
    requires Fields(p) && Goes(c, p, p', r) && GoInv(c, p.runs[r])
    ensures Fields(p')
    ensures Active(p.runs[r]) ==> p.done == Some(r)
    ensures p'.done.Some? ==> p'.done == p.done && p'.done.value < |p'.runs| && (p'.done.value == r <==> Active(p'.runs[r]))
    ensures Active(p'.runs[r]) ==> Active(p.runs[r])
    ensures p'.done.Some? && p'.done.value != r ==> p'.calls == p.calls
  {
    hide GoInv;
  }

  lemma GoesKeeps<S, U, R, E>(c: Config<S, U, R>, p: Pipe<S, U, R, E>, p': Pipe<S, U, R, E>, r: nat)
    requires Inv(c, p) && Goes(c, p, p', r)
    ensures Inv(c, p')
  {
    hide GoInv, Asked, Fields;
    GoesFields(c, p, p', r);
    GoKeeps(c, p, p', r);
    forall i | 0 <= i < |p'.joins|
      ensures JoinInv(p', p'.joins[i])
    {
      JoinStays(p, p', p.joins[i]);
    }
  }

  lemma StartsKeeps<S, U, R, E>(c: Config<S, U, R>, p: Pipe<S, U, R, E>, p': Pipe<S, U, R, E>)
    requires Inv(c, p) && Starts(c, p, p')
    ensures Inv(c, p')
  {
    forall r | 0 <= r < |p'.runs|
      ensures GoInv(c, p'.runs[r])
    {
      if r < |p.runs| {
        assert p'.runs[r] == p.runs[r];
      }
    }
    forall i | 0 <= i < |p'.joins|
      ensures JoinInv(p', p'.joins[i])
    {
      JoinStays(p, p', p.joins[i]);
    }
  }

  lemma ClosedStopKeeps<S, U, R, E>(c: Config<S, U, R>, g: Go<U, R, E>)
    requires GoInv(c, g) && g.stopCloses == 0
    ensures GoInv(c, Closed(g))
  {
    hide After;
  }

  lemma StopsKeeps<S, U, R, E>(c: Config<S, U, R>, p: Pipe<S, U, R, E>, p': Pipe<S, U, R, E>)
    requires Inv(c, p) && Stops(p, p')
    ensures Inv(c, p')
  {
    hide GoInv;
    if p.stop.Some? {
      ClosedStopKeeps(c, p.runs[p.stop.value]);
    }
    forall i | 0 <= i < |p'.joins|
      ensures JoinInv(p', p'.joins[i])
    {
      if i < |p.joins| {
        JoinStays(p, p', p.joins[i]);
      }
    }
  }

  lemma StopReturnsKeeps<S, U, R, E>(c: Config<S, U, R>, p: Pipe<S, U, R, E>, p': Pipe<S, U, R, E>, i: nat)
    requires Inv(c, p) && StopReturns(p, p', i)
    ensures Inv(c, p')
  {
    hide GoInv, Asked;
    forall k | 0 <= k < |p'.joins|
      ensures JoinInv(p', p'.joins[k])
    {
      assert JoinInv(p, p.joins[k]);
    }
  }

  lemma {:induction false} RunInv<S, U, R, E>(c: Config<S, U, R>, run: seq<Pipe<S, U, R, E>>, n: nat)
    requires Run(c, run) && n < |run|
    ensures Inv(c, run[n])
    decreases n
  {
    hide Goes, Starts, Stops, StopReturns;
    if n > 0 {
      RunInv(c, run, n - 1);
      var p, p' := run[n - 1], run[n - 1 + 1];
      assert Next(c, p, p');
      hide Inv;
      if Starts(c, p, p') {
        StartsKeeps(c, p, p');
      } else if Stops(p, p') {
        StopsKeeps(c, p, p');
      } else if i: nat :| StopReturns(p, p', i) {
        StopReturnsKeeps(c, p, p', i);
      } else {
        var r: nat :| Goes(c, p, p', r);
        GoesKeeps(c, p, p', r);
      }
    }
  }

  // ----- what it means -----

  lemma {:induction false} ExecuteSnoc<U, R, E>(work: (U, R) -> Answer<R, E>, units: seq<U>, u: U, r: R)
    ensures var o := Execute(work, units, r);
            Execute(work, units + [u], r) ==
            if o.err.Some? then o
            else match work(u, o.result) case Value(d) => Outcome(d, None) case Failure(e) => Outcome(o.result, Some(e))
    decreases |units|
  {
    if units == [] {
      assert units + [u] == [u];
    } else {
      assert (units + [u])[1..] == units[1..] + [u];
      match work(units[0], r)
      case Value(d) => ExecuteSnoc(work, units[1..], u, d);
      case Failure(_) =>
    }
  }

  function Units<U, R>(s: seq<Submission<U, R>>): (r: seq<U>)
    ensures |r| == |s| && forall i :: 0 <= i < |s| ==> r[i] == s[i].unit
  {
    seq(|s|, i requires 0 <= i < |s| => s[i].unit)
  }

  /** The answers are what the units compute. */
  ghost predicate Follows<U, R, E>(work: (U, R) -> Answer<R, E>, g: Go<U, R, E>)
  {
    |g.answers| <= |g.submitted| &&
    forall i :: 0 <= i < |g.answers| ==> g.answers[i] == work(g.submitted[i].unit, g.submitted[i].input)
  }

  lemma {:induction false} PrefixIsFold<S, U, R, E>(c: Config<S, U, R>, work: (U, R) -> Answer<R, E>, g: Go<U, R, E>, n: nat)
    requires Threaded(c, g) && Follows(work, g) && n <= |g.answers|
    ensures Execute(work, Units(g.submitted)[..n], c.zero) ==
            Outcome(After(c.zero, g.answers[..n]), if n > 0 && g.answers[n - 1].Failure? then Some(g.answers[n - 1].error) else None)
    decreases n
  {
    hide Execute, After;
    var us := Units(g.submitted);
    if n == 0 {
      FoldOfNone(c, work, g);
    } else {
      PrefixIsFold(c, work, g, n - 1);
      assert us[..n] == us[..n - 1] + [us[n - 1]];
      assert g.answers[..n] == g.answers[..n - 1] + [g.answers[n - 1]];
      ExecuteSnoc(work, us[..n - 1], us[n - 1], c.zero);
      AfterSnoc(c.zero, g.answers[..n - 1], g.answers[n - 1]);
    }
  }

  lemma FoldOfNone<S, U, R, E>(c: Config<S, U, R>, work: (U, R) -> Answer<R, E>, g: Go<U, R, E>)
    ensures Execute(work, Units(g.submitted)[..0], c.zero) == Outcome(After(c.zero, g.answers[..0]), None)
  {
  }

  /** What a run that has ended is, whatever its units did and the scheduler answered. It took units from the builder in
      order without a gap; each was given, and the run has, the last value answered before; only the last answer may be
      a failure. With no error every unit of the builder was submitted and answered; with a unit's error that unit was
      the last one submitted; with ErrStopped the run was stopped, and at most one unit was not waited for. */
  ghost predicate IsThread<S, U, R, E>(c: Config<S, U, R>, g: Go<U, R, E>)
  {
    var n := |g.answers|;
    && n <= |g.submitted| <= n + 1
    && (forall i :: 0 <= i < |g.submitted| ==>
          c.next(g.first + i) == Some(g.submitted[i].unit) && g.submitted[i].input == After(c.zero, g.answers[..i]))
    && g.result == After(c.zero, g.answers)
    && (forall i :: 0 <= i < n - 1 ==> g.answers[i].Value?)
    && match g.err
       case None => n == |g.submitted| && c.next(g.first + n).None? && (n > 0 ==> g.answers[n - 1].Value?)
       case Some(UnitError(e)) => n == |g.submitted| && n > 0 && g.answers[n - 1] == Failure(e)
       case Some(ErrStopped) => g.stopCloses == 1 && (n > 0 ==> g.answers[n - 1].Value?)
  }

  /** If the answers are what a function computes: the result is what executing the answered units gives. */
  ghost predicate IsFold<S, U, R, E>(c: Config<S, U, R>, work: (U, R) -> Answer<R, E>, g: Go<U, R, E>)
  {
    var us, n := Units(g.submitted), |g.answers|;
    && n <= |us|
    && Execute(work, us[..n], c.zero) == Outcome(g.result, if g.err.Some? && g.err.value.UnitError? then Some(g.err.value.error) else None)
    && (n == |us| || g.err == Some(ErrStopped))
  }

  lemma EndedIsThread<S, U, R, E>(c: Config<S, U, R>, g: Go<U, R, E>)
    requires GoInv(c, g) && AtTheEnd(g)
    ensures IsThread(c, g)
  {
    hide After;
  }

  lemma EndedIsFold<S, U, R, E>(c: Config<S, U, R>, work: (U, R) -> Answer<R, E>, g: Go<U, R, E>)
    requires GoInv(c, g) && AtTheEnd(g)
    ensures IsThread(c, g) && (Follows(work, g) ==> IsFold(c, work, g))
  {
    hide Execute, After;
    EndedIsThread(c, g);
    if Follows(work, g) {
      var n := |g.answers|;
      PrefixIsFold(c, work, g, n);
      assert g.answers[..n] == g.answers;
    }
  }

  /** In every state of every run of the machine: every execution that has ended is a thread of its units, and a fold if
      its units compute a function, whatever the builder, the interleaving and the moment of a stop; the status shows
      the last one unless one is active, and then the unit it waits for; at most one is active; stop channels are closed at
      most once, and at most one unit is submitted after that; a caller of Stop has stopped the run it joins, and returns
      when it is gone. */
  lemma StoppableFold<S, U, R, E>(c: Config<S, U, R>, work: (U, R) -> Answer<R, E>, run: seq<Pipe<S, U, R, E>>, n: nat)
    requires Run(c, run) && n < |run|
    ensures var p := run[n];
            && (forall r :: 0 <= r < |p.runs| && !Active(p.runs[r]) ==> IsThread(c, p.runs[r]))
            && (forall r :: 0 <= r < |p.runs| && !Active(p.runs[r]) && Follows(work, p.runs[r]) ==> IsFold(c, work, p.runs[r]))
            && (forall r, q :: 0 <= r < q < |p.runs| ==> !(Active(p.runs[r]) && Active(p.runs[q])))
            && (forall r :: 0 <= r < |p.runs| ==> p.runs[r].stopCloses <= 1)
            && (forall r :: 0 <= r < |p.runs| && p.runs[r].stopCloses > 0 ==> |p.runs[r].submitted| <= p.runs[r].stoppedAt + 1)
            && (p.done.Some? ==> p.done.value < |p.runs| && ShowsUnit(c, p, p.runs[p.done.value]))
            && (p.done.None? && p.runs != [] ==>
                  p.status.result == p.runs[|p.runs| - 1].result && p.status.err == p.runs[|p.runs| - 1].err)
            && (forall i :: 0 <= i < |p.joins| ==> JoinInv(p, p.joins[i]))
  {
    hide Run, Threaded, IsFold, IsThread, Follows, Ended;
    RunInv(c, run, n);
    var p := run[n];
    forall r | 0 <= r < |p.runs| && !Active(p.runs[r])
      ensures IsThread(c, p.runs[r]) && (Follows(work, p.runs[r]) ==> IsFold(c, work, p.runs[r]))
    {
      EndedIsFold(c, work, p.runs[r]);
    }
  }

  /** The run has come to its deferred section. */
  predicate AtTheEnd<U, R, E>(g: Go<U, R, E>) { g.control == AtExit || !Active(g) }

  ghost predicate SameEnd<U, R, E>(g: Go<U, R, E>, g': Go<U, R, E>)
  {
    && g'.submitted == g.submitted && g'.answers == g.answers && g'.result == g.result && g'.err == g.err
    && AtTheEnd(g')
  }

  lemma GoesEnds<S, U, R, E>(c: Config<S, U, R>, p: Pipe<S, U, R, E>, p': Pipe<S, U, R, E>, q: nat, r: nat)
    requires Goes(c, p, p', q) && r < |p.runs| && AtTheEnd(p.runs[r])
    ensures r < |p'.runs| && SameEnd(p.runs[r], p'.runs[r])
  {
  }

  lemma EndedStays<S, U, R, E>(c: Config<S, U, R>, p: Pipe<S, U, R, E>, p': Pipe<S, U, R, E>, r: nat)
    requires Next(c, p, p') && r < |p.runs| && AtTheEnd(p.runs[r])
    ensures r < |p'.runs| && SameEnd(p.runs[r], p'.runs[r])
  {
    hide Goes;
    if q: nat :| Goes(c, p, p', q) {
      GoesEnds(c, p, p', q, r);
    }
  }

  /** After its end a run submits nothing and keeps its result and error, for good. */
  lemma {:induction false} NothingAfterTheEnd<S, U, R, E>(c: Config<S, U, R>, run: seq<Pipe<S, U, R, E>>, m: nat, n: nat, r: nat)
    requires Run(c, run) && m <= n < |run| && r < |run[m].runs|
    requires AtTheEnd(run[m].runs[r])
    ensures r < |run[n].runs| && SameEnd(run[m].runs[r], run[n].runs[r])
    decreases n
  {
    hide Next;
    if m < n {
      NothingAfterTheEnd(c, run, m, n - 1, r);
      assert Next(c, run[n - 1], run[n - 1 + 1]);
      EndedStays(c, run[n - 1], run[n], r);
    }
  }
}
