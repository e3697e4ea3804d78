/** Pipeline (pkg/work/pipeline.go) as a state machine: the fields behind its mutex, the goroutine of each run, and the
    callers of Stop. The scheduler may answer a submission with anything, at any time, or never. */
module PipelineProtocol {
  import opened Wrappers

  datatype Answer<R, E> = Value(data: R) | Failure(error: E)

  /** Err of a status: ErrStopped or the error of a unit. */
  datatype Error<E> = ErrStopped | UnitError(error: E)

  /** A unit handed to the scheduler with the result so far. */
  datatype Submission<U, R> = Submission(unit: U, input: R)

  datatype Status<S, R, E> = Status(state: S, result: R, err: Option<Error<E>>)

  /** Where the goroutine of a run is. AtExit is the deferred critical section. */
  datatype Control<U> =
    | AtNext | AtCheck(unit: U) | AtSubmit(unit: U) | AtAwait(unit: U)
    | AtExit | AtCloseDone | Gone

  /** One run: its locals, how often its stop channel was closed and how many units were submitted by then, and what it
      has submitted and been answered. */
  datatype Go<U, R, E> = Go(
    control: Control<U>, result: R, err: Option<Error<E>>, stopCloses: nat, stoppedAt: nat,
    first: nat, submitted: seq<Submission<U, R>>, answers: seq<Answer<R, E>>)

  /** A caller of Stop: the run it joins, if there was one, and whether it has returned. */
  datatype Join = Join(run: Option<nat>, returned: bool)

  /** The builder is the stream of what its Next returns, the zero value is what a run starts from. */
  datatype Config<!S, !U, !R> = Config(zero: R, status: U -> S, next: nat -> Option<U>)

  datatype Pipe<S, U, R, E> = Pipe(
    stop: Option<nat>, done: Option<nat>, status: Status<S, R, E>,
    runs: seq<Go<U, R, E>>, calls: nat, joins: seq<Join>)

  /** The run holds the pipeline: its deferred section is still to come. */
  predicate Active<U, R, E>(g: Go<U, R, E>) { g.control != AtCloseDone && g.control != Gone }

  /** Start when no run is active; otherwise it answers ErrRunning and changes nothing. */
  ghost predicate Starts<S, U, R, E>(c: Config<S, U, R>, p: Pipe<S, U, R, E>, p': Pipe<S, U, R, E>)
  {
    && p.done.None?
    && p' == p.(stop := Some(|p.runs|), done := Some(|p.runs|), status := p.status.(err := None),
                runs := p.runs + [Go(AtNext, c.zero, None, 0, 0, p.calls, [], [])])
  }

  /** The run's stop channel is closed. */
  function Closed<U, R, E>(g: Go<U, R, E>): Go<U, R, E>
  {
    g.(stopCloses := g.stopCloses + 1, stoppedAt := |g.submitted|)
  }

  /** The critical section of Stop. */
  ghost predicate Stops<S, U, R, E>(p: Pipe<S, U, R, E>, p': Pipe<S, U, R, E>)
  {
    match p.stop
    case None => p' == p.(joins := p.joins + [Join(p.done, false)])
    case Some(r) =>
      r < |p.runs| &&
      p' == p.(stop := None, runs := p.runs[r := Closed(p.runs[r])], joins := p.joins + [Join(p.done, false)])
  }

  /** Stop returns once the run it joins has closed done. */
  ghost predicate StopReturns<S, U, R, E>(p: Pipe<S, U, R, E>, p': Pipe<S, U, R, E>, i: nat)
  {
    && i < |p.joins|
    && (p.joins[i].run.Some? ==> p.joins[i].run.value < |p.runs| && p.runs[p.joins[i].run.value].control == Gone)
    && p' == p.(joins := p.joins[i := p.joins[i].(returned := true)])
  }

  /** builder.Next() and the check of stop before the unit is submitted. */
  ghost predicate Takes<S, U, R, E>(c: Config<S, U, R>, calls: nat, g: Go<U, R, E>, g': Go<U, R, E>)
  {
    match g.control
    case AtNext => (match c.next(calls) case None => g' == g.(control := AtExit) case Some(u) => g' == g.(control := AtCheck(u)))
    case AtCheck(u) =>
      if g.stopCloses > 0 then g' == g.(control := AtExit, err := Some(ErrStopped)) else g' == g.(control := AtSubmit(u))
    case _ => false
  }

  /** What the goroutine does with an answer. */
  function Answered<U, R, E>(g: Go<U, R, E>, a: Answer<R, E>): Go<U, R, E>
  {
    match a
    case Value(d) => g.(control := AtNext, result := d, answers := g.answers + [a])
    case Failure(e) => g.(control := AtExit, err := Some(UnitError(e)), answers := g.answers + [a])
  }

  /** The select on stop and the future. */
  ghost predicate Awaits<U, R, E>(g: Go<U, R, E>, g': Go<U, R, E>)
  {
    && g.control.AtAwait?
    && (|| (g.stopCloses > 0 && g' == g.(control := AtExit, err := Some(ErrStopped)))
        || (|g'.answers| == |g.answers| + 1 && g' == Answered(g, g'.answers[|g.answers|])))
  }

  /** A step of the goroutine of run r. */
  ghost predicate Goes<S, U, R, E>(c: Config<S, U, R>, p: Pipe<S, U, R, E>, p': Pipe<S, U, R, E>, r: nat)
  {
    && r < |p.runs| == |p'.runs|
    && var g, g' := p.runs[r], p'.runs[r];
       p'.runs == p.runs[r := g'] &&
       match g.control
       case AtNext => Takes(c, p.calls, g, g') && p' == p.(runs := p'.runs, calls := p.calls + 1)
       case AtCheck(_) => Takes(c, p.calls, g, g') && p' == p.(runs := p'.runs)
       case AtSubmit(u) =>
         && g' == g.(control := AtAwait(u), submitted := g.submitted + [Submission(u, g.result)])
         && p' == p.(runs := p'.runs, status := p.status.(state := c.status(u), result := g.result))
       case AtAwait(_) => Awaits(g, g') && p' == p.(runs := p'.runs)
       case AtExit =>
         && g' == g.(control := AtCloseDone)
         && p' == p.(runs := p'.runs, stop := None, done := None, status := p.status.(result := g.result, err := g.err))
       case AtCloseDone => g' == g.(control := Gone) && p' == p.(runs := p'.runs)
       case Gone => false
  }

  ghost predicate Next<S, U, R, E>(c: Config<S, U, R>, p: Pipe<S, U, R, E>, p': Pipe<S, U, R, E>)
  {
    || Starts(c, p, p')
    || Stops(p, p')
    || (exists i :: StopReturns(p, p', i))
    || (exists r :: Goes(c, p, p', r))
  }

  ghost predicate Run<S, U, R, E>(c: Config<S, U, R>, run: seq<Pipe<S, U, R, E>>)
  {
    && run != [] && run[0].stop.None? && run[0].done.None? && run[0].runs == [] && run[0].joins == []
    && forall i :: 0 <= i < |run| - 1 ==> Next(c, run[i], run[i + 1])
  }

  // ----- the reference: execute the units one after the other -----

  datatype Outcome<R, E> = Outcome(result: R, err: Option<E>)

  /** Threads the result through the units until one fails; a failed unit leaves the result as it was. */
  function Execute<U, R, E>(work: (U, R) -> Answer<R, E>, units: seq<U>, r: R): Outcome<R, E>
  {
    if units == [] then Outcome(r, None)
    else match work(units[0], r)
      case Value(d) => Execute(work, units[1..], d)
      case Failure(e) => Outcome(r, Some(e))
  }
}
