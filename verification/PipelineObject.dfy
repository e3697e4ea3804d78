/** The objects behind the pipeline machine: SliceWorkBuilder (pkg/work/models.go) and the critical sections and the loop
    of Pipeline (pkg/work/pipeline.go). */
module PipelineObject {
  import opened Wrappers
  import opened PipelineProtocol
  import opened PipelineLaws

  /** The answers a slice builder gives to successive calls. */
  function Stream<U>(units: seq<U>): nat -> Option<U> { (n: nat) => if n < |units| then Some(units[n]) else None }

  class SliceWorkBuilder<U(0)> {
    const units: seq<U>
    var idx: nat

    constructor (units: seq<U>)
      ensures this.units == units && idx == 0
    {
      this.units := units;
      idx := 0;
    }

    method Next() returns (r: Option<U>)
      modifies this
      ensures r == Stream(units)(old(idx))
      ensures idx == if r.Some? then old(idx) + 1 else old(idx)
    {
      if idx >= |units| {
        return None;
      }
      r := Some(units[idx]);
      idx := idx + 1;
    }
  }

  /** What the goroutine meets at a unit: no stop, a stop before it is submitted, a stop while it is waited for. */
  datatype Arm = Undisturbed | StopBefore | StopDuring

  /** Where the loop leaves off: units executed, result, error. */
  datatype Left<R, E> = Left(count: nat, result: R, err: Option<Error<E>>)

  ghost predicate LoopSpec<U, R, E>(work: (U, R) -> Answer<R, E>, arms: nat -> Arm, us: seq<U>, zero: R, l: Left<R, E>)
  {
    && l.count <= |us|
    && (forall i: nat :: i < l.count ==> arms(i) == Undisturbed)
    && match l.err
       case None => l.count == |us| && Execute(work, us, zero) == Outcome(l.result, None)
       case Some(ErrStopped) =>
         l.count < |us| && arms(l.count) != Undisturbed && Execute(work, us[..l.count], zero) == Outcome(l.result, None)
       case Some(UnitError(e)) =>
         && l.count < |us| && arms(l.count) == Undisturbed
         && Execute(work, us[..l.count], zero) == Outcome(l.result, None)
         && Execute(work, us, zero) == Outcome(l.result, Some(e))
  }

  /** The loop of the goroutine, for every pattern of stops. */
  method RunUnits<U(0), R, E>(builder: SliceWorkBuilder<U>, zero: R, work: (U, R) -> Answer<R, E>, arms: nat -> Arm)
    returns (l: Left<R, E>)
    requires builder.idx <= |builder.units|
    modifies builder
    ensures LoopSpec(work, arms, builder.units[old(builder.idx)..], zero, l)
  {
    ghost var us := builder.units[builder.idx..];
    ghost var start := builder.idx;
    var result, count := zero, 0;
    var unit := builder.Next();
    while unit.Some?
      invariant count <= |us| && start <= builder.idx <= |builder.units|
      invariant unit == Stream(us)(count)
      invariant builder.idx == start + count + if unit.Some? then 1 else 0
      invariant us == builder.units[start..]
      invariant forall i: nat :: i < count ==> arms(i) == Undisturbed
      invariant Execute(work, us[..count], zero) == Outcome(result, None)
      decreases |us| - count
    {
      hide Execute;
      if arms(count) == StopBefore {
        return Left(count, result, Some(ErrStopped));
      }
      var answer := work(unit.value, result);
      if arms(count) == StopDuring {
        return Left(count, result, Some(ErrStopped));
      }
      ExecuteSnoc(work, us[..count], us[count], zero);
      assert us[..count] + [us[count]] == us[..count + 1];
      match answer {
        case Failure(e) =>
          FailedStaysFailed(work, us[..count + 1], us[count + 1..], zero);
          assert us[..count + 1] + us[count + 1..] == us;
          return Left(count, result, Some(UnitError(e)));
        case Value(data) =>
          result := data;
      }
      count := count + 1;
      unit := builder.Next();
    }
    assert us[..count] == us;
    l := Left(count, result, None);
  }

  /** No unit after the first that fails matters. */
  lemma {:induction false} FailedStaysFailed<U, R, E>(work: (U, R) -> Answer<R, E>, a: seq<U>, b: seq<U>, r: R)
    requires Execute(work, a, r).err.Some?
    ensures Execute(work, a + b, r) == Execute(work, a, r)
    decreases |a|
  {
    assert (a + b)[1..] == a[1..] + b;
    match work(a[0], r)
    case Value(d) => FailedStaysFailed(work, a[1..], b, d);
    case Failure(_) =>
  }

  datatype Started = Begun(run: nat) | Ignored | NoScheduler | Running

  /** The fields behind the mutex; machine is the state of the protocol they belong to. */
  class Pipeline<S, U, R, E> {
    const hasBuilder: bool
    const hasScheduler: bool
    const config: Config<S, U, R>
    var stop: Option<nat>
    var done: Option<nat>
    var status: Status<S, R, E>
    ghost var machine: Pipe<S, U, R, E>

    ghost predicate Valid()
      reads this
    {
      && stop == machine.stop && done == machine.done && status == machine.status
      && Inv(config, machine)
    }

    constructor (config: Config<S, U, R>, initial: S, hasBuilder: bool, hasScheduler: bool)
      ensures Valid() && Run(config, [machine]) && status == Status(initial, config.zero, None)
    {
      this.config, this.hasBuilder, this.hasScheduler := config, hasBuilder, hasScheduler;
      stop, done := None, None;
      status := Status(initial, config.zero, None);
      machine := Pipe(None, None, Status(initial, config.zero, None), [], 0, []);
    }

    /** A second Start while a run is active is refused; otherwise a new run begins. */
    method Start(channel: nat) returns (r: Started)
      requires Valid() && channel == |machine.runs|
      modifies this
      ensures Valid()
      ensures !hasBuilder ==> r == Ignored
      ensures hasBuilder && !hasScheduler ==> r == NoScheduler
      ensures hasBuilder && hasScheduler ==> (r == Running <==> old(done).Some?)
      ensures r.Begun? ==> Starts(config, old(machine), machine)
      ensures !r.Begun? ==> machine == old(machine) && status == old(status)
    {
      if !hasBuilder {
        return Ignored;
      }
      if !hasScheduler {
        return NoScheduler;
      }
      if done.Some? {
        return Running;
      }
      stop, done := Some(channel), Some(channel);
      status := status.(err := None);
      ghost var before := machine;
      machine := machine.(stop := stop, done := done, status := status,
        runs := machine.runs + [Go(AtNext, config.zero, None, 0, 0, machine.calls, [], [])]);
      StartsKeeps(config, before, machine);
      r := Begun(channel);
    }

    /** The critical section of Stop: the stop channel of the active run is closed unless it was. */
    method StopSection() returns (closes: Option<nat>, joins: Option<nat>)
      requires Valid()
      modifies this
      ensures Valid() && Stops(old(machine), machine)
      ensures closes == old(stop) && joins == old(done)
      ensures closes.Some? ==> closes.value < |old(machine).runs| && old(machine).runs[closes.value].stopCloses == 0
    {
      closes, joins := stop, done;
      ghost var before := machine;
      machine := machine.(joins := machine.joins + [Join(done, false)]);
      if stop.Some? {
        ghost var r := stop.value;
        machine := machine.(stop := None, runs := machine.runs[r := PipelineProtocol.Closed(machine.runs[r])]);
        stop := None;
      }
      StopsKeeps(config, before, machine);
    }

    /** The critical section that publishes a unit's state and the result so far, and submits the unit. */
    method Publish(ghost r: nat, unit: U, result: R)
      requires Valid() && r < |machine.runs| && machine.runs[r].control == AtSubmit(unit) && machine.runs[r].result == result
      modifies this
      ensures Valid() && Goes(config, old(machine), machine, r)
      ensures status == old(status).(state := config.status(unit), result := result)
    {
      status := status.(state := config.status(unit), result := result);
      ghost var before := machine;
      ghost var g := machine.runs[r];
      machine := machine.(status := status,
        runs := machine.runs[r := g.(control := AtAwait(unit), submitted := g.submitted + [Submission(unit, result)])]);
      GoesKeeps(config, before, machine, r);
    }

    /** The deferred critical section of run r. */
    method Exit(ghost r: nat, result: R, err: Option<Error<E>>)
      requires Valid() && r < |machine.runs| && machine.runs[r].control == AtExit
      requires machine.runs[r].result == result && machine.runs[r].err == err
      modifies this
      ensures Valid() && Goes(config, old(machine), machine, r)
      ensures done.None? && status == old(status).(result := result, err := err)
    {
      hide GoInv, JoinInv, Asked;
      stop, done := None, None;
      status := status.(result := result, err := err);
      ghost var before := machine;
      machine := machine.(stop := None, done := None, status := status,
        runs := machine.runs[r := machine.runs[r].(control := AtCloseDone)]);
      GoesKeeps(config, before, machine, r);
    }
  }
}
