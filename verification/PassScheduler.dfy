/** The coalescing scheduler of metric passes: requests, one drain at a time, and the gap before `finally`. */
module PassScheduling {
  import opened Prelude

  datatype Pass = Pass(trigger: Option<nat>, requestedAt: int, forced: bool)

  /** A drain waits for its timer, awaits a run, or has left its loop and not yet reached `finally`. */
  datatype Stage = Timer | Running(position: nat) | Exited

  /**
   * `pending` and `drain` are the two closure variables; `drains` are all promise chains that have not finished.
   * `requests` and `started` record what was asked for, and the positions of the requests whose pass started.
   */
  datatype State = State(
    pending: Option<Pass>, drain: Option<nat>, drains: map<nat, Stage>, next: nat,
    requests: seq<Pass>, started: seq<nat>)

  const IDLE: State := State(None, None, map[], 0, [], [])

  datatype Step =
    | Request(pass: Pass)
    | TimerFires(drain: nat)
    | RunSucceeds(drain: nat)
    | RunFails(drain: nat)
    | Settles(drain: nat)

  /** `schedule`: the latest request wins; a drain is created only when none is recorded. */
  function Schedule(s: State, p: Pass): State {
    var noted := s.(pending := Some(p));
    if s.drain.Some? then noted
    else noted.(drain := Some(s.next), drains := s.drains[s.next := Timer], next := s.next + 1)
  }

  /** The loop condition: take the pending request and start its pass, or leave the loop. */
  function LoopTop(s: State, d: nat): State
    requires s.pending.Some? ==> s.requests != []
  {
    if s.pending.Some? then
      var position := |s.requests| - 1;
      s.(pending := None, started := s.started + [position], drains := s.drains[d := Running(position)])
    else s.(drains := s.drains[d := Exited])
  }

  predicate Enabled(s: State, step: Step) {
    match step
    case Request(_) => true
    case TimerFires(d) => d in s.drains && s.drains[d].Timer?
    case RunSucceeds(d) => d in s.drains && s.drains[d].Running?
    case RunFails(d) => d in s.drains && s.drains[d].Running?
    case Settles(d) => d in s.drains && s.drains[d].Exited?
  }

  function Next(s: State, step: Step): State
    requires Valid(s)
  {
    if !Enabled(s, step) then s
    else
      match step
      case Request(p) => Schedule(s.(requests := s.requests + [p]), p)
      case TimerFires(d) => LoopTop(s, d)
      case RunSucceeds(d) => LoopTop(s, d)
      case RunFails(d) => s.(drains := s.drains[d := Exited])
      case Settles(d) =>
        var done := s.(drain := None, drains := s.drains - {d});
        if s.pending.Some? then Schedule(done, s.pending.value) else done
  }

  ghost predicate Increasing(xs: seq<nat>) { forall i, j | 0 <= i < j < |xs| :: xs[i] < xs[j] }

  function Last<T>(xs: seq<T>): T
    requires xs != []
  {
    xs[|xs| - 1]
  }

  ghost predicate Valid(s: State) {
    // at most one chain is unfinished, and it is the one in `drain`
    && s.drains.Keys == (if s.drain.Some? then {s.drain.value} else {})
    && (s.drain.Some? ==> s.drain.value < s.next)
    // a pending request is the latest one and has a drain to run it
    && (s.pending.Some? ==> s.drain.Some? && s.requests != [] && s.pending.value == Last(s.requests))
    // otherwise the latest request has been started
    && (s.pending.None? && s.requests != [] ==> s.started != [] && Last(s.started) == |s.requests| - 1)
    // passes start in request order, each at most once
    && Increasing(s.started)
    && (forall i | 0 <= i < |s.started| :: s.started[i] < |s.requests|)
    && (s.pending.Some? && s.started != [] ==> Last(s.started) < |s.requests| - 1)
    && (forall d | d in s.drains && s.drains[d].Running? :: s.started != [] && s.drains[d].position == Last(s.started))
  }

  lemma {:induction false} LoopTopKeepsValid(s: State, d: nat)
    requires Valid(s) && d in s.drains && !s.drains[d].Exited?
    ensures Valid(LoopTop(s, d))
  {
  }

  lemma {:induction false} StepKeepsValid(s: State, step: Step)
    requires Valid(s)
    ensures Valid(Next(s, step))
  {
    if Enabled(s, step) && (step.TimerFires? || step.RunSucceeds?) { LoopTopKeepsValid(s, step.drain); }
  }

  ghost function Run(s: State, steps: seq<Step>): State
    requires Valid(s)
    decreases |steps|
  {
    if steps == [] then s
    else
      StepKeepsValid(s, steps[0]);
      Run(Next(s, steps[0]), steps[1..])
  }

  /** Under every interleaving of requests, timers, runs that succeed or fail, and settlements. */
  lemma {:induction false} RunKeepsValid(s: State, steps: seq<Step>)
    requires Valid(s)
    ensures Valid(Run(s, steps))
    decreases |steps|
  {
    if steps != [] {
      StepKeepsValid(s, steps[0]);
      RunKeepsValid(Next(s, steps[0]), steps[1..]);
    }
  }

  /** At most one pass runs at a time, and a pending request always has a drain that will look at it. */
  lemma {:induction false} OnePassAtATime(steps: seq<Step>, a: nat, b: nat)
    ensures var s := Run(IDLE, steps);
            && (a in s.drains && b in s.drains ==> a == b)
            && (s.pending.Some? ==> s.drain.Some? && s.drain.value in s.drains)
  {
    RunKeepsValid(IDLE, steps);
  }

  /** Whenever no drain is recorded, which is when `idle` returns, the last pass started was for the latest request. */
  lemma {:induction false} QuietMeansLatestWasStarted(steps: seq<Step>)
    ensures var s := Run(IDLE, steps);
            s.drain.None? ==>
              && s.pending.None? && s.drains == map[]
              && (s.requests != [] ==> s.started != [] && Last(s.started) == |s.requests| - 1)
  {
    RunKeepsValid(IDLE, steps);
  }

  // ---- What is recorded, and when a pass starts ----

  /** The requests of a run, in order. */
  function Requested(steps: seq<Step>): seq<Pass>
    decreases |steps|
  {
    if steps == [] then [] else (if steps[0].Request? then [steps[0].pass] else []) + Requested(steps[1..])
  }

  lemma {:induction false} StepRecords(s: State, step: Step)
    requires Valid(s)
    ensures Next(s, step).requests == s.requests + (if step.Request? then [step.pass] else [])
    ensures s.started <= Next(s, step).started
  {
  }

  lemma {:induction false} NotedInOrder(before: seq<Pass>, one: seq<Pass>, more: seq<Pass>)
    ensures before + one + more == before + (one + more)
  {
  }

  lemma {:induction false} StartedBefore(a: seq<nat>, b: seq<nat>, c: seq<nat>)
    requires a <= b <= c
    ensures a <= c
  {
  }

  /** Every request of a run is noted, in order, and a pass that has started stays started. */
  lemma {:induction false} EveryRequestIsNoted(s: State, steps: seq<Step>)
    requires Valid(s)
    ensures Run(s, steps).requests == s.requests + Requested(steps)
    ensures s.started <= Run(s, steps).started
    decreases |steps|
  {
    if steps != [] {
      StepKeepsValid(s, steps[0]);
      StepRecords(s, steps[0]);
      EveryRequestIsNoted(Next(s, steps[0]), steps[1..]);
      NotedInOrder(s.requests, if steps[0].Request? then [steps[0].pass] else [], Requested(steps[1..]));
      StartedBefore(s.started, Next(s, steps[0]).started, Run(s, steps).started);
    }
  }

  /**
   * A pass starts exactly when a drain comes to the top of its loop, after its timer or a run that succeeded, with a
   * request pending; it is the pass of the latest request, and it takes the request.
   */
  lemma {:induction false} PassStartsExactlyWhen(s: State, step: Step)
    requires Valid(s)
    ensures
      var next := Next(s, step);
      if (step.TimerFires? || step.RunSucceeds?) && Enabled(s, step) && s.pending.Some? then
        && s.pending == Some(Last(s.requests)) && next.pending.None?
        && next.started == s.started + [|s.requests| - 1]
        && next.drains == s.drains[step.drain := Running(|s.requests| - 1)]
      else next.started == s.started
  {
  }

  /**
   * A drain leaves its loop when nothing is pending or its run failed, and keeps a request that came in. When it
   * settles it is forgotten, and such a request gets a new drain, as a request does when there is none.
   */
  lemma {:induction false} RequestsAreKept(s: State, d: nat, p: Pass)
    requires Valid(s)
    ensures d in s.drains && s.drains[d].Running? ==> Next(s, RunFails(d)) == s.(drains := s.drains[d := Exited])
    ensures d in s.drains && s.drains[d].Exited? ==>
            var next := Next(s, Settles(d));
            if s.pending.None? then next == s.(drain := None, drains := map[])
            else next == s.(drain := Some(s.next), drains := map[s.next := Timer], next := s.next + 1)
    ensures var next := Next(s, Request(p));
            next.pending == Some(p) && next.drain.Some?
            && (s.drain.Some? ==> next.drain == s.drain && next.drains == s.drains)
            && (s.drain.None? ==> next.drain == Some(s.next) && next.drains == map[s.next := Timer])
  {
    assert s.drains.Keys == {} ==> s.drains == map[];
  }

  // ---- Requests are not lost, and quiet is reached ----

  /** How many steps of its own the scheduler can still take. */
  function Work(s: State): nat
    requires Valid(s)
  {
    if s.drain.None? then 0
    else
      match s.drains[s.drain.value]
      case Timer => if s.pending.Some? then 3 else 2
      case Running(_) => if s.pending.Some? then 5 else 2
      case Exited => if s.pending.Some? then 4 else 1
  }

  /** Every step other than a request brings quiet closer, also a failing run and the gap before `finally`. */
  lemma {:induction false} OwnStepsDecreaseWork(s: State, step: Step)
    requires Valid(s) && !step.Request? && Enabled(s, step)
    ensures Valid(Next(s, step)) && Work(Next(s, step)) < Work(s)
  {
    StepKeepsValid(s, step);
  }

  /** Until quiet, some step of the scheduler's own is enabled. */
  lemma {:induction false} BusyCanMove(s: State)
    requires Valid(s) && s.drain.Some?
    ensures exists step: Step :: !step.Request? && Enabled(s, step)
  {
    var d := s.drain.value;
    match s.drains[d]
    case Timer => assert Enabled(s, TimerFires(d));
    case Running(_) => assert Enabled(s, RunSucceeds(d));
    case Exited => assert Enabled(s, Settles(d));
  }

  ghost predicate AllEnabled(s: State, steps: seq<Step>)
    requires Valid(s)
    decreases |steps|
  {
    steps != [] ==>
      && !steps[0].Request? && Enabled(s, steps[0])
      && (StepKeepsValid(s, steps[0]); AllEnabled(Next(s, steps[0]), steps[1..]))
  }

  /** So after the last request the scheduler takes at most five steps, and if it can take no more it is quiet. */
  lemma {:induction false} QuietIsReached(s: State, steps: seq<Step>)
    requires Valid(s) && AllEnabled(s, steps)
    ensures Valid(Run(s, steps))
    ensures |steps| + Work(Run(s, steps)) <= Work(s) <= 5
    ensures (forall step: Step :: step.Request? || !Enabled(Run(s, steps), step)) ==> Run(s, steps).drain.None?
    decreases |steps|
  {
    RunKeepsValid(s, steps);
    if steps == [] {
      if s.drain.Some? { BusyCanMove(s); }
    } else {
      OwnStepsDecreaseWork(s, steps[0]);
      QuietIsReached(Next(s, steps[0]), steps[1..]);
    }
  }

  /** A request overtaken by a newer one before its pass started never runs, even when only it was forced. */
  lemma {:induction false} OvertakenNeverRuns(s: State, steps: seq<Step>, i: nat)
    requires Valid(s) && i < |s.requests| - 1 && i !in s.started
    ensures i !in Run(s, steps).started
    decreases |steps|
  {
    if steps != [] {
      StepKeepsValid(s, steps[0]);
      OvertakenNeverRuns(Next(s, steps[0]), steps[1..], i);
    }
  }

  // ---- The scheduler object ----

  class PassScheduler {
    var pending: Option<Pass>
    var drain: Option<nat>
    ghost var drains: map<nat, Stage>
    ghost var requests: seq<Pass>
    ghost var started: seq<nat>
    var next: nat

    ghost function Now(): State
      reads this
    {
      State(pending, drain, drains, next, requests, started)
    }

    constructor()
      ensures Now() == IDLE && Valid(Now())
    {
      pending, drain, next := None, None, 0;
      drains, requests, started := map[], [], [];
    }

    /** `schedule`, called for a wake and again from `finally`. */
    method ScheduleRequest(request: Pass)
      modifies this
      ensures Now() == Schedule(old(Now()), request)
    {
      pending := Some(request);
      if drain.Some? { return; }
      drains := drains[next := Timer];
      drain := Some(next);
      next := next + 1;
    }

    method OnEvent(request: Pass)
      requires Valid(Now())
      modifies this
      ensures Now() == Next(old(Now()), Request(request)) && Valid(Now())
    {
      StepKeepsValid(Now(), Request(request));
      requests := requests + [request];
      ScheduleRequest(request);
    }

    /** The top of the drain loop, after the timer or after a run that succeeded: the pass to run, if any. */
    method TakePending(d: nat, ghost afterRun: bool) returns (current: Option<Pass>)
      requires Valid(Now()) && d in drains && (if afterRun then drains[d].Running? else drains[d].Timer?)
      modifies this
      ensures Now() == Next(old(Now()), if afterRun then RunSucceeds(d) else TimerFires(d)) && Valid(Now())
      ensures current == old(pending) && (current.Some? ==> current.value == Last(requests))
    {
      StepKeepsValid(Now(), if afterRun then RunSucceeds(d) else TimerFires(d));
      current := pending;
      if current.None? {
        drains := drains[d := Exited];
        return;
      }
      pending := None;
      started := started + [|requests| - 1];
      drains := drains[d := Running(|requests| - 1)];
    }

    /** `finally`: forget the drain, and schedule again when a request came in after the loop was left. */
    method OnSettled(ghost d: nat)
      requires Valid(Now()) && d in drains && drains[d].Exited?
      modifies this
      ensures Now() == Next(old(Now()), Settles(d)) && Valid(Now())
    {
      StepKeepsValid(Now(), Settles(d));
      drain := None;
      drains := drains - {d};
      if pending.Some? { ScheduleRequest(pending.value); }
    }
  }
}
