/** One invocation's limits: its timeout, its two deadlines and its two abort signals. */
module ExecutionScopes {
  import opened Prelude

  /** Why a signal was aborted. Only a work stop keeps its kind on the way down. */
  datatype Reason = WorkEnded | Cancelled | TimedOut | CallerStopped | Finished

  datatype Denial = NotExecuting | Aborted | PolicyWidened | BadTimeout | DeadlineExpired | AlreadyActive

  const MAX_TIMER: real := 2147483647.0
  const FINISH_RESERVE: real := 60000.0

  /**
   * `stopped` and `workStopped` are the reasons of the two signals; `listening` says that the timers and
   * the parent listener are still attached.
   */
  datatype Scope = Scope(
    timeout: real, deadline: real, workDeadline: real,
    stopped: Option<Reason>, workStopped: Option<Reason>, listening: bool, timedOut: bool)

  function ExecutionTimeout(timeout: real, deadline: Option<real>, now: real): (r: Result<real, Denial>)
    ensures r.Ok? ==> 0.0 < r.value <= timeout && (deadline.Some? ==> now + r.value <= deadline.value)
    ensures r.Err? <==> timeout <= 0.0 || timeout > MAX_TIMER || (deadline.Some? && deadline.value <= now)
  {
    if timeout <= 0.0 || timeout > MAX_TIMER then Err(BadTimeout)
    else if deadline.None? then Ok(timeout)
    else
      var remaining := deadline.value - now;
      if remaining <= 0.0 then Err(DeadlineExpired)
      else Ok(if remaining < timeout then remaining else timeout)
  }

  /** The part of the allowance reserved for finishing. */
  function FinishTime(timeout: real, requireFinish: bool): (r: real)
    requires timeout > 0.0
    ensures 0.0 <= r <= timeout / 5.0 && r <= FINISH_RESERVE
    ensures !requireFinish ==> r == 0.0
    ensures requireFinish && timeout >= 5.0 ==> r >= 1.0
  {
    if !requireFinish then 0.0
    else
      var fifth := (timeout / 5.0).Floor as real;
      if FINISH_RESERVE < fifth then FINISH_RESERVE else fifth
  }

  /** The constructor reads the clock twice: for the remaining time, then for the deadline. */
  function OpenScope(timeout: real, deadline: Option<real>, requireFinish: bool, now: real, later: real)
    : (r: Result<Scope, Denial>)
    requires now <= later
    ensures r.Ok? ==>
      && r.value.stopped.None? && r.value.workStopped.None? && r.value.listening
      && later < r.value.workDeadline <= r.value.deadline
      && (deadline.Some? ==> r.value.deadline <= deadline.value + (later - now))
  {
    match ExecutionTimeout(timeout, deadline, now)
    case Err(why) => Err(why)
    case Ok(allowed) =>
      var end := later + allowed;
      Ok(Scope(allowed, end, end - FinishTime(allowed, requireFinish), None, None, true, false))
  }

  /** The new deadline stays within the caller's exactly when the clock did not move or the timeout fits anyway. */
  lemma {:induction false} DeadlineHeldExactlyWhen(
      timeout: real, deadline: real, requireFinish: bool, now: real, later: real)
    requires now <= later
    requires OpenScope(timeout, Some(deadline), requireFinish, now, later).Ok?
    ensures OpenScope(timeout, Some(deadline), requireFinish, now, later).value.deadline <= deadline
            <==> now == later || later + timeout <= deadline
  {
    var allowed := ExecutionTimeout(timeout, Some(deadline), now).value;
    assert allowed == if deadline - now < timeout then deadline - now else timeout;
  }

  /** A millisecond between the two readings: the helper's deadline falls that much after its caller's. */
  lemma {:induction false} DeadlineCanSlip()
    ensures OpenScope(10.0, Some(10.0), false, 0.0, 1.0).Ok?
    ensures OpenScope(10.0, Some(10.0), false, 0.0, 1.0).value.deadline == 11.0
  {
  }

  predicate Live(s: Scope) { s.stopped.None? }

  /** `stop`: the first reason wins on each signal. */
  function Halt(s: Scope, r: Reason): Scope
    requires Live(s)
  {
    s.(stopped := Some(r), workStopped := OrElse(s.workStopped, Some(r)))
  }

  /** `close`: detach the timers and the listener, then stop what is still scoped. */
  function Shut(s: Scope): Scope {
    var r := OrElse(s.stopped, Some(Finished));
    s.(listening := false, stopped := r, workStopped := OrElse(s.workStopped, r))
  }

  /** The reason a helper gets when its caller's work signal aborts. */
  function PassedOn(r: Reason): Reason {
    if r == WorkEnded then WorkEnded else CallerStopped
  }
}
