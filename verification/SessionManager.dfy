/** The session manager as the object that updates its session table in place. */
module SessionManagers {
  import opened Prelude
  import opened ExecutionScopes
  import opened SessionTree

  function Helpers(t: map<Id, Session>, a: Id): set<Id> { set c | c in t && IsChild(t, c, a) }

  /** The table part-way through passing an abort on: the helpers in `done` and everything below them halted. */
  ghost function PassedTo(t: map<Id, Session>, done: set<Id>, r: Reason): map<Id, Session>
    requires Ranked(t)
  {
    map d | d in t :: if exists c | c in done :: Reached(t, c, d) then HaltSession(t[d], r) else t[d]
  }

  lemma {:induction false} PassedToRanks(t: map<Id, Session>, done: set<Id>, r: Reason)
    requires Ranked(t)
    ensures var u := PassedTo(t, done, r); Ranked(u) && forall d | d in u :: u[d].serial == t[d].serial
  {
    HaltingKeepsRanks(t, PassedTo(t, done, r));
  }

  /** Stopping one more helper extends the part that is done. */
  lemma {:induction false} PassOneMore(t: map<Id, Session>, done: set<Id>, a: Id, c: Id, r: Reason)
    requires Ranked(t) && Ranked(PassedTo(t, done, PassedOn(r)))
    requires c !in done && IsChild(t, c, a) && forall e | e in done :: IsChild(t, e, a)
    ensures Stopped(PassedTo(t, done, PassedOn(r)), c, PassedOn(r)) == PassedTo(t, done + {c}, PassedOn(r))
  {
    var u, w := PassedTo(t, done, PassedOn(r)), PassedTo(t, done + {c}, PassedOn(r));
    var v := Stopped(u, c, PassedOn(r));
    forall x | x in t && Reached(t, c, x) ensures u[x] == t[x] {
      if e :| e in done && Reached(t, e, x) { BranchesAreDisjoint(t, a, c, e, x); assert false; }
    }
    assert HaltedElsewhere(t, u, c);
    forall d | d in t ensures v[d] == w[d] {
      ReachedFrame(t, u, c, d);
      if Reached(t, c, d) {
        assert c in done + {c};
      } else if e :| e in done && Reached(t, e, d) {
        assert e in done + {c};
      }
    }
  }

  /** When every helper has been stopped, the table is what an abort of the work signal makes of it. */
  lemma {:induction false} PassedToAll(t: map<Id, Session>, a: Id, r: Reason)
    requires Ranked(t) && a in t && !WorkOver(t[a])
    ensures PassedTo(t, Helpers(t, a), PassedOn(r)) == StoppedBelow(t, a, r)
  {
    var u, v := PassedTo(t, Helpers(t, a), PassedOn(r)), StoppedBelow(t, a, r);
    forall d | d in t ensures u[d] == v[d] {
      if ReachedBelow(t, a, d) {
        var c :| IsChild(t, c, a) && Reached(t, c, d);
        assert c in Helpers(t, a);
      }
    }
  }

  lemma {:induction false} PassedToNone(t: map<Id, Session>, r: Reason)
    requires Ranked(t)
    ensures PassedTo(t, {}, r) == t
  {
  }

  lemma {:induction false} NothingBelowWorkOver(t: map<Id, Session>, a: Id, r: Reason)
    requires Ranked(t) && a in t && WorkOver(t[a])
    ensures StoppedBelow(t, a, r) == t
  {
  }

  /** Halting the session after everything below it is the whole stop. */
  lemma {:induction false} StopIsBelowThenSelf(t: map<Id, Session>, a: Id, r: Reason)
    requires Ranked(t) && a in t && Running(t[a])
    ensures Stopped(t, a, r) == StoppedBelow(t, a, r)[a := HaltSession(t[a], r)]
  {
    forall d | d in t && d != a ensures Stopped(t, a, r)[d] == StoppedBelow(t, a, r)[d] {
      ReachedThroughChild(t, a, d);
    }
  }

  lemma {:induction false} SelfNotBelow(t: map<Id, Session>, a: Id, r: Reason)
    requires Ranked(t) && a in t
    ensures StoppedBelow(t, a, r)[a] == t[a]
  {
    if ReachedBelow(t, a, a) {
      var c :| IsChild(t, c, a) && Reached(t, c, a);
      ReachedHasLaterSerial(t, c, a);
      assert false;
    }
  }

  lemma {:induction false} NotRunningNotStopped(t: map<Id, Session>, a: Id, r: Reason)
    requires Ranked(t) && a in t && !Running(t[a])
    ensures Stopped(t, a, r) == t
  {
    forall d | d in t ensures !Reached(t, a, d) { NeverReached(t, a, d); }
  }

  lemma {:induction false} NeverReached(t: map<Id, Session>, a: Id, d: Id)
    requires Ranked(t) && a in t && !Running(t[a]) && d in t
    ensures !Reached(t, a, d)
    decreases t[d].serial
  {
    if d != a && t[d].bound { NeverReached(t, a, t[d].parent.value); }
  }

  class SessionManager {
    var sessions: map<Id, Session>
    var completed: set<Id>
    var next: nat

    function Table(): Tree
      reads this
    {
      Tree(sessions, completed, next)
    }

    constructor()
      ensures Table() == START && Valid(Table())
    {
      sessions, completed, next := map[], {}, 0;
    }

    /** Pass an abort of `id`'s work signal on to its helpers, one listener after the other. */
    method AbortWork(id: Id, reason: Reason)
      requires Ranked(sessions) && id in sessions && forall d | d in sessions :: sessions[d].serial < next
      modifies this`sessions
      ensures sessions == StoppedBelow(old(sessions), id, reason)
      decreases next - sessions[id].serial, 0
    {
      if WorkOver(sessions[id]) {
        NothingBelowWorkOver(sessions, id, reason);
        return;
      }
      var helpers := Helpers(sessions, id);
      ghost var before := sessions;
      var left := helpers;
      PassedToNone(before, PassedOn(reason));
      while left != {}
        invariant left <= helpers
        invariant sessions == PassedTo(before, helpers - left, PassedOn(reason))
        decreases left
      {
        var c :| c in left;
        ghost var done := helpers - left;
        PassedToRanks(before, done, PassedOn(reason));
        PassOneMore(before, done, id, c, reason);
        Stop(c, PassedOn(reason));
        left := left - {c};
        assert helpers - left == done + {c};
      }
      assert helpers - left == helpers;
      PassedToAll(before, id, reason);
    }

    /** Stop one scope: abort both signals, which stops every helper still listening, and interrupt the session. */
    method Stop(id: Id, reason: Reason)
      requires Ranked(sessions) && id in sessions && forall d | d in sessions :: sessions[d].serial < next
      modifies this`sessions
      ensures sessions == Stopped(old(sessions), id, reason)
      decreases next - sessions[id].serial, 1
    {
      if !Running(sessions[id]) {
        NotRunningNotStopped(sessions, id, reason);
        return;
      }
      StopIsBelowThenSelf(sessions, id, reason);
      SelfNotBelow(sessions, id, reason);
      AbortWork(id, reason);
      sessions := sessions[id := HaltSession(sessions[id], reason)];
    }

    method RunDefinition(o: Options, clock: Clock) returns (r: Result<Id, Denial>)
      requires Valid(Table()) && Forward(clock)
      modifies this
      ensures Table() == Next(old(Table()), Admitting(o, clock))
      ensures r == if Admit(old(Table()), o, clock).Ok? then Ok(o.id) else Err(Admit(old(Table()), o, clock).error)
      ensures Valid(Table())
    {
      StepKeepsValid(Table(), Admitting(o, clock));
      var opts := o;
      var bound := o.parent.Some? && o.parent.value in sessions;
      if bound {
        var parent := sessions[o.parent.value];
        if parent.interrupted || parent.scope.None? { return Err(NotExecuting); }
        if parent.scope.value.workStopped.Some? { return Err(Aborted); }
        if o.policy.Some? && parent.policy != Full && o.policy.value != parent.policy { return Err(PolicyWidened); }
        opts := o.(loans := Borrow(parent.loans, o.loans),
                   policy := OrElse(o.policy, Some(parent.policy)),
                   deadline := Some(Earlier(o.deadline, parent.scope.value.workDeadline)));
      }
      if opts.signalAborted { return Err(Aborted); }
      var allowed := ExecutionTimeout(opts.timeout, opts.deadline, clock.admitted);
      if allowed.Err? { return Err(allowed.error); }
      if o.id in sessions { return Err(AlreadyActive); }
      sessions := sessions[o.id := NewSession(next, bound, opts, allowed.value, clock)];
      next := next + 1;
      return Ok(o.id);
    }

    method Cancel(id: Id)
      requires Valid(Table())
      modifies this`sessions
      ensures Table() == Next(old(Table()), Cancelling(id))
      ensures Valid(Table())
    {
      StepKeepsValid(Table(), Cancelling(id));
      if id !in sessions || sessions[id].interrupted { return; }
      Stop(id, Cancelled);
      sessions := sessions[id := sessions[id].(interrupted := true)];
    }

    method TimeoutFired(id: Id)
      requires Valid(Table())
      modifies this`sessions
      ensures Table() == Next(old(Table()), TimingOut(id))
      ensures Valid(Table())
    {
      StepKeepsValid(Table(), TimingOut(id));
      if !WorkingNow(sessions, id) { return; }
      MarkedKeepsRanks(sessions, id, MarkTimedOut(sessions[id]));
      sessions := sessions[id := MarkTimedOut(sessions[id])];
      Stop(id, TimedOut);
    }

    method WorkTimerFired(id: Id)
      requires Valid(Table())
      modifies this`sessions
      ensures Table() == Next(old(Table()), EndingWork(id))
      ensures Valid(Table())
    {
      StepKeepsValid(Table(), EndingWork(id));
      if !WorkingNow(sessions, id) || !Running(sessions[id]) { return; }
      if sessions[id].scope.value.deadline <= sessions[id].scope.value.workDeadline { return; }
      SelfNotBelow(sessions, id, WorkEnded);
      AbortWork(id, WorkEnded);
      sessions := sessions[id := MarkWorkEnded(sessions[id])];
    }

    method CloseExecutionScope(id: Id)
      requires Valid(Table())
      modifies this`sessions
      ensures Table() == Next(old(Table()), Closing(id))
      ensures Valid(Table()) <==> JoinsAll(old(Table()), Closing(id))
    {
      StepKeepsValidExactlyWhen(Table(), Closing(id));
      if !WorkingNow(sessions, id) { return; }
      var waits := set c | c in sessions && sessions[c].parent == Some(id) && c !in completed;
      SelfNotBelow(sessions, id, Finished);
      AbortWork(id, Finished);
      sessions := sessions[id := MarkClosed(sessions[id], waits)];
    }

    /** The settled execution leaves the table; every caller awaiting it is one helper closer to its end. */
    method Remove(id: Id, remembered: bool)
      requires Valid(Table())
      modifies this`sessions, this`completed
      ensures Table() == Next(old(Table()), Removing(id, remembered))
      ensures Valid(Table())
    {
      StepKeepsValid(Table(), Removing(id, remembered));
      if id !in sessions || !sessions[id].phase.Finishing? { return; }
      sessions := WithoutSession(sessions, id);
      if remembered { completed := completed + {id}; }
    }
  }
}
