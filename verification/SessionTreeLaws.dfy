/** What the bounded session tree promises over whole runs and down whole chains of helpers. */
module SessionTreeLaws {
  import opened Prelude
  import opened ExecutionScopes
  import opened SessionTree

  // ---- A helper is active only while its caller is ----

  /** One step neither moves a helper to another caller, nor replaces the caller under it, nor restarts one. */
  lemma {:induction false} StepKeepsCaller(t: Tree, s: Step, d: Id)
    requires Ranked(t.sessions) && Enabled(s)
    ensures t.next <= Next(t, s).next
    ensures d in Next(t, s).sessions && Next(t, s).sessions[d].serial < t.next ==>
            && d in t.sessions && Next(t, s).sessions[d].serial == t.sessions[d].serial
            && Next(t, s).sessions[d].bound == t.sessions[d].bound
            && Next(t, s).sessions[d].parent == t.sessions[d].parent
            && (Next(t, s).sessions[d].phase.Working? ==> t.sessions[d].phase.Working?)
  {
  }

  /** `after` continues `before`: every session old enough to be in both is the same one, in the same place. */
  ghost predicate Continues(before: Tree, after: Tree) {
    && before.next <= after.next
    && forall d | d in after.sessions && after.sessions[d].serial < before.next ::
        && d in before.sessions && after.sessions[d].serial == before.sessions[d].serial
        && after.sessions[d].bound == before.sessions[d].bound && after.sessions[d].parent == before.sessions[d].parent
        && (after.sessions[d].phase.Working? ==> before.sessions[d].phase.Working?)
  }

  lemma {:induction false} StepContinues(t: Tree, s: Step)
    requires Ranked(t.sessions) && Enabled(s)
    ensures Continues(t, Next(t, s))
  {
    StepKeepsCaller(t, s, "");
    forall d | d in Next(t, s).sessions && Next(t, s).sessions[d].serial < t.next
      ensures d in t.sessions && Next(t, s).sessions[d].serial == t.sessions[d].serial
      ensures Next(t, s).sessions[d].bound == t.sessions[d].bound
      ensures Next(t, s).sessions[d].parent == t.sessions[d].parent
      ensures Next(t, s).sessions[d].phase.Working? ==> t.sessions[d].phase.Working?
    {
      StepKeepsCaller(t, s, d);
    }
  }

  lemma {:induction false} ContinuesChains(a: Tree, b: Tree, c: Tree)
    requires Continues(a, b) && Continues(b, c)
    ensures Continues(a, c)
  {
  }

  ghost predicate ContinuesAt(states: seq<Tree>, k: int) {
    0 <= k < |states| - 1 ==> Continues(states[k], states[k + 1])
  }

  lemma {:induction false} RunStepContinues(states: seq<Tree>, steps: seq<Step>, k: int)
    requires IsRun(states, steps)
    ensures ContinuesAt(states, k)
  {
    if 0 <= k < |steps| {
      assert states[k + 1] == Next(states[k], steps[k]);
      StepContinues(states[k], steps[k]);
    }
  }

  lemma {:induction false} ChainContinues(states: seq<Tree>, i: nat, j: nat)
    requires i <= j < |states| && forall k :: ContinuesAt(states, k)
    ensures Continues(states[i], states[j])
    decreases j - i
  {
    if i < j {
      ChainContinues(states, i, j - 1);
      assert ContinuesAt(states, j - 1);
      ContinuesChains(states[i], states[j - 1], states[j]);
    }
  }

  lemma {:induction false} RunContinues(states: seq<Tree>, steps: seq<Step>, i: nat, j: nat)
    requires IsRun(states, steps) && i <= j <= |steps|
    ensures Continues(states[i], states[j])
  {
    forall k ensures ContinuesAt(states, k) { RunStepContinues(states, steps, k); }
    ChainContinues(states, i, j);
  }

  /**
   * Over every run: as long as a helper admitted under a live caller is active, that same caller is active,
   * and it is still working or is waiting for this helper.
   */
  lemma {:induction false} HelperNeverOutlivesCaller(states: seq<Tree>, steps: seq<Step>, i: nat, j: nat, d: Id)
    requires IsRun(states, steps) && Valid(states[0]) && i <= j <= |steps|
    requires d in states[i].sessions && states[i].sessions[d].bound
    requires d in states[j].sessions && states[j].sessions[d].serial < states[i].next
    ensures states[i].sessions[d].parent.Some? && states[j].sessions[d].parent == states[i].sessions[d].parent
    ensures
      var p := states[i].sessions[d].parent.value;
      && p in states[i].sessions && p in states[j].sessions
      && states[j].sessions[p].serial == states[i].sessions[p].serial
      && Held(states[j].sessions[p], states[j].sessions[d], d)
  {
    RunStaysValid(states, steps, i);
    RunStaysValid(states, steps, j);
    RunContinues(states, steps, i, j);
    CallerContinues(states[i], states[j], d);
  }

  lemma {:induction false} CallerContinues(before: Tree, after: Tree, d: Id)
    requires Valid(before) && Valid(after) && Continues(before, after)
    requires d in before.sessions && before.sessions[d].bound
    requires d in after.sessions && after.sessions[d].serial < before.next
    ensures before.sessions[d].parent.Some? && after.sessions[d].parent == before.sessions[d].parent
    ensures
      var p := before.sessions[d].parent.value;
      && p in before.sessions && p in after.sessions
      && after.sessions[p].serial == before.sessions[p].serial
      && Held(after.sessions[p], after.sessions[d], d)
  {
  }

  // ---- Down a chain of helpers ----

  ghost predicate Descends(t: map<Id, Session>, a: Id, d: Id)
    requires Ranked(t) && d in t
    decreases t[d].serial
  {
    d == a || (t[d].bound && Descends(t, a, t[d].parent.value))
  }

  /** The clock skew collected between `a` and `d`. */
  ghost function SkewBelow(t: map<Id, Session>, a: Id, d: Id): real
    requires Ranked(t) && d in t
    decreases t[d].serial
  {
    if d == a || !t[d].bound then 0.0 else t[d].skew + SkewBelow(t, a, t[d].parent.value)
  }

  /**
   * Every ancestor is active and not done; deadlines only shrink, up to the skew of the clock readings; a stopped
   * work signal anywhere above means the helper is not running; restrictions and loans are inherited.
   */
  lemma {:induction false} LimitsHoldDownTheChain(t: Tree, a: Id, d: Id)
    requires Valid(t) && d in t.sessions && d != a && Descends(t.sessions, a, d)
    ensures a in t.sessions && t.sessions[a].scope.Some? && !t.sessions[a].phase.Finishing?
    ensures t.sessions[a].scope.value.workDeadline <= t.sessions[a].scope.value.deadline
    ensures t.sessions[d].scope.Some? ==>
            t.sessions[d].scope.value.deadline <= t.sessions[a].scope.value.workDeadline + SkewBelow(t.sessions, a, d)
    ensures WorkOver(t.sessions[a]) ==> !Running(t.sessions[d])
    ensures t.sessions[a].policy != Full ==> t.sessions[d].policy == t.sessions[a].policy
    ensures Lends(t.sessions[a].loans, t.sessions[d].loans)
    decreases t.sessions[d].serial
  {
    var p := t.sessions[d].parent.value;
    assert Held(t.sessions[p], t.sessions[d], d);
    assert Sound(t.sessions[p]);
    if p != a {
      LimitsHoldDownTheChain(t, a, p);
      if WorkOver(t.sessions[a]) { assert WorkOver(t.sessions[p]); }
    }
  }

  // ---- Stops reach every descendant ----

  /** In a valid table an abort gets to exactly the running descendants. */
  lemma {:induction false} AbortReachesRunningDescendants(t: Tree, a: Id, d: Id)
    requires Valid(t) && a in t.sessions && d in t.sessions
    ensures Reached(t.sessions, a, d) <==> Running(t.sessions[d]) && Descends(t.sessions, a, d)
    decreases t.sessions[d].serial
  {
    if d != a && t.sessions[d].bound {
      var p := t.sessions[d].parent.value;
      assert Held(t.sessions[p], t.sessions[d], d) && Sound(t.sessions[p]);
      AbortReachesRunningDescendants(t, a, p);
    }
  }

  lemma {:induction false} ChildOfDescendantChain(t: map<Id, Session>, a: Id, d: Id) returns (c: Id)
    requires Ranked(t) && d in t && d != a && Descends(t, a, d)
    ensures IsChild(t, c, a) && Descends(t, c, d)
    decreases t[d].serial
  {
    var p := t[d].parent.value;
    if p == a { c := d; } else { c := ChildOfDescendantChain(t, a, p); }
  }

  lemma {:induction false} DescendsThrough(t: map<Id, Session>, a: Id, c: Id, d: Id)
    requires Ranked(t) && d in t && IsChild(t, c, a) && Descends(t, c, d)
    ensures Descends(t, a, d) && d != a
    decreases t[d].serial
  {
    if d != c {
      DescendsThrough(t, a, c, t[d].parent.value);
      if d == a { DescendsLater(t, c, a); }
    }
  }

  lemma {:induction false} DescendsLater(t: map<Id, Session>, a: Id, d: Id)
    requires Ranked(t) && a in t && d in t && Descends(t, a, d)
    ensures t[a].serial <= t[d].serial
    decreases t[d].serial
  {
    if d != a { DescendsLater(t, a, t[d].parent.value); }
  }

  /** The work signal gets to exactly the running proper descendants. */
  lemma {:induction false} WorkStopReachesBelow(t: Tree, a: Id, d: Id)
    requires Valid(t) && a in t.sessions && d in t.sessions && !WorkOver(t.sessions[a])
    ensures ReachedBelow(t.sessions, a, d) <==> Running(t.sessions[d]) && d != a && Descends(t.sessions, a, d)
  {
    if ReachedBelow(t.sessions, a, d) {
      var c :| IsChild(t.sessions, c, a) && Reached(t.sessions, c, d);
      AbortReachesRunningDescendants(t, c, d);
      DescendsThrough(t.sessions, a, c, d);
    }
    if Running(t.sessions[d]) && d != a && Descends(t.sessions, a, d) {
      var c := ChildOfDescendantChain(t.sessions, a, d);
      AbortReachesRunningDescendants(t, c, d);
    }
  }

  /** The session is stopped for this reason, which its work signal keeps if it was not aborted before. */
  ghost predicate HasStopped(was: Session, now: Session, why: Reason) {
    && was.scope.Some?
    && var c := was.scope.value;
    now == was.(
      interrupted := true,
      scope := Some(c.(stopped := Some(why), workStopped := if c.workStopped.Some? then c.workStopped else Some(why))))
  }

  /** What a helper is told: that the work has ended, or else that its caller stopped. */
  ghost predicate ToldBelow(why: Reason, told: Reason) {
    (why == WorkEnded && told == WorkEnded) || (why != WorkEnded && told == CallerStopped)
  }

  ghost predicate RunsBelow(t: Tree, a: Id, d: Id)
    requires Ranked(t.sessions) && d in t.sessions
  {
    Running(t.sessions[d]) && d != a && Descends(t.sessions, a, d)
  }

  /** An abort of `a` stops it, if it runs, and every running descendant, and nothing else. */
  lemma {:induction false} AbortStopsTheSubtree(t: Tree, a: Id, why: Reason, told: Reason, d: Id)
    requires Valid(t) && a in t.sessions && d in t.sessions && ToldBelow(why, told)
    ensures var after := Stopped(t.sessions, a, why);
            && after.Keys == t.sessions.Keys
            && (d == a && Running(t.sessions[a]) ==> HasStopped(t.sessions[a], after[a], why))
            && (RunsBelow(t, a, d) ==> HasStopped(t.sessions[d], after[d], told))
            && (!RunsBelow(t, a, d) && !(d == a && Running(t.sessions[a])) ==> after[d] == t.sessions[d])
  {
    AbortReachesRunningDescendants(t, a, d);
  }

  /**
   * Cancelling a session interrupts it, stops it and every running descendant, and nothing else. Descendants see the
   * caller's stop, never a work stop. Cancelling it again does nothing.
   */
  lemma {:induction false} CancelStopsTheSubtree(t: Tree, a: Id, d: Id)
    requires Valid(t) && a in t.sessions && d in t.sessions
    ensures t.sessions[a].interrupted ==> Next(t, Cancelling(a)) == t
    ensures !t.sessions[a].interrupted ==>
      var after := Next(t, Cancelling(a)).sessions;
      && Next(t, Cancelling(a)) == t.(sessions := after) && after.Keys == t.sessions.Keys
      && (Running(t.sessions[a]) ==> HasStopped(t.sessions[a], after[a], Cancelled))
      && (!Running(t.sessions[a]) ==> after[a] == t.sessions[a].(interrupted := true))
      && (RunsBelow(t, a, d) ==> HasStopped(t.sessions[d], after[d], CallerStopped))
      && (d != a && !RunsBelow(t, a, d) ==> after[d] == t.sessions[d])
    ensures Running(t.sessions[a]) && Descends(t.sessions, a, d) ==> !Running(Next(t, Cancelling(a)).sessions[d])
  {
    assert Sound(t.sessions[a]);
    AbortStopsTheSubtree(t, a, Cancelled, CallerStopped, d);
    AbortStopsTheSubtree(t, a, Cancelled, CallerStopped, a);
  }

  lemma {:induction false} MarkKeepsDescends(m: map<Id, Session>, id: Id, s: Session, a: Id, d: Id)
    requires Ranked(m) && Ranked(m[id := s]) && id in m && d in m
    requires s.parent == m[id].parent && s.bound == m[id].bound && s.serial == m[id].serial
    ensures Descends(m[id := s], a, d) <==> Descends(m, a, d)
    decreases m[d].serial
  {
    if d != a && m[d].bound { MarkKeepsDescends(m, id, s, a, m[d].parent.value); }
  }

  /**
   * When the timer of a working session fires, the session is marked as timed out, stops for that reason if it still
   * runs, and so does every running descendant, told that its caller stopped. Nothing else changes.
   */
  lemma {:induction false} TimeoutStopsTheSubtree(t: Tree, a: Id, d: Id)
    requires Valid(t) && WorkingNow(t.sessions, a) && d in t.sessions
    ensures var after := Next(t, TimingOut(a)).sessions;
            var marked := t.sessions[a].(scope := Some(t.sessions[a].scope.value.(timedOut := true)));
            && Next(t, TimingOut(a)) == t.(sessions := after) && after.Keys == t.sessions.Keys
            && (Running(t.sessions[a]) ==> HasStopped(marked, after[a], TimedOut))
            && (!Running(t.sessions[a]) ==> after[a] == marked)
            && (RunsBelow(t, a, d) ==> HasStopped(t.sessions[d], after[d], CallerStopped))
            && (d != a && !RunsBelow(t, a, d) ==> after[d] == t.sessions[d])
  {
    var marked := t.sessions[a].(scope := Some(t.sessions[a].scope.value.(timedOut := true)));
    var u := t.(sessions := t.sessions[a := marked]);
    assert Sound(t.sessions[a]);
    MarkKeepsValid(t, a, marked);
    MarkKeepsDescends(t.sessions, a, marked, a, d);
    AbortStopsTheSubtree(u, a, TimedOut, CallerStopped, d);
    AbortStopsTheSubtree(u, a, TimedOut, CallerStopped, a);
  }

  /**
   * When the signal a working session was given aborts, it stops with the work-stop kind intact, or else because its
   * caller stopped, and so does every running descendant. Nothing else changes.
   */
  lemma {:induction false} SignalStopsTheSubtree(t: Tree, a: Id, reason: Reason, told: Reason, d: Id)
    requires Valid(t) && WorkingNow(t.sessions, a) && d in t.sessions && ToldBelow(reason, told)
    ensures var after := Next(t, SignalAborting(a, reason)).sessions;
            && Next(t, SignalAborting(a, reason)) == t.(sessions := after) && after.Keys == t.sessions.Keys
            && ((d == a && Running(t.sessions[a])) || RunsBelow(t, a, d) ==> HasStopped(t.sessions[d], after[d], told))
            && (!RunsBelow(t, a, d) && !(d == a && Running(t.sessions[a])) ==> after[d] == t.sessions[d])
  {
    AbortStopsTheSubtree(t, a, told, told, d);
  }

  /**
   * When the work allowance of a running session ends, the session itself keeps running to judge its result, and
   * every running descendant, at any depth, stops with the work-stop kind intact. Nothing else changes.
   */
  lemma {:induction false} WorkStopKeepsItsKind(t: Tree, a: Id, d: Id)
    requires Valid(t) && WorkingNow(t.sessions, a) && Running(t.sessions[a])
    requires t.sessions[a].scope.value.workDeadline < t.sessions[a].scope.value.deadline
    requires d in t.sessions && d != a
    ensures
      var after, c := Next(t, EndingWork(a)).sessions, t.sessions[a].scope.value;
      && Next(t, EndingWork(a)) == t.(sessions := after) && after.Keys == t.sessions.Keys
      && after[a] == t.sessions[a].(
           scope := Some(c.(workStopped := if c.workStopped.Some? then c.workStopped else Some(WorkEnded))))
      && Running(after[a]) && !after[a].interrupted
      && (RunsBelow(t, a, d) ==> HasStopped(t.sessions[d], after[d], WorkEnded))
      && (!RunsBelow(t, a, d) ==> after[d] == t.sessions[d])
  {
    assert Sound(t.sessions[a]);
    if !WorkOver(t.sessions[a]) {
      WorkStopReachesBelow(t, a, d);
    } else if Descends(t.sessions, a, d) {
      LimitsHoldDownTheChain(t, a, d);
    }
  }

  /** The work allowance ends nothing in a session that has no separate allowance, or has stopped. */
  lemma {:induction false} NoWorkStopOtherwise(t: Tree, a: Id)
    requires Valid(t) && a in t.sessions && t.sessions[a].scope.Some?
    requires !Running(t.sessions[a]) || t.sessions[a].scope.value.deadline <= t.sessions[a].scope.value.workDeadline
    ensures Next(t, EndingWork(a)) == t
  {
  }

  // ---- Closing stops every helper and bars admissions ----

  /**
   * Closing a working session detaches it, stops it as finished unless it was stopped before, and makes it wait for
   * every active session that names it as parent and has no remembered result. Every running helper below it stops,
   * told that its caller stopped. Nothing else changes.
   */
  lemma {:induction false} CloseStopsEveryHelper(t: Tree, p: Id, d: Id)
    requires Valid(t) && WorkingNow(t.sessions, p) && d in t.sessions && d != p
    ensures
      var after, c := Next(t, Closing(p)).sessions, t.sessions[p].scope.value;
      var why := if c.stopped.Some? then c.stopped else Some(Finished);
      && Next(t, Closing(p)) == t.(sessions := after) && after.Keys == t.sessions.Keys
      && after[p].phase.Joining?
      && (d in after[p].phase.waits <==> t.sessions[d].parent == Some(p) && d !in t.completed)
      && after[p] == t.sessions[p].(
           phase := after[p].phase,
           scope := Some(c.(listening := false, stopped := why,
                            workStopped := if c.workStopped.Some? then c.workStopped else why)))
      && (RunsBelow(t, p, d) ==> HasStopped(t.sessions[d], after[d], CallerStopped))
      && (!RunsBelow(t, p, d) ==> after[d] == t.sessions[d])
    ensures Descends(t.sessions, p, d) ==> !Running(Next(t, Closing(p)).sessions[d])
  {
    if !WorkOver(t.sessions[p]) {
      WorkStopReachesBelow(t, p, d);
    } else if Descends(t.sessions, p, d) {
      LimitsHoldDownTheChain(t, p, d);
    }
  }

  /** A session waits until the last one it awaits has left; whoever leaves is awaited by nobody any more. */
  lemma {:induction false} LeavingFreesTheWaiting(t: Tree, x: Id, remembered: bool, d: Id)
    requires Valid(t) && x in t.sessions && t.sessions[x].phase.Finishing? && d in t.sessions && d != x
    ensures var after := Next(t, Removing(x, remembered));
            && after.sessions.Keys == t.sessions.Keys - {x} && after.next == t.next
            && after.completed == (if remembered then t.completed + {x} else t.completed)
            && after.sessions[d] == t.sessions[d].(
                 phase := match t.sessions[d].phase
                          case Joining(waits) => Joining(waits - {x})
                          case other => other)
  {
  }

  /** Only a close makes a session wait, only an empty wait ends it, and only an ended session leaves. */
  lemma {:induction false} NothingElseEnds(t: Tree, x: Id, remembered: bool)
    requires Valid(t) && x in t.sessions
    ensures t.sessions[x].phase == Joining({}) ==>
            Next(t, Joined(x)) == t.(sessions := t.sessions[x := t.sessions[x].(phase := Finishing)])
    ensures t.sessions[x].phase != Joining({}) ==> Next(t, Joined(x)) == t
    ensures !t.sessions[x].phase.Finishing? ==> Next(t, Removing(x, remembered)) == t
    ensures !t.sessions[x].phase.Working? ==> Next(t, Closing(x)) == t && Next(t, TimingOut(x)) == t
    ensures !t.sessions[x].phase.Working? ==> forall r :: Next(t, SignalAborting(x, r)) == t
  {
    assert Sound(t.sessions[x]);
  }

  /** A remembered result is forgotten alone. */
  lemma {:induction false} ForgettingForgetsOne(t: Tree, x: Id, y: Id)
    requires Ranked(t.sessions)
    ensures var after := Next(t, Forgetting(x));
            && after.sessions == t.sessions && after.next == t.next
            && (y in after.completed <==> y in t.completed && y != x)
  {
  }

  // ---- What an admission gives ----

  /** The latest time a new session may run to: what it asks for, and no later than its caller's work. */
  ghost predicate IsBound(t: Tree, o: Options, end: Option<real>) {
    if UnderCaller(t.sessions, o) && t.sessions[o.parent.value].scope.Some? then
      var last := t.sessions[o.parent.value].scope.value.workDeadline;
      end == Some(if o.deadline.Some? && o.deadline.value < last then o.deadline.value else last)
    else end == o.deadline
  }

  /** Every refusal of an admission and its order; otherwise there is one more session, last in the table. */
  lemma {:induction false} AdmittedExactlyWhen(t: Tree, o: Options, c: Clock, end: Option<real>)
    requires Forward(c) && IsBound(t, o, end)
    ensures
      var r, under := Admit(t, o, c), o.parent.Some? && o.parent.value in t.sessions;
      if under && (t.sessions[o.parent.value].interrupted || t.sessions[o.parent.value].scope.None?) then
        r == Err(NotExecuting)
      else if under && t.sessions[o.parent.value].scope.value.workStopped.Some? then r == Err(Aborted)
      else if under && o.policy.Some? && t.sessions[o.parent.value].policy != Full
              && o.policy.value != t.sessions[o.parent.value].policy then r == Err(PolicyWidened)
      else if o.signalAborted then r == Err(Aborted)
      else if o.timeout <= 0.0 || o.timeout > 2147483647.0 then r == Err(BadTimeout)
      else if end.Some? && end.value <= c.admitted then r == Err(DeadlineExpired)
      else if o.id in t.sessions then r == Err(AlreadyActive)
      else r.Ok? && o.id in r.value.sessions
           && r.value == t.(sessions := t.sessions[o.id := r.value.sessions[o.id]], next := t.next + 1)
  {
  }

  /** What a new session is given of one loan: its caller's if that has one, else what was asked for. */
  ghost predicate LentOr(lent: Option<string>, asked: Option<string>, got: Option<string>) {
    (lent.Some? ==> got == lent) && (lent.None? ==> got == asked)
  }

  /**
   * The new session: placed under its caller, with the policy asked for, or its caller's, or none; with its caller's
   * loans; working until its own timeout or its bound, whichever is earlier, counted from the start of its timer.
   */
  lemma {:induction false} NewSessionIsAsAsked(t: Tree, o: Options, c: Clock, end: Option<real>)
    requires Forward(c) && IsBound(t, o, end) && Admit(t, o, c).Ok?
    ensures
      var s, under := Admit(t, o, c).value.sessions[o.id], o.parent.Some? && o.parent.value in t.sessions;
      && s.parent == o.parent && s.bound == under && s.serial == t.next && !s.interrupted
      && s.skew == c.started - c.opening
      && (o.policy.Some? ==> s.policy == o.policy.value)
      && (o.policy.None? && under ==> s.policy == t.sessions[o.parent.value].policy)
      && (o.policy.None? && !under ==> s.policy == Full)
      && (!under ==> s.loans == o.loans)
      && (under ==>
          var from := t.sessions[o.parent.value].loans;
          && LentOr(from.binding, o.loans.binding, s.loans.binding)
          && LentOr(from.context, o.loans.context, s.loans.context)
          && LentOr(from.recoveryOwner, o.loans.recoveryOwner, s.loans.recoveryOwner)
          && LentOr(from.root, o.loans.root, s.loans.root))
      && (end.Some? && end.value <= c.opening ==> s.phase == Finishing && s.scope.None?)
      && ((end.Some? ==> c.opening < end.value) ==>
          && s.phase == Working && s.scope.Some?
          && var scope := s.scope.value;
          && scope.stopped.None? && scope.workStopped.None? && scope.listening && !scope.timedOut
          && scope.timeout ==
             (if end.Some? && end.value - c.opening < o.timeout then end.value - c.opening else o.timeout)
          && scope.deadline == c.started + scope.timeout
          && IsFinishTime(scope.timeout, o.requireFinish, scope.deadline - scope.workDeadline))
  {
  }

  /** Nothing unless asked for; else whole milliseconds: a minute, or a fifth of the allowance if that is less. */
  ghost predicate IsFinishTime(timeout: real, requireFinish: bool, r: real) {
    if !requireFinish then r == 0.0
    else r <= 60000.0 && 5.0 * r <= timeout && (r == 60000.0 || (timeout < 5.0 * (r + 1.0) && r == r.Floor as real))
  }

  /** A session that is not working admits no helper. */
  lemma {:induction false} OnlyWorkingSessionsAdmit(t: Tree, p: Id, o: Options, c: Clock)
    requires Valid(t) && p in t.sessions && !t.sessions[p].phase.Working? && o.parent == Some(p) && Forward(c)
    ensures Admit(t, o, c).Err?
  {
    assert Sound(t.sessions[p]);
  }

  /** Over every run: once a session has closed its scope, no helper is ever admitted under it again. */
  lemma {:induction false} CloseBarsAdmission(
      states: seq<Tree>, steps: seq<Step>, i: nat, j: nat, p: Id, o: Options, c: Clock)
    requires IsRun(states, steps) && Valid(states[0]) && i <= j <= |steps|
    requires p in states[i].sessions && !states[i].sessions[p].phase.Working?
    requires p in states[j].sessions && states[j].sessions[p].serial < states[i].next
    requires o.parent == Some(p) && Forward(c)
    ensures Admit(states[j], o, c).Err?
  {
    RunStaysValid(states, steps, j);
    RunContinues(states, steps, i, j);
    OnlyWorkingSessionsAdmit(states[j], p, o, c);
  }
}
