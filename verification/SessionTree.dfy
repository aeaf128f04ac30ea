/** Bounded sessions and their helpers: admission, stop, close and join as steps over the session table. */
module SessionTree {
  import opened Prelude
  import opened ExecutionScopes

  type Id = string

  datatype Policy = Full | Restricted(name: string)

  /** What a caller hands down to its helpers: Task binding and context, recovery owner and execution root. */
  datatype Loans = Loans(
    binding: Option<string>, context: Option<string>, recoveryOwner: Option<string>, root: Option<string>)

  function Borrow(from: Loans, own: Loans): Loans {
    Loans(OrElse(from.binding, own.binding), OrElse(from.context, own.context),
          OrElse(from.recoveryOwner, own.recoveryOwner), OrElse(from.root, own.root))
  }

  /** Everything the caller has, the helper has unchanged. */
  predicate Lends(from: Loans, to: Loans) {
    && (from.binding.Some? ==> to.binding == from.binding)
    && (from.context.Some? ==> to.context == from.context)
    && (from.recoveryOwner.Some? ==> to.recoveryOwner == from.recoveryOwner)
    && (from.root.Some? ==> to.root == from.root)
  }

  /** Where an execution stands: its work runs, it waits for helpers, or only its removal is left. */
  datatype Phase = Working | Joining(waits: set<Id>) | Finishing

  /**
   * `bound` marks a helper admitted under a live caller. `serial` is its place in the session table.
   * `scope` is absent when opening it failed. `skew` is the time between the scope's two clock readings.
   */
  datatype Session = Session(
    parent: Option<Id>, bound: bool, serial: nat, interrupted: bool, phase: Phase, scope: Option<Scope>, skew: real,
    policy: Policy, loans: Loans)

  /** `completed` are the ids whose terminal result is remembered. */
  datatype Tree = Tree(sessions: map<Id, Session>, completed: set<Id>, next: nat)

  datatype Options = Options(
    id: Id, parent: Option<Id>, policy: Option<Policy>, loans: Loans,
    signalAborted: bool, timeout: real, deadline: Option<real>, requireFinish: bool)

  /** The clock readings of one admission, in order. */
  datatype Clock = Clock(admitted: real, opening: real, started: real)

  predicate Forward(c: Clock) { c.admitted <= c.opening <= c.started }

  predicate Running(s: Session) { s.scope.Some? && Live(s.scope.value) }

  predicate WorkOver(s: Session) { s.scope.Some? && s.scope.value.workStopped.Some? }

  predicate IsChild(t: map<Id, Session>, c: Id, p: Id) { c in t && t[c].bound && t[c].parent == Some(p) }

  // ---- Admission ----

  function Earlier(a: Option<real>, b: real): real {
    if a.Some? && a.value < b then a.value else b
  }

  /** The caller's checks and what its helper inherits. */
  function Inherit(p: Session, o: Options): Result<Options, Denial> {
    if p.interrupted || p.scope.None? then Err(NotExecuting)
    else if p.scope.value.workStopped.Some? then Err(Aborted)
    else if o.policy.Some? && p.policy != Full && o.policy.value != p.policy then Err(PolicyWidened)
    else Ok(o.(
      loans := Borrow(p.loans, o.loans),
      policy := OrElse(o.policy, Some(p.policy)),
      deadline := Some(Earlier(o.deadline, p.scope.value.workDeadline))))
  }

  predicate UnderCaller(t: map<Id, Session>, o: Options) { o.parent.Some? && o.parent.value in t }

  function Effective(t: map<Id, Session>, o: Options): Result<Options, Denial> {
    if UnderCaller(t, o) then Inherit(t[o.parent.value], o) else Ok(o)
  }

  /** The new session, once every check has passed. Opening its scope may still fail on an expired deadline. */
  function NewSession(serial: nat, bound: bool, o: Options, allowed: real, c: Clock): Session
    requires Forward(c)
  {
    var scope := OpenScope(allowed, o.deadline, o.requireFinish, c.opening, c.started);
    Session(
      o.parent, bound, serial, false,
      if scope.Ok? then Working else Finishing,
      if scope.Ok? then Some(scope.value) else None,
      c.started - c.opening,
      if o.policy.Some? then o.policy.value else Full, o.loans)
  }

  function Admit(t: Tree, o: Options, c: Clock): Result<Tree, Denial>
    requires Forward(c)
  {
    var opts := Effective(t.sessions, o);
    if opts.Err? then Err(opts.error)
    else if opts.value.signalAborted then Err(Aborted)
    else
      var allowed := ExecutionTimeout(opts.value.timeout, opts.value.deadline, c.admitted);
      if allowed.Err? then Err(allowed.error)
      else if o.id in t.sessions then Err(AlreadyActive)
      else
        var s := NewSession(t.next, UnderCaller(t.sessions, o), opts.value, allowed.value, c);
        Ok(t.(sessions := t.sessions[o.id := s], next := t.next + 1))
  }

  // ---- Stopping a subtree ----

  /** Callers precede their helpers in the table. */
  ghost predicate Ranked(t: map<Id, Session>) {
    forall c | c in t && t[c].bound ::
      t[c].parent.Some? && t[c].parent.value in t && t[t[c].parent.value].serial < t[c].serial
  }

  /** The sessions an abort of `a` gets to: running ones, down through work signals not aborted before. */
  ghost predicate Reached(t: map<Id, Session>, a: Id, d: Id)
    requires Ranked(t) && d in t
    decreases t[d].serial
  {
    && Running(t[d])
    && (d == a || (t[d].bound && !WorkOver(t[t[d].parent.value]) && Reached(t, a, t[d].parent.value)))
  }

  function HaltSession(s: Session, r: Reason): Session
    requires Running(s)
  {
    s.(interrupted := true, scope := Some(Halt(s.scope.value, r)))
  }

  ghost function Stopped(t: map<Id, Session>, a: Id, r: Reason): map<Id, Session>
    requires Ranked(t)
  {
    map d | d in t :: if Reached(t, a, d) then HaltSession(t[d], if d == a then r else PassedOn(r)) else t[d]
  }

  /** What the work signal of `a` alone gets to: everything below it, but not `a` itself. */
  ghost predicate ReachedBelow(t: map<Id, Session>, a: Id, d: Id)
    requires Ranked(t) && a in t && d in t
  {
    !WorkOver(t[a]) && exists c | IsChild(t, c, a) :: Reached(t, c, d)
  }

  ghost function StoppedBelow(t: map<Id, Session>, a: Id, r: Reason): map<Id, Session>
    requires Ranked(t) && a in t
  {
    map d | d in t :: if ReachedBelow(t, a, d) then HaltSession(t[d], PassedOn(r)) else t[d]
  }

  lemma {:induction false} ReachedHasLaterSerial(t: map<Id, Session>, a: Id, d: Id)
    requires Ranked(t) && a in t && d in t && Reached(t, a, d)
    ensures t[a].serial <= t[d].serial
    decreases t[d].serial
  {
    if d != a { ReachedHasLaterSerial(t, a, t[d].parent.value); }
  }

  /** Reaching from `a` is reaching `a` itself or reaching through one of its helpers. */
  lemma {:induction false} ReachedThroughChild(t: map<Id, Session>, a: Id, d: Id)
    requires Ranked(t) && a in t && d in t && d != a && Running(t[a])
    ensures Reached(t, a, d) <==> ReachedBelow(t, a, d)
    decreases t[d].serial
  {
    if Reached(t, a, d) {
      var p := t[d].parent.value;
      if p == a {
        assert IsChild(t, d, a) && Reached(t, d, d);
      } else {
        ReachedThroughChild(t, a, p);
        var c :| IsChild(t, c, a) && Reached(t, c, p);
        assert Reached(t, c, d);
      }
    }
    if ReachedBelow(t, a, d) {
      var c :| IsChild(t, c, a) && Reached(t, c, d);
      if d != c {
        var p := t[d].parent.value;
        ReachedHasLaterSerial(t, c, p);
        assert ReachedBelow(t, a, p);
        ReachedThroughChild(t, a, p);
      }
    }
  }

  /** No session is below two different helpers of one caller. */
  lemma {:induction false} BranchesAreDisjoint(t: map<Id, Session>, a: Id, c: Id, e: Id, d: Id)
    requires Ranked(t) && d in t && IsChild(t, c, a) && IsChild(t, e, a)
    requires Reached(t, c, d) && Reached(t, e, d)
    ensures c == e
    decreases t[d].serial
  {
    if d == c {
      if d != e { ReachedHasLaterSerial(t, e, a); }
    } else if d == e {
      ReachedHasLaterSerial(t, c, a);
    } else {
      BranchesAreDisjoint(t, a, c, e, t[d].parent.value);
    }
  }

  /** `u` is `t` with some running sessions halted; nothing below `c` among them. */
  ghost predicate HaltedElsewhere(t: map<Id, Session>, u: map<Id, Session>, c: Id)
    requires Ranked(t)
  {
    && u.Keys == t.Keys
    && (forall x | x in t :: u[x] == t[x] || exists r :: Running(t[x]) && u[x] == HaltSession(t[x], r))
    && (forall x | x in t && Reached(t, c, x) :: u[x] == t[x])
  }

  lemma {:induction false} HaltingKeepsRanks(t: map<Id, Session>, u: map<Id, Session>)
    requires Ranked(t) && u.Keys == t.Keys
    requires forall x | x in t :: u[x] == t[x] || exists r :: Running(t[x]) && u[x] == HaltSession(t[x], r)
    ensures Ranked(u)
  {
    forall c | c in u && u[c].bound
      ensures u[c].parent.Some? && u[c].parent.value in u && u[u[c].parent.value].serial < u[c].serial
    {
      assert u[c].parent == t[c].parent && u[c].serial == t[c].serial && t[c].bound;
      assert u[t[c].parent.value].serial == t[t[c].parent.value].serial;
    }
  }

  /** Halting other branches does not change what `c` gets to. */
  lemma {:induction false} ReachedFrame(t: map<Id, Session>, u: map<Id, Session>, c: Id, d: Id)
    requires Ranked(t) && Ranked(u) && HaltedElsewhere(t, u, c) && d in t
    ensures Reached(u, c, d) <==> Reached(t, c, d)
    decreases t[d].serial
  {
    if Running(t[d]) && t[d].bound { ReachedFrame(t, u, c, t[d].parent.value); }
  }

  // ---- Steps ----

  datatype Step =
    | Admitting(options: Options, clock: Clock)
    | Cancelling(id: Id)
    | TimingOut(id: Id)
    | EndingWork(id: Id)
    | SignalAborting(id: Id, reason: Reason)
    | Closing(id: Id)
    | Joined(id: Id)
    | Removing(id: Id, remembered: bool)
    | Forgetting(id: Id)

  predicate WorkingNow(t: map<Id, Session>, id: Id) {
    id in t && t[id].phase.Working? && t[id].scope.Some? && t[id].scope.value.listening
  }

  function MarkTimedOut(s: Session): Session
    requires s.scope.Some?
  {
    s.(scope := Some(s.scope.value.(timedOut := true)))
  }

  function MarkWorkEnded(s: Session): Session
    requires s.scope.Some?
  {
    s.(scope := Some(s.scope.value.(workStopped := OrElse(s.scope.value.workStopped, Some(WorkEnded)))))
  }

  /** The children a closing session awaits: `waitFor` returns at once for an id with a remembered result. */
  function Awaited(t: Tree, id: Id): set<Id> {
    set c | c in t.sessions && t.sessions[c].parent == Some(id) && c !in t.completed
  }

  function MarkClosed(s: Session, waits: set<Id>): Session
    requires s.scope.Some?
  {
    s.(scope := Some(Shut(s.scope.value)), phase := Joining(waits))
  }

  function Settle(s: Session, gone: Id): Session {
    if s.phase.Joining? then s.(phase := Joining(s.phase.waits - {gone})) else s
  }

  function WithoutSession(t: map<Id, Session>, id: Id): map<Id, Session> {
    map d | d in t && d != id :: Settle(t[d], id)
  }

  predicate Enabled(s: Step) { s.Admitting? ==> Forward(s.clock) }

  ghost function Next(t: Tree, s: Step): Tree
    requires Ranked(t.sessions) && Enabled(s)
  {
    var m := t.sessions;
    match s
    case Admitting(o, c) => var r := Admit(t, o, c); if r.Ok? then r.value else t
    case Cancelling(id) =>
      if id in m && !m[id].interrupted then
        var n := Stopped(m, id, Cancelled);
        t.(sessions := n[id := n[id].(interrupted := true)])
      else t
    case TimingOut(id) =>
      if WorkingNow(m, id) then
        MarkedKeepsRanks(m, id, MarkTimedOut(m[id]));
        t.(sessions := Stopped(m[id := MarkTimedOut(m[id])], id, TimedOut))
      else t
    case EndingWork(id) =>
      if WorkingNow(m, id) && m[id].scope.value.workDeadline < m[id].scope.value.deadline && Running(m[id]) then
        t.(sessions := StoppedBelow(m, id, WorkEnded)[id := MarkWorkEnded(m[id])])
      else t
    case SignalAborting(id, reason) =>
      if WorkingNow(m, id) then t.(sessions := Stopped(m, id, PassedOn(reason))) else t
    case Closing(id) =>
      if WorkingNow(m, id) then
        t.(sessions := StoppedBelow(m, id, Finished)[id := MarkClosed(m[id], Awaited(t, id))])
      else t
    case Joined(id) =>
      if id in m && m[id].phase == Joining({}) then t.(sessions := m[id := m[id].(phase := Finishing)]) else t
    case Removing(id, remembered) =>
      if id in m && m[id].phase.Finishing? then
        t.(sessions := WithoutSession(m, id), completed := if remembered then t.completed + {id} else t.completed)
      else t
    case Forgetting(id) => t.(completed := t.completed - {id})
  }

  /** Updating a session without moving it in the tree. */
  lemma {:induction false} MarkedKeepsRanks(m: map<Id, Session>, id: Id, s: Session)
    requires Ranked(m) && id in m
    requires s.parent == m[id].parent && s.bound == m[id].bound && s.serial == m[id].serial
    ensures Ranked(m[id := s])
  {
  }

  // ---- The invariant ----

  /** What holds of a session on its own. */
  ghost predicate Sound(s: Session) {
    && (s.phase.Working? <==> s.scope.Some? && s.scope.value.listening)
    && (s.phase.Joining? ==> s.scope.Some?)
    && 0.0 <= s.skew
    && (s.scope.Some? ==>
        var c := s.scope.value;
        && (c.stopped.Some? ==> c.workStopped.Some?)
        && (!c.listening ==> c.stopped.Some?)
        && (s.interrupted ==> c.stopped.Some?)
        && c.workDeadline <= c.deadline)
  }

  /** What a caller guarantees about a helper: it stays, it passes stops on, and it lends only what it has. */
  ghost predicate Held(p: Session, c: Session, id: Id) {
    && (p.phase.Working? || (p.phase.Joining? && id in p.phase.waits))
    && p.scope.Some?
    && (WorkOver(p) ==> !Running(c))
    && (c.scope.Some? ==> c.scope.value.deadline <= p.scope.value.workDeadline + c.skew)
    && (p.policy != Full ==> c.policy == p.policy)
    && Lends(p.loans, c.loans)
  }

  /** A session awaits only active sessions that name it as their parent. */
  ghost predicate AwaitsOwn(t: map<Id, Session>, p: Id)
    requires p in t
  {
    t[p].phase.Joining? ==> forall c | c in t[p].phase.waits :: c in t && t[c].parent == Some(p)
  }

  ghost predicate Valid(t: Tree) {
    && Ranked(t.sessions)
    && (forall d | d in t.sessions :: Sound(t.sessions[d]) && t.sessions[d].serial < t.next && AwaitsOwn(t.sessions, d))
    && (forall d | d in t.sessions && t.sessions[d].bound ::
         Held(t.sessions[t.sessions[d].parent.value], t.sessions[d], d))
  }

  const START: Tree := Tree(map[], {}, 0)

  /** A close at which no helper of the session carries an id whose result is still remembered. */
  ghost predicate JoinsAll(t: Tree, s: Step) {
    s.Closing? && WorkingNow(t.sessions, s.id) ==> forall c | IsChild(t.sessions, c, s.id) :: c !in t.completed
  }

  /** A helper starts within its caller's limits, with its caller's restrictions, and held by it. */
  lemma {:induction false} NewHelperIsHeld(p: Session, o: Options, opts: Options, serial: nat, allowed: real, c: Clock)
    requires Sound(p) && Forward(c) && Inherit(p, o) == Ok(opts) && !p.phase.Finishing?
    ensures var s := NewSession(serial, true, opts, allowed, c);
            p.phase.Working? && Sound(s) && Held(p, s, o.id)
  {
    assert p.scope.Some? && p.scope.value.workStopped.None? && p.scope.value.stopped.None?;
    assert opts.deadline.Some? && opts.deadline.value <= p.scope.value.workDeadline;
  }

  lemma {:induction false} AdmitKeepsValid(t: Tree, o: Options, c: Clock)
    requires Valid(t) && Forward(c)
    ensures Admit(t, o, c).Ok? ==> Valid(Admit(t, o, c).value)
  {
    var r := Admit(t, o, c);
    if r.Ok? {
      var m, n := t.sessions, r.value.sessions;
      assert forall d | d in m :: n[d] == m[d];
      if UnderCaller(m, o) {
        var p, opts := m[o.parent.value], Inherit(m[o.parent.value], o).value;
        var allowed := ExecutionTimeout(opts.timeout, opts.deadline, c.admitted).value;
        NewHelperIsHeld(p, o, opts, t.next, allowed, c);
        assert Held(m[o.parent.value], n[o.id], o.id);
      }
      forall d | d in n && n[d].bound
        ensures n[d].parent.Some? && n[d].parent.value in n && n[n[d].parent.value].serial < n[d].serial
        ensures Held(n[n[d].parent.value], n[d], d)
      {
        if d in m { assert Held(m[m[d].parent.value], m[d], d); }
      }
    }
  }

  lemma {:induction false} HaltKeepsSound(s: Session, r: Reason)
    requires Sound(s) && Running(s)
    ensures Sound(HaltSession(s, r))
  {
  }

  /** A helper stays held when it and its caller are each left alone or halted, and never the caller alone. */
  lemma {:induction false} HaltKeepsHeld(p: Session, c: Session, p': Session, c': Session, id: Id)
    requires Held(p, c, id)
    requires p' == p || (Running(p) && exists r :: p' == HaltSession(p, r))
    requires c' == c || (Running(c) && exists r :: c' == HaltSession(c, r))
    requires p' != p && !WorkOver(p) && Running(c) ==> c' != c
    ensures Held(p', c', id)
  {
  }

  lemma {:induction false} SamePlacesAwait(m: map<Id, Session>, n: map<Id, Session>, p: Id)
    requires n.Keys == m.Keys && p in m && AwaitsOwn(m, p) && n[p].phase == m[p].phase
    requires forall x | x in m :: n[x].parent == m[x].parent
    ensures AwaitsOwn(n, p)
  {
  }

  /** Halting everything an abort gets to keeps the table valid. */
  lemma {:induction false} StoppedKeepsValid(t: Tree, a: Id, r: Reason)
    requires Valid(t) && a in t.sessions
    ensures Valid(t.(sessions := Stopped(t.sessions, a, r)))
  {
    var m, n := t.sessions, Stopped(t.sessions, a, r);
    HaltingKeepsRanks(m, n);
    forall d | d in n ensures Sound(n[d]) && n[d].serial < t.next && AwaitsOwn(n, d) {
      if Reached(m, a, d) { HaltKeepsSound(m[d], if d == a then r else PassedOn(r)); }
      assert AwaitsOwn(m, d);
      SamePlacesAwait(m, n, d);
    }
    forall d | d in n && n[d].bound ensures Held(n[n[d].parent.value], n[d], d) {
      var p := m[d].parent.value;
      assert Held(m[p], m[d], d);
      HaltKeepsHeld(m[p], m[d], n[p], n[d], d);
    }
  }

  lemma {:induction false} StoppedBelowKeepsOthers(t: Tree, a: Id, r: Reason, d: Id)
    requires Valid(t) && a in t.sessions && d in t.sessions && t.sessions[d].bound
    ensures Ranked(StoppedBelow(t.sessions, a, r))
    ensures var n := StoppedBelow(t.sessions, a, r);
            t.sessions[d].parent.value != a ==> Held(n[n[d].parent.value], n[d], d)
    ensures !WorkOver(t.sessions[a]) && t.sessions[d].parent.value == a ==> !Running(StoppedBelow(t.sessions, a, r)[d])
    ensures StoppedBelow(t.sessions, a, r)[a] == t.sessions[a]
  {
    var m, n := t.sessions, StoppedBelow(t.sessions, a, r);
    HaltingKeepsRanks(m, n);
    var p := m[d].parent.value;
    assert Held(m[p], m[d], d);
    if p == a {
      assert Running(m[d]) ==> IsChild(m, d, a) && Reached(m, d, d);
    } else if Running(m[d]) && ReachedBelow(m, a, p) {
      var c :| IsChild(m, c, a) && Reached(m, c, p);
      assert Reached(m, c, d);
    }
    if ReachedBelow(m, a, a) {
      var c :| IsChild(m, c, a) && Reached(m, c, a);
      ReachedHasLaterSerial(m, c, a);
      assert false;
    }
  }

  /** Marking one session without touching its signals, limits or place keeps the table valid. */
  lemma {:induction false} MarkKeepsValid(t: Tree, id: Id, s: Session)
    requires Valid(t) && id in t.sessions && Sound(s)
    requires s.parent == t.sessions[id].parent && s.bound == t.sessions[id].bound && s.serial == t.sessions[id].serial
    requires Running(s) == Running(t.sessions[id]) && WorkOver(s) == WorkOver(t.sessions[id])
    requires s.phase == t.sessions[id].phase && s.scope.Some? == t.sessions[id].scope.Some?
    requires s.skew == t.sessions[id].skew
    requires s.scope.Some? ==>
             && s.scope.value.deadline == t.sessions[id].scope.value.deadline
             && s.scope.value.workDeadline == t.sessions[id].scope.value.workDeadline
    requires s.policy == t.sessions[id].policy && s.loans == t.sessions[id].loans
    ensures Valid(t.(sessions := t.sessions[id := s]))
  {
    var m, n := t.sessions, t.sessions[id := s];
    MarkedKeepsRanks(m, id, s);
    forall d | d in n && n[d].bound ensures Held(n[n[d].parent.value], n[d], d) {
      assert Held(m[m[d].parent.value], m[d], d);
    }
  }

  /** `s` stands where `was` stood, with the same limits and loans, and runs only if `was` did. */
  ghost predicate Succeeds(s: Session, was: Session) {
    && s.parent == was.parent && s.bound == was.bound && s.serial == was.serial
    && (Running(s) ==> Running(was))
    && s.scope.Some? && was.scope.Some? && s.skew == was.skew
    && s.scope.value.deadline == was.scope.value.deadline && s.scope.value.workDeadline == was.scope.value.workDeadline
    && s.policy == was.policy && s.loans == was.loans
  }

  lemma {:induction false} BelowKeepsHeld(t: Tree, a: Id, r: Reason, s: Session, d: Id)
    requires Valid(t) && a in t.sessions && Succeeds(s, t.sessions[a])
    requires s.phase.Working? || s.phase == Joining(Awaited(t, a))
    requires d in t.sessions && t.sessions[d].bound
    requires s.phase.Joining? && IsChild(t.sessions, d, a) ==> d !in t.completed
    ensures var n := StoppedBelow(t.sessions, a, r)[a := s]; Held(n[t.sessions[d].parent.value], n[d], d)
  {
    var m, u := t.sessions, StoppedBelow(t.sessions, a, r);
    var p := m[d].parent.value;
    StoppedBelowKeepsOthers(t, a, r, d);
    assert Held(m[p], m[d], d);
    assert u[d] == m[d] || (Running(m[d]) && u[d] == HaltSession(m[d], PassedOn(r)));
    if d == a {
      assert Held(u[p], u[d], d);
    } else if p == a {
      assert s.phase.Joining? ==> d in Awaited(t, a);
    }
  }

  /**
   * The work signal of `a` aborts and everything below stops; `s` is what becomes of `a` itself: it either goes
   * on working or waits for every one of its helpers.
   */
  lemma {:induction false} BelowKeepsValid(t: Tree, a: Id, r: Reason, s: Session)
    requires Valid(t) && a in t.sessions && Sound(s) && Succeeds(s, t.sessions[a])
    requires s.phase.Working? || s.phase == Joining(Awaited(t, a))
    requires s.phase.Joining? ==> forall c | IsChild(t.sessions, c, a) :: c !in t.completed
    ensures Valid(t.(sessions := StoppedBelow(t.sessions, a, r)[a := s]))
  {
    var m, u := t.sessions, StoppedBelow(t.sessions, a, r);
    var n := u[a := s];
    StoppedBelowRanks(t, a, r);
    MarkedKeepsRanks(u, a, s);
    forall d | d in n ensures Sound(n[d]) && n[d].serial < t.next && AwaitsOwn(n, d) {
      assert AwaitsOwn(m, d);
      if d != a && ReachedBelow(m, a, d) { HaltKeepsSound(m[d], PassedOn(r)); }
    }
    forall d | d in n && n[d].bound ensures Held(n[n[d].parent.value], n[d], d) {
      BelowKeepsHeld(t, a, r, s, d);
    }
  }

  lemma {:induction false} StoppedBelowRanks(t: Tree, a: Id, r: Reason)
    requires Valid(t) && a in t.sessions
    ensures Ranked(StoppedBelow(t.sessions, a, r))
    ensures StoppedBelow(t.sessions, a, r)[a] == t.sessions[a]
  {
    var m, n := t.sessions, StoppedBelow(t.sessions, a, r);
    HaltingKeepsRanks(m, n);
    if ReachedBelow(m, a, a) {
      var c :| IsChild(m, c, a) && Reached(m, c, a);
      ReachedHasLaterSerial(m, c, a);
      assert false;
    }
  }

  lemma {:induction false} JoinedKeepsValid(t: Tree, id: Id)
    requires Valid(t) && id in t.sessions && t.sessions[id].phase == Joining({})
    ensures Valid(t.(sessions := t.sessions[id := t.sessions[id].(phase := Finishing)]))
  {
    var m, s := t.sessions, t.sessions[id].(phase := Finishing);
    MarkedKeepsRanks(m, id, s);
    var n := m[id := s];
    forall d | d in n && n[d].bound ensures Held(n[n[d].parent.value], n[d], d) {
      assert Held(m[m[d].parent.value], m[d], d);
    }
  }

  lemma {:induction false} RemovingKeepsValid(t: Tree, id: Id, completed: set<Id>)
    requires Valid(t) && id in t.sessions && t.sessions[id].phase.Finishing?
    requires completed == t.completed || completed == t.completed + {id}
    ensures Valid(t.(sessions := WithoutSession(t.sessions, id), completed := completed))
  {
    var m, n := t.sessions, WithoutSession(t.sessions, id);
    forall d | d in n && n[d].bound
      ensures n[d].parent.Some? && n[d].parent.value in n && n[n[d].parent.value].serial < n[d].serial
      ensures Held(n[n[d].parent.value], n[d], d)
    {
      assert Held(m[m[d].parent.value], m[d], d);
    }
  }

  lemma {:induction false} StepKeepsValid(t: Tree, s: Step)
    requires Valid(t) && Enabled(s) && JoinsAll(t, s)
    ensures Valid(Next(t, s))
  {
    var m := t.sessions;
    match s
    case Admitting(o, c) => AdmitKeepsValid(t, o, c);
    case Cancelling(id) =>
      if id in m && !m[id].interrupted {
        StoppedKeepsValid(t, id, Cancelled);
        var t' := t.(sessions := Stopped(m, id, Cancelled));
        MarkKeepsValid(t', id, t'.sessions[id].(interrupted := true));
      }
    case TimingOut(id) =>
      if WorkingNow(m, id) {
        var t' := t.(sessions := m[id := MarkTimedOut(m[id])]);
        MarkKeepsValid(t, id, MarkTimedOut(m[id]));
        StoppedKeepsValid(t', id, TimedOut);
      }
    case EndingWork(id) =>
      if WorkingNow(m, id) && Running(m[id]) { BelowKeepsValid(t, id, WorkEnded, MarkWorkEnded(m[id])); }
    case SignalAborting(id, reason) => if WorkingNow(m, id) { StoppedKeepsValid(t, id, PassedOn(reason)); }
    case Closing(id) =>
      if WorkingNow(m, id) { BelowKeepsValid(t, id, Finished, MarkClosed(m[id], Awaited(t, id))); }
    case Joined(id) => if id in m && m[id].phase == Joining({}) { JoinedKeepsValid(t, id); }
    case Removing(id, remembered) =>
      if id in m && m[id].phase.Finishing? {
        RemovingKeepsValid(t, id, if remembered then t.completed + {id} else t.completed);
      }
    case Forgetting(id) =>
  }

  /** A step keeps the table valid exactly when it is not a close that skips a helper: no other step can break it. */
  lemma {:induction false} StepKeepsValidExactlyWhen(t: Tree, s: Step)
    requires Valid(t) && Enabled(s)
    ensures Valid(Next(t, s)) <==> JoinsAll(t, s)
  {
    if JoinsAll(t, s) {
      StepKeepsValid(t, s);
    } else {
      var c :| IsChild(t.sessions, c, s.id) && c in t.completed;
      SkippedHelperIsNotHeld(t, s.id, c);
    }
  }

  lemma {:induction false} SkippedHelperIsNotHeld(t: Tree, p: Id, c: Id)
    requires Valid(t) && WorkingNow(t.sessions, p) && IsChild(t.sessions, c, p) && c in t.completed
    ensures !Valid(Next(t, Closing(p)))
  {
    var n := Next(t, Closing(p)).sessions;
    assert c != p && n[c].bound && n[c].parent == Some(p) && n[p].phase == Joining(Awaited(t, p));
    assert !Held(n[p], n[c], c);
  }

  /** The states before and after each step of a run in which every close awaits all its helpers. */
  ghost predicate IsRun(states: seq<Tree>, steps: seq<Step>) {
    && |states| == |steps| + 1
    && forall i | 0 <= i < |steps| ::
        && Ranked(states[i].sessions) && Enabled(steps[i]) && JoinsAll(states[i], steps[i])
        && states[i + 1] == Next(states[i], steps[i])
  }

  /** Every state of every such run is valid. */
  lemma {:induction false} RunStaysValid(states: seq<Tree>, steps: seq<Step>, k: nat)
    requires IsRun(states, steps) && Valid(states[0]) && k <= |steps|
    ensures Valid(states[k])
    decreases k
  {
    if k > 0 {
      RunStaysValid(states, steps, k - 1);
      StepKeepsValid(states[k - 1], steps[k - 1]);
    }
  }
}
