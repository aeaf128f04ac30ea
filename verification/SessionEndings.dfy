/** How sessions end: which of them can leave, when all of them can, and when a helper loses its caller. */
module SessionEndings {
  import opened Prelude
  import opened ExecutionScopes
  import opened SessionTree

  // ---- Runs that only end sessions ----

  predicate IsEnding(s: Step) { s.Closing? || s.Joined? || s.Removing? }

  ghost predicate AllEnding(steps: seq<Step>) { forall i | 0 <= i < |steps| :: IsEnding(steps[i]) }

  /** Run the steps from `t`, as far as they can be taken. */
  ghost function Execute(t: Tree, steps: seq<Step>): Tree
    decreases |steps|
  {
    if steps == [] || !Ranked(t.sessions) || !Enabled(steps[0]) then t else Execute(Next(t, steps[0]), steps[1..])
  }

  /** Some helper is active without the caller it was admitted under. */
  ghost predicate Broken(t: Tree) {
    exists d | d in t.sessions ::
      t.sessions[d].bound && t.sessions[d].parent.Some? && t.sessions[d].parent.value !in t.sessions
  }

  ghost predicate Breaks(t: Tree, steps: seq<Step>) { AllEnding(steps) && Broken(Execute(t, steps)) }

  ghost predicate Empties(t: Tree, steps: seq<Step>) { AllEnding(steps) && Execute(t, steps).sessions == map[] }

  ghost predicate CanBreak(t: Tree) { exists steps: seq<Step> :: Breaks(t, steps) }

  ghost predicate CanEmpty(t: Tree) { exists steps: seq<Step> :: Empties(t, steps) }

  lemma {:induction false} OneStepEarlier(t: Tree, x: Step)
    requires Ranked(t.sessions) && IsEnding(x)
    ensures CanBreak(Next(t, x)) ==> CanBreak(t)
    ensures CanEmpty(Next(t, x)) ==> CanEmpty(t)
  {
    if CanBreak(Next(t, x)) {
      var steps :| Breaks(Next(t, x), steps);
      assert ([x] + steps)[1..] == steps;
      assert Breaks(t, [x] + steps);
    }
    if CanEmpty(Next(t, x)) {
      var steps :| Empties(Next(t, x), steps);
      assert ([x] + steps)[1..] == steps;
      assert Empties(t, [x] + steps);
    }
  }

  // ---- Who has to wait for whom ----

  /** `x` cannot leave before `y` has left. */
  ghost predicate Awaits(t: Tree, x: Id, y: Id) {
    && x in t.sessions && y in t.sessions
    && match t.sessions[x].phase
       case Working => t.sessions[y].parent == Some(x) && y !in t.completed
       case Joining(waits) => y in waits
       case Finishing => false
  }

  /** Whoever a ranked session awaits is ranked too, and earlier. */
  ghost predicate LocalOrder(t: Tree, rank: map<Id, nat>) {
    forall x, y | x in rank && Awaits(t, x, y) :: y in rank && rank[y] < rank[x]
  }

  /** Nobody that `p` has to wait for, directly or through others, awaits itself. */
  ghost predicate CanLeave(t: Tree, p: Id) { exists rank: map<Id, nat> :: p in rank && LocalOrder(t, rank) }

  ghost predicate Orders(t: Tree, rank: map<Id, nat>) { t.sessions.Keys <= rank.Keys && LocalOrder(t, rank) }

  /** Nobody awaits itself, not even through others. */
  ghost predicate Acyclic(t: Tree) { exists rank: map<Id, nat> :: Orders(t, rank) }

  /** Some working session has a helper under a remembered id: its close will skip that helper. */
  ghost predicate WillSkip(t: Tree, p: Id, d: Id) {
    WorkingNow(t.sessions, p) && IsChild(t.sessions, d, p) && d in t.completed
  }

  /** A table that is sound session by session, whether or not callers hold their helpers. */
  ghost predicate Tidy(t: Tree) {
    Ranked(t.sessions) && forall d | d in t.sessions :: Sound(t.sessions[d]) && AwaitsOwn(t.sessions, d)
  }

  // ---- One session leaves ----

  /** `u` is `t` after `x` has left: all others are where they were, and nobody awaits `x` any more. */
  ghost predicate HasLeft(t: Tree, u: Tree, x: Id) {
    && u.sessions.Keys == t.sessions.Keys - {x} && u.completed == t.completed && u.next == t.next
    && forall d | d in u.sessions ::
        && u.sessions[d].parent == t.sessions[d].parent && u.sessions[d].bound == t.sessions[d].bound
        && u.sessions[d].serial == t.sessions[d].serial && u.sessions[d].phase == Settle(t.sessions[d], x).phase
        && Sound(u.sessions[d])
  }

  /** A working session that has nobody to wait for closes into an empty join. */
  lemma {:induction false} CloseWithoutWaiting(t: Tree, p: Id)
    requires Tidy(t) && WorkingNow(t.sessions, p) && Awaited(t, p) == {}
    ensures var after := Next(t, Closing(p));
            && Ranked(after.sessions) && after.sessions.Keys == t.sessions.Keys
            && after.sessions[p].phase == Joining({})
            && after.completed == t.completed && after.next == t.next
            && forall d | d in t.sessions && d != p ::
                 && after.sessions[d].bound == t.sessions[d].bound && after.sessions[d].parent == t.sessions[d].parent
                 && after.sessions[d].serial == t.sessions[d].serial && after.sessions[d].phase == t.sessions[d].phase
                 && Sound(after.sessions[d])
  {
    var m, u := t.sessions, StoppedBelow(t.sessions, p, Finished);
    HaltingKeepsRanks(m, u);
    MarkedInPlaceRanks(m, u, p, MarkClosed(m[p], {}));
    forall d | d in m && d != p ensures Sound(u[d]) {
      if ReachedBelow(m, p, d) { HaltKeepsSound(m[d], PassedOn(Finished)); }
    }
  }

  lemma {:induction false} MarkedInPlaceRanks(m: map<Id, Session>, u: map<Id, Session>, p: Id, s: Session)
    requires Ranked(m) && Ranked(u) && u.Keys == m.Keys && p in m
    requires forall x | x in m :: u[x].bound == m[x].bound && u[x].parent == m[x].parent && u[x].serial == m[x].serial
    requires s.bound == m[p].bound && s.parent == m[p].parent && s.serial == m[p].serial
    ensures Ranked(u[p := s])
  {
    MarkedKeepsRanks(u, p, s);
  }

  /** With nothing to wait for, the session joins and leaves; every other session keeps its place. */
  lemma {:induction false} JoinAndLeave(t: Tree, p: Id, remembered: bool)
    requires Ranked(t.sessions) && p in t.sessions && t.sessions[p].phase == Joining({})
    ensures var joined := Next(t, Joined(p));
            && Ranked(joined.sessions)
            && var gone := Next(joined, Removing(p, remembered));
            && gone.sessions.Keys == t.sessions.Keys - {p} && gone.next == t.next
            && gone.completed == (if remembered then t.completed + {p} else t.completed)
            && forall d | d in gone.sessions :: gone.sessions[d] == Settle(t.sessions[d], p)
  {
    MarkedKeepsRanks(t.sessions, p, t.sessions[p].(phase := Finishing));
  }

  /** The table after `x`, which awaits nobody, has closed, joined and left. */
  ghost function Leave(t: Tree, x: Id): Tree
    requires Tidy(t) && x in t.sessions && forall y :: !Awaits(t, x, y)
  {
    NobodyAwaited(t, x);
    if t.sessions[x].phase.Working? then
      CloseWithoutWaiting(t, x);
      JoinAndLeave(Next(t, Closing(x)), x, false);
      Next(Next(Next(t, Closing(x)), Joined(x)), Removing(x, false))
    else if t.sessions[x].phase.Joining? then
      JoinAndLeave(t, x, false);
      Next(Next(t, Joined(x)), Removing(x, false))
    else Next(t, Removing(x, false))
  }

  lemma {:induction false} NobodyAwaited(t: Tree, x: Id)
    requires Tidy(t) && x in t.sessions && forall y :: !Awaits(t, x, y)
    ensures t.sessions[x].phase.Working? ==> WorkingNow(t.sessions, x) && Awaited(t, x) == {}
    ensures t.sessions[x].phase.Joining? ==> t.sessions[x].phase == Joining({})
  {
    assert Sound(t.sessions[x]) && AwaitsOwn(t.sessions, x);
    if t.sessions[x].phase.Working? {
      forall y | y in Awaited(t, x) ensures false { assert Awaits(t, x, y); }
    } else if t.sessions[x].phase.Joining? {
      forall y | y in t.sessions[x].phase.waits ensures false { assert Awaits(t, x, y); }
    }
  }

  lemma {:induction false} WorkingLeaves(t: Tree, x: Id)
    requires Tidy(t) && WorkingNow(t.sessions, x) && Awaited(t, x) == {}
    ensures var closed := Next(t, Closing(x));
            && Ranked(closed.sessions) && Ranked(Next(closed, Joined(x)).sessions)
            && HasLeft(t, Next(Next(closed, Joined(x)), Removing(x, false)), x)
  {
    CloseWithoutWaiting(t, x);
    JoinAndLeave(Next(t, Closing(x)), x, false);
  }

  lemma {:induction false} LeaveLeaves(t: Tree, x: Id)
    requires Tidy(t) && x in t.sessions && forall y :: !Awaits(t, x, y)
    ensures HasLeft(t, Leave(t, x), x)
  {
    NobodyAwaited(t, x);
    if t.sessions[x].phase.Working? {
      WorkingLeaves(t, x);
    } else if t.sessions[x].phase.Joining? {
      JoinAndLeave(t, x, false);
    }
  }

  /** What can happen after a session has left can happen before. */
  lemma {:induction false} LeaveEarlier(t: Tree, x: Id)
    requires Tidy(t) && x in t.sessions && forall y :: !Awaits(t, x, y)
    ensures CanBreak(Leave(t, x)) ==> CanBreak(t)
    ensures CanEmpty(Leave(t, x)) ==> CanEmpty(t)
  {
    NobodyAwaited(t, x);
    if t.sessions[x].phase.Working? {
      CloseWithoutWaiting(t, x);
      var closed := Next(t, Closing(x));
      JoinAndLeave(closed, x, false);
      OneStepEarlier(Next(closed, Joined(x)), Removing(x, false));
      OneStepEarlier(closed, Joined(x));
      OneStepEarlier(t, Closing(x));
    } else if t.sessions[x].phase.Joining? {
      JoinAndLeave(t, x, false);
      OneStepEarlier(Next(t, Joined(x)), Removing(x, false));
      OneStepEarlier(t, Joined(x));
    } else {
      OneStepEarlier(t, Removing(x, false));
    }
  }

  /** Leaving adds no one to wait for, and leaves a tidy table unless a helper lost its caller. */
  lemma {:induction false} AfterLeaving(t: Tree, u: Tree, x: Id, rank: map<Id, nat>)
    requires Tidy(t) && HasLeft(t, u, x) && LocalOrder(t, rank)
    ensures LocalOrder(u, rank)
    ensures !Broken(u) ==> Tidy(u)
  {
    forall a, b | a in rank && Awaits(u, a, b) ensures b in rank && rank[b] < rank[a] { assert Awaits(t, a, b); }
    if !Broken(u) {
      forall d | d in u.sessions ensures AwaitsOwn(u.sessions, d) { assert AwaitsOwn(t.sessions, d); }
    }
  }

  /** Some member of a non-empty set comes first in the order. */
  lemma {:induction false} FirstOf(some: set<Id>, rank: map<Id, nat>) returns (x: Id)
    requires some != {} && some <= rank.Keys
    ensures x in some && forall y | y in some :: rank[x] <= rank[y]
    decreases some
  {
    var y :| y in some;
    if some == {y} {
      x := y;
    } else {
      assert some - {y} != {};
      var z := FirstOf(some - {y}, rank);
      x := if rank[y] < rank[z] then y else z;
    }
  }

  // ---- When all sessions can leave ----

  /** A valid table with no helper to skip stays one while a session that awaits nobody leaves. */
  lemma {:induction false} LeavingKeepsValid(t: Tree, x: Id)
    requires Valid(t) && (forall p, d :: !WillSkip(t, p, d))
    requires x in t.sessions && forall y :: !Awaits(t, x, y)
    ensures Valid(Leave(t, x)) && forall p, d :: !WillSkip(Leave(t, x), p, d)
  {
    NobodyAwaited(t, x);
    LeaveLeaves(t, x);
    forall c | IsChild(t.sessions, c, x) ensures c !in t.completed { assert !WillSkip(t, x, c); }
    if t.sessions[x].phase.Working? {
      StepKeepsValid(t, Closing(x));
      StepKeepsValid(Next(t, Closing(x)), Joined(x));
      StepKeepsValid(Next(Next(t, Closing(x)), Joined(x)), Removing(x, false));
    } else if t.sessions[x].phase.Joining? {
      StepKeepsValid(t, Joined(x));
      StepKeepsValid(Next(t, Joined(x)), Removing(x, false));
    } else {
      StepKeepsValid(t, Removing(x, false));
    }
    var u := Leave(t, x);
    forall p, d ensures !WillSkip(u, p, d) {
      if WillSkip(u, p, d) {
        assert Sound(t.sessions[p]) && t.sessions[p].phase.Working?;
        assert WillSkip(t, p, d);
      }
    }
  }

  lemma {:induction false} AcyclicEmpties(t: Tree, rank: map<Id, nat>)
    requires Valid(t) && (forall p, d :: !WillSkip(t, p, d)) && Orders(t, rank)
    ensures CanEmpty(t)
    decreases t.sessions.Keys
  {
    if t.sessions.Keys == {} {
      assert t.sessions == map[] && Empties(t, []);
    } else {
      var x := FirstOf(t.sessions.Keys, rank);
      assert Tidy(t);
      LeaveLeaves(t, x);
      LeaveEarlier(t, x);
      LeavingKeepsValid(t, x);
      AfterLeaving(t, Leave(t, x), x, rank);
      AcyclicEmpties(Leave(t, x), rank);
    }
  }

  ghost predicate AwaitsOneOf(t: Tree, some: set<Id>, x: Id) { exists y | y in some :: Awaits(t, x, y) }

  /** Sessions each of which awaits one of them. */
  ghost predicate Knot(t: Tree, some: set<Id>) {
    && some != {} && some <= t.sessions.Keys
    && forall x {:trigger AwaitsOneOf(t, some, x)} | x in some :: AwaitsOneOf(t, some, x)
  }

  lemma {:induction false} KnotHasNoOrder(t: Tree, some: set<Id>, rank: map<Id, nat>)
    requires Knot(t, some)
    ensures !Orders(t, rank)
  {
    if t.sessions.Keys <= rank.Keys {
      var x := FirstOf(some, rank);
      assert AwaitsOneOf(t, some, x);
      var y :| y in some && Awaits(t, x, y);
    }
  }

  ghost predicate RanksBelow(rank: map<Id, nat>, n: nat) { forall x | x in rank :: rank[x] < n }

  ghost predicate HasKnot(t: Tree) { exists some: set<Id> :: Knot(t, some) }

  /** A session that awaits only ranked ones can be ranked after them. */
  lemma {:induction false} RankedNext(t: Tree, rank: map<Id, nat>, n: nat, x: Id)
    requires LocalOrder(t, rank) && RanksBelow(rank, n) && x !in rank
    requires forall y | Awaits(t, x, y) :: y in rank
    ensures LocalOrder(t, rank[x := n]) && RanksBelow(rank[x := n], n + 1)
  {
  }

  /** Rank the sessions one by one, each after all it awaits, until all are ranked or the rest is a knot. */
  lemma {:induction false} RankOrKnot(t: Tree, rest: set<Id>, rank: map<Id, nat>, n: nat)
    requires rest + rank.Keys == t.sessions.Keys && rest !! rank.Keys
    requires LocalOrder(t, rank) && RanksBelow(rank, n)
    ensures Acyclic(t) || HasKnot(t)
    decreases rest
  {
    if rest == {} {
      assert Orders(t, rank);
    } else if Knot(t, rest) {
      assert HasKnot(t);
    } else {
      var x :| x in rest && !AwaitsOneOf(t, rest, x);
      forall y | Awaits(t, x, y) ensures y in rank { assert y in rest + rank.Keys; }
      RankedNext(t, rank, n, x);
      assert (rest - {x}) + rank[x := n].Keys == t.sessions.Keys;
      RankOrKnot(t, rest - {x}, rank[x := n], n + 1);
    }
  }

  /** A step of any kind leaves a session waiting while the one it awaits is waiting as well. */
  lemma {:induction false} StepKeepsAwaiting(t: Tree, s: Step, x: Id, y: Id, z: Id)
    requires Ranked(t.sessions) && Enabled(s) && Awaits(t, x, y) && Awaits(t, y, z)
    ensures Awaits(Next(t, s), x, y)
  {
  }

  lemma {:induction false} StepKeepsKnot(t: Tree, s: Step, some: set<Id>)
    requires Ranked(t.sessions) && Enabled(s) && Knot(t, some)
    ensures Knot(Next(t, s), some)
  {
    forall x | x in some ensures x in Next(t, s).sessions && AwaitsOneOf(Next(t, s), some, x) {
      assert AwaitsOneOf(t, some, x);
      var y :| y in some && Awaits(t, x, y);
      assert AwaitsOneOf(t, some, y);
      var z :| z in some && Awaits(t, y, z);
      StepKeepsAwaiting(t, s, x, y, z);
    }
  }

  /** Sessions that await each other in a knot stay in the table over every run, of whatever steps. */
  lemma {:induction false} KnotNeverLeaves(t: Tree, steps: seq<Step>, some: set<Id>)
    requires Knot(t, some)
    ensures Knot(Execute(t, steps), some) && some <= Execute(t, steps).sessions.Keys
    decreases |steps|
  {
    if steps != [] && Ranked(t.sessions) && Enabled(steps[0]) {
      StepKeepsKnot(t, steps[0], some);
      KnotNeverLeaves(Next(t, steps[0]), steps[1..], some);
    }
  }

  /** Some run, of whatever steps, empties the table. */
  ghost predicate CanEmptySomehow(t: Tree) { exists steps: seq<Step> :: EmptyAfter(t, steps) }

  ghost predicate EmptyAfter(t: Tree, steps: seq<Step>) { Execute(t, steps).sessions == map[] }

  /**
   * No caller waits for ever: a run empties the table, of whatever steps or of closes, joins and removals alone,
   * exactly when no session awaits itself, directly or through others. Otherwise some sessions wait in a knot for
   * ever.
   */
  lemma {:induction false} AllCanLeaveExactlyWhen(t: Tree)
    requires Valid(t) && forall p, d :: !WillSkip(t, p, d)
    ensures CanEmpty(t) <==> Acyclic(t)
    ensures CanEmptySomehow(t) <==> Acyclic(t)
    ensures Acyclic(t) <==> !HasKnot(t)
  {
    RankOrKnot(t, t.sessions.Keys, map[], 0);
    if some: set<Id> :| Knot(t, some) {
      forall steps: seq<Step> ensures !EmptyAfter(t, steps) { KnotNeverLeaves(t, steps, some); }
      forall steps: seq<Step> ensures !Empties(t, steps) { assert !EmptyAfter(t, steps); }
      forall rank: map<Id, nat> ensures !Orders(t, rank) { KnotHasNoOrder(t, some, rank); }
    } else {
      var rank: map<Id, nat> :| Orders(t, rank);
      AcyclicEmpties(t, rank);
      var steps :| Empties(t, steps);
      assert EmptyAfter(t, steps);
    }
  }

  /** Every active session whose parent is active was admitted under it. */
  ghost predicate LinksAreBound(t: Tree) {
    forall c | c in t.sessions && t.sessions[c].parent.Some? && t.sessions[c].parent.value in t.sessions ::
      t.sessions[c].bound
  }

  /**
   * So it can always be emptied unless a session outlives the absence of the parent it names and then meets it again.
   */
  lemma {:induction false} BoundLinksAreAcyclic(t: Tree)
    requires Valid(t) && LinksAreBound(t)
    ensures Acyclic(t)
  {
    var rank: map<Id, nat> := map x | x in t.sessions :: t.next - t.sessions[x].serial;
    forall x, y | x in rank && Awaits(t, x, y) ensures y in rank && rank[y] < rank[x] {
      assert AwaitsOwn(t.sessions, x);
      assert t.sessions[y].parent == Some(x) && t.sessions[y].bound;
    }
    assert Orders(t, rank);
  }

  /**
   * A session that names itself as its parent awaits itself: it is admitted, and then never leaves, whatever happens.
   */
  lemma {:induction false} OwnParentNeverLeaves(o: Options, c: Clock, steps: seq<Step>)
    requires o.parent == Some(o.id) && !o.signalAborted && 0.0 < o.timeout <= MAX_TIMER
    requires o.deadline.None? && Forward(c)
    ensures Valid(Next(START, Admitting(o, c)))
    ensures o.id in Execute(Next(START, Admitting(o, c)), steps).sessions
  {
    var t := Next(START, Admitting(o, c));
    assert Valid(START);
    StepKeepsValid(START, Admitting(o, c));
    assert Awaits(t, o.id, o.id) && AwaitsOneOf(t, {o.id}, o.id);
    assert Knot(t, {o.id});
    KnotNeverLeaves(t, steps, {o.id});
  }

  // ---- When a helper loses its caller ----

  /** The sessions that may have to leave before `p`, other than the helper it will skip. */
  ghost function Ahead(t: Tree, p: Id, d: Id, rank: map<Id, nat>): set<Id>
    requires p in rank
  {
    set x | x in t.sessions && x in rank && rank[x] < rank[p] && x != d
  }

  /** Nobody awaits a helper that its working caller will skip, so whoever is awaited is among those ahead. */
  lemma {:induction false} AwaitedIsAhead(t: Tree, p: Id, d: Id, rank: map<Id, nat>, x: Id, y: Id)
    requires Tidy(t) && WillSkip(t, p, d) && LocalOrder(t, rank) && p in rank
    requires x in t.sessions && x in rank && rank[x] <= rank[p]
    ensures Awaits(t, x, y) ==> y in Ahead(t, p, d, rank) && rank[y] < rank[x]
  {
    assert AwaitsOwn(t.sessions, x);
  }

  lemma {:induction false} SkippedHelperBreaks(t: Tree, p: Id, d: Id, rank: map<Id, nat>)
    requires Tidy(t) && WillSkip(t, p, d) && LocalOrder(t, rank) && p in rank
    ensures CanBreak(t)
    decreases t.sessions.Keys
  {
    assert p != d && t.sessions[p].serial < t.sessions[d].serial;
    var x := p;
    if Ahead(t, p, d, rank) != {} { x := FirstOf(Ahead(t, p, d, rank), rank); }
    forall y ensures !Awaits(t, x, y) { AwaitedIsAhead(t, p, d, rank, x, y); }
    LeaveLeaves(t, x);
    LeaveEarlier(t, x);
    var u := Leave(t, x);
    assert d in u.sessions && u.sessions[d].bound && u.sessions[d].parent == Some(p);
    if Broken(u) {
      assert Execute(u, []) == u && Breaks(u, []);
    } else {
      AfterLeaving(t, u, x, rank);
      assert x != p && u.sessions[p].phase == t.sessions[p].phase && Sound(u.sessions[p]);
      SkippedHelperBreaks(u, p, d, rank);
    }
  }

  /** An ending step moves nobody, adds nobody, and removes no obstacle but the session that leaves. */
  lemma {:induction false} EndingKeepsAwaiting(t: Tree, s: Step, x: Id, y: Id)
    requires Ranked(t.sessions) && IsEnding(s) && Awaits(t, x, y)
    ensures x in Next(t, s).sessions
    ensures y in Next(t, s).sessions ==> Awaits(Next(t, s), x, y)
  {
  }

  lemma {:induction false} EndingKeepsPlace(t: Tree, s: Step, d: Id)
    requires Ranked(t.sessions) && IsEnding(s) && d in Next(t, s).sessions
    ensures d in t.sessions
    ensures Next(t, s).sessions[d].bound == t.sessions[d].bound && Next(t, s).sessions[d].parent == t.sessions[d].parent
  {
  }

  lemma {:induction false} EndingsKeepPlaces(t: Tree, steps: seq<Step>, d: Id)
    requires AllEnding(steps) && d in Execute(t, steps).sessions
    ensures d in t.sessions
    ensures Execute(t, steps).sessions[d].bound == t.sessions[d].bound
    ensures Execute(t, steps).sessions[d].parent == t.sessions[d].parent
    decreases |steps|
  {
    if steps != [] && Ranked(t.sessions) {
      assert IsEnding(steps[0]) && AllEnding(steps[1..]);
      EndingsKeepPlaces(Next(t, steps[0]), steps[1..], d);
      EndingKeepsPlace(t, steps[0], d);
    }
  }

  /** While the awaited session is active, so is the one that awaits it. */
  lemma {:induction false} AwaitedHoldsCaller(t: Tree, steps: seq<Step>, x: Id, y: Id)
    requires AllEnding(steps) && Awaits(t, x, y) && y in Execute(t, steps).sessions
    ensures x in Execute(t, steps).sessions
    decreases |steps|
  {
    if steps != [] && Ranked(t.sessions) {
      assert IsEnding(steps[0]) && AllEnding(steps[1..]);
      EndingsKeepPlaces(Next(t, steps[0]), steps[1..], y);
      EndingKeepsAwaiting(t, steps[0], x, y);
      AwaitedHoldsCaller(Next(t, steps[0]), steps[1..], x, y);
    }
  }

  /** The sessions that have left during a run of endings. */
  ghost function Gone(t: Tree, steps: seq<Step>): set<Id> { t.sessions.Keys - Execute(t, steps).sessions.Keys }

  /** The order in which sessions have left is an order in which they could. */
  lemma {:induction false} LeftInOrder(t: Tree, steps: seq<Step>) returns (rank: map<Id, nat>)
    requires AllEnding(steps)
    ensures rank.Keys == Gone(t, steps) && LocalOrder(t, rank)
    decreases |steps|
  {
    if steps == [] || !Ranked(t.sessions) {
      rank := map[];
    } else {
      var next, end := Next(t, steps[0]), Execute(t, steps);
      assert IsEnding(steps[0]) && AllEnding(steps[1..]);
      var later := LeftInOrder(next, steps[1..]);
      rank := map x | x in Gone(t, steps) :: if x in next.sessions then later[x] + 1 else 0;
      forall x, y | x in rank && Awaits(t, x, y) ensures y in rank && rank[y] < rank[x] {
        EndingKeepsAwaiting(t, steps[0], x, y);
        if y in end.sessions { AwaitedHoldsCaller(t, steps, x, y); }
      }
    }
  }

  /**
   * Exactly when a helper can lose its caller while sessions end: some working session that can leave has a helper
   * whose id still has a remembered result, whatever other helpers it has and whatever other sessions wait for.
   */
  lemma {:induction false} HelperCanLoseCallerExactlyWhen(t: Tree)
    requires Valid(t)
    ensures CanBreak(t) <==> exists p, d :: WillSkip(t, p, d) && CanLeave(t, p)
  {
    if p, d :| WillSkip(t, p, d) && CanLeave(t, p) {
      var rank: map<Id, nat> :| p in rank && LocalOrder(t, rank);
      SkippedHelperBreaks(t, p, d, rank);
    }
    if CanBreak(t) {
      var steps :| Breaks(t, steps);
      LostCallerCouldLeave(t, steps);
    }
  }

  lemma {:induction false} LostCallerCouldLeave(t: Tree, steps: seq<Step>)
    requires Valid(t) && Breaks(t, steps)
    ensures exists p, d :: WillSkip(t, p, d) && CanLeave(t, p)
  {
    var end := Execute(t, steps).sessions;
    var d :| d in end && end[d].bound && end[d].parent.Some? && end[d].parent.value !in end;
    var p := end[d].parent.value;
    EndingsKeepPlaces(t, steps, d);
    assert Held(t.sessions[p], t.sessions[d], d) && Sound(t.sessions[p]);
    var rank := LeftInOrder(t, steps);
    assert p in Gone(t, steps) && CanLeave(t, p);
    assert !Awaits(t, p, d) by {
      if Awaits(t, p, d) { AwaitedHoldsCaller(t, steps, p, d); }
    }
    assert WillSkip(t, p, d);
  }

  // ---- A concrete run ----

  const MIDNIGHT := Clock(0.0, 0.0, 0.0)
  const CALLER := Options("c", None, None, Loans(None, None, None, None), false, 1000.0, None, false)
  const HELPER := CALLER.(id := "h", parent := Some("c"))

  /** Some run, of whatever steps, leaves a helper without its caller. */
  ghost predicate CanBreakSomehow(t: Tree) { exists steps: seq<Step> :: Broken(Execute(t, steps)) }

  lemma {:induction false} SomehowEarlier(t: Tree, x: Step)
    requires Ranked(t.sessions) && Enabled(x) && CanBreakSomehow(Next(t, x))
    ensures CanBreakSomehow(t)
  {
    var steps :| Broken(Execute(Next(t, x), steps));
    assert ([x] + steps)[1..] == steps;
    assert Broken(Execute(t, [x] + steps));
  }

  ghost predicate CallerAlone(t: Tree) {
    && Valid(t) && t.sessions.Keys == {"c"} && WorkingNow(t.sessions, "c") && !WorkOver(t.sessions["c"])
    && !t.sessions["c"].interrupted && t.sessions["c"].parent == None && !t.sessions["c"].bound
    && t.sessions["c"].policy == Full && t.sessions["c"].scope.value.workDeadline == 1000.0
  }

  ghost predicate CallerAndHelper(t: Tree) {
    && Valid(t) && t.sessions.Keys == {"c", "h"} && IsChild(t.sessions, "h", "c") && WorkingNow(t.sessions, "h")
    && CallerAlone(t.(sessions := map["c" := t.sessions["c"]]))
  }

  lemma {:induction false} HelperJoinsCaller(t: Tree)
    requires CallerAlone(t)
    ensures CallerAndHelper(Next(t, Admitting(HELPER, MIDNIGHT)))
    ensures Next(t, Admitting(HELPER, MIDNIGHT)).completed == t.completed
  {
    var after := Next(t, Admitting(HELPER, MIDNIGHT));
    StepKeepsValid(t, Admitting(HELPER, MIDNIGHT));
    assert Admit(t, HELPER, MIDNIGHT).Ok?;
    assert map["c" := after.sessions["c"]] == t.sessions;
    assert Valid(t.(next := t.next + 1));
  }

  lemma {:induction false} HelperCloses(t: Tree)
    requires CallerAndHelper(t)
    ensures var closed := Next(t, Closing("h"));
            && Valid(closed) && closed.sessions.Keys == {"c", "h"} && closed.sessions["h"].phase == Joining({})
            && closed.sessions["c"] == t.sessions["c"] && closed.completed == t.completed
  {
    assert Tidy(t) && Awaited(t, "h") == {};
    CloseWithoutWaiting(t, "h");
    StepKeepsValid(t, Closing("h"));
  }

  lemma {:induction false} HelperLeavesCaller(closed: Tree, t: Tree)
    requires CallerAndHelper(t) && Valid(closed) && closed.sessions.Keys == {"c", "h"}
    requires closed.sessions["h"].phase == Joining({}) && closed.sessions["c"] == t.sessions["c"]
    ensures var gone := Next(Next(closed, Joined("h")), Removing("h", true));
            CallerAlone(gone) && gone.completed == closed.completed + {"h"}
    ensures Valid(Next(closed, Joined("h")))
  {
    JoinAndLeave(closed, "h", true);
    StepKeepsValid(closed, Joined("h"));
    StepKeepsValid(Next(closed, Joined("h")), Removing("h", true));
  }

  lemma {:induction false} CallerArrives()
    ensures Valid(START) && CallerAlone(Next(START, Admitting(CALLER, MIDNIGHT)))
  {
    assert Admit(START, CALLER, MIDNIGHT).Ok?;
    StepKeepsValid(START, Admitting(CALLER, MIDNIGHT));
  }

  /** With caller and helper at work, the helper can finish, come back and lose its caller. */
  lemma {:induction false} FirstHelperBreaks(t: Tree)
    requires CallerAndHelper(t)
    ensures CanBreakSomehow(t)
  {
    HelperCloses(t);
    var closed := Next(t, Closing("h"));
    HelperLeavesCaller(closed, t);
    var joined := Next(closed, Joined("h"));
    SecondHelperBreaks(Next(joined, Removing("h", true)));
    SomehowEarlier(joined, Removing("h", true));
    SomehowEarlier(closed, Joined("h"));
    SomehowEarlier(t, Closing("h"));
  }

  lemma {:induction false} SecondHelperBreaks(t: Tree)
    requires CallerAlone(t) && "h" in t.completed
    ensures CanBreakSomehow(t)
  {
    HelperJoinsCaller(t);
    var s := Next(t, Admitting(HELPER, MIDNIGHT));
    BoundLinksAreAcyclic(s);
    var rank: map<Id, nat> :| Orders(s, rank);
    assert WillSkip(s, "c", "h") && CanLeave(s, "c");
    HelperCanLoseCallerExactlyWhen(s);
    var steps :| Breaks(s, steps);
    assert CanBreakSomehow(s);
    SomehowEarlier(t, Admitting(HELPER, MIDNIGHT));
  }

  /** From the empty table: a helper finishes, is admitted again under the same id, and loses its caller. */
  lemma {:induction false} ReusedIdBreaksTheJoin()
    ensures CanBreakSomehow(START)
  {
    CallerArrives();
    var alone := Next(START, Admitting(CALLER, MIDNIGHT));
    HelperJoinsCaller(alone);
    FirstHelperBreaks(Next(alone, Admitting(HELPER, MIDNIGHT)));
    SomehowEarlier(alone, Admitting(HELPER, MIDNIGHT));
    SomehowEarlier(START, Admitting(CALLER, MIDNIGHT));
  }
}
