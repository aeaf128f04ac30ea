/** The delivery receipt of one stored event: how reported outcomes and expiry sweeps move it. */
module Delivery {
  import opened Prelude

  datatype Status = Pending | Accepted | Unhandled

  /** A delivery route; `Unrouted` is the absent value, in a report as in the column. */
  datatype Route = Unrouted | Direct | Noop

  /** What a delivery attempt reports: a required route failed, or somebody accepted. */
  datatype Outcome =
    | Failed(why: string)
    | Accepts(actor: string, via: Route, remark: Option<string>, appAdmission: bool)

  /** The delivery columns of an event row. `appPending` is None only on legacy rows. */
  datatype Receipt = Receipt(
    status: Status,
    acceptedBy: Option<string>,
    acceptedAt: Option<int>,
    route: Route,
    note: Option<string>,
    appPending: Option<bool>)

  /** The columns as the INSERT leaves them. */
  const FRESH: Receipt := Receipt(Pending, None, None, Unrouted, None, Some(true))

  function RouteOf(o: Outcome): Route
    requires o.Accepts?
  {
    if o.via == Unrouted then Direct else o.via
  }

  /** The WHERE clause of the acceptance update. */
  predicate AcceptanceApplies(r: Receipt, route: Route, recordOnly: bool) {
    || route != Noop
    || (r.status == Pending && r.route != Direct)
    || (r.status == Accepted && r.route == Noop)
    || (r.status == Unhandled && r.route == Unrouted && recordOnly)
  }

  /** One recorded outcome. */
  function Record(r: Receipt, o: Outcome, now: int, recordOnly: bool): Receipt {
    match o
    case Failed(why) =>
      if r.status != Accepted || r.route == Noop then
        Receipt(if r.status == Accepted then Pending else r.status, None, None, Direct, Some(why), r.appPending)
      else r
    case Accepts(actor, _, remark, appAdmission) =>
      var stored :=
        if AcceptanceApplies(r, RouteOf(o), recordOnly) then
          Receipt(Accepted, Some(actor), Some(now), RouteOf(o), remark, r.appPending)
        else r;
      if appAdmission then stored.(appPending := Some(false)) else stored
  }

  /** Whether the expiry sweep at `now` takes a row that expires at `deadline`. */
  predicate Expires(r: Receipt, deadline: int, now: int, planned: bool) {
    r.status == Pending && deadline < now && (r.appPending.Some? || planned)
  }

  const EXPIRY_NOTE: string := "no responsible consumer accepted event before timeout"

  function Expire(r: Receipt, deadline: int, now: int, planned: bool): Receipt {
    if Expires(r, deadline, now, planned) then
      r.(status := Unhandled, note := OrElse(r.note, Some(EXPIRY_NOTE)))
    else r
  }

  /** What the columns always satisfy: a receipt names its acceptor exactly while accepted. */
  predicate WellFormed(r: Receipt) {
    && (r.status == Accepted <==> r.acceptedBy.Some?)
    && (r.status == Accepted <==> r.acceptedAt.Some?)
    && (r.status == Accepted ==> r.route != Unrouted)
    && (r.route == Noop ==> r.status == Accepted)
  }

  // ---- Reports only: outcomes are joins in a four-element chain ----

  /** none < stored only < failed < directly accepted. */
  function Level(r: Receipt): nat {
    if r.route == Unrouted then 0
    else if r.route == Noop then 1
    else if r.status != Accepted then 2
    else 3
  }

  function OutcomeLevel(o: Outcome): nat {
    if o.Failed? then 2 else if o.via == Noop then 1 else 3
  }

  datatype Report = Report(outcome: Outcome, at: int)

  function Reports(r: Receipt, reports: seq<Report>, recordOnly: bool): Receipt
    decreases |reports|
  {
    if reports == [] then r
    else
      var last := reports[|reports| - 1];
      Record(Reports(r, reports[..|reports| - 1], recordOnly), last.outcome, last.at, recordOnly)
  }

  /** The receipt a single outcome writes on its own. */
  function Stamp(o: Outcome, at: int, appPending: Option<bool>): Receipt {
    match o
    case Failed(why) => Receipt(Pending, None, None, Direct, Some(why), appPending)
    case Accepts(actor, _, remark, _) => Receipt(Accepted, Some(actor), Some(at), RouteOf(o), remark, appPending)
  }

  predicate Admits(o: Outcome) { o.Accepts? && o.appAdmission }

  /** The report that decides the receipt: none outranks it and every later one ranks below it. */
  ghost predicate Decides(reports: seq<Report>, k: nat) {
    && k < |reports|
    && (forall i | 0 <= i < |reports| :: OutcomeLevel(reports[i].outcome) <= OutcomeLevel(reports[k].outcome))
    && (forall i | k < i < |reports| :: OutcomeLevel(reports[i].outcome) < OutcomeLevel(reports[k].outcome))
  }

  ghost predicate AnyAdmission(reports: seq<Report>) {
    exists i | 0 <= i < |reports| :: Admits(reports[i].outcome)
  }

  /**
   * Without expiry the whole receipt is the stamp of one report: the last of those with the
   * highest level. Its App-admission flag is cleared exactly when some report admitted.
   */
  lemma {:induction false} ReceiptIsDecisiveStamp(reports: seq<Report>, recordOnly: bool) returns (k: nat)
    requires reports != []
    ensures Decides(reports, k)
    ensures Reports(FRESH, reports, recordOnly)
         == Stamp(reports[k].outcome, reports[k].at, Some(!AnyAdmission(reports)))
    decreases |reports|
  {
    var n := |reports| - 1;
    var last := reports[n].outcome;
    var init := reports[..n];
    if n == 0 {
      k := 0;
      assert Reports(FRESH, init, recordOnly) == FRESH;
      assert Admits(last) <==> AnyAdmission(reports);
    } else {
      var j := ReceiptIsDecisiveStamp(init, recordOnly);
      k := if OutcomeLevel(init[j].outcome) <= OutcomeLevel(last) then n else j;
      assert forall i | 0 <= i < n :: reports[i] == init[i];
      assert AnyAdmission(reports) <==> AnyAdmission(init) || Admits(last) by {
        if AnyAdmission(init) {
          var i :| 0 <= i < |init| && Admits(init[i].outcome);
          assert Admits(reports[i].outcome);
        }
      }
    }
  }

  ghost function Levels(reports: seq<Report>): set<nat> {
    set i | 0 <= i < |reports| :: OutcomeLevel(reports[i].outcome)
  }

  ghost function Outcomes(reports: seq<Report>): set<Outcome> {
    set i | 0 <= i < |reports| :: reports[i].outcome
  }

  lemma {:induction false} RecordJoins(r: Receipt, o: Outcome, now: int, recordOnly: bool)
    requires WellFormed(r) && r.status != Unhandled
    ensures var next := Record(r, o, now, recordOnly);
            && WellFormed(next) && next.status != Unhandled
            && Level(next) == Max(Level(r), OutcomeLevel(o))
  {
  }

  /** The delivery class is the join of the reported levels, from any well-formed starting row. */
  lemma {:induction false} LevelIsJoin(r: Receipt, reports: seq<Report>, recordOnly: bool)
    requires WellFormed(r) && r.status != Unhandled
    ensures var end := Reports(r, reports, recordOnly);
            && WellFormed(end) && end.status != Unhandled
            && Level(r) <= Level(end)
            && (forall i | 0 <= i < |reports| :: OutcomeLevel(reports[i].outcome) <= Level(end))
            && (Level(end) == Level(r) || Level(end) in Levels(reports))
    decreases |reports|
  {
    if reports != [] {
      var n := |reports| - 1;
      LevelIsJoin(r, reports[..n], recordOnly);
      RecordJoins(Reports(r, reports[..n], recordOnly), reports[n].outcome, reports[n].at, recordOnly);
      assert forall i | 0 <= i < n :: reports[i] == reports[..n][i];
      assert OutcomeLevel(reports[n].outcome) in Levels(reports);
      forall l | l in Levels(reports[..n]) ensures l in Levels(reports) {
        var i :| 0 <= i < n && OutcomeLevel(reports[..n][i].outcome) == l;
        assert OutcomeLevel(reports[i].outcome) == l;
      }
    }
  }

  /** Order and repetition of the reported outcomes do not matter for the delivery class. */
  lemma {:induction false} ClassDependsOnOutcomeSet(xs: seq<Report>, ys: seq<Report>, recordOnly: bool)
    requires Outcomes(xs) == Outcomes(ys)
    ensures Reports(FRESH, xs, recordOnly).status == Reports(FRESH, ys, recordOnly).status
    ensures Reports(FRESH, xs, recordOnly).route == Reports(FRESH, ys, recordOnly).route
    ensures Reports(FRESH, xs, recordOnly).appPending == Reports(FRESH, ys, recordOnly).appPending
  {
    assert xs != [] ==> xs[0].outcome in Outcomes(xs);
    assert ys != [] ==> ys[0].outcome in Outcomes(ys);
    if xs != [] && ys != [] {
      var j := ReceiptIsDecisiveStamp(xs, recordOnly);
      var k := ReceiptIsDecisiveStamp(ys, recordOnly);
      assert xs[j].outcome in Outcomes(ys) && ys[k].outcome in Outcomes(xs);
      SameAdmission(xs, ys);
      SameAdmission(ys, xs);
    }
  }

  lemma {:induction false} SameAdmission(xs: seq<Report>, ys: seq<Report>)
    requires Outcomes(xs) <= Outcomes(ys)
    ensures AnyAdmission(xs) ==> AnyAdmission(ys)
  {
    if AnyAdmission(xs) {
      var i :| 0 <= i < |xs| && Admits(xs[i].outcome);
      assert xs[i].outcome in Outcomes(ys);
    }
  }

  // ---- Whole runs, with expiry sweeps in between ----

  datatype Step = Reported(outcome: Outcome, at: int) | Swept(now: int, planned: bool)

  function Move(r: Receipt, step: Step, deadline: int, recordOnly: bool): Receipt {
    match step
    case Reported(o, at) => Record(r, o, at, recordOnly)
    case Swept(now, planned) => Expire(r, deadline, now, planned)
  }

  function History(r: Receipt, steps: seq<Step>, deadline: int, recordOnly: bool): Receipt
    decreases |steps|
  {
    if steps == [] then r
    else Move(History(r, steps[..|steps| - 1], deadline, recordOnly), steps[|steps| - 1], deadline, recordOnly)
  }

  /** A history read from its first step. */
  lemma {:induction false} HistoryFromFirst(r: Receipt, s: Step, rest: seq<Step>, deadline: int, recordOnly: bool)
    ensures History(r, [s] + rest, deadline, recordOnly)
         == History(Move(r, s, deadline, recordOnly), rest, deadline, recordOnly)
    decreases |rest|
  {
    var all := [s] + rest;
    if rest == [] {
      assert all == [s] && all[..0] == [];
    } else {
      HistoryFromFirst(r, s, rest[..|rest| - 1], deadline, recordOnly);
      assert all[..|all| - 1] == [s] + rest[..|rest| - 1];
    }
  }

  /** An acceptance is direct unless it says that it only stored the event. */
  predicate IsDirect(s: Step) { s.Reported? && s.outcome.Accepts? && s.outcome.via != Noop }

  predicate IsNoop(s: Step) { s.Reported? && s.outcome.Accepts? && s.outcome.via == Noop }

  predicate IsFailure(s: Step) { s.Reported? && s.outcome.Failed? }

  ghost predicate AnyDirect(steps: seq<Step>) { exists i | 0 <= i < |steps| :: IsDirect(steps[i]) }

  ghost predicate AnyNoop(steps: seq<Step>) { exists i | 0 <= i < |steps| :: IsNoop(steps[i]) }

  ghost predicate AnyFailure(steps: seq<Step>) { exists i | 0 <= i < |steps| :: IsFailure(steps[i]) }

  /** Some sweep ran after the row's deadline. */
  ghost predicate AnyLateSweep(steps: seq<Step>, deadline: int) {
    exists i | 0 <= i < |steps| :: steps[i].Swept? && deadline < steps[i].now
  }

  /** Some storage-only report came in time, or at any time when storage was all that was asked. */
  ghost predicate StoredInTime(steps: seq<Step>, deadline: int, recordOnly: bool) {
    exists i | 0 <= i < |steps| :: IsNoop(steps[i]) && (recordOnly || !AnyLateSweep(steps[..i], deadline))
  }

  /** The steps split into all but the last, and the last: how each history predicate unfolds. */
  lemma {:induction false} Unfold(steps: seq<Step>, deadline: int, recordOnly: bool)
    requires steps != []
    ensures var n := |steps| - 1; var init := steps[..n]; var last := steps[n];
            && (AnyDirect(steps) <==> AnyDirect(init) || IsDirect(last))
            && (AnyFailure(steps) <==> AnyFailure(init) || IsFailure(last))
            && (AnyLateSweep(steps, deadline) <==> AnyLateSweep(init, deadline) || (last.Swept? && deadline < last.now))
            && (StoredInTime(steps, deadline, recordOnly) <==>
                StoredInTime(init, deadline, recordOnly)
                || (IsNoop(last) && (recordOnly || !AnyLateSweep(init, deadline))))
  {
    var n := |steps| - 1;
    var init := steps[..n];
    assert forall i | 0 <= i < n :: steps[i] == init[i];
    assert forall i | 0 <= i <= n :: init[..i] == steps[..i];
    if AnyDirect(init) { var i :| 0 <= i < n && IsDirect(init[i]); assert IsDirect(steps[i]); }
    if AnyFailure(init) { var i :| 0 <= i < n && IsFailure(init[i]); assert IsFailure(steps[i]); }
    if AnyLateSweep(init, deadline) {
      var i :| 0 <= i < n && init[i].Swept? && deadline < init[i].now;
      assert steps[i].Swept? && deadline < steps[i].now;
    }
    if StoredInTime(init, deadline, recordOnly) {
      var i :| 0 <= i < n && IsNoop(init[i]) && (recordOnly || !AnyLateSweep(init[..i], deadline));
      assert IsNoop(steps[i]) && (recordOnly || !AnyLateSweep(steps[..i], deadline));
    }
  }

  /**
   * Over every run with expiry sweeps, exactly when a row ends accepted and by which route: a direct
   * acceptance always wins; otherwise any failure bars acceptance; otherwise a storage-only report
   * counts when it came before expiry or the event was record-only.
   */
  lemma {:induction false} AcceptedExactlyWhen(steps: seq<Step>, deadline: int, recordOnly: bool)
    ensures var r := History(FRESH, steps, deadline, recordOnly);
            && WellFormed(r) && r.appPending.Some?
            && (r.status == Accepted && r.route == Direct <==> AnyDirect(steps))
            && (r.status != Accepted && r.route == Direct <==> AnyFailure(steps) && !AnyDirect(steps))
            && (r.status == Accepted && r.route == Noop <==>
                !AnyDirect(steps) && !AnyFailure(steps) && StoredInTime(steps, deadline, recordOnly))
            && (r.route == Unrouted ==> (r.status == Unhandled <==> AnyLateSweep(steps, deadline)))
    decreases |steps|
  {
    if steps != [] {
      var init, last := steps[..|steps| - 1], steps[|steps| - 1];
      AcceptedExactlyWhen(init, deadline, recordOnly);
      Unfold(steps, deadline, recordOnly);
      var before := History(FRESH, init, deadline, recordOnly);
      assert History(FRESH, steps, deadline, recordOnly) == Move(before, last, deadline, recordOnly);
      assert IsDirect(last) ==> Move(before, last, deadline, recordOnly).route == Direct;
      if IsNoop(last) {
        assert AcceptanceApplies(before, Noop, recordOnly) <==>
               !AnyDirect(init) && !AnyFailure(init)
               && (StoredInTime(init, deadline, recordOnly) || recordOnly || !AnyLateSweep(init, deadline));
      }
    }
  }

  /**
   * What a sweep does at the end of any history of a tracked row: past the deadline it settles what is pending,
   * whatever its route, and keeps a note that is there; in time, or once the row is settled, it changes nothing.
   */
  lemma {:induction false} LateSweepSettles(
      r: Receipt, steps: seq<Step>, now: int, planned: bool, deadline: int, recordOnly: bool)
    requires r.appPending.Some? || planned
    ensures var before := History(r, steps, deadline, recordOnly);
            History(r, steps + [Swept(now, planned)], deadline, recordOnly) ==
            if before.status == Pending && deadline < now then
              before.(status := Unhandled, note := if before.note.Some? then before.note else Some(EXPIRY_NOTE))
            else before
  {
    var all := steps + [Swept(now, planned)];
    assert all[..|all| - 1] == steps;
    TrackingIsKept(r, steps, deadline, recordOnly);
  }

  lemma {:induction false} TrackingIsKept(r: Receipt, steps: seq<Step>, deadline: int, recordOnly: bool)
    ensures r.appPending.Some? ==> History(r, steps, deadline, recordOnly).appPending.Some?
    decreases |steps|
  {
    if steps != [] { TrackingIsKept(r, steps[..|steps| - 1], deadline, recordOnly); }
  }

  /** A legacy row is swept only under a saved plan. */
  lemma {:induction false} UntrackedIsNotSwept(r: Receipt, deadline: int, now: int, recordOnly: bool)
    requires r.appPending.None?
    ensures Move(r, Swept(now, false), deadline, recordOnly) == r
  {
  }

  ghost predicate IsFirstFailure(steps: seq<Step>, f: nat) {
    f < |steps| && IsFailure(steps[f]) && !AnyFailure(steps[..f])
  }

  /** Expired before the first failure and not stored in time by then, or swept late at any time after it. */
  ghost predicate ExpiredAround(steps: seq<Step>, f: nat, deadline: int, recordOnly: bool)
    requires f < |steps|
  {
    || (AnyLateSweep(steps[..f], deadline) && !StoredInTime(steps[..f], deadline, recordOnly))
    || AnyLateSweep(steps[f..], deadline)
  }

  lemma {:induction false} ExpiredAroundUnfolds(steps: seq<Step>, f: nat, deadline: int, recordOnly: bool)
    requires f < |steps| - 1
    ensures var n := |steps| - 1;
            ExpiredAround(steps, f, deadline, recordOnly) <==>
            ExpiredAround(steps[..n], f, deadline, recordOnly) || (steps[n].Swept? && deadline < steps[n].now)
  {
    var n := |steps| - 1;
    var init := steps[..n];
    assert init[..f] == steps[..f];
    Unfold(steps[f..], deadline, recordOnly);
    assert steps[f..][..|steps[f..]| - 1] == init[f..];
  }

  /** Exactly when a row with a failure and no direct acceptance stands unhandled. */
  lemma {:induction false} FailedRowExpiresExactlyWhen(steps: seq<Step>, f: nat, deadline: int, recordOnly: bool)
    requires IsFirstFailure(steps, f) && !AnyDirect(steps)
    ensures History(FRESH, steps, deadline, recordOnly).status ==
            if ExpiredAround(steps, f, deadline, recordOnly) then Unhandled else Pending
    decreases |steps|
  {
    var n := |steps| - 1;
    var init := steps[..n];
    Unfold(steps, deadline, recordOnly);
    AcceptedExactlyWhen(init, deadline, recordOnly);
    if f < n {
      assert init[..f] == steps[..f];
      FailedRowExpiresExactlyWhen(init, f, deadline, recordOnly);
      ExpiredAroundUnfolds(steps, f, deadline, recordOnly);
      AcceptedExactlyWhen(steps, deadline, recordOnly);
    } else {
      assert steps[f..] == [steps[f]];
    }
  }

  /** A direct acceptance survives every later report and sweep. */
  lemma {:induction false} DirectAcceptanceIsPermanent(r: Receipt, steps: seq<Step>, deadline: int, recordOnly: bool)
    requires r.status == Accepted && r.route == Direct
    ensures var end := History(r, steps, deadline, recordOnly); end.status == Accepted && end.route == Direct
    decreases |steps|
  {
    if steps != [] { DirectAcceptanceIsPermanent(r, steps[..|steps| - 1], deadline, recordOnly); }
  }

  /** From any row with a recorded failure, nothing but a direct acceptance makes it accepted. */
  lemma {:induction false} FailureIsNeverHidden(r: Receipt, steps: seq<Step>, deadline: int, recordOnly: bool)
    requires r.status != Accepted && r.route == Direct
    ensures History(r, steps, deadline, recordOnly).status == Accepted <==> AnyDirect(steps)
    ensures History(r, steps, deadline, recordOnly).route == Direct
    decreases |steps|
  {
    if steps != [] {
      FailureIsNeverHidden(r, steps[..|steps| - 1], deadline, recordOnly);
      Unfold(steps, deadline, recordOnly);
    }
  }

  /** From an expired row with no route, a storage-only report revives it only for record-only events. */
  lemma {:induction false} ExpiredIsRevivedOnlyWhen(r: Receipt, steps: seq<Step>, deadline: int, recordOnly: bool)
    requires r.status == Unhandled && r.route == Unrouted
    requires !AnyDirect(steps)
    ensures History(r, steps, deadline, recordOnly).status == Accepted <==>
            recordOnly && !AnyFailure(steps) && AnyNoop(steps)
    ensures History(r, steps, deadline, recordOnly).route == Direct <==> AnyFailure(steps)
    ensures History(r, steps, deadline, recordOnly).status == Pending ==> recordOnly
    ensures History(r, steps, deadline, recordOnly).status == Accepted <==>
            History(r, steps, deadline, recordOnly).route == Noop
    ensures History(r, steps, deadline, recordOnly).route == Unrouted ==>
            History(r, steps, deadline, recordOnly).status == Unhandled
    decreases |steps|
  {
    if steps != [] {
      var init := steps[..|steps| - 1];
      Unfold(steps, deadline, recordOnly);
      ExpiredIsRevivedOnlyWhen(r, init, deadline, recordOnly);
      assert AnyNoop(steps) <==> AnyNoop(init) || IsNoop(steps[|init|]) by {
        assert forall i | 0 <= i < |init| :: steps[i] == init[i];
        if AnyNoop(init) { var i :| 0 <= i < |init| && IsNoop(init[i]); assert IsNoop(steps[i]); }
      }
      var before := History(r, init, deadline, recordOnly);
      assert History(r, steps, deadline, recordOnly) == Move(before, steps[|init|], deadline, recordOnly);
    }
  }

  // ---- What a keyed retry is told about an existing row ----

  /** The producer either gets the saved acceptance back or must deliver again. */
  datatype Reply =
    | AlreadyAccepted(actor: string, route: Route)
    | Redeliver(appOnly: bool)
    | Neither

  /** The two guarded blocks of the retry path; `both` says that both of them fired. */
  function RetryReply(r: Receipt): (Reply, bool) {
    var accepted := r.appPending != Some(true) && r.status == Accepted && r.acceptedBy.Some? && r.route != Noop;
    var appOnly := r.appPending == Some(true) && r.status == Accepted && r.route != Noop;
    var again := r.status == Pending || r.status == Unhandled || (r.status == Accepted && r.route == Noop);
    ( if appOnly then Redeliver(true)
      else if again then Redeliver(false)
      else if accepted then AlreadyAccepted(r.acceptedBy.value, if r.route == Direct then r.route else Unrouted)
      else Neither
    , accepted && (appOnly || again))
  }

  /** In every reachable row a retry is told exactly one of the two, and which one is exact. */
  lemma {:induction false} RetryIsToldExactlyOne(steps: seq<Step>, deadline: int, recordOnly: bool)
    ensures var r := History(FRESH, steps, deadline, recordOnly); var (reply, both) := RetryReply(r);
            && !both && reply != Neither
            && (reply.AlreadyAccepted? <==> AnyDirect(steps) && r.appPending == Some(false))
            && (reply.AlreadyAccepted? ==> Some(reply.actor) == r.acceptedBy && reply.route == Direct)
            && (reply == Redeliver(true) <==> AnyDirect(steps) && r.appPending == Some(true))
  {
    AcceptedExactlyWhen(steps, deadline, recordOnly);
    var r := History(FRESH, steps, deadline, recordOnly);
    if r.appPending.value { assert r.appPending == Some(true); } else { assert r.appPending == Some(false); }
  }
}
