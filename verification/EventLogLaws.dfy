/** What the event store promises over whole runs: exactly-once publication, stable replies, pair closure. */
module EventLogLaws {
  import opened Prelude
  import D = Delivery
  import opened EventLog

  // ---- The log only grows, and a closed run never changes again ----

  lemma {:induction false} LogOnlyGrows(db: Db, steps: seq<Step>)
    requires Shaped(db)
    ensures |db.log| <= |Run(db, steps).log|
    ensures Run(db, steps).log[..|db.log|] == db.log
    decreases |steps|
  {
    if steps != [] {
      var next := Next(db, steps[0]);
      assert |db.log| <= |next.log| && next.log[..|db.log|] == db.log;
      LogOnlyGrows(next, steps[1..]);
      var end := Run(db, steps).log;
      assert end[..|next.log|] == next.log;
      assert end[..|db.log|] == end[..|next.log|][..|db.log|];
    }
  }

  lemma {:induction false} StepKeepsClosedRuns(db: Db, s: Step, i: nat)
    requires Shaped(db) && i < |db.runs|
    ensures i < |Next(db, s).runs|
    ensures Next(db, s).runs[i].openId == db.runs[i].openId
    ensures db.runs[i].status == Closed ==> Next(db, s).runs[i] == db.runs[i]
  {
  }

  /** Closed is absorbing: the closing event and time of a run are fixed once set. */
  lemma {:induction false} ClosedIsAbsorbing(db: Db, steps: seq<Step>, i: nat)
    requires Shaped(db) && i < |db.runs|
    ensures i < |Run(db, steps).runs|
    ensures Run(db, steps).runs[i].openId == db.runs[i].openId
    ensures db.runs[i].status == Closed ==> Run(db, steps).runs[i] == db.runs[i]
    decreases |steps|
  {
    if steps != [] {
      StepKeepsClosedRuns(db, steps[0], i);
      ClosedIsAbsorbing(Next(db, steps[0]), steps[1..], i);
    }
  }

  // ---- Exactly-once publication ----

  /** The steps with every publication left out whose identity is already stored when it arrives. */
  function WithoutRetries(db: Db, steps: seq<Step>): seq<Step>
    requires Shaped(db)
    decreases |steps|
  {
    if steps == [] then []
    else
      var rest := WithoutRetries(Next(db, steps[0]), steps[1..]);
      if steps[0].Publishing? && Find(db.log, steps[0].event).Some? then rest else [steps[0]] + rest
  }

  /** Every table ends the same as if no retry, and no reuse of a key, had ever been sent. */
  lemma {:induction false} RetriesChangeNothing(db: Db, steps: seq<Step>)
    requires Shaped(db)
    ensures Run(db, WithoutRetries(db, steps)) == Run(db, steps)
    decreases |steps|
  {
    if steps != [] {
      var rest := WithoutRetries(Next(db, steps[0]), steps[1..]);
      RetriesChangeNothing(Next(db, steps[0]), steps[1..]);
      if steps[0].Publishing? && Find(db.log, steps[0].event).Some? {
        assert Next(db, steps[0]) == db;
      } else {
        assert ([steps[0]] + rest)[1..] == rest;
      }
    }
  }

  ghost function Keys(log: seq<Logged>): set<(Kind, Identity)> {
    set i | 0 <= i < |log| && log[i].event.identity.Some? :: (log[i].event.kind, log[i].event.identity.value)
  }

  /** Keep the first publication of every key, in the order given, without looking at the store. */
  function FirstUses(steps: seq<Step>, seen: set<(Kind, Identity)>): seq<Step>
    decreases |steps|
  {
    if steps == [] then []
    else if steps[0].Publishing? && steps[0].event.identity.Some? then
      var key := (steps[0].event.kind, steps[0].event.identity.value);
      if key in seen then FirstUses(steps[1..], seen) else [steps[0]] + FirstUses(steps[1..], seen + {key})
    else [steps[0]] + FirstUses(steps[1..], seen)
  }

  lemma {:induction false} KeysAfterAppend(log: seq<Logged>, l: Logged)
    ensures Keys(log + [l]) ==
            Keys(log) + (if l.event.identity.Some? then {(l.event.kind, l.event.identity.value)} else {})
  {
    var out := log + [l];
    forall x | x in Keys(log) ensures x in Keys(out) {
      var i :| 0 <= i < |log| && log[i].event.identity.Some? && x == (log[i].event.kind, log[i].event.identity.value);
      assert out[i] == log[i];
    }
    assert out[|log|] == l;
  }

  lemma {:induction false} FoundMeansKeySeen(log: seq<Logged>, e: Event)
    ensures Find(log, e).Some? <==> e.identity.Some? && (e.kind, e.identity.value) in Keys(log)
  {
    if e.identity.Some? && (e.kind, e.identity.value) in Keys(log) {
      var i :| 0 <= i < |log| && log[i].event.identity.Some?
               && (e.kind, e.identity.value) == (log[i].event.kind, log[i].event.identity.value);
      assert SameIdentity(log[i].event, e);
    }
  }

  /** A run in which no publication is refused for anything but the reuse of a key. */
  ghost predicate OnlyKeysRefuse(db: Db, steps: seq<Step>)
    requires Shaped(db)
    decreases |steps|
  {
    steps != [] ==>
      && (steps[0].Publishing? ==>
          var p := Publish(db, steps[0].event, steps[0].now);
          p.Refused? ==> p.why == KeyReused)
      && OnlyKeysRefuse(Next(db, steps[0]), steps[1..])
  }

  /**
   * Exactly once, wakes and projections included: the store ends as if only the first publication of every key had been
   * sent, in the order given.
   */
  lemma {:induction false} RunKeepsFirstUses(db: Db, steps: seq<Step>)
    requires Shaped(db) && OnlyKeysRefuse(db, steps)
    ensures WithoutRetries(db, steps) == FirstUses(steps, Keys(db.log))
    ensures Run(db, FirstUses(steps, Keys(db.log))) == Run(db, steps)
    decreases |steps|
  {
    RetriesChangeNothing(db, steps);
    if steps != [] {
      var s := steps[0];
      RunKeepsFirstUses(Next(db, s), steps[1..]);
      if s.Publishing? {
        FoundMeansKeySeen(db.log, s.event);
        if Find(db.log, s.event).None? {
          assert Publish(db, s.event, s.now).Stored?;
          KeysAfterAppend(db.log, Logged(s.event, s.now));
          assert Next(db, s).log == db.log + [Logged(s.event, s.now)];
          if s.event.identity.None? { assert Keys(Next(db, s).log) == Keys(db.log); }
        }
      }
    }
  }

  // ---- What a retry is told, any number of steps later ----

  /** The part of a run that concerns the receipt of one row. */
  function Concerning(steps: seq<Step>, id: int): seq<D.Step>
    decreases |steps|
  {
    if steps == [] then []
    else
      (match steps[0]
       case Reporting(target, o, now) => if target == id then [D.Reported(o, now)] else []
       case SweepingEvents(now, planned) => [D.Swept(now, id in planned)]
       case _ => [])
      + Concerning(steps[1..], id)
  }

  lemma {:induction false} StepMovesReceipt(db: Db, s: Step, id: int)
    requires Shaped(db) && 1 <= id <= |db.log|
    ensures id <= |Next(db, s).log| && Next(db, s).log[id - 1] == db.log[id - 1]
    ensures Next(db, s).receipts[id - 1] ==
            match s
            case Reporting(target, o, now) =>
              if target == id then D.Record(db.receipts[id - 1], o, now, db.log[id - 1].event.recordOnly)
              else db.receipts[id - 1]
            case SweepingEvents(now, planned) =>
              D.Expire(db.receipts[id - 1], Deadline(db.log[id - 1]), now, id in planned)
            case _ => db.receipts[id - 1]
  {
  }

  /** A row's receipt is the delivery history of the steps that concern it, whatever else happens. */
  lemma {:induction false} ReceiptIsHistory(db: Db, steps: seq<Step>, id: int)
    requires Shaped(db) && 1 <= id <= |db.log|
    ensures id <= |Run(db, steps).log| && Run(db, steps).log[id - 1] == db.log[id - 1]
    ensures Run(db, steps).receipts[id - 1] ==
            D.History(db.receipts[id - 1], Concerning(steps, id),
                      Deadline(db.log[id - 1]), db.log[id - 1].event.recordOnly)
    decreases |steps|
  {
    if steps != [] {
      var s := steps[0];
      var next := Next(db, s);
      var rest := Concerning(steps[1..], id);
      var deadline, recordOnly := Deadline(db.log[id - 1]), db.log[id - 1].event.recordOnly;
      StepMovesReceipt(db, s, id);
      ReceiptIsHistory(next, steps[1..], id);
      assert [] + rest == rest;
      match s
      case Reporting(target, o, now) =>
        if target == id { D.HistoryFromFirst(db.receipts[id - 1], D.Reported(o, now), rest, deadline, recordOnly); }
      case SweepingEvents(now, planned) =>
        D.HistoryFromFirst(db.receipts[id - 1], D.Swept(now, id in planned), rest, deadline, recordOnly);
      case _ =>
    }
  }

  lemma {:induction false} FindsTheOnlyOne(log: seq<Logged>, e: Event, i: nat)
    requires KeysUnique(log) && i < |log| && SameIdentity(log[i].event, e)
    ensures Find(log, e) == Some(i)
  {
    var j := Find(log, e).value;
    assert SameIdentity(log[i].event, log[j].event) && SameIdentity(log[j].event, log[i].event);
  }

  /** The answer to a publication whose identity is stored at `i`. */
  lemma {:induction false} StoredAnswers(db: Db, e: Event, now: int, i: nat)
    requires Shaped(db) && i < |db.log| && Find(db.log, e) == Some(i)
    ensures Next(db, Publishing(e, now)) == db
    ensures Publish(db, e, now) ==
            if db.log[i].event.canonical != e.canonical then Refused(KeyReused)
            else
              Retried(i + 1, D.RetryReply(db.receipts[i]).0, D.RetryReply(db.receipts[i]).1, Restore(db.log[i], e))
  {
  }

  lemma {:induction false} StoredRow(db: Db, e: Event, at: int)
    requires Valid(db) && Publish(db, e, at).Stored?
    ensures var stored := Publish(db, e, at);
            && Valid(stored.db) && 1 <= stored.id <= |stored.db.log|
            && stored.db.log[stored.id - 1] == Logged(e, at) && stored.db.receipts[stored.id - 1] == D.FRESH
  {
    StoreKeepsValid(db, e, at);
  }

  lemma {:induction false} RowThroughRun(db: Db, id: int, steps: seq<Step>)
    requires Valid(db) && 1 <= id <= |db.log|
    ensures var row, later := db.log[id - 1], Run(db, steps);
            && id <= |later.log| && later.log[id - 1] == row && KeysUnique(later.log)
            && later.receipts[id - 1] ==
               D.History(db.receipts[id - 1], Concerning(steps, id), Deadline(row), row.event.recordOnly)
  {
    RunKeepsValid(db, steps);
    ReceiptIsHistory(db, steps, id);
  }

  lemma {:induction false} StoredThenRun(db: Db, e: Event, at: int, steps: seq<Step>)
    requires Valid(db) && Publish(db, e, at).Stored?
    ensures var id := Publish(db, e, at).id;
            var later := Run(Publish(db, e, at).db, steps);
            && 1 <= id <= |later.log| && later.log[id - 1] == Logged(e, at) && KeysUnique(later.log)
            && later.receipts[id - 1] ==
               D.History(D.FRESH, Concerning(steps, id), Deadline(Logged(e, at)), e.recordOnly)
  {
    StoredRow(db, e, at);
    RowThroughRun(Publish(db, e, at).db, Publish(db, e, at).id, steps);
  }

  /** Which of the two answers a producer gets, given what was reported of its row. */
  ghost predicate ToldExactlyOne(r: D.Receipt, told: seq<D.Step>) {
    var (reply, both) := D.RetryReply(r);
    !both && !reply.Neither? && (reply.AlreadyAccepted? <==> D.AnyDirect(told) && r.appPending == Some(false))
  }

  lemma {:induction false} RetryIsAnsweredIn(
    later: Db, e: Event, at: int, id: int, again: Event, now: int, told: seq<D.Step>)
    requires Shaped(later) && 1 <= id <= |later.log| && later.log[id - 1] == Logged(e, at) && KeysUnique(later.log)
    requires SameIdentity(e, again) && ToldExactlyOne(later.receipts[id - 1], told)
    ensures
      var answer := Publish(later, again, now);
      && Next(later, Publishing(again, now)) == later
      && (again.canonical != e.canonical ==> answer == Refused(KeyReused))
      && (again.canonical == e.canonical ==>
          && answer.Retried? && answer.id == id
          && answer.restored.recordOnly == e.recordOnly && answer.restored.at == at
          && (e.source.Some? ==> answer.restored.source == e.source)
          && (e.owner.Some? ==> answer.restored.owner == e.owner)
          && (e.source.None? ==> answer.restored.source == again.source)
          && (e.owner.None? ==> answer.restored.owner == again.owner)
          && !answer.both && !answer.reply.Neither?
          && (answer.reply.AlreadyAccepted? <==>
              D.AnyDirect(told) && later.receipts[id - 1].appPending == Some(false)))
  {
    FindsTheOnlyOne(later.log, again, id - 1);
    StoredAnswers(later, again, now, id - 1);
  }

  /**
   * Once an event with a key is stored, every later publication of that key resolves to the same row
   * and changes nothing. With the same input the producer is told exactly one of "already accepted"
   * (some direct acceptance, and the App admission is settled) or "deliver again", and gets the
   * original record-only intent back; with other input it is refused.
   */
  lemma {:induction false} RetryIsAnsweredByOriginal(
      db: Db, e: Event, at: int, steps: seq<Step>, again: Event, now: int)
    requires Valid(db) && Publish(db, e, at).Stored? && SameIdentity(e, again)
    ensures
      var stored := Publish(db, e, at);
      var later := Run(stored.db, steps);
      var answer := Publish(later, again, now);
      var told := Concerning(steps, stored.id);
      && Next(later, Publishing(again, now)) == later
      && (again.canonical != e.canonical ==> answer == Refused(KeyReused))
      && (again.canonical == e.canonical ==>
          && answer.Retried? && answer.id == stored.id
          && answer.restored.recordOnly == e.recordOnly && answer.restored.at == at
          && (e.source.Some? ==> answer.restored.source == e.source)
          && (e.owner.Some? ==> answer.restored.owner == e.owner)
          && (e.source.None? ==> answer.restored.source == again.source)
          && (e.owner.None? ==> answer.restored.owner == again.owner)
          && !answer.both && !answer.reply.Neither?
          && (answer.reply.AlreadyAccepted? <==>
              D.AnyDirect(told) && later.receipts[stored.id - 1].appPending == Some(false)))
  {
    var stored := Publish(db, e, at);
    var later, told := Run(stored.db, steps), Concerning(steps, stored.id);
    StoredThenRun(db, e, at, steps);
    D.RetryIsToldExactlyOne(told, Deadline(Logged(e, at)), e.recordOnly);
    RetryIsAnsweredIn(later, e, at, stored.id, again, now, told);
  }

  /**
   * Over every run, exactly where the row of a stored event stands. Accepted for good by a direct acceptance; otherwise
   * barred by a failure, and unhandled once a sweep has come later than its time to live, two minutes unless given;
   * otherwise accepted when it was stored in time.
   */
  lemma {:induction false} StoredRowStandsExactlyWhen(db: Db, e: Event, at: int, steps: seq<Step>, f: nat)
    requires Valid(db) && Publish(db, e, at).Stored?
    ensures var id := Publish(db, e, at).id;
            var receipts, told := Run(Publish(db, e, at).db, steps).receipts, Concerning(steps, id);
            var deadline := at + if e.ttl.Some? then e.ttl.value else 120000;
            && 1 <= id <= |receipts| && var row := receipts[id - 1];
            && (row.status == D.Accepted && row.route == D.Direct <==> D.AnyDirect(told))
            && (D.IsFirstFailure(told, f) && !D.AnyDirect(told) ==>
                row.status == if D.ExpiredAround(told, f, deadline, e.recordOnly) then D.Unhandled else D.Pending)
            && (!D.AnyFailure(told) && !D.AnyDirect(told) ==>
                row.status ==
                if D.StoredInTime(told, deadline, e.recordOnly) then D.Accepted
                else if D.AnyLateSweep(told, deadline) then D.Unhandled
                else D.Pending)
  {
    StoredThenRun(db, e, at, steps);
    var told, deadline := Concerning(steps, Publish(db, e, at).id), Deadline(Logged(e, at));
    D.AcceptedExactlyWhen(told, deadline, e.recordOnly);
    if D.IsFirstFailure(told, f) && !D.AnyDirect(told) {
      D.FailedRowExpiresExactlyWhen(told, f, deadline, e.recordOnly);
    }
  }

  // ---- The contracts ----

  const OPENERS: set<(Kind, Pair)> := {
    (SessionStart, Session), (HandlerStarted, Handler), (WorkflowStarted, Workflow), (EscalationCreated, Escalation),
    (CliTaskRequested, CliTaskRequest), (CliTaskStarted, CliTask)}

  const CLOSERS: set<(Kind, Pair)> := {
    (SessionIdle, Session), (SessionEnd, Session), (HandlerCompleted, Handler), (HandlerFailed, Handler),
    (WorkflowCompleted, Workflow), (WorkflowFailed, Workflow), (WorkflowBlocked, Workflow),
    (WorkflowInterrupted, Workflow), (EscalationResolved, Escalation), (EscalationDismissed, Escalation),
    (CliTaskStarted, CliTaskRequest), (CliTaskFailed, CliTaskRequest),
    (CliTaskCompleted, CliTask), (CliTaskFailed, CliTask), (CliTaskOrphaned, CliTask)}

  /** Each contract has one kind that opens it and its own kinds that close it, and no other kind takes part. */
  lemma {:induction false} ContractsAreTheTable(k: Kind, p: Pair)
    ensures Opening(k) == Some(p) <==> (k, p) in OPENERS
    ensures Ends(k, p) <==> (k, p) in CLOSERS
    ensures Timeout(p) == if p == Session || p == CliTaskRequest then 3600000
                          else if p == Escalation then 86400000 else 2700000
  {
  }

  /** A handler run is keyed by its own id, else its workflow run, else its name; other contracts by one id each. */
  lemma {:induction false} KeysAreTheIds(x: Payload, c: Columns, p: Pair)
    ensures x.handlerRun.Some? ==> Key(Handler, x) == x.handlerRun
    ensures x.handlerRun.None? && x.workflow.Some? ==> Key(Handler, x) == x.workflow
    ensures x.handlerRun.None? && x.workflow.None? ==> Key(Handler, x) == x.handler
    ensures Key(Session, x) == x.session && Key(Workflow, x) == x.workflow && Key(Escalation, x) == x.escalation
    ensures Key(CliTaskRequest, x) == x.task && Key(CliTask, x) == x.task
    ensures Column(Session, c) == c.session && Column(Workflow, c) == c.workflow
    ensures Column(Escalation, c) == c.escalation && Column(CliTaskRequest, c) == c.task && Column(CliTask, c) == c.task
    ensures Column(Handler, c) == None && (HasColumn(p) <==> p != Handler)
  {
  }

  /** An event ends a run by key or by column exactly as a closing kind of its contract that carries the key there. */
  lemma {:induction false} EndsAreClosers(e: Event, p: Pair, k: string, openId: int)
    ensures EndsByKey(e, p, k) <==> (e.kind, p) in CLOSERS && Key(p, e.payload) == Some(k)
    ensures EndsByColumn(e, p, k) <==> (e.kind, p) in CLOSERS && Column(p, e.columns) == Some(k)
    ensures Follows(e, openId) <==> e.payload.openEvent == Some(openId)
  {
    ContractsAreTheTable(e.kind, p);
  }

  /** The run a stored event opens: its contract and key, its owner, and how long it may take. */
  lemma {:induction false} OpenedRunIsAsContracted(db: Db, e: Event, now: int)
    requires Valid(db) && Publish(db, e, now).Stored?
    ensures var stored := Publish(db, e, now);
            if Opening(e.kind).None? || Key(Opening(e.kind).value, e.payload).None? then
              |stored.db.runs| == |db.runs|
            else
              var p := Opening(e.kind).value;
              && |stored.db.runs| == |db.runs| + 1
              && var r := stored.db.runs[|db.runs|];
              && r.pair == p && Some(r.key) == Key(p, e.payload) && r.openId == stored.id && r.owner == e.owner
              && r.openedAt == now && r.expectedCloseAt == now + Timeout(p) && r.status != Orphan
              && (r.status == Closed <==> r.closeId.Some?) && (r.status == Closed <==> r.closedAt.Some?)
  {
  }

  /** What a stored event changes besides: one more row, fresh; leases and App authorities stay. */
  lemma {:induction false} StoredAppendsOneRow(db: Db, e: Event, now: int)
    requires Shaped(db) && Publish(db, e, now).Stored?
    ensures var stored := Publish(db, e, now);
            && stored.id == |db.log| + 1 && stored.db.log == db.log + [Logged(e, now)]
            && stored.db.receipts ==
               db.receipts + [D.Receipt(D.Pending, None, None, D.Unrouted, None, Some(true))]
            && stored.db.attempts == db.attempts && stored.db.resourceApps == db.resourceApps
  {
  }

  /** The steps of others: a lease or an assignment touches nothing but what it names; a report only its row. */
  lemma {:induction false} OtherStepsStayLocal(db: Db, s: Step, t: TaskRef)
    requires Shaped(db) && !s.Publishing?
    ensures var next := Next(db, s);
            && next.log == db.log && next.closures == db.closures && next.resourceApps == db.resourceApps
            && next.evaluations == db.evaluations && next.thresholds == db.thresholds
            && (!s.SweepingPairs? ==> next.runs == db.runs)
            && (!s.Reporting? && !s.SweepingEvents? ==> next.receipts == db.receipts)
            && next.attempts == (if s.Leasing? then s.attempts else db.attempts)
            && next.tasks.Keys == db.tasks.Keys
            && (t in db.tasks ==>
                next.tasks[t] ==
                if s.Assigning? && s.task == t then
                  db.tasks[t].(generation := s.generation, currentAttempt := s.attempt)
                else db.tasks[t])
  {
  }

  // ---- Pair closure and arrival order ----

  /** Every event that ends runs of this contract and key does so by key and by column alike. */
  ghost predicate Aligned(log: seq<Logged>, p: Pair, k: string) {
    forall i | 0 <= i < |log| :: EndsByKey(log[i].event, p, k) <==> EndsByColumn(log[i].event, p, k)
  }

  ghost predicate EarlierEndByColumn(log: seq<Logged>, openId: int, p: Pair, k: string) {
    exists i | 0 <= i < openId - 1 && i < |log| :: EndsByColumn(log[i].event, p, k)
  }

  ghost predicate EarlierEndByKey(log: seq<Logged>, openId: int, p: Pair, k: string) {
    exists i | 0 <= i < openId - 1 && i < |log| :: EndsByKey(log[i].event, p, k)
  }

  ghost predicate LaterEnd(log: seq<Logged>, openId: int, p: Pair, k: string) {
    exists i | 0 <= openId <= i < |log| :: Follows(log[i].event, openId) || EndsByKey(log[i].event, p, k)
  }

  ghost predicate EndLogged(log: seq<Logged>, p: Pair, k: string) {
    exists i | 0 <= i < |log| :: EndsByKey(log[i].event, p, k)
  }

  ghost predicate FollowedUp(log: seq<Logged>, openId: int) {
    exists i | 0 <= openId <= i < |log| :: Follows(log[i].event, openId)
  }

  lemma {:induction false} ColumnSearchIsComplete(log: seq<Logged>, p: Pair, k: string)
    ensures LatestByColumn(log, p, k).Some? <==> exists i | 0 <= i < |log| :: EndsByColumn(log[i].event, p, k)
    decreases |log|
  {
    if log != [] {
      var init := log[..|log| - 1];
      ColumnSearchIsComplete(init, p, k);
      if i :| 0 <= i < |init| && EndsByColumn(init[i].event, p, k) { assert EndsByColumn(log[i].event, p, k); }
      if i :| 0 <= i < |log| && EndsByColumn(log[i].event, p, k) {
        assert i < |init| ==> EndsByColumn(init[i].event, p, k);
      }
    }
  }

  lemma {:induction false} LaterSearchIsComplete(log: seq<Logged>, o: int, p: Pair, k: string)
    requires 1 <= o
    ensures LaterCloser(log, o, p, k).Some? <==>
            exists i | o <= i < |log| :: Follows(log[i].event, o) || EndsByKey(log[i].event, p, k)
    decreases |log|
  {
    if |log| > o {
      var init := log[..|log| - 1];
      LaterSearchIsComplete(init, o, p, k);
      if i :| o <= i < |init| && (Follows(init[i].event, o) || EndsByKey(init[i].event, p, k)) {
        assert Follows(log[i].event, o) || EndsByKey(log[i].event, p, k);
      }
      if i :| o <= i < |log| && (Follows(log[i].event, o) || EndsByKey(log[i].event, p, k)) {
        assert i < |init| ==> Follows(init[i].event, o) || EndsByKey(init[i].event, p, k);
      }
    }
  }

  /** A kind that opens a contract does not also end it. */
  lemma {:induction false} OpeningDoesNotEnd(k: Kind)
    ensures Opening(k).Some? ==> !Ends(k, Opening(k).value)
  {
  }

  lemma {:induction false} EarlierColumnMeans(log: seq<Logged>, o: int, p: Pair, k: string)
    requires 1 <= o <= |log|
    ensures LatestByColumn(log[..o - 1], p, k).Some? <==> EarlierEndByColumn(log, o, p, k)
  {
    var before := log[..o - 1];
    ColumnSearchIsComplete(before, p, k);
    if i :| 0 <= i < |before| && EndsByColumn(before[i].event, p, k) { assert EndsByColumn(log[i].event, p, k); }
    if i :| 0 <= i < o - 1 && EndsByColumn(log[i].event, p, k) { assert EndsByColumn(before[i].event, p, k); }
  }

  lemma {:induction false} ColumnCloserMeans(log: seq<Logged>, o: int, p: Pair, k: string)
    requires 1 <= o <= |log| && HasColumn(p)
    ensures Closer(log, o, p, k).Some? <==> EarlierEndByColumn(log, o, p, k) || LaterEnd(log, o, p, k)
  {
    EarlierColumnMeans(log, o, p, k);
    LaterSearchIsComplete(log, o, p, k);
  }

  /** Every run in the table is the replay of the event that opened it. */
  lemma {:induction false} RunReplays(db: Db, i: nat)
    requires Valid(db) && i < |db.runs|
    ensures 1 <= db.runs[i].openId <= |db.log| && Opens(db.log[db.runs[i].openId - 1].event)
    ensures Replays(db.runs[i], db.log, db.runs[i].openId)
    ensures db.runs[i].closeId.Some? ==> (db.runs[i].closeId.value, db.runs[i].openId) in db.closures
  {
    assert Replays(db.runs[i], db.log, OpenIds(db.log)[i]);
  }

  /**
   * For a contract with a column, whatever the log holds: a run is closed exactly when an earlier event ends it by
   * column, or a later one ends it by key or names it.
   */
  lemma {:induction false} ColumnClosedExactlyWhen(db: Db, i: nat)
    requires Valid(db) && i < |db.runs| && HasColumn(db.runs[i].pair)
    ensures var r := db.runs[i];
            && 1 <= r.openId <= |db.log| && !EndsByKey(db.log[r.openId - 1].event, r.pair, r.key)
            && (r.status == Closed <==>
                EarlierEndByColumn(db.log, r.openId, r.pair, r.key) || LaterEnd(db.log, r.openId, r.pair, r.key))
  {
    var r := db.runs[i];
    RunReplays(db, i);
    OpeningDoesNotEnd(db.log[r.openId - 1].event.kind);
    ColumnCloserMeans(db.log, r.openId, r.pair, r.key);
  }

  lemma {:induction false} EndIsEarlierOrLater(log: seq<Logged>, o: int, p: Pair, k: string)
    requires 1 <= o <= |log| && !EndsByKey(log[o - 1].event, p, k)
    ensures EndLogged(log, p, k) || FollowedUp(log, o) <==> EarlierEndByKey(log, o, p, k) || LaterEnd(log, o, p, k)
  {
    if EndLogged(log, p, k) {
      var j :| 0 <= j < |log| && EndsByKey(log[j].event, p, k);
      assert j != o - 1;
    }
  }

  /**
   * "Closed exactly when an end of the key is anywhere in the log, or a later event names the run" holds of a run
   * exactly when something later ends it anyway, or the earlier ends by key and by column agree on whether there
   * are any.
   */
  lemma {:induction false} OrderFreeExactlyWhen(db: Db, i: nat)
    requires Valid(db) && i < |db.runs| && HasColumn(db.runs[i].pair)
    ensures var r := db.runs[i];
            (r.status == Closed <==> EndLogged(db.log, r.pair, r.key) || FollowedUp(db.log, r.openId)) <==>
            || LaterEnd(db.log, r.openId, r.pair, r.key)
            || (EarlierEndByKey(db.log, r.openId, r.pair, r.key) <==>
                EarlierEndByColumn(db.log, r.openId, r.pair, r.key))
  {
    ColumnClosedExactlyWhen(db, i);
    EndIsEarlierOrLater(db.log, db.runs[i].openId, db.runs[i].pair, db.runs[i].key);
  }

  /** So it holds of every run whose own key is aligned, whatever the ends of other keys and contracts look like. */
  lemma {:induction false} ClosedExactlyWhenEndLogged(db: Db, i: nat)
    requires Valid(db) && i < |db.runs| && HasColumn(db.runs[i].pair)
    requires Aligned(db.log, db.runs[i].pair, db.runs[i].key)
    ensures var r := db.runs[i];
            r.status == Closed <==> EndLogged(db.log, r.pair, r.key) || FollowedUp(db.log, r.openId)
  {
    OrderFreeExactlyWhen(db, i);
  }

  /** How many events at position `from` or later can end the contract. */
  function EndsFrom(log: seq<Logged>, p: Pair, from: nat): nat
    decreases |log|
  {
    if |log| <= from then 0
    else EndsFrom(log[..|log| - 1], p, from) + (if Ends(log[|log| - 1].event.kind, p) then 1 else 0)
  }

  /** An end with the key among the last `budget` events that can end the contract. */
  ghost predicate RecentEnd(log: seq<Logged>, p: Pair, k: string, budget: nat) {
    exists i | 0 <= i < |log| :: EndsByKey(log[i].event, p, k) && EndsFrom(log, p, i + 1) < budget
  }

  lemma {:induction false} RecentEndUnfolds(log: seq<Logged>, p: Pair, k: string, budget: nat)
    requires log != [] && budget > 0
    ensures var init, e := log[..|log| - 1], log[|log| - 1].event;
            RecentEnd(log, p, k, budget) <==>
            EndsByKey(e, p, k) || RecentEnd(init, p, k, if Ends(e.kind, p) then budget - 1 else budget)
  {
    var n := |log| - 1;
    var init, e := log[..n], log[n].event;
    var left := if Ends(e.kind, p) then budget - 1 else budget;
    if EndsByKey(e, p, k) { assert EndsByKey(log[n].event, p, k) && EndsFrom(log, p, n + 1) == 0; }
    if RecentEnd(init, p, k, left) {
      var i :| 0 <= i < |init| && EndsByKey(init[i].event, p, k) && EndsFrom(init, p, i + 1) < left;
      assert EndsByKey(log[i].event, p, k) && EndsFrom(log, p, i + 1) < budget;
    }
    if RecentEnd(log, p, k, budget) && !EndsByKey(e, p, k) {
      var i :| 0 <= i < |log| && EndsByKey(log[i].event, p, k) && EndsFrom(log, p, i + 1) < budget;
      assert i < n && EndsByKey(init[i].event, p, k) && EndsFrom(init, p, i + 1) < left;
    }
  }

  lemma {:induction false} KeyedSearchSeesRecentEnds(log: seq<Logged>, p: Pair, k: string, budget: nat)
    ensures LatestByKey(log, p, k, budget).Some? <==> RecentEnd(log, p, k, budget)
    decreases |log|
  {
    if log != [] && budget > 0 {
      RecentEndUnfolds(log, p, k, budget);
      var e := log[|log| - 1].event;
      KeyedSearchSeesRecentEnds(log[..|log| - 1], p, k, if Ends(e.kind, p) then budget - 1 else budget);
    }
  }

  /**
   * The handler contract has no column and looks back only so far: its run is closed exactly when a later event ends
   * or follows it up, or an end with its key is among the last 200 handler ends before it.
   */
  lemma {:induction false} HandlerClosedExactlyWhen(db: Db, i: nat)
    requires Valid(db) && i < |db.runs| && db.runs[i].pair == Handler
    ensures var r := db.runs[i];
            && 1 <= r.openId <= |db.log|
            && (r.status == Closed <==>
                || RecentEnd(db.log[..r.openId - 1], Handler, r.key, 200)
                || (exists j | r.openId <= j < |db.log| ::
                     Follows(db.log[j].event, r.openId) || EndsByKey(db.log[j].event, Handler, r.key)))
  {
    var r := db.runs[i];
    var o := r.openId;
    RunReplays(db, i);
    KeyedSearchSeesRecentEnds(db.log[..o - 1], Handler, r.key, EARLIER_SCAN_LIMIT);
    LaterSearchIsComplete(db.log, o, Handler, r.key);
  }

  ghost function Events(log: seq<Logged>): multiset<Event>
    decreases |log|
  {
    if log == [] then multiset{} else Events(log[..|log| - 1]) + multiset{log[|log| - 1].event}
  }

  lemma {:induction false} LoggedIffInEvents(log: seq<Logged>, e: Event)
    ensures e in Events(log) <==> exists i | 0 <= i < |log| :: log[i].event == e
    decreases |log|
  {
    if log != [] {
      var init := log[..|log| - 1];
      LoggedIffInEvents(init, e);
      if i :| 0 <= i < |init| && init[i].event == e { assert log[i].event == e; }
      if i :| 0 <= i < |log| && log[i].event == e { assert i < |init| ==> init[i].event == e; }
    }
  }

  /**
   * Arrival order does not matter: two stores that hold the same events in any two orders, aligned for the key and
   * without explicit follow-ups, agree on whether runs of the key are closed.
   */
  lemma {:induction false} ClosureIgnoresArrivalOrder(a: Db, i: nat, b: Db, j: nat)
    requires Valid(a) && Valid(b) && i < |a.runs| && j < |b.runs|
    requires a.runs[i].pair == b.runs[j].pair && HasColumn(a.runs[i].pair) && a.runs[i].key == b.runs[j].key
    requires Events(a.log) == Events(b.log) && Aligned(a.log, a.runs[i].pair, a.runs[i].key)
    requires !FollowedUp(a.log, a.runs[i].openId) && !FollowedUp(b.log, b.runs[j].openId)
    ensures a.runs[i].status == Closed <==> b.runs[j].status == Closed
  {
    var p, k := a.runs[i].pair, a.runs[i].key;
    forall n | 0 <= n < |b.log| ensures EndsByKey(b.log[n].event, p, k) <==> EndsByColumn(b.log[n].event, p, k) {
      SameEventLogged(b.log, a.log, n);
    }
    ClosedExactlyWhenEndLogged(a, i);
    ClosedExactlyWhenEndLogged(b, j);
    SameEventsSameEnds(a.log, b.log, p, k);
    SameEventsSameEnds(b.log, a.log, p, k);
  }

  lemma {:induction false} SameEventLogged(x: seq<Logged>, y: seq<Logged>, i: nat)
    requires Events(x) == Events(y) && i < |x|
    ensures exists j | 0 <= j < |y| :: y[j].event == x[i].event
  {
    LoggedIffInEvents(x, x[i].event);
    LoggedIffInEvents(y, x[i].event);
  }

  lemma {:induction false} SameEventsSameEnds(x: seq<Logged>, y: seq<Logged>, p: Pair, k: string)
    requires Events(x) == Events(y)
    ensures EndLogged(x, p, k) ==> EndLogged(y, p, k)
  {
    if EndLogged(x, p, k) {
      var i :| 0 <= i < |x| && EndsByKey(x[i].event, p, k);
      SameEventLogged(x, y, i);
    }
  }

  // ---- Exactly when arrival order matters ----

  /** Whether a run is closed when its start arrives between two stretches of other events. */
  ghost predicate ClosedBetween(before: seq<Logged>, start: Logged, after: seq<Logged>, p: Pair, k: string) {
    Closer(before + [start] + after, |before| + 1, p, k).Some?
  }

  predicate Unnamed(log: seq<Logged>) { forall i | 0 <= i < |log| :: log[i].event.payload.openEvent.None? }

  ghost predicate AnyByColumn(log: seq<Logged>, p: Pair, k: string) {
    exists i | 0 <= i < |log| :: EndsByColumn(log[i].event, p, k)
  }

  /** In a store with that log, this is the state of the run. */
  lemma {:induction false} ClosedBetweenIsClosed(db: Db, i: nat)
    requires Valid(db) && i < |db.runs|
    ensures var r := db.runs[i];
            && 1 <= r.openId <= |db.log|
            && (r.status == Closed <==>
                ClosedBetween(db.log[..r.openId - 1], db.log[r.openId - 1], db.log[r.openId..], r.pair, r.key))
  {
    var r := db.runs[i];
    RunReplays(db, i);
    assert db.log == db.log[..r.openId - 1] + [db.log[r.openId - 1]] + db.log[r.openId..];
  }

  lemma {:induction false} ClosedBetweenMeans(
      before: seq<Logged>, start: Logged, after: seq<Logged>, p: Pair, k: string)
    requires HasColumn(p) && Unnamed(after)
    ensures ClosedBetween(before, start, after, p, k) <==> AnyByColumn(before, p, k) || EndLogged(after, p, k)
  {
    var log, o := before + [start] + after, |before| + 1;
    assert log[..o - 1] == before;
    ColumnSearchIsComplete(before, p, k);
    LaterSearchIsComplete(log, o, p, k);
    if EndLogged(after, p, k) {
      var i :| 0 <= i < |after| && EndsByKey(after[i].event, p, k);
      assert log[o + i] == after[i];
    }
    if i :| o <= i < |log| && (Follows(log[i].event, o) || EndsByKey(log[i].event, p, k)) {
      assert log[i] == after[i - o];
    }
  }

  /** The events that do, or do not, end the run by column. */
  function ByColumn(log: seq<Logged>, p: Pair, k: string, wanted: bool): seq<Logged> {
    if log == [] then []
    else (if EndsByColumn(log[0].event, p, k) == wanted then [log[0]] else []) + ByColumn(log[1..], p, k, wanted)
  }

  lemma {:induction false} ByColumnHas(log: seq<Logged>, p: Pair, k: string, wanted: bool, x: Logged)
    requires x in ByColumn(log, p, k, wanted)
    ensures x in log && EndsByColumn(x.event, p, k) == wanted
    decreases |log|
  {
    if x in ByColumn(log[1..], p, k, wanted) { ByColumnHas(log[1..], p, k, wanted, x); }
  }

  lemma {:induction false} ByColumnFirst(x: Logged, rest: seq<Logged>, p: Pair, k: string)
    ensures var no, yes := ByColumn(rest, p, k, false), ByColumn(rest, p, k, true);
            && ByColumn([x] + rest, p, k, true) == (if EndsByColumn(x.event, p, k) then [x] + yes else yes)
            && ByColumn([x] + rest, p, k, false) == (if EndsByColumn(x.event, p, k) then no else [x] + no)
  {
    assert ([x] + rest)[1..] == rest;
  }

  lemma {:induction false} PartsWithFirst(x: Logged, no: seq<Logged>, yes: seq<Logged>, rest: seq<Logged>)
    requires multiset(no) + multiset(yes) == multiset(rest)
    ensures multiset([x] + no) + multiset(yes) == multiset([x] + rest)
    ensures multiset(no) + multiset([x] + yes) == multiset([x] + rest)
  {
    MultisetCons(x, rest);
    MultisetCons(x, no);
    MultisetCons(x, yes);
  }

  lemma {:induction false} ByColumnParts(log: seq<Logged>, p: Pair, k: string)
    ensures multiset(ByColumn(log, p, k, false)) + multiset(ByColumn(log, p, k, true)) == multiset(log)
    decreases |log|
  {
    if log != [] {
      var x, rest := log[0], log[1..];
      assert log == [x] + rest;
      ByColumnParts(rest, p, k);
      ByColumnFirst(x, rest, p, k);
      PartsWithFirst(x, ByColumn(rest, p, k, false), ByColumn(rest, p, k, true), rest);
    }
  }

  /** `before` and `after` hold the given events, in some order. */
  predicate Arranges(before: seq<Logged>, after: seq<Logged>, others: seq<Logged>) {
    multiset(before + after) == multiset(others)
  }

  lemma {:induction false} ArrangedHas(before: seq<Logged>, after: seq<Logged>, others: seq<Logged>, x: Logged)
    requires Arranges(before, after, others)
    ensures x in others <==> x in before || x in after
  {
    assert x in multiset(before + after) <==> x in before + after;
    assert x in multiset(others) <==> x in others;
  }

  lemma {:induction false} ArrangedUnnamed(before: seq<Logged>, after: seq<Logged>, others: seq<Logged>)
    requires Arranges(before, after, others) && Unnamed(others)
    ensures Unnamed(after)
  {
    forall i | 0 <= i < |after| ensures after[i].event.payload.openEvent.None? {
      ArrangedHas(before, after, others, after[i]);
    }
  }

  /** Some event ends the run both by key and by column. */
  ghost predicate AnyAlignedEnd(log: seq<Logged>, p: Pair, k: string) {
    exists i | 0 <= i < |log| :: EndsByKey(log[i].event, p, k) && EndsByColumn(log[i].event, p, k)
  }

  lemma {:induction false} AlignedEndAlwaysCloses(
      before: seq<Logged>, start: Logged, after: seq<Logged>, others: seq<Logged>, p: Pair, k: string)
    requires HasColumn(p) && Unnamed(others) && Arranges(before, after, others) && AnyAlignedEnd(others, p, k)
    ensures ClosedBetween(before, start, after, p, k)
  {
    ArrangedUnnamed(before, after, others);
    ClosedBetweenMeans(before, start, after, p, k);
    var i :| 0 <= i < |others| && EndsByKey(others[i].event, p, k) && EndsByColumn(others[i].event, p, k);
    ArrangedHas(before, after, others, others[i]);
  }

  /**
   * Without one, the run stays open when everything that ends it by column comes after its start and the rest before.
   */
  lemma {:induction false} MisalignedEndsCanMiss(start: Logged, others: seq<Logged>, p: Pair, k: string)
    requires HasColumn(p) && Unnamed(others) && !AnyAlignedEnd(others, p, k)
    ensures Arranges(ByColumn(others, p, k, false), ByColumn(others, p, k, true), others)
    ensures !ClosedBetween(ByColumn(others, p, k, false), start, ByColumn(others, p, k, true), p, k)
  {
    var before, after := ByColumn(others, p, k, false), ByColumn(others, p, k, true);
    ByColumnParts(others, p, k);
    assert multiset(before + after) == multiset(before) + multiset(after);
    ArrangedUnnamed(before, after, others);
    ClosedBetweenMeans(before, start, after, p, k);
    forall i | 0 <= i < |before| ensures !EndsByColumn(before[i].event, p, k) {
      ByColumnHas(others, p, k, false, before[i]);
    }
    forall i | 0 <= i < |after| ensures !EndsByKey(after[i].event, p, k) {
      ByColumnHas(others, p, k, true, after[i]);
      var j :| 0 <= j < |others| && others[j] == after[i];
    }
  }

  /**
   * Exactly when arrival order matters for a run that no event names. Every order of the other events closes it exactly
   * when some event ends it both by key and by column; no order closes it exactly when no event ends it by either.
   */
  lemma {:induction false} OrderMattersExactlyWhen(start: Logged, others: seq<Logged>, p: Pair, k: string)
    requires HasColumn(p) && Unnamed(others)
    ensures (forall before, after | Arranges(before, after, others) :: ClosedBetween(before, start, after, p, k)) <==>
            AnyAlignedEnd(others, p, k)
    ensures (forall before, after | Arranges(before, after, others) :: !ClosedBetween(before, start, after, p, k)) <==>
            !EndLogged(others, p, k) && !AnyByColumn(others, p, k)
  {
    if AnyAlignedEnd(others, p, k) {
      forall before, after | Arranges(before, after, others) ensures ClosedBetween(before, start, after, p, k) {
        AlignedEndAlwaysCloses(before, start, after, others, p, k);
      }
    } else {
      MisalignedEndsCanMiss(start, others, p, k);
    }
    if !EndLogged(others, p, k) && !AnyByColumn(others, p, k) {
      forall before, after | Arranges(before, after, others) ensures !ClosedBetween(before, start, after, p, k) {
        NoEndNeverCloses(before, start, after, others, p, k);
      }
    } else {
      assert [] + others == others && others + [] == others;
      assert Arranges([], others, others) && Arranges(others, [], others);
      ClosedBetweenMeans([], start, others, p, k);
      ClosedBetweenMeans(others, start, [], p, k);
    }
  }

  lemma {:induction false} NoEndNeverCloses(
      before: seq<Logged>, start: Logged, after: seq<Logged>, others: seq<Logged>, p: Pair, k: string)
    requires HasColumn(p) && Unnamed(others) && Arranges(before, after, others)
    requires !EndLogged(others, p, k) && !AnyByColumn(others, p, k)
    ensures !ClosedBetween(before, start, after, p, k)
  {
    ArrangedUnnamed(before, after, others);
    ClosedBetweenMeans(before, start, after, p, k);
    forall i | 0 <= i < |before| ensures !EndsByColumn(before[i].event, p, k) {
      ArrangedHas(before, after, others, before[i]);
    }
    forall i | 0 <= i < |after| ensures !EndsByKey(after[i].event, p, k) {
      ArrangedHas(before, after, others, after[i]);
    }
  }

  lemma {:induction false} OpensUnclosedAfter(end: Logged, start: Event, at: int)
    requires Opens(start) && HasColumn(Opening(start.kind).value)
    requires Column(Opening(start.kind).value, end.event.columns) != Key(Opening(start.kind).value, start.payload)
    ensures Opened([end], start, at).Some? && Opened([end], start, at).value.status == Open
    ensures Opened([end], start, at).value.key == Key(Opening(start.kind).value, start.payload).value
  {
    var p := Opening(start.kind).value;
    var k := Key(p, start.payload).value;
    assert [end][..0] == [];
    assert LatestByColumn([end], p, k) == None;
  }

  /** An event that nothing but a reused key can refuse. */
  predicate Plain(e: Event) {
    e.fence.None? && !e.kind.EscalationResolved? && !e.kind.EscalationDismissed? && !e.effect.Threshold?
  }

  const NO_ROWS: Db := Db([], [], [], {}, map[], map[], {}, map[], map[])

  lemma {:induction false} FirstPlainEvent(e: Event, at: int)
    requires Plain(e) && !Opens(e)
    ensures var one := Next(NO_ROWS, Publishing(e, at)); Valid(one) && one.log == [Logged(e, at)] && one.runs == []
  {
    assert Valid(NO_ROWS);
    StepKeepsValid(NO_ROWS, Publishing(e, at));
    assert CloseMatching([], e, 1, at, true, CONTRACTS) == [];
  }

  /**
   * The whole family of failures: whenever an end whose column differs from its key arrives first, for instance
   * because the id was sent with a blank around it, the run opened by its start stays open.
   */
  lemma {:induction false} MisalignedEndLeavesRunOpen(end: Event, start: Event, p: Pair, k: string)
    requires Plain(end) && !Opens(end) && EndsByKey(end, p, k) && HasColumn(p) && Column(p, end.columns) != Some(k)
    requires Plain(start) && start.identity.None? && Opening(start.kind) == Some(p) && Key(p, start.payload) == Some(k)
    ensures var db := Next(Next(NO_ROWS, Publishing(end, 1)), Publishing(start, 2));
            && Valid(db) && |db.runs| == 1 && db.runs[0].key == k && db.runs[0].status == Open
            && EndLogged(db.log, p, k)
  {
    FirstPlainEvent(end, 1);
    var one := Next(NO_ROWS, Publishing(end, 1));
    StepKeepsValid(one, Publishing(start, 2));
    OpensUnclosedAfter(Logged(end, 1), start, 2);
    var two := Next(one, Publishing(start, 2));
    assert CloseMatching([], start, 2, 2, true, CONTRACTS) == [];
    assert two.log[0].event == end;
  }

  // ---- What the look-back misses ----

  function Repeated(l: Logged, n: nat): (log: seq<Logged>)
    ensures |log| == n && forall i | 0 <= i < n :: log[i] == l
  {
    if n == 0 then [] else Repeated(l, n - 1) + [l]
  }

  lemma {:induction false} EndsOfRepeated(first: Logged, l: Logged, n: nat, p: Pair)
    requires Ends(l.event.kind, p)
    ensures EndsFrom([first] + Repeated(l, n), p, 1) == n
    decreases n
  {
    if n > 0 {
      EndsOfRepeated(first, l, n - 1, p);
      assert ([first] + Repeated(l, n))[..n] == [first] + Repeated(l, n - 1);
    }
  }

  /** An end of the key is seen exactly when fewer other ends than the budget follow it. */
  lemma {:induction false} SeenPastOthers(end: Logged, other: Logged, n: nat, p: Pair, k: string, budget: nat)
    requires EndsByKey(end.event, p, k) && Ends(other.event.kind, p) && !EndsByKey(other.event, p, k)
    ensures LatestByKey([end] + Repeated(other, n), p, k, budget).Some? <==> n < budget
  {
    var log := [end] + Repeated(other, n);
    EndsOfRepeated(end, other, n, p);
    KeyedSearchSeesRecentEnds(log, p, k, budget);
    assert log[0] == end && EndsFrom(log, p, 0 + 1) == n;
    forall i | 0 < i < |log| ensures !EndsByKey(log[i].event, p, k) { assert log[i] == Repeated(other, n)[i - 1]; }
  }

  /** The same event published `n` times. */
  function PublishedTimes(db: Db, e: Event, at: int, n: nat): (after: Db)
    requires Shaped(db)
    ensures Shaped(after)
  {
    if n == 0 then db else Next(PublishedTimes(db, e, at, n - 1), Publishing(e, at))
  }

  lemma {:induction false} PlainStores(db: Db, e: Event, at: int)
    requires Valid(db) && Plain(e) && e.identity.None? && db.runs == []
    ensures var after := Next(db, Publishing(e, at));
            && Valid(after) && after.log == db.log + [Logged(e, at)]
            && after.runs == if Opens(e) then [Opened(db.log, e, at).value] else []
  {
    StepKeepsValid(db, Publishing(e, at));
    assert CloseMatching([], e, |db.log| + 1, at, true, CONTRACTS) == [];
  }

  lemma {:induction false} OneMoreRepeated(log: seq<Logged>, l: Logged, n: nat)
    requires n > 0
    ensures log + Repeated(l, n - 1) + [l] == log + Repeated(l, n)
  {
  }

  lemma {:induction false} TimesStore(db: Db, e: Event, at: int, n: nat)
    requires Valid(db) && Plain(e) && e.identity.None? && !Opens(e) && db.runs == []
    ensures var after := PublishedTimes(db, e, at, n);
            Valid(after) && after.runs == [] && after.log == db.log + Repeated(Logged(e, at), n)
    decreases n
  {
    if n > 0 {
      TimesStore(db, e, at, n - 1);
      PlainStores(PublishedTimes(db, e, at, n - 1), e, at);
      OneMoreRepeated(db.log, Logged(e, at), n);
    } else {
      assert db.log + [] == db.log;
    }
  }

  lemma {:induction false} HandlerOpensOpen(log: seq<Logged>, start: Event, at: int, k: string)
    requires Opening(start.kind) == Some(Handler) && Key(Handler, start.payload) == Some(k)
    ensures Opens(start) && Opened(log, start, at).Some? && Opened(log, start, at).value.key == k
    ensures Opened(log, start, at).value.status == Open <==> LatestByKey(log, Handler, k, EARLIER_SCAN_LIMIT).None?
  {
  }

  lemma {:induction false} StartAfterOthers(many: Db, end: Logged, other: Logged, start: Event, k: string, n: nat)
    requires Valid(many) && many.runs == [] && many.log == [end] + Repeated(other, n)
    requires EndsByKey(end.event, Handler, k) && Ends(other.event.kind, Handler) && !EndsByKey(other.event, Handler, k)
    requires Plain(start) && start.identity.None? && Opening(start.kind) == Some(Handler)
    requires Key(Handler, start.payload) == Some(k)
    ensures var db := Next(many, Publishing(start, 3));
            && Valid(db) && |db.runs| == 1 && db.runs[0].key == k && EndLogged(db.log, Handler, k)
            && (db.runs[0].status == Open <==> n >= 200)
  {
    PlainStores(many, start, 3);
    HandlerOpensOpen(many.log, start, 3, k);
    SeenPastOthers(end, other, n, Handler, k, EARLIER_SCAN_LIMIT);
    assert Next(many, Publishing(start, 3)).log[0] == end;
  }

  /**
   * The look-back does miss ends: an end of the key, then `n` ends of other handler runs, then the start. The run stays
   * open exactly from 200 other ends on, although the end of its key is in the log.
   */
  lemma {:induction false} OtherEndsHideAnEnd(end: Event, other: Event, start: Event, k: string, n: nat)
    requires Plain(end) && EndsByKey(end, Handler, k)
    requires Plain(other) && other.identity.None? && Ends(other.kind, Handler) && !EndsByKey(other, Handler, k)
    requires Plain(start) && start.identity.None? && Opening(start.kind) == Some(Handler)
    requires Key(Handler, start.payload) == Some(k)
    ensures var db := Next(PublishedTimes(Next(NO_ROWS, Publishing(end, 1)), other, 2, n), Publishing(start, 3));
            && Valid(db) && |db.runs| == 1 && db.runs[0].key == k && EndLogged(db.log, Handler, k)
            && (db.runs[0].status == Open <==> n >= 200)
  {
    FirstPlainEvent(end, 1);
    var one := Next(NO_ROWS, Publishing(end, 1));
    TimesStore(one, other, 2, n);
    StartAfterOthers(PublishedTimes(one, other, 2, n), Logged(end, 1), Logged(other, 2), start, k, n);
  }

  // ---- Close times ----

  ghost predicate ClockForward(log: seq<Logged>) {
    forall i, j | 0 <= i < j < |log| :: log[i].at <= log[j].at
  }

  lemma {:induction false} ReplayClosesAfterOpening(r: PairRun, log: seq<Logged>)
    requires 1 <= r.openId <= |log| && Opens(log[r.openId - 1].event) && Replays(r, log, r.openId)
    requires r.status == Closed && ClockForward(log)
    ensures r.closeId.Some? && 1 <= r.closeId.value <= |log| && r.closeId.value != r.openId
    ensures r.closedAt.Some? && r.openedAt <= r.closedAt.value
  {
  }

  /** Under a clock that never goes back, no run closes before it opened. */
  lemma {:induction false} NoRunClosesBeforeItOpens(db: Db, i: nat)
    requires Valid(db) && i < |db.runs| && ClockForward(db.log)
    requires db.runs[i].status == Closed
    ensures db.runs[i].openedAt <= db.runs[i].closedAt.value
    ensures 1 <= db.runs[i].closeId.value <= |db.log| && db.runs[i].closeId.value != db.runs[i].openId
    ensures (db.runs[i].closeId.value, db.runs[i].openId) in db.closures
  {
    RunReplays(db, i);
    ReplayClosesAfterOpening(db.runs[i], db.log);
  }

  /** Some sweep of the run came after its expected close. */
  ghost predicate SweptLate(steps: seq<Step>, expectedCloseAt: int) {
    exists k | 0 <= k < |steps| :: steps[k].SweepingPairs? && expectedCloseAt < steps[k].now
  }

  /** A run that nothing has closed is an orphan exactly when it was one or a sweep came after its expected close. */
  lemma {:induction false} OrphanedExactlyWhenOverdue(db: Db, steps: seq<Step>, i: nat)
    requires Shaped(db) && i < |db.runs|
    ensures i < |Run(db, steps).runs|
    ensures Run(db, steps).runs[i].expectedCloseAt == db.runs[i].expectedCloseAt
    ensures Run(db, steps).runs[i].status != Closed ==>
            (Run(db, steps).runs[i].status == Orphan <==>
             db.runs[i].status == Orphan || SweptLate(steps, db.runs[i].expectedCloseAt))
    decreases |steps|
  {
    if steps != [] {
      var next, rest := Next(db, steps[0]), steps[1..];
      OrphanedExactlyWhenOverdue(next, rest, i);
      StepKeepsClosedRuns(db, steps[0], i);
      ClosedIsAbsorbing(next, rest, i);
      var due := db.runs[i].expectedCloseAt;
      assert SweptLate(steps, due) <==> (steps[0].SweepingPairs? && due < steps[0].now) || SweptLate(rest, due) by {
        assert steps == [steps[0]] + rest;
        if SweptLate(rest, due) {
          var k :| 0 <= k < |rest| && rest[k].SweepingPairs? && due < rest[k].now;
          assert steps[k + 1] == rest[k];
        }
      }
      SweepsMarkOverdue(db, steps[0], i);
    }
  }

  lemma {:induction false} SweepsMarkOverdue(db: Db, s: Step, i: nat)
    requires Shaped(db) && i < |db.runs|
    ensures i < |Next(db, s).runs|
    ensures Next(db, s).runs[i].expectedCloseAt == db.runs[i].expectedCloseAt
    ensures Next(db, s).runs[i].status != Closed && db.runs[i].status != Closed ==>
            (Next(db, s).runs[i].status == Orphan <==>
             db.runs[i].status == Orphan || (s.SweepingPairs? && db.runs[i].expectedCloseAt < s.now))
  {
  }

  // ---- Fenced emissions ----

  ghost predicate Reassigns(s: Step, t: TaskRef) { s.Assigning? && s.task == t }

  lemma {:induction false} UnassignedKeepsAttempt(db: Db, steps: seq<Step>, t: TaskRef)
    requires Shaped(db) && t in db.tasks && forall i | 0 <= i < |steps| :: !Reassigns(steps[i], t)
    ensures t in Run(db, steps).tasks
    ensures Run(db, steps).tasks[t].currentAttempt == db.tasks[t].currentAttempt
    ensures Run(db, steps).tasks[t].generation == db.tasks[t].generation
    decreases |steps|
  {
    if steps != [] {
      assert !Reassigns(steps[0], t);
      UnassignedKeepsAttempt(Next(db, steps[0]), steps[1..], t);
    }
  }

  /**
   * Fencing over whole runs: a stored fenced emission had a running attempt with a lease beyond its time, and
   * between two stored emissions of different attempts or generations of one Task the reconciler reassigned the
   * Task.
   */
  lemma {:induction false} AttemptsAreFenced(db: Db, x: Event, now: int, steps: seq<Step>, y: Event, later: int)
    requires Shaped(db) && Publish(db, x, now).Stored?
    requires Publish(Run(Publish(db, x, now).db, steps), y, later).Stored?
    requires x.fence.Some? && y.fence.Some? && x.fence.value.owner == y.fence.value.owner
    ensures var a := TaskRef(x.fence.value.owner.app, x.fence.value.attempt);
            a in db.attempts && db.attempts[a].running && db.attempts[a].leaseUntil.Some?
              && now < db.attempts[a].leaseUntil.value
    ensures x.fence != y.fence ==> exists i | 0 <= i < |steps| :: Reassigns(steps[i], x.fence.value.owner)
  {
    var t := x.fence.value.owner;
    var stored := Publish(db, x, now).db;
    assert t in stored.tasks && stored.tasks[t].currentAttempt == db.tasks[t].currentAttempt
        && stored.tasks[t].generation == db.tasks[t].generation;
    if forall i | 0 <= i < |steps| :: !Reassigns(steps[i], t) {
      UnassignedKeepsAttempt(stored, steps, t);
    }
  }

  // ---- Wakes and projections are exactly those of the stored events ----

  /** The event wakes the Task: it names it, in a resource App, and is fenced or ends an escalation. */
  ghost predicate Wakes(e: Event, t: TaskRef, apps: set<string>) {
    && e.target == Some(t) && t.app in apps
    && (e.fence.Some? || e.kind == EscalationResolved || e.kind == EscalationDismissed)
  }

  /** A stored event wakes exactly the Task it wakes, once, and leaves every other Task as it was. */
  lemma {:induction false} StoredWakesExactly(db: Db, e: Event, now: int, t: TaskRef)
    requires Shaped(db) && Publish(db, e, now).Stored?
    ensures var stored, tasks := Publish(db, e, now), Publish(db, e, now).db.tasks;
            && tasks.Keys == db.tasks.Keys
            && (Wakes(e, t, db.resourceApps) ==>
                && t in db.tasks
                && tasks[t].wakes == db.tasks[t].wakes + [Wake(stored.id, now)]
                && tasks[t].version == db.tasks[t].version + 1
                && tasks[t].changed && tasks[t].ready && tasks[t].updatedAt == now
                && tasks[t].generation == db.tasks[t].generation
                && tasks[t].currentAttempt == db.tasks[t].currentAttempt)
            && (!Wakes(e, t, db.resourceApps) && t in db.tasks ==> tasks[t] == db.tasks[t])
  {
  }

  /** The attempt that a fence names is the current one of its Task, runs, and holds a lease beyond `now`. */
  ghost predicate AttemptHolds(db: Db, f: Fence, now: int) {
    && f.owner.app in db.resourceApps && f.owner in db.tasks && TaskRef(f.owner.app, f.attempt) in db.attempts
    && var task, attempt := db.tasks[f.owner], db.attempts[TaskRef(f.owner.app, f.attempt)];
    && task.currentAttempt == Some(f.attempt) && task.generation == f.generation == attempt.generation
    && attempt.running && attempt.leaseUntil.Some? && now < attempt.leaseUntil.value
  }

  /** The event would wake a Task that does not exist. */
  ghost predicate WakesNobody(db: Db, e: Event) {
    e.target.Some? && Wakes(e, e.target.value, db.resourceApps) && e.target.value !in db.tasks
  }

  ghost predicate Known(log: seq<Logged>, e: Event) {
    e.identity.Some?
    && exists i | 0 <= i < |log| :: log[i].event.kind == e.kind && log[i].event.identity == e.identity
  }

  /** Every outcome of a publication, and exactly when it comes about; only a stored one changes anything. */
  lemma {:induction false} PublishExactlyWhen(db: Db, e: Event, now: int)
    requires Shaped(db)
    ensures var p := Publish(db, e, now);
            && (p.Retried? || p == Refused(KeyReused) <==> Known(db.log, e))
            && (!Known(db.log, e) ==>
                if e.fence.Some? && !AttemptHolds(db, e.fence.value, now) then p == Refused(StaleAttempt)
                else if WakesNobody(db, e) then p == Refused(MissingTarget)
                else if e.effect.Threshold? && e.effect.metric !in db.thresholds then p == Refused(UnknownMetric)
                else p.Stored?)
            && (!p.Stored? ==> Next(db, Publishing(e, now)) == db)
  {
    var found := Find(db.log, e);
    if found.Some? {
      assert SameIdentity(db.log[found.value].event, e);
    }
  }

  /** The wakes of one Task owed by the stored events from position `n` on. */
  ghost function WakesFrom(log: seq<Logged>, n: nat, t: TaskRef, apps: set<string>): seq<Wake>
    decreases |log|
  {
    if |log| <= n then []
    else
      var last := log[|log| - 1];
      WakesFrom(log[..|log| - 1], n, t, apps)
      + (if Wakes(last.event, t, apps) then [Wake(|log|, last.at)] else [])
  }

  function EvaluationsFrom(start: map<string, string>, log: seq<Logged>, n: nat): map<string, string>
    decreases |log|
  {
    if |log| <= n then start
    else
      var so := EvaluationsFrom(start, log[..|log| - 1], n);
      var e := log[|log| - 1].event.effect;
      if e.Evaluation? then so[e.session := e.verdict] else so
  }

  function ThresholdsFrom(start: map<string, real>, log: seq<Logged>, n: nat): map<string, real>
    decreases |log|
  {
    if |log| <= n then start
    else
      var so := ThresholdsFrom(start, log[..|log| - 1], n);
      var e := log[|log| - 1].event.effect;
      if e.Threshold? then so[e.metric := e.limit] else so
  }

  ghost predicate TablesOweTo(start: Db, db: Db) {
    var n := |start.log|;
    && db.resourceApps == start.resourceApps
    && db.tasks.Keys == start.tasks.Keys
    && (forall t | t in start.tasks ::
        && db.tasks[t].wakes == start.tasks[t].wakes + WakesFrom(db.log, n, t, start.resourceApps)
        && db.tasks[t].version == start.tasks[t].version + |WakesFrom(db.log, n, t, start.resourceApps)|)
    && db.evaluations == EvaluationsFrom(start.evaluations, db.log, n)
    && db.thresholds == ThresholdsFrom(start.thresholds, db.log, n)
  }

  lemma {:induction false} FoldsAfterAppend(start: Db, log: seq<Logged>, l: Logged, t: TaskRef)
    requires |start.log| <= |log|
    ensures WakesFrom(log + [l], |start.log|, t, start.resourceApps)
         == WakesFrom(log, |start.log|, t, start.resourceApps)
            + (if Wakes(l.event, t, start.resourceApps) then [Wake(|log| + 1, l.at)] else [])
    ensures var so := EvaluationsFrom(start.evaluations, log, |start.log|);
            EvaluationsFrom(start.evaluations, log + [l], |start.log|) ==
            if l.event.effect.Evaluation? then so[l.event.effect.session := l.event.effect.verdict] else so
    ensures var so := ThresholdsFrom(start.thresholds, log, |start.log|);
            ThresholdsFrom(start.thresholds, log + [l], |start.log|) ==
            if l.event.effect.Threshold? then so[l.event.effect.metric := l.event.effect.limit] else so
  {
    assert (log + [l])[..|log|] == log;
  }

  lemma {:induction false} OneMoreWake(before: seq<Wake>, owed: seq<Wake>, w: Wake)
    ensures before + owed + [w] == before + (owed + [w]) && owed + [] == owed
  {
  }

  lemma {:induction false} WakesAfterStore(start: Db, db: Db, e: Event, now: int, t: TaskRef)
    requires Shaped(db) && |start.log| <= |db.log| && TablesOweTo(start, db) && Publish(db, e, now).Stored?
    requires t in start.tasks
    ensures var tasks := Publish(db, e, now).db.tasks;
            var owed := WakesFrom(db.log + [Logged(e, now)], |start.log|, t, start.resourceApps);
            && tasks.Keys == db.tasks.Keys
            && tasks[t].wakes == start.tasks[t].wakes + owed
            && tasks[t].version == start.tasks[t].version + |owed|
  {
    FoldsAfterAppend(start, db.log, Logged(e, now), t);
    StoredWakesExactly(db, e, now, t);
    OneMoreWake(start.tasks[t].wakes, WakesFrom(db.log, |start.log|, t, start.resourceApps), Wake(|db.log| + 1, now));
  }

  lemma {:induction false} StepKeepsTables(start: Db, db: Db, s: Step)
    requires Shaped(db) && |start.log| <= |db.log| && TablesOweTo(start, db)
    ensures TablesOweTo(start, Next(db, s))
  {
    if s.Publishing? && Publish(db, s.event, s.now).Stored? {
      var next := Next(db, s);
      assert next.log == db.log + [Logged(s.event, s.now)];
      FoldsAfterAppend(start, db.log, Logged(s.event, s.now), TaskRef("", ""));
      assert next.tasks.Keys == start.tasks.Keys by {
        if t :| t in start.tasks { WakesAfterStore(start, db, s.event, s.now, t); }
      }
      forall t | t in start.tasks ensures
        && next.tasks[t].wakes == start.tasks[t].wakes + WakesFrom(next.log, |start.log|, t, start.resourceApps)
        && next.tasks[t].version == start.tasks[t].version + |WakesFrom(next.log, |start.log|, t, start.resourceApps)|
      {
        WakesAfterStore(start, db, s.event, s.now, t);
      }
    }
  }

  lemma {:induction false} TablesOweToThrough(start: Db, db: Db, steps: seq<Step>)
    requires Shaped(db) && |start.log| <= |db.log| && TablesOweTo(start, db)
    ensures TablesOweTo(start, Run(db, steps))
    decreases |steps|
  {
    if steps != [] {
      StepKeepsTables(start, db, steps[0]);
      TablesOweToThrough(start, Next(db, steps[0]), steps[1..]);
    }
  }

  /** One wake per stored exact-target event, in log order, and projections folded once per stored event. */
  lemma {:induction false} TablesReplayStoredEvents(db: Db, steps: seq<Step>)
    requires Shaped(db)
    ensures TablesOweTo(db, Run(db, steps))
  {
    TablesOweToThrough(db, db, steps);
  }
}
