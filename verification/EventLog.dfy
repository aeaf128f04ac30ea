/** The event store: keyed publication, open/close pair runs, exact Task wakes and projections. */
module EventLog {
  import opened Prelude
  import D = Delivery

  // ---- Event kinds and the pair contracts ----

  datatype Kind =
    | SessionStart | SessionIdle | SessionEnd
    | HandlerStarted | HandlerCompleted | HandlerFailed
    | WorkflowStarted | WorkflowCompleted | WorkflowFailed | WorkflowBlocked | WorkflowInterrupted
    | EscalationCreated | EscalationResolved | EscalationDismissed
    | CliTaskRequested | CliTaskStarted | CliTaskCompleted | CliTaskFailed | CliTaskOrphaned
    | Other(name: string)

  datatype Pair = Session | Handler | Workflow | Escalation | CliTaskRequest | CliTask

  const CONTRACTS: seq<Pair> := [Session, Handler, Workflow, Escalation, CliTaskRequest, CliTask]

  function Opening(k: Kind): Option<Pair> {
    match k
    case SessionStart => Some(Session)
    case HandlerStarted => Some(Handler)
    case WorkflowStarted => Some(Workflow)
    case EscalationCreated => Some(Escalation)
    case CliTaskRequested => Some(CliTaskRequest)
    case CliTaskStarted => Some(CliTask)
    case _ => None
  }

  predicate Ends(k: Kind, p: Pair) {
    match p
    case Session => k.SessionIdle? || k.SessionEnd?
    case Handler => k.HandlerCompleted? || k.HandlerFailed?
    case Workflow => k.WorkflowCompleted? || k.WorkflowFailed? || k.WorkflowBlocked? || k.WorkflowInterrupted?
    case Escalation => k.EscalationResolved? || k.EscalationDismissed?
    case CliTaskRequest => k.CliTaskStarted? || k.CliTaskFailed?
    case CliTask => k.CliTaskCompleted? || k.CliTaskFailed? || k.CliTaskOrphaned?
  }

  function Timeout(p: Pair): int {
    match p
    case Session => 60 * 60 * 1000
    case Escalation => 24 * 60 * 60 * 1000
    case CliTaskRequest => 60 * 60 * 1000
    case _ => 45 * 60 * 1000
  }

  const DEFAULT_TTL: int := 2 * 60 * 1000
  const EARLIER_SCAN_LIMIT: nat := 200

  // ---- Events ----

  /** The payload fields the contracts read, already trimmed; blank fields are absent. */
  datatype Payload = Payload(
    session: Option<string>, workflow: Option<string>, handlerRun: Option<string>,
    handler: Option<string>, escalation: Option<string>, task: Option<string>,
    openEvent: Option<int>)

  /** The correlation columns: untrimmed, with fallback spellings, overlaid by target and fence. */
  datatype Columns = Columns(
    session: Option<string>, workflow: Option<string>, escalation: Option<string>, task: Option<string>)

  datatype Identity = Identity(ingress: string, scope: string, key: string)
  datatype TaskRef = TaskRef(app: string, task: string)
  datatype Fence = Fence(owner: TaskRef, generation: int, attempt: string)

  /** The projection an event carries into the same transaction. */
  datatype Effect = NoEffect | Evaluation(session: string, verdict: string) | Threshold(metric: string, limit: real)

  /** One publication; `canonical` is the input that the idempotency hash covers. */
  datatype Event = Event(
    kind: Kind, identity: Option<Identity>, canonical: string,
    payload: Payload, columns: Columns,
    fence: Option<Fence>, target: Option<TaskRef>,
    source: Option<string>, owner: Option<string>, recordOnly: bool, ttl: Option<int>, effect: Effect)

  function Key(p: Pair, x: Payload): Option<string> {
    match p
    case Session => x.session
    case Handler => OrElse(x.handlerRun, OrElse(x.workflow, x.handler))
    case Workflow => x.workflow
    case Escalation => x.escalation
    case CliTaskRequest => x.task
    case CliTask => x.task
  }

  /** Only the handler contract has no correlation column. */
  predicate HasColumn(p: Pair) { p != Handler }

  function Column(p: Pair, x: Columns): Option<string> {
    match p
    case Session => x.session
    case Handler => None
    case Workflow => x.workflow
    case Escalation => x.escalation
    case CliTaskRequest => x.task
    case CliTask => x.task
  }

  /** Ends a run of `p` with key `k` that is already open when the event arrives. */
  predicate EndsByKey(e: Event, p: Pair, k: string) { Ends(e.kind, p) && Key(p, e.payload) == Some(k) }

  /** Ends a run of `p` with key `k` that opens after the event arrived. */
  predicate EndsByColumn(e: Event, p: Pair, k: string) { Ends(e.kind, p) && Column(p, e.columns) == Some(k) }

  predicate Follows(e: Event, openId: int) { e.payload.openEvent == Some(openId) }

  // ---- Tables ----

  /** The columns of an event row that never change; its id is its position plus one. */
  datatype Logged = Logged(event: Event, at: int)

  datatype RunStatus = Open | Orphan | Closed

  datatype PairRun = PairRun(
    pair: Pair, key: string, openId: int, owner: Option<string>, status: RunStatus,
    openedAt: int, expectedCloseAt: int, closeId: Option<int>, closedAt: Option<int>)

  datatype Wake = Wake(eventId: int, at: int)

  datatype TaskRow = TaskRow(
    generation: int, currentAttempt: Option<string>, changed: bool, ready: bool,
    wakes: seq<Wake>, version: nat, updatedAt: int)

  datatype Attempt = Attempt(generation: int, running: bool, leaseUntil: Option<int>)

  /**
   * `log` and `receipts` together are the events table: its fixed and its delivery columns.
   * `closures` holds the closure links as (closing id, opening id).
   */
  datatype Db = Db(
    log: seq<Logged>, receipts: seq<D.Receipt>,
    runs: seq<PairRun>, closures: set<(int, int)>,
    tasks: map<TaskRef, TaskRow>, attempts: map<TaskRef, Attempt>, resourceApps: set<string>,
    evaluations: map<string, string>, thresholds: map<string, real>)

  // ---- Pair runs ----

  function Close(r: PairRun, id: int, at: int): PairRun {
    r.(status := Closed, closeId := Some(id), closedAt := Some(at))
  }

  predicate Unclosed(r: PairRun) { r.status != Closed }

  /** An unclosed run that the event names as the one it follows, or ends by key under one of the contracts. */
  predicate Matches(r: PairRun, e: Event, byFollowUp: bool, contracts: seq<Pair>) {
    && Unclosed(r)
    && ((byFollowUp && Follows(e, r.openId)) || (r.pair in contracts && EndsByKey(e, r.pair, r.key)))
  }

  function CloseMatching(runs: seq<PairRun>, e: Event, id: int, at: int, byFollowUp: bool, contracts: seq<Pair>)
    : (out: seq<PairRun>)
    ensures |out| == |runs|
  {
    seq(|runs|, i requires 0 <= i < |runs| =>
      if Matches(runs[i], e, byFollowUp, contracts) then Close(runs[i], id, at) else runs[i])
  }

  function LinksFor(runs: seq<PairRun>, e: Event, id: int, byFollowUp: bool, contracts: seq<Pair>): set<(int, int)> {
    set i | 0 <= i < |runs| && Matches(runs[i], e, byFollowUp, contracts) :: (id, runs[i].openId)
  }

  /** The most recent event whose correlation column matches. */
  function LatestByColumn(log: seq<Logged>, p: Pair, k: string): Option<int>
    decreases |log|
  {
    if log == [] then None
    else if EndsByColumn(log[|log| - 1].event, p, k) then Some(|log|)
    else LatestByColumn(log[..|log| - 1], p, k)
  }

  /** Among the last `budget` events of a closing kind, the most recent whose stored key matches. */
  function LatestByKey(log: seq<Logged>, p: Pair, k: string, budget: nat): Option<int>
    decreases |log|
  {
    if log == [] || budget == 0 then None
    else
      var e := log[|log| - 1].event;
      if !Ends(e.kind, p) then LatestByKey(log[..|log| - 1], p, k, budget)
      else if Key(p, e.payload) == Some(k) then Some(|log|)
      else LatestByKey(log[..|log| - 1], p, k, budget - 1)
  }

  function EarlierCloser(log: seq<Logged>, p: Pair, k: string): (c: Option<int>)
    ensures c.Some? ==> 1 <= c.value <= |log|
  {
    var found := if HasColumn(p) then LatestByColumn(log, p, k) else LatestByKey(log, p, k, EARLIER_SCAN_LIMIT);
    EarlierInRange(log, p, k, EARLIER_SCAN_LIMIT);
    found
  }

  lemma {:induction false} EarlierInRange(log: seq<Logged>, p: Pair, k: string, budget: nat)
    ensures LatestByColumn(log, p, k).Some? ==> 1 <= LatestByColumn(log, p, k).value <= |log|
    ensures LatestByKey(log, p, k, budget).Some? ==> 1 <= LatestByKey(log, p, k, budget).value <= |log|
    decreases |log|
  {
    if log != [] {
      EarlierInRange(log[..|log| - 1], p, k, budget);
      if budget > 0 { EarlierInRange(log[..|log| - 1], p, k, budget - 1); }
    }
  }

  /** The run a freshly stored event opens, if it opens one, given the log before it. */
  function Opened(log: seq<Logged>, e: Event, at: int): Option<PairRun> {
    if Opening(e.kind).None? || Key(Opening(e.kind).value, e.payload).None? then None
    else
      var p := Opening(e.kind).value;
      var k := Key(p, e.payload).value;
      var run := PairRun(p, k, |log| + 1, e.owner, Open, at, at + Timeout(p), None, None);
      match EarlierCloser(log, p, k)
      case None => Some(run)
      case Some(c) => Some(Close(run, c, Max(at, log[c - 1].at)))
  }

  // ---- Task wakes, fences and projections ----

  datatype Refusal = KeyReused | StaleAttempt | MissingTarget | UnknownMetric

  predicate Owns(tasks: map<TaskRef, TaskRow>, attempts: map<TaskRef, Attempt>, apps: set<string>, f: Fence, now: int) {
    var a := TaskRef(f.owner.app, f.attempt);
    && f.owner.app in apps
    && f.owner in tasks && tasks[f.owner].generation == f.generation && tasks[f.owner].currentAttempt == Some(f.attempt)
    && a in attempts && attempts[a].generation == f.generation && attempts[a].running
    && attempts[a].leaseUntil.Some? && attempts[a].leaseUntil.value > now
  }

  /** The Task an event wakes exactly: only fenced emissions and escalation endings, only resource Apps. */
  function WakeTarget(e: Event, apps: set<string>): Option<TaskRef> {
    if (e.fence.Some? || e.kind.EscalationResolved? || e.kind.EscalationDismissed?)
       && e.target.Some? && e.target.value.app in apps
    then e.target else None
  }

  function Woken(row: TaskRow, id: int, at: int): TaskRow {
    row.(changed := true, ready := true, wakes := row.wakes + [Wake(id, at)],
         version := row.version + 1, updatedAt := at)
  }

  function WakeTask(tasks: map<TaskRef, TaskRow>, apps: set<string>, e: Event, id: int, at: int)
    : Result<map<TaskRef, TaskRow>, Refusal>
  {
    match WakeTarget(e, apps)
    case None => Ok(tasks)
    case Some(t) => if t in tasks then Ok(tasks[t := Woken(tasks[t], id, at)]) else Err(MissingTarget)
  }

  // ---- Publication ----

  predicate SameIdentity(x: Event, y: Event) {
    x.identity.Some? && x.kind == y.kind && x.identity == y.identity
  }

  /** Position of the row that already holds the event's identity. */
  function Find(log: seq<Logged>, e: Event): (i: Option<nat>)
    ensures i.Some? ==> i.value < |log| && SameIdentity(log[i.value].event, e)
    ensures i.None? ==> forall j | 0 <= j < |log| :: !SameIdentity(log[j].event, e)
    decreases |log|
  {
    if log == [] then None
    else if SameIdentity(log[|log| - 1].event, e) then Some(|log| - 1)
    else Find(log[..|log| - 1], e)
  }

  /** What a retried event gets back from the stored one before it is routed again. */
  datatype Restored = Restored(source: Option<string>, owner: Option<string>, at: int, recordOnly: bool)

  function Restore(original: Logged, e: Event): Restored {
    Restored(OrElse(original.event.source, e.source), OrElse(original.event.owner, e.owner), original.at,
             original.event.recordOnly)
  }

  datatype Published =
    | Stored(db: Db, id: int)
    | Retried(id: int, reply: D.Reply, both: bool, restored: Restored)
    | Refused(why: Refusal)

  predicate Shaped(db: Db) { |db.receipts| == |db.log| }

  function Publish(db: Db, e: Event, now: int): Published
    requires Shaped(db)
  {
    var found := Find(db.log, e);
    if found.Some? then
      if db.log[found.value].event.canonical != e.canonical then Refused(KeyReused)
      else
        var (reply, both) := D.RetryReply(db.receipts[found.value]);
        Retried(found.value + 1, reply, both, Restore(db.log[found.value], e))
    else if e.fence.Some? && !Owns(db.tasks, db.attempts, db.resourceApps, e.fence.value, now) then
      Refused(StaleAttempt)
    else
      var id := |db.log| + 1;
      match WakeTask(db.tasks, db.resourceApps, e, id, now)
      case Err(why) => Refused(why)
      case Ok(tasks) =>
        if e.effect.Threshold? && e.effect.metric !in db.thresholds then Refused(UnknownMetric)
        else Stored(AfterStore(db, e, now, tasks), id)
  }

  /** The tables after a committed insert. */
  function AfterStore(db: Db, e: Event, now: int, tasks: map<TaskRef, TaskRow>): Db {
    var id := |db.log| + 1;
    var added := Opened(db.log, e, now);
    Db( db.log + [Logged(e, now)],
        db.receipts + [D.FRESH],
        CloseMatching(db.runs, e, id, now, true, CONTRACTS) + (if added.Some? then [added.value] else []),
        db.closures + LinksFor(db.runs, e, id, true, CONTRACTS)
          + (if added.Some? && added.value.closeId.Some? then {(added.value.closeId.value, id)} else {}),
        tasks, db.attempts, db.resourceApps,
        if e.effect.Evaluation? then db.evaluations[e.effect.session := e.effect.verdict] else db.evaluations,
        if e.effect.Threshold? then db.thresholds[e.effect.metric := e.effect.limit] else db.thresholds)
  }

  // ---- Steps of the store ----

  datatype Step =
    | Publishing(event: Event, now: int)
    | Reporting(id: int, outcome: D.Outcome, now: int)
    | SweepingEvents(now: int, planned: set<int>)
    | SweepingPairs(now: int)
    | Leasing(attempts: map<TaskRef, Attempt>)
    | Assigning(task: TaskRef, generation: int, attempt: Option<string>)

  function Deadline(l: Logged): int { l.at + (if l.event.ttl.Some? then l.event.ttl.value else DEFAULT_TTL) }

  function Reported(db: Db, id: int, o: D.Outcome, now: int): (r: seq<D.Receipt>)
    requires Shaped(db)
    ensures |r| == |db.receipts|
  {
    if 1 <= id <= |db.log| then
      db.receipts[id - 1 := D.Record(db.receipts[id - 1], o, now, db.log[id - 1].event.recordOnly)]
    else db.receipts
  }

  function SweptEvents(db: Db, now: int, planned: set<int>): (r: seq<D.Receipt>)
    requires Shaped(db)
    ensures |r| == |db.receipts|
  {
    seq(|db.log|, i requires 0 <= i < |db.log| => D.Expire(db.receipts[i], Deadline(db.log[i]), now, i + 1 in planned))
  }

  function SweptRun(r: PairRun, now: int): PairRun {
    if r.status == Open && r.expectedCloseAt < now then r.(status := Orphan) else r
  }

  function SweptPairs(runs: seq<PairRun>, now: int): (out: seq<PairRun>)
    ensures |out| == |runs|
  {
    seq(|runs|, i requires 0 <= i < |runs| => SweptRun(runs[i], now))
  }

  /** The reconciler gives a Task a new generation or attempt. */
  function Assigned(tasks: map<TaskRef, TaskRow>, t: TaskRef, generation: int, attempt: Option<string>)
    : map<TaskRef, TaskRow>
  {
    if t in tasks then tasks[t := tasks[t].(generation := generation, currentAttempt := attempt)] else tasks
  }

  function Next(db: Db, s: Step): (db': Db)
    requires Shaped(db)
    ensures Shaped(db')
  {
    match s
    case Publishing(e, now) => var p := Publish(db, e, now); if p.Stored? then p.db else db
    case Reporting(id, o, now) => db.(receipts := Reported(db, id, o, now))
    case SweepingEvents(now, planned) => db.(receipts := SweptEvents(db, now, planned))
    case SweepingPairs(now) => db.(runs := SweptPairs(db.runs, now))
    case Leasing(attempts) => db.(attempts := attempts)
    case Assigning(t, generation, attempt) => db.(tasks := Assigned(db.tasks, t, generation, attempt))
  }

  function Run(db: Db, steps: seq<Step>): (db': Db)
    requires Shaped(db)
    ensures Shaped(db')
    decreases |steps|
  {
    if steps == [] then db else Run(Next(db, steps[0]), steps[1..])
  }

  // ---- The run table is determined by the log ----

  /** The first event after the opening one that follows it up or ends it by key. */
  function LaterCloser(log: seq<Logged>, openId: int, p: Pair, k: string): (c: Option<int>)
    ensures c.Some? ==> openId < c.value <= |log|
    decreases |log|
  {
    if |log| == 0 || |log| <= openId then None
    else
      var before := LaterCloser(log[..|log| - 1], openId, p, k);
      var e := log[|log| - 1].event;
      if before.Some? then before
      else if Follows(e, openId) || EndsByKey(e, p, k) then Some(|log|)
      else None
  }

  function Closer(log: seq<Logged>, openId: int, p: Pair, k: string): Option<int>
    requires 1 <= openId <= |log|
  {
    OrElse(EarlierCloser(log[..openId - 1], p, k), LaterCloser(log, openId, p, k))
  }

  function CloseTime(log: seq<Logged>, openId: int, c: int): int
    requires 1 <= openId <= |log| && 1 <= c <= |log|
  {
    if c < openId then Max(log[openId - 1].at, log[c - 1].at) else log[c - 1].at
  }

  /** The ids of the events that open a run, in order. */
  function OpenIds(log: seq<Logged>): (ids: seq<int>)
    ensures forall i | 0 <= i < |ids| :: 1 <= ids[i] <= |log| && Opens(log[ids[i] - 1].event)
    decreases |log|
  {
    if log == [] then []
    else
      var ids := OpenIds(log[..|log| - 1]);
      if Opens(log[|log| - 1].event) then ids + [|log|] else ids
  }

  predicate Opens(e: Event) { Opening(e.kind).Some? && Key(Opening(e.kind).value, e.payload).Some? }

  /** Everything about a run except whether an overdue one is marked orphan follows from the log. */
  ghost predicate Replays(r: PairRun, log: seq<Logged>, o: int)
    requires 1 <= o <= |log| && Opens(log[o - 1].event)
  {
    var e := log[o - 1].event;
    var p := Opening(e.kind).value;
    var k := Key(p, e.payload).value;
    var c := Closer(log, o, p, k);
    && r.pair == p && r.key == k && r.openId == o && r.owner == e.owner
    && r.openedAt == log[o - 1].at && r.expectedCloseAt == log[o - 1].at + Timeout(p)
    && (r.status == Closed <==> c.Some?)
    && r.closeId == c
    && r.closedAt == (if c.Some? then Some(CloseTime(log, o, c.value)) else None)
  }

  ghost predicate RunsReplayLog(log: seq<Logged>, runs: seq<PairRun>) {
    && |runs| == |OpenIds(log)|
    && forall i | 0 <= i < |runs| :: Replays(runs[i], log, OpenIds(log)[i])
  }

  ghost predicate KeysUnique(log: seq<Logged>) {
    forall i, j | 0 <= i < j < |log| :: !SameIdentity(log[i].event, log[j].event)
  }

  /** The closure links of the closed runs. */
  ghost function Links(runs: seq<PairRun>): set<(int, int)> {
    set i | 0 <= i < |runs| && runs[i].closeId.Some? :: (runs[i].closeId.value, runs[i].openId)
  }

  ghost predicate Valid(db: Db) {
    && Shaped(db)
    && KeysUnique(db.log)
    && (forall i | 0 <= i < |db.receipts| :: D.WellFormed(db.receipts[i]))
    && RunsReplayLog(db.log, db.runs)
    && db.closures == Links(db.runs)
  }

  predicate Empty(db: Db) { db.log == [] && db.receipts == [] && db.runs == [] && db.closures == {} }

  // ---- Every step keeps it ----

  /** Appending to the log changes a run's closer only by closing an unclosed run with the new event. */
  lemma {:induction false} CloserAfterAppend(log: seq<Logged>, l: Logged, o: int, p: Pair, k: string)
    requires 1 <= o <= |log|
    ensures Closer(log + [l], o, p, k) ==
            (if Closer(log, o, p, k).Some? then Closer(log, o, p, k)
             else if Follows(l.event, o) || EndsByKey(l.event, p, k) then Some(|log| + 1)
             else None)
    ensures Closer(log, o, p, k).Some? ==>
            && 1 <= Closer(log, o, p, k).value <= |log|
            && CloseTime(log + [l], o, Closer(log, o, p, k).value) == CloseTime(log, o, Closer(log, o, p, k).value)
  {
    assert (log + [l])[..o - 1] == log[..o - 1];
    assert (log + [l])[..|log|] == log;
  }

  lemma {:induction false} OpenIdsAfterAppend(log: seq<Logged>, l: Logged)
    ensures OpenIds(log + [l]) == OpenIds(log) + (if Opens(l.event) then [|log| + 1] else [])
  {
    assert (log + [l])[..|log|] == log;
  }

  lemma {:induction false} OldRunReplays(log: seq<Logged>, l: Logged, r: PairRun, o: int)
    requires 1 <= o <= |log| && Opens(log[o - 1].event)
    requires Replays(r, log, o)
    ensures Replays(if Matches(r, l.event, true, CONTRACTS) then Close(r, |log| + 1, l.at) else r, log + [l], o)
  {
    CloserAfterAppend(log, l, o, r.pair, r.key);
    assert r.pair in CONTRACTS;
  }

  lemma {:induction false} NewRunReplays(log: seq<Logged>, l: Logged)
    requires Opens(l.event)
    ensures Replays(Opened(log, l.event, l.at).value, log + [l], |log| + 1)
  {
    var p := Opening(l.event.kind).value;
    var k := Key(p, l.event.payload).value;
    assert (log + [l])[..|log|] == log;
    assert Closer(log + [l], |log| + 1, p, k) == EarlierCloser(log, p, k);
  }

  lemma {:induction false} RunsReplayAfterStore(db: Db, e: Event, now: int, tasks: map<TaskRef, TaskRow>)
    requires Shaped(db) && RunsReplayLog(db.log, db.runs)
    ensures RunsReplayLog(AfterStore(db, e, now, tasks).log, AfterStore(db, e, now, tasks).runs)
  {
    var l := Logged(e, now);
    var log', runs' := AfterStore(db, e, now, tasks).log, AfterStore(db, e, now, tasks).runs;
    OpenIdsAfterAppend(db.log, l);
    assert Opened(db.log, e, now).Some? <==> Opens(e);
    forall i | 0 <= i < |runs'| ensures Replays(runs'[i], log', OpenIds(log')[i]) {
      if i < |db.runs| {
        OldRunReplays(db.log, l, db.runs[i], OpenIds(db.log)[i]);
      } else {
        NewRunReplays(db.log, l);
      }
    }
  }

  lemma {:induction false} LinksAfterClosing(runs: seq<PairRun>, e: Event, id: int, at: int)
    requires forall i | 0 <= i < |runs| :: Unclosed(runs[i]) ==> runs[i].closeId.None?
    ensures Links(CloseMatching(runs, e, id, at, true, CONTRACTS)) ==
            Links(runs) + LinksFor(runs, e, id, true, CONTRACTS)
  {
    var out := CloseMatching(runs, e, id, at, true, CONTRACTS);
    forall x | x in Links(out) ensures x in Links(runs) + LinksFor(runs, e, id, true, CONTRACTS) {
      var i :| 0 <= i < |out| && out[i].closeId.Some? && x == (out[i].closeId.value, out[i].openId);
      assert out[i] == if Matches(runs[i], e, true, CONTRACTS) then Close(runs[i], id, at) else runs[i];
    }
    forall x | x in Links(runs) ensures x in Links(out) {
      var i :| 0 <= i < |runs| && runs[i].closeId.Some? && x == (runs[i].closeId.value, runs[i].openId);
      assert out[i] == runs[i];
    }
    forall x | x in LinksFor(runs, e, id, true, CONTRACTS) ensures x in Links(out) {
      var i :| 0 <= i < |runs| && Matches(runs[i], e, true, CONTRACTS) && x == (id, runs[i].openId);
      assert out[i] == Close(runs[i], id, at);
    }
  }

  lemma {:induction false} LinksAfterOpening(runs: seq<PairRun>, r: PairRun)
    ensures Links(runs + [r]) == Links(runs) + (if r.closeId.Some? then {(r.closeId.value, r.openId)} else {})
  {
    var out := runs + [r];
    forall x | x in Links(runs) ensures x in Links(out) {
      var i :| 0 <= i < |runs| && runs[i].closeId.Some? && x == (runs[i].closeId.value, runs[i].openId);
      assert out[i] == runs[i];
    }
    assert out[|runs|] == r;
  }

  lemma {:induction false} UnclosedHasNoCloser(log: seq<Logged>, runs: seq<PairRun>)
    requires RunsReplayLog(log, runs)
    ensures forall i | 0 <= i < |runs| :: Unclosed(runs[i]) ==> runs[i].closeId.None?
  {
    forall i | 0 <= i < |runs| ensures Unclosed(runs[i]) ==> runs[i].closeId.None? {
      assert Replays(runs[i], log, OpenIds(log)[i]);
    }
  }

  lemma {:induction false} LinksReplayAfterStore(db: Db, e: Event, now: int, tasks: map<TaskRef, TaskRow>)
    requires Shaped(db) && RunsReplayLog(db.log, db.runs) && db.closures == Links(db.runs)
    ensures AfterStore(db, e, now, tasks).closures == Links(AfterStore(db, e, now, tasks).runs)
  {
    var id := |db.log| + 1;
    UnclosedHasNoCloser(db.log, db.runs);
    LinksAfterClosing(db.runs, e, id, now);
    var kept := CloseMatching(db.runs, e, id, now, true, CONTRACTS);
    var added := Opened(db.log, e, now);
    if added.Some? {
      LinksAfterOpening(kept, added.value);
    } else {
      assert kept + [] == kept;
    }
  }

  lemma {:induction false} StoreKeepsValid(db: Db, e: Event, now: int)
    requires Valid(db) && Publish(db, e, now).Stored?
    ensures Valid(Publish(db, e, now).db)
  {
    var tasks := WakeTask(db.tasks, db.resourceApps, e, |db.log| + 1, now).value;
    RunsReplayAfterStore(db, e, now, tasks);
    LinksReplayAfterStore(db, e, now, tasks);
    assert forall i | 0 <= i < |db.log| :: SameIdentity(db.log[i].event, e) <==> SameIdentity(e, db.log[i].event);
  }

  lemma {:induction false} SweepKeepsReplay(db: Db, now: int)
    requires Valid(db)
    ensures Valid(db.(runs := SweptPairs(db.runs, now)))
  {
    var runs' := SweptPairs(db.runs, now);
    assert forall i | 0 <= i < |runs'| :: runs'[i] == SweptRun(db.runs[i], now);
    forall i | 0 <= i < |runs'| ensures Replays(runs'[i], db.log, OpenIds(db.log)[i]) {
      assert Replays(db.runs[i], db.log, OpenIds(db.log)[i]);
    }
    assert Links(runs') == Links(db.runs);
  }

  lemma {:induction false} ReceiptsStayWellFormed(db: Db, s: Step)
    requires Valid(db) && (s.Reporting? || s.SweepingEvents?)
    ensures Valid(Next(db, s))
  {
  }

  lemma {:induction false} StepKeepsValid(db: Db, s: Step)
    requires Valid(db)
    ensures Valid(Next(db, s))
  {
    match s
    case Publishing(e, now) => if Publish(db, e, now).Stored? { StoreKeepsValid(db, e, now); }
    case Reporting(_, _, _) => ReceiptsStayWellFormed(db, s);
    case SweepingEvents(_, _) => ReceiptsStayWellFormed(db, s);
    case SweepingPairs(now) => SweepKeepsReplay(db, now);
    case Leasing(_) =>
    case Assigning(_, _, _) =>
  }

  /** In every reachable state: keys are unique, receipts well formed, runs and links are the log's replay. */
  lemma {:induction false} RunKeepsValid(db: Db, steps: seq<Step>)
    requires Valid(db)
    ensures Valid(Run(db, steps))
    decreases |steps|
  {
    if steps != [] {
      StepKeepsValid(db, steps[0]);
      RunKeepsValid(Next(db, steps[0]), steps[1..]);
    }
  }
}
