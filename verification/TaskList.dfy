/** The three Task tables and their two merges: the exact read and the list. */
module TaskList {
  import opened Prelude
  import opened TaskPages

  datatype Ref = Ref(app: string, task: string)

  /** Stored phases; `OtherPhase` is anything the list does not know. */
  datatype Phase = Pending | Running | Waiting | Attention | Converged | OtherPhase

  datatype Live = Live(
    ref: Ref, generation: int, observedGeneration: int, phase: Phase,
    ready: bool, changed: bool, dependsOn: seq<string>, updatedAt: int)

  /** Completion receipt; its generation comes out of JSON and may be missing. */
  datatype Receipt = Receipt(ref: Ref, generation: Option<int>, completedAt: int)

  datatype Closure = CancelledKind | ClosedKind | OtherKind

  datatype Cancellation = Cancellation(ref: Ref, generation: Option<int>, kind: Option<Closure>, requestedAt: int)

  datatype Tables = Tables(live: seq<Live>, receipts: seq<Receipt>, cancellations: seq<Cancellation>)

  /** Each table holds at most one row per Task. */
  ghost predicate Keyed(t: Tables) {
    && (forall i, j | 0 <= i < j < |t.live| :: t.live[i].ref != t.live[j].ref)
    && (forall i, j | 0 <= i < j < |t.receipts| :: t.receipts[i].ref != t.receipts[j].ref)
    && (forall i, j | 0 <= i < j < |t.cancellations| :: t.cancellations[i].ref != t.cancellations[j].ref)
  }

  // ---- View phase ----

  predicate Satisfied(t: Tables, ref: Ref) {
    exists i | 0 <= i < |t.live| ::
      t.live[i].ref == ref && t.live[i].phase == Converged && t.live[i].observedGeneration == t.live[i].generation
  }

  predicate DependenciesMet(t: Tables, l: Live) {
    forall i | 0 <= i < |l.dependsOn| :: Satisfied(t, Ref(l.ref.app, l.dependsOn[i]))
  }

  /** The phase shown: a settled or waiting Task with work queued counts as pending, whatever phase is stored. */
  function ViewPhase(t: Tables, l: Live): Phase {
    if l.phase == Converged && (l.ready || l.changed) then Pending
    else if l.phase == Waiting && l.ready && DependenciesMet(t, l) then Pending
    else l.phase
  }

  // ---- The exact read ----

  /** A candidate of the exact read, as the list would show it. */
  datatype Candidate = Candidate(row: ListRow, generation: Option<int>)

  function LiveRow(l: Live): ListRow { ListRow(l.ref.app, l.ref.task, l.updatedAt, 0) }
  function ReceiptRow(r: Receipt): ListRow { ListRow(r.ref.app, r.ref.task, r.completedAt, 1) }
  function CancellationRow(c: Cancellation): ListRow { ListRow(c.ref.app, c.ref.task, c.requestedAt, 2) }

  /** Cancellations first, then higher generations with a missing one last, then completed before live. */
  predicate Outranks(a: Candidate, b: Candidate) {
    var cancelledA, cancelledB := a.row.terminal == 2, b.row.terminal == 2;
    if cancelledA != cancelledB then cancelledA
    else if a.generation != b.generation then
      a.generation.Some? && (b.generation.None? || a.generation.value > b.generation.value)
    else a.row.terminal > b.row.terminal
  }

  function Candidates(t: Tables, ref: Ref): seq<Candidate> {
    LiveCandidates(t.live, ref) + ReceiptCandidates(t.receipts, ref) + CancellationCandidates(t.cancellations, ref)
  }

  function LiveCandidates(rows: seq<Live>, ref: Ref): seq<Candidate> {
    if rows == [] then []
    else (if rows[0].ref == ref then [Candidate(LiveRow(rows[0]), Some(rows[0].generation))] else [])
         + LiveCandidates(rows[1..], ref)
  }

  function ReceiptCandidates(rows: seq<Receipt>, ref: Ref): seq<Candidate> {
    if rows == [] then []
    else (if rows[0].ref == ref then [Candidate(ReceiptRow(rows[0]), rows[0].generation)] else [])
         + ReceiptCandidates(rows[1..], ref)
  }

  function CancellationCandidates(rows: seq<Cancellation>, ref: Ref): seq<Candidate> {
    if rows == [] then []
    else (if rows[0].ref == ref then [Candidate(CancellationRow(rows[0]), rows[0].generation)] else [])
         + CancellationCandidates(rows[1..], ref)
  }

  function Best(cs: seq<Candidate>): Option<Candidate> {
    if cs == [] then None
    else
      var rest := Best(cs[1..]);
      if rest.None? || !Outranks(rest.value, cs[0]) then Some(cs[0]) else rest
  }

  function ReadTaskRow(t: Tables, ref: Ref): Option<ListRow> {
    var best := Best(Candidates(t, ref));
    if best.Some? then Some(best.value.row) else None
  }

  // ---- The list ----

  datatype Status =
    | PendingStatus | RunningStatus | WaitingStatus | AttentionStatus | UpToDate
    | DoneStatus | ClosedStatus | CancelledStatus

  /** Which rows a caller asks for: named statuses, or all live ones and on request the ended ones. */
  datatype Filter = Filter(app: Option<string>, statuses: Option<set<Status>>, includeDone: bool)

  const LIVE_STATUSES: set<Status> := {PendingStatus, RunningStatus, WaitingStatus, AttentionStatus, UpToDate}

  function PhaseOf(s: Status): Phase {
    match s
    case PendingStatus => Pending
    case RunningStatus => Running
    case WaitingStatus => Waiting
    case AttentionStatus => Attention
    case UpToDate => Converged
    case _ => OtherPhase
  }

  function LivePhases(f: Filter): set<Phase> {
    var wanted := if f.statuses.Some? then f.statuses.value * LIVE_STATUSES else LIVE_STATUSES;
    set s | s in wanted :: PhaseOf(s)
  }

  /** The indexed search over stored phases, before narrowing by the view phase. */
  function StoredPhases(f: Filter): set<Phase> {
    if Pending in LivePhases(f) then LivePhases(f) + {Converged, Waiting} else LivePhases(f)
  }

  predicate Wants(f: Filter, ended: Status) {
    if f.statuses.Some? then ended in f.statuses.value else f.includeDone
  }

  predicate InApp(f: Filter, ref: Ref) { f.app.Some? ==> ref.app == f.app.value }

  predicate HasCancellation(t: Tables, ref: Ref) {
    exists i | 0 <= i < |t.cancellations| :: t.cancellations[i].ref == ref
  }

  /** EXISTS a receipt of the same or a newer generation; a missing generation compares as unknown. */
  predicate Completed(t: Tables, l: Live) {
    exists i | 0 <= i < |t.receipts| ::
      t.receipts[i].ref == l.ref && t.receipts[i].generation.Some? && t.receipts[i].generation.value >= l.generation
  }

  /** EXISTS a live row of a newer generation. */
  predicate Revised(t: Tables, r: Receipt) {
    exists i | 0 <= i < |t.live| ::
      t.live[i].ref == r.ref && r.generation.Some? && t.live[i].generation > r.generation.value
  }

  predicate LiveListed(t: Tables, f: Filter, l: Live) {
    && l.phase in StoredPhases(f) && ViewPhase(t, l) in LivePhases(f)
    && !Completed(t, l) && !HasCancellation(t, l.ref) && InApp(f, l.ref)
  }

  predicate ReceiptListed(t: Tables, f: Filter, r: Receipt) {
    Wants(f, DoneStatus) && !HasCancellation(t, r.ref) && !Revised(t, r) && InApp(f, r.ref)
  }

  function KindOf(c: Cancellation): Closure { if c.kind.Some? then c.kind.value else CancelledKind }

  predicate CancellationListed(f: Filter, c: Cancellation) {
    && ((KindOf(c) == CancelledKind && Wants(f, CancelledStatus))
        || (KindOf(c) == ClosedKind && Wants(f, ClosedStatus)))
    && InApp(f, c.ref)
  }

  function LivePart(t: Tables, f: Filter, rows: seq<Live>): seq<ListRow> {
    if rows == [] then []
    else (if LiveListed(t, f, rows[0]) then [LiveRow(rows[0])] else []) + LivePart(t, f, rows[1..])
  }

  function ReceiptPart(t: Tables, f: Filter, rows: seq<Receipt>): seq<ListRow> {
    if rows == [] then []
    else (if ReceiptListed(t, f, rows[0]) then [ReceiptRow(rows[0])] else []) + ReceiptPart(t, f, rows[1..])
  }

  function CancellationPart(f: Filter, rows: seq<Cancellation>): seq<ListRow> {
    if rows == [] then []
    else (if CancellationListed(f, rows[0]) then [CancellationRow(rows[0])] else []) + CancellationPart(f, rows[1..])
  }

  /** The UNION ALL of the parts. */
  function Listed(t: Tables, f: Filter): seq<ListRow> {
    LivePart(t, f, t.live) + ReceiptPart(t, f, t.receipts) + CancellationPart(f, t.cancellations)
  }

  datatype ListError = BadLimit

  /** Membership, order and cursor of one page, assembled part by part. */
  method ListTasks(t: Tables, f: Filter, limit: int, cursor: Option<Cursor>) returns (r: Result<Page, ListError>)
    ensures r == if 1 <= limit <= 100 then Ok(PageAfter(Listed(t, f), cursor, limit)) else Err(BadLimit)
  {
    if limit < 1 || limit > 100 { return Err(BadLimit); }
    var parts: seq<ListRow> := [];
    if LivePhases(f) != {} { parts := parts + LivePart(t, f, t.live); } else { NoPhasesNoLivePart(t, f, t.live); }
    if Wants(f, DoneStatus) {
      parts := parts + ReceiptPart(t, f, t.receipts);
    } else {
      NoReceiptPart(t, f, t.receipts);
    }
    assert parts == LivePart(t, f, t.live) + ReceiptPart(t, f, t.receipts);
    if Wants(f, CancelledStatus) || Wants(f, ClosedStatus) {
      parts := parts + CancellationPart(f, t.cancellations);
    } else {
      NoCancellationPart(f, t.cancellations);
    }
    assert parts == Listed(t, f);
    return Ok(PageAfter(parts, cursor, limit));
  }

  lemma {:induction false} NoPhasesNoLivePart(t: Tables, f: Filter, rows: seq<Live>)
    requires LivePhases(f) == {}
    ensures LivePart(t, f, rows) == []
  {
    if rows != [] { NoPhasesNoLivePart(t, f, rows[1..]); }
  }

  lemma {:induction false} NoReceiptPart(t: Tables, f: Filter, rows: seq<Receipt>)
    requires !Wants(f, DoneStatus)
    ensures ReceiptPart(t, f, rows) == []
  {
    if rows != [] { NoReceiptPart(t, f, rows[1..]); }
  }

  lemma {:induction false} NoCancellationPart(f: Filter, rows: seq<Cancellation>)
    requires !Wants(f, CancelledStatus) && !Wants(f, ClosedStatus)
    ensures CancellationPart(f, rows) == []
  {
    if rows != [] { NoCancellationPart(f, rows[1..]); }
  }
}
