/** List and exact read agree, and the pages of the list visit it exactly once. */
module TaskListLaws {
  import opened Prelude
  import opened TaskPages
  import opened TaskList

  // ---- Looking one Task up in each table ----

  function FindLive(rows: seq<Live>, ref: Ref): (r: Option<Live>)
    ensures r.Some? ==> r.value in rows && r.value.ref == ref
    ensures r.None? ==> forall i | 0 <= i < |rows| :: rows[i].ref != ref
  {
    if rows == [] then None else if rows[0].ref == ref then Some(rows[0]) else FindLive(rows[1..], ref)
  }

  function FindReceipt(rows: seq<Receipt>, ref: Ref): (r: Option<Receipt>)
    ensures r.Some? ==> r.value in rows && r.value.ref == ref
    ensures r.None? ==> forall i | 0 <= i < |rows| :: rows[i].ref != ref
  {
    if rows == [] then None else if rows[0].ref == ref then Some(rows[0]) else FindReceipt(rows[1..], ref)
  }

  function FindCancellation(rows: seq<Cancellation>, ref: Ref): (r: Option<Cancellation>)
    ensures r.Some? ==> r.value in rows && r.value.ref == ref
    ensures r.None? ==> forall i | 0 <= i < |rows| :: rows[i].ref != ref
  {
    if rows == [] then None else if rows[0].ref == ref then Some(rows[0]) else FindCancellation(rows[1..], ref)
  }

  /** The rule in words: cancellation first, then the higher generation, and on a tie the receipt. */
  function Selected(live: Option<Live>, receipt: Option<Receipt>, cancellation: Option<Cancellation>): Option<ListRow> {
    var done := receipt.Some? &&
      (live.None?
       || (receipt.value.generation.Some? && receipt.value.generation.value >= live.value.generation));
    if cancellation.Some? then
      var c := cancellation.value; Some(ListRow(c.ref.app, c.ref.task, c.requestedAt, 2))
    else if done then
      var r := receipt.value; Some(ListRow(r.ref.app, r.ref.task, r.completedAt, 1))
    else if live.Some? then
      var l := live.value; Some(ListRow(l.ref.app, l.ref.task, l.updatedAt, 0))
    else None
  }

  function SelectedIn(t: Tables, ref: Ref): Option<ListRow> {
    Selected(FindLive(t.live, ref), FindReceipt(t.receipts, ref), FindCancellation(t.cancellations, ref))
  }

  // ---- The exact read follows the rule ----

  lemma {:induction false} LiveCandidatesOne(rows: seq<Live>, ref: Ref)
    requires forall i, j | 0 <= i < j < |rows| :: rows[i].ref != rows[j].ref
    ensures LiveCandidates(rows, ref) ==
            var l := FindLive(rows, ref);
            if l.Some? then [Candidate(LiveRow(l.value), Some(l.value.generation))] else []
    decreases |rows|
  {
    if rows != [] {
      LiveCandidatesOne(rows[1..], ref);
      assert rows[0].ref == ref ==> FindLive(rows[1..], ref).None?;
    }
  }

  lemma {:induction false} ReceiptCandidatesOne(rows: seq<Receipt>, ref: Ref)
    requires forall i, j | 0 <= i < j < |rows| :: rows[i].ref != rows[j].ref
    ensures ReceiptCandidates(rows, ref) ==
            var r := FindReceipt(rows, ref);
            if r.Some? then [Candidate(ReceiptRow(r.value), r.value.generation)] else []
    decreases |rows|
  {
    if rows != [] {
      ReceiptCandidatesOne(rows[1..], ref);
      assert rows[0].ref == ref ==> FindReceipt(rows[1..], ref).None?;
    }
  }

  lemma {:induction false} CancellationCandidatesOne(rows: seq<Cancellation>, ref: Ref)
    requires forall i, j | 0 <= i < j < |rows| :: rows[i].ref != rows[j].ref
    ensures CancellationCandidates(rows, ref) ==
            var c := FindCancellation(rows, ref);
            if c.Some? then [Candidate(CancellationRow(c.value), c.value.generation)] else []
    decreases |rows|
  {
    if rows != [] {
      CancellationCandidatesOne(rows[1..], ref);
      assert rows[0].ref == ref ==> FindCancellation(rows[1..], ref).None?;
    }
  }

  lemma {:induction false} BestOfThree(a: seq<Candidate>, b: seq<Candidate>, c: seq<Candidate>)
    requires |a| <= 1 && |b| <= 1 && |c| <= 1
    ensures Best(a + b + c) ==
            if a == [] then Best(b + c)
            else if Best(b + c).None? || !Outranks(Best(b + c).value, a[0]) then Some(a[0])
            else Best(b + c)
    ensures Best(b + c) ==
            if b == [] then Best(c)
            else if Best(c).None? || !Outranks(Best(c).value, b[0]) then Some(b[0])
            else Best(c)
    ensures Best(c) == if c == [] then None else Some(c[0])
  {
    if a != [] { assert (a + b + c)[1..] == b + c; } else { assert a + b + c == b + c; }
    if b != [] { assert (b + c)[1..] == c; } else { assert b + c == c; }
    if c != [] { assert c[1..] == []; }
  }

  lemma {:induction false} BestIsSelected(l: Option<Live>, r: Option<Receipt>, c: Option<Cancellation>)
    ensures var a := if l.Some? then [Candidate(LiveRow(l.value), Some(l.value.generation))] else [];
            var b := if r.Some? then [Candidate(ReceiptRow(r.value), r.value.generation)] else [];
            var d := if c.Some? then [Candidate(CancellationRow(c.value), c.value.generation)] else [];
            var best := Best(a + b + d);
            (if best.Some? then Some(best.value.row) else None) == Selected(l, r, c)
  {
    var a := if l.Some? then [Candidate(LiveRow(l.value), Some(l.value.generation))] else [];
    var b := if r.Some? then [Candidate(ReceiptRow(r.value), r.value.generation)] else [];
    var d := if c.Some? then [Candidate(CancellationRow(c.value), c.value.generation)] else [];
    BestOfThree(a, b, d);
  }

  /** The ordered union of the exact read picks the row the rule names. */
  lemma {:induction false} ReadFollowsTheRule(t: Tables, ref: Ref)
    requires Keyed(t)
    ensures ReadTaskRow(t, ref) == SelectedIn(t, ref)
  {
    LiveCandidatesOne(t.live, ref);
    ReceiptCandidatesOne(t.receipts, ref);
    CancellationCandidatesOne(t.cancellations, ref);
    BestIsSelected(FindLive(t.live, ref), FindReceipt(t.receipts, ref), FindCancellation(t.cancellations, ref));
  }

  // ---- Membership of the list ----

  predicate IsOf(x: ListRow, ref: Ref) { x.app == ref.app && x.task == ref.task }

  lemma {:induction false} LivePartHas(t: Tables, f: Filter, rows: seq<Live>, ref: Ref, x: ListRow)
    requires forall i, j | 0 <= i < j < |rows| :: rows[i].ref != rows[j].ref
    requires IsOf(x, ref)
    ensures x in LivePart(t, f, rows) <==>
            var l := FindLive(rows, ref); l.Some? && LiveListed(t, f, l.value) && x == LiveRow(l.value)
    decreases |rows|
  {
    if rows != [] {
      LivePartHas(t, f, rows[1..], ref, x);
      assert rows[0].ref == ref ==> FindLive(rows[1..], ref).None?;
      assert x == LiveRow(rows[0]) ==> rows[0].ref == ref by {
        if x == LiveRow(rows[0]) { assert rows[0].ref == Ref(x.app, x.task) == ref; }
      }
    }
  }

  lemma {:induction false} ReceiptPartHas(t: Tables, f: Filter, rows: seq<Receipt>, ref: Ref, x: ListRow)
    requires forall i, j | 0 <= i < j < |rows| :: rows[i].ref != rows[j].ref
    requires IsOf(x, ref)
    ensures x in ReceiptPart(t, f, rows) <==>
            var r := FindReceipt(rows, ref); r.Some? && ReceiptListed(t, f, r.value) && x == ReceiptRow(r.value)
    decreases |rows|
  {
    if rows != [] {
      ReceiptPartHas(t, f, rows[1..], ref, x);
      assert rows[0].ref == ref ==> FindReceipt(rows[1..], ref).None?;
      assert x == ReceiptRow(rows[0]) ==> rows[0].ref == ref by {
        if x == ReceiptRow(rows[0]) { assert rows[0].ref == Ref(x.app, x.task) == ref; }
      }
    }
  }

  lemma {:induction false} CancellationPartHas(f: Filter, rows: seq<Cancellation>, ref: Ref, x: ListRow)
    requires forall i, j | 0 <= i < j < |rows| :: rows[i].ref != rows[j].ref
    requires IsOf(x, ref)
    ensures x in CancellationPart(f, rows) <==>
            var c := FindCancellation(rows, ref);
            c.Some? && CancellationListed(f, c.value) && x == CancellationRow(c.value)
    decreases |rows|
  {
    if rows != [] {
      CancellationPartHas(f, rows[1..], ref, x);
      assert rows[0].ref == ref ==> FindCancellation(rows[1..], ref).None?;
      assert x == CancellationRow(rows[0]) ==> rows[0].ref == ref by {
        if x == CancellationRow(rows[0]) { assert rows[0].ref == Ref(x.app, x.task) == ref; }
      }
    }
  }

  /** The existence tests of the list, as lookups. */
  lemma {:induction false} TestsAreLookups(t: Tables, ref: Ref)
    requires Keyed(t)
    ensures HasCancellation(t, ref) <==> FindCancellation(t.cancellations, ref).Some?
    ensures FindLive(t.live, ref).Some? ==>
            var l := FindLive(t.live, ref).value;
            var r := FindReceipt(t.receipts, ref);
            (Completed(t, l) <==> r.Some? && r.value.generation.Some? && r.value.generation.value >= l.generation)
    ensures FindReceipt(t.receipts, ref).Some? ==>
            var r := FindReceipt(t.receipts, ref).value;
            var l := FindLive(t.live, ref);
            (Revised(t, r) <==> l.Some? && r.generation.Some? && l.value.generation > r.generation.value)
  {
    var l, r, c := FindLive(t.live, ref), FindReceipt(t.receipts, ref), FindCancellation(t.cancellations, ref);
    if c.Some? { var i :| 0 <= i < |t.cancellations| && t.cancellations[i] == c.value; }
    if l.Some? {
      var i :| 0 <= i < |t.live| && t.live[i] == l.value;
      assert forall k | 0 <= k < |t.live| && t.live[k].ref == ref :: k == i;
    }
    if r.Some? {
      var j :| 0 <= j < |t.receipts| && t.receipts[j] == r.value;
      assert forall k | 0 <= k < |t.receipts| && t.receipts[k].ref == ref :: k == j;
    }
  }

  /** A converged live row that is up to date with its generation. */
  ghost predicate IsDone(t: Tables, app: string, task: string) {
    exists l: Live :: l in t.live && l.ref.app == app && l.ref.task == task
                      && l.phase == Converged && l.observedGeneration == l.generation
  }

  /**
   * Exactly when a Task is shown as pending: it is stored so, or has converged and has work or a change queued, or
   * waits with work queued and every Task it depends on is done. Otherwise it is shown in its stored phase.
   */
  lemma {:induction false} ShownPendingExactlyWhen(t: Tables, l: Live)
    ensures ViewPhase(t, l) == Pending <==>
            || l.phase == Pending
            || (l.phase == Converged && (l.ready || l.changed))
            || (l.phase == Waiting && l.ready && forall task | task in l.dependsOn :: IsDone(t, l.ref.app, task))
    ensures ViewPhase(t, l) != Pending ==> ViewPhase(t, l) == l.phase
  {
    forall task | task in l.dependsOn ensures Satisfied(t, Ref(l.ref.app, task)) <==> IsDone(t, l.ref.app, task) {
      DoneIsSatisfied(t, l.ref.app, task);
    }
    if DependenciesMet(t, l) {
      forall task | task in l.dependsOn ensures IsDone(t, l.ref.app, task) {
        var i :| 0 <= i < |l.dependsOn| && l.dependsOn[i] == task;
        assert Satisfied(t, Ref(l.ref.app, l.dependsOn[i]));
      }
    } else {
      var i :| 0 <= i < |l.dependsOn| && !Satisfied(t, Ref(l.ref.app, l.dependsOn[i]));
      assert l.dependsOn[i] in l.dependsOn;
    }
  }

  lemma {:induction false} DoneIsSatisfied(t: Tables, app: string, task: string)
    ensures Satisfied(t, Ref(app, task)) <==> IsDone(t, app, task)
  {
    if Satisfied(t, Ref(app, task)) {
      var i :| 0 <= i < |t.live| && t.live[i].ref == Ref(app, task) && t.live[i].phase == Converged
               && t.live[i].observedGeneration == t.live[i].generation;
      assert t.live[i] in t.live;
    }
    if IsDone(t, app, task) {
      var l: Live :| l in t.live && l.ref.app == app && l.ref.task == task
                     && l.phase == Converged && l.observedGeneration == l.generation;
      var i :| 0 <= i < |t.live| && t.live[i] == l;
      assert l.ref == Ref(app, task);
    }
  }

  /** Narrowing by stored phase first never loses a row the view phase asks for. */
  lemma {:induction false} StoredPhaseSearchIsComplete(t: Tables, f: Filter, l: Live)
    ensures ViewPhase(t, l) in LivePhases(f) ==> l.phase in StoredPhases(f)
  {
  }

  ghost function OfTask(rows: seq<ListRow>, ref: Ref): set<ListRow> { set x | x in rows && IsOf(x, ref) }

  /** The rows of one Task in the list, branch by branch. */
  lemma {:induction false} ListedOfTask(t: Tables, f: Filter, ref: Ref)
    requires Keyed(t)
    ensures var l, r, c := FindLive(t.live, ref), FindReceipt(t.receipts, ref), FindCancellation(t.cancellations, ref);
            OfTask(Listed(t, f), ref) ==
            (if l.Some? && LiveListed(t, f, l.value) then {LiveRow(l.value)} else {})
            + (if r.Some? && ReceiptListed(t, f, r.value) then {ReceiptRow(r.value)} else {})
            + (if c.Some? && CancellationListed(f, c.value) then {CancellationRow(c.value)} else {})
  {
    var l, r, c := FindLive(t.live, ref), FindReceipt(t.receipts, ref), FindCancellation(t.cancellations, ref);
    forall x | IsOf(x, ref)
      ensures x in Listed(t, f) <==>
              || (l.Some? && LiveListed(t, f, l.value) && x == LiveRow(l.value))
              || (r.Some? && ReceiptListed(t, f, r.value) && x == ReceiptRow(r.value))
              || (c.Some? && CancellationListed(f, c.value) && x == CancellationRow(c.value))
    {
      ListedHas(t, f, ref, x);
    }
  }

  lemma {:induction false} ListedHas(t: Tables, f: Filter, ref: Ref, x: ListRow)
    requires Keyed(t) && IsOf(x, ref)
    ensures var l, r, c := FindLive(t.live, ref), FindReceipt(t.receipts, ref), FindCancellation(t.cancellations, ref);
            x in Listed(t, f) <==>
            || (l.Some? && LiveListed(t, f, l.value) && x == LiveRow(l.value))
            || (r.Some? && ReceiptListed(t, f, r.value) && x == ReceiptRow(r.value))
            || (c.Some? && CancellationListed(f, c.value) && x == CancellationRow(c.value))
  {
    LivePartHas(t, f, t.live, ref, x);
    ReceiptPartHas(t, f, t.receipts, ref, x);
    CancellationPartHas(f, t.cancellations, ref, x);
  }

  // ---- Agreement ----

  const EVERYTHING: Filter := Filter(None, None, true)

  /**
   * What a caller can check of one Task's rows: a cancellation has a known kind; a receipt that competes with a live
   * row carries a generation; a live row that is selected has a known phase.
   */
  predicate Regular(t: Tables, ref: Ref) {
    var l, r, c := FindLive(t.live, ref), FindReceipt(t.receipts, ref), FindCancellation(t.cancellations, ref);
    if c.Some? then c.value.kind != Some(OtherKind)
    else if l.Some? && r.Some? then
      r.value.generation.Some? && (r.value.generation.value >= l.value.generation || l.value.phase != OtherPhase)
    else l.Some? ==> l.value.phase != OtherPhase
  }

  /** The status the selected row is shown with. */
  function StatusOf(t: Tables, ref: Ref): Status
    requires SelectedIn(t, ref).Some?
  {
    var row := SelectedIn(t, ref).value;
    if row.terminal == 2 then
      if FindCancellation(t.cancellations, ref).value.kind == Some(ClosedKind) then ClosedStatus else CancelledStatus
    else if row.terminal == 1 then DoneStatus
    else
      match ViewPhase(t, FindLive(t.live, ref).value)
      case Pending => PendingStatus
      case Running => RunningStatus
      case Waiting => WaitingStatus
      case Attention => AttentionStatus
      case _ => UpToDate
  }

  predicate Asked(f: Filter, s: Status) {
    if f.statuses.Some? then s in f.statuses.value else s in LIVE_STATUSES || f.includeDone
  }

  lemma {:induction false} LivePhaseAsked(t: Tables, f: Filter, l: Live, s: Status)
    requires s in LIVE_STATUSES && PhaseOf(s) == ViewPhase(t, l)
    ensures (l.phase in StoredPhases(f) && ViewPhase(t, l) in LivePhases(f)) <==> Asked(f, s)
  {
    StoredPhaseSearchIsComplete(t, f, l);
    if Asked(f, s) { assert PhaseOf(s) in LivePhases(f); }
    if PhaseOf(s) in LivePhases(f) {
      var wanted := if f.statuses.Some? then f.statuses.value * LIVE_STATUSES else LIVE_STATUSES;
      var u :| u in wanted && PhaseOf(u) == PhaseOf(s);
      assert u == s;
    }
  }

  /** Which branch lists a regular Task: only that of the selected row, and only if its status is asked for. */
  lemma {:induction false} OnlySelectedBranchLists(t: Tables, f: Filter, ref: Ref)
    requires Keyed(t) && Regular(t, ref) && SelectedIn(t, ref).Some?
    ensures var l, r, c := FindLive(t.live, ref), FindReceipt(t.receipts, ref), FindCancellation(t.cancellations, ref);
            var shown := InApp(f, ref) && Asked(f, StatusOf(t, ref));
            var k := SelectedIn(t, ref).value.terminal;
            && (l.Some? ==> (LiveListed(t, f, l.value) <==> k == 0 && shown))
            && (r.Some? ==> (ReceiptListed(t, f, r.value) <==> k == 1 && shown))
            && (c.Some? ==> (CancellationListed(f, c.value) <==> k == 2 && shown))
  {
    TestsAreLookups(t, ref);
    if SelectedIn(t, ref).value.terminal == 0 { LivePhaseAsked(t, f, FindLive(t.live, ref).value, StatusOf(t, ref)); }
  }

  lemma {:induction false} NothingSelectedNothingThere(t: Tables, ref: Ref)
    requires SelectedIn(t, ref).None?
    ensures FindLive(t.live, ref).None?
    ensures FindReceipt(t.receipts, ref).None? && FindCancellation(t.cancellations, ref).None?
  {
  }

  /**
   * Under any filter a regular Task is listed at most once, as the row the exact read selects, if its status is asked
   * for.
   */
  lemma {:induction false} ListShowsWhatReadSelects(t: Tables, f: Filter, ref: Ref)
    requires Keyed(t) && Regular(t, ref)
    ensures ReadTaskRow(t, ref) == SelectedIn(t, ref)
    ensures OfTask(Listed(t, f), ref) ==
            if SelectedIn(t, ref).Some? && (f.app.None? || f.app == Some(ref.app)) && Asked(f, StatusOf(t, ref)) then
              {SelectedIn(t, ref).value}
            else {}
  {
    ReadFollowsTheRule(t, ref);
    ListedOfTask(t, f, ref);
    if SelectedIn(t, ref).Some? { OnlySelectedBranchLists(t, f, ref); } else { NothingSelectedNothingThere(t, ref); }
  }

  /**
   * For the whole list, "each Task is listed exactly once, as the row the exact read selects" holds exactly for the
   * regular Tasks.
   */
  lemma {:induction false} ListAgreesExactlyWhenRegular(t: Tables, ref: Ref)
    requires Keyed(t) && SelectedIn(t, ref).Some?
    ensures ReadTaskRow(t, ref) == SelectedIn(t, ref)
    ensures OfTask(Listed(t, EVERYTHING), ref) == {SelectedIn(t, ref).value} <==> Regular(t, ref)
  {
    ReadFollowsTheRule(t, ref);
    if Regular(t, ref) {
      ListShowsWhatReadSelects(t, EVERYTHING, ref);
    } else {
      ListedOfTask(t, EVERYTHING, ref);
      TestsAreLookups(t, ref);
      OtherPhaseNeverListed(t, EVERYTHING);
    }
  }

  lemma {:induction false} OtherPhaseNeverListed(t: Tables, f: Filter)
    ensures OtherPhase !in LivePhases(f)
    ensures forall l: Live | l.phase == OtherPhase :: ViewPhase(t, l) == OtherPhase
  {
  }

  /** A receipt without a generation and a live row of the same Task are both listed. */
  lemma {:induction false} ReceiptWithoutGenerationListsTwice()
    ensures exists t: Tables, ref: Ref :: Keyed(t) && |OfTask(Listed(t, EVERYTHING), ref)| == 2
  {
    var ref := Ref("a", "b");
    var l := Live(ref, 1, 1, Running, false, false, [], 5);
    var r := Receipt(ref, None, 4);
    var t := Tables([l], [r], []);
    ListedOfTask(t, EVERYTHING, ref);
    assert RunningStatus in LIVE_STATUSES && PhaseOf(RunningStatus) in LivePhases(EVERYTHING);
    assert !Completed(t, l) && !Revised(t, r) && !HasCancellation(t, ref);
    assert OfTask(Listed(t, EVERYTHING), ref) == {LiveRow(l), ReceiptRow(r)};
    assert LiveRow(l) != ReceiptRow(r);
  }

  // ---- Pages of the real list ----

  lemma {:induction false} LivePartDistinct(t: Tables, f: Filter, rows: seq<Live>)
    requires forall i, j | 0 <= i < j < |rows| :: rows[i].ref != rows[j].ref
    ensures Distinct(LivePart(t, f, rows)) && forall x | x in LivePart(t, f, rows) :: x.terminal == 0
    decreases |rows|
  {
    if rows != [] {
      LivePartDistinct(t, f, rows[1..]);
      var x := LiveRow(rows[0]);
      LivePartHas(t, f, rows[1..], rows[0].ref, x);
    }
  }

  lemma {:induction false} ReceiptPartDistinct(t: Tables, f: Filter, rows: seq<Receipt>)
    requires forall i, j | 0 <= i < j < |rows| :: rows[i].ref != rows[j].ref
    ensures Distinct(ReceiptPart(t, f, rows)) && forall x | x in ReceiptPart(t, f, rows) :: x.terminal == 1
    decreases |rows|
  {
    if rows != [] {
      ReceiptPartDistinct(t, f, rows[1..]);
      var x := ReceiptRow(rows[0]);
      ReceiptPartHas(t, f, rows[1..], rows[0].ref, x);
    }
  }

  lemma {:induction false} CancellationPartDistinct(f: Filter, rows: seq<Cancellation>)
    requires forall i, j | 0 <= i < j < |rows| :: rows[i].ref != rows[j].ref
    ensures Distinct(CancellationPart(f, rows)) && forall x | x in CancellationPart(f, rows) :: x.terminal == 2
    decreases |rows|
  {
    if rows != [] {
      CancellationPartDistinct(f, rows[1..]);
      var x := CancellationRow(rows[0]);
      CancellationPartHas(f, rows[1..], rows[0].ref, x);
    }
  }

  lemma {:induction false} DistinctConcat(a: seq<ListRow>, b: seq<ListRow>)
    requires Distinct(a) && Distinct(b) && forall x | x in a :: x !in b
    ensures Distinct(a + b)
  {
    var s := a + b;
    forall i, j | 0 <= i < j < |s| ensures s[i] != s[j] {
      if i < |a| <= j { assert s[i] in a && b[j - |a|] in b; }
    }
  }

  /** The union of the branches never holds a row twice. */
  lemma {:induction false} ListedIsDistinct(t: Tables, f: Filter)
    requires Keyed(t)
    ensures Distinct(Listed(t, f))
  {
    LivePartDistinct(t, f, t.live);
    ReceiptPartDistinct(t, f, t.receipts);
    CancellationPartDistinct(f, t.cancellations);
    DistinctConcat(LivePart(t, f, t.live), ReceiptPart(t, f, t.receipts));
    DistinctConcat(LivePart(t, f, t.live) + ReceiptPart(t, f, t.receipts), CancellationPart(f, t.cancellations));
  }

  /**
   * End to end: over unchanged tables of regular Tasks with ordinary identities, following the cursors from the first
   * page ends and shows every Task exactly once, as the row the exact read selects, newest first.
   */
  lemma {:induction false} PagesShowEveryTaskOnce(t: Tables, limit: nat, ref: Ref)
    requires Keyed(t) && limit >= 1 && SelectedIn(t, ref).Some? && Regular(t, ref)
    requires forall r | r in Listed(t, EVERYTHING) :: Cursorable(r)
    ensures var seen := Follow(Listed(t, EVERYTHING), None, limit);
            && InListOrder(seen) && Distinct(seen)
            && ReadTaskRow(t, ref).Some? && OfTask(seen, ref) == {ReadTaskRow(t, ref).value}
  {
    var rows := Listed(t, EVERYTHING);
    ListedIsDistinct(t, EVERYTHING);
    PagesVisitEveryRowOnce(rows, limit);
    ListAgreesExactlyWhenRegular(t, ref);
    var seen := Follow(rows, None, limit);
    forall i, j | 0 <= i < j < |seen| ensures seen[i] != seen[j] { LessIsTotal(seen[i], seen[j]); }
    forall x ensures x in seen <==> x in rows { assert x in Elements(seen) <==> x in Elements(rows); }
  }
}
