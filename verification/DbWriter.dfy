/** The event store as the writer object that updates its tables in place. */
module DbWriters {
  import opened Prelude
  import D = Delivery
  import opened EventLog

  /** What `InsertEventRow` hands back to the producer. */
  datatype Answer = Inserted(id: int) | Duplicate(id: int, reply: D.Reply, restored: Restored) | Rejected(why: Refusal)

  function AnswerOf(p: Published): Answer {
    match p
    case Stored(_, id) => Inserted(id)
    case Retried(id, reply, _, restored) => Duplicate(id, reply, restored)
    case Refused(why) => Rejected(why)
  }

  /** Closing by one more contract after the follow-up and the earlier contracts. */
  lemma {:induction false} CloseOneMoreContract(
      runs: seq<PairRun>, e: Event, id: int, at: int, done: seq<Pair>, p: Pair)
    ensures CloseMatching(CloseMatching(runs, e, id, at, true, done), e, id, at, false, [p])
         == CloseMatching(runs, e, id, at, true, done + [p])
    ensures LinksFor(runs, e, id, true, done) + LinksFor(CloseMatching(runs, e, id, at, true, done), e, id, false, [p])
         == LinksFor(runs, e, id, true, done + [p])
  {
    var mid := CloseMatching(runs, e, id, at, true, done);
    forall i | 0 <= i < |runs|
      ensures Matches(runs[i], e, true, done + [p]) <==>
              Matches(runs[i], e, true, done) || Matches(mid[i], e, false, [p])
      ensures mid[i].openId == runs[i].openId
    {
    }
    assert CloseMatching(mid, e, id, at, false, [p]) == CloseMatching(runs, e, id, at, true, done + [p]);
    var whole := LinksFor(runs, e, id, true, done + [p]);
    forall x | x in LinksFor(runs, e, id, true, done) ensures x in whole {
      var i :| 0 <= i < |runs| && Matches(runs[i], e, true, done) && x == (id, runs[i].openId);
      assert Matches(runs[i], e, true, done + [p]);
    }
    forall x | x in LinksFor(mid, e, id, false, [p]) ensures x in whole {
      var i :| 0 <= i < |mid| && Matches(mid[i], e, false, [p]) && x == (id, mid[i].openId);
      assert Matches(runs[i], e, true, done + [p]);
    }
    forall x | x in whole ensures x in LinksFor(runs, e, id, true, done) + LinksFor(mid, e, id, false, [p]) {
      var i :| 0 <= i < |runs| && Matches(runs[i], e, true, done + [p]) && x == (id, runs[i].openId);
      assert Matches(runs[i], e, true, done) || Matches(mid[i], e, false, [p]);
    }
  }

  lemma {:induction false} NothingToClose(runs: seq<PairRun>, e: Event, id: int, at: int, p: Pair)
    requires !Ends(e.kind, p) || Key(p, e.payload).None?
    ensures CloseMatching(runs, e, id, at, false, [p]) == runs
    ensures LinksFor(runs, e, id, false, [p]) == {}
  {
  }

  class DbWriter {
    var log: seq<Logged>
    var receipts: seq<D.Receipt>
    var runs: seq<PairRun>
    var closures: set<(int, int)>
    var tasks: map<TaskRef, TaskRow>
    var attempts: map<TaskRef, Attempt>
    var evaluations: map<string, string>
    var thresholds: map<string, real>
    const resourceApps: set<string>

    function State(): Db
      reads this
    {
      Db(log, receipts, runs, closures, tasks, attempts, resourceApps, evaluations, thresholds)
    }

    constructor(tasks: map<TaskRef, TaskRow>, apps: set<string>, thresholds: map<string, real>)
      ensures Valid(State()) && Empty(State())
      ensures this.tasks == tasks && resourceApps == apps && this.thresholds == thresholds && evaluations == map[]
    {
      log, receipts, runs, closures := [], [], [], {};
      this.tasks, attempts, evaluations, this.thresholds := tasks, map[], map[], thresholds;
      resourceApps := apps;
    }

    method RecordDelivery(id: int, outcome: D.Outcome, now: int)
      requires Valid(State())
      modifies this`receipts
      ensures State() == Next(old(State()), Reporting(id, outcome, now))
      ensures Valid(State())
    {
      StepKeepsValid(State(), Reporting(id, outcome, now));
      if id < 1 || |log| < id { return; }
      var r := receipts[id - 1];
      if outcome.Failed? {
        if r.status != D.Accepted || r.route == D.Noop {
          var status := if r.status == D.Accepted then D.Pending else r.status;
          r := r.(status := status, acceptedBy := None, acceptedAt := None,
                  route := D.Direct, note := Some(outcome.why));
        }
      } else {
        var route := D.RouteOf(outcome);
        if D.AcceptanceApplies(r, route, log[id - 1].event.recordOnly) {
          r := r.(status := D.Accepted, acceptedBy := Some(outcome.actor), acceptedAt := Some(now), route := route,
                  note := outcome.remark);
        }
        if outcome.appAdmission { r := r.(appPending := Some(false)); }
      }
      receipts := receipts[id - 1 := r];
    }

    /** Close the runs that the event names as the ones it follows up. */
    method ClosePairForFollowup(e: Event, id: int, at: int)
      modifies this`runs, this`closures
      ensures runs == CloseMatching(old(runs), e, id, at, true, [])
      ensures closures == old(closures) + LinksFor(old(runs), e, id, true, [])
    {
      if e.payload.openEvent.None? {
        assert CloseMatching(runs, e, id, at, true, []) == runs;
        return;
      }
      var links := LinksFor(runs, e, id, true, []);
      runs := CloseMatching(runs, e, id, at, true, []);
      closures := closures + links;
    }

    /** Close the runs of every contract the event ends, one contract after the other. */
    method CloseConventionPairs(e: Event, id: int, at: int, ghost first: seq<PairRun>, ghost before: set<(int, int)>)
      requires runs == CloseMatching(first, e, id, at, true, [])
      requires closures == before + LinksFor(first, e, id, true, [])
      modifies this`runs, this`closures
      ensures runs == CloseMatching(first, e, id, at, true, CONTRACTS)
      ensures closures == before + LinksFor(first, e, id, true, CONTRACTS)
    {
      var k := 0;
      while k < |CONTRACTS|
        invariant 0 <= k <= |CONTRACTS|
        invariant runs == CloseMatching(first, e, id, at, true, CONTRACTS[..k])
        invariant closures == before + LinksFor(first, e, id, true, CONTRACTS[..k])
      {
        var p := CONTRACTS[k];
        CloseOneMoreContract(first, e, id, at, CONTRACTS[..k], p);
        assert CONTRACTS[..k + 1] == CONTRACTS[..k] + [p];
        if Ends(e.kind, p) && Key(p, e.payload).Some? {
          var links := LinksFor(runs, e, id, false, [p]);
          runs := CloseMatching(runs, e, id, at, false, [p]);
          closures := closures + links;
        } else {
          NothingToClose(runs, e, id, at, p);
        }
        k := k + 1;
      }
      assert CONTRACTS[..|CONTRACTS|] == CONTRACTS;
    }

    /** Open the run of the event just stored, and close it at once when its end came first. */
    method OpenConventionPair(e: Event, id: int, at: int)
      requires |log| == id >= 1
      modifies this`runs, this`closures
      ensures var added := Opened(old(log)[..id - 1], e, at);
              && runs == old(runs) + (if added.Some? then [added.value] else [])
              && closures == old(closures)
                   + (if added.Some? && added.value.closeId.Some? then {(added.value.closeId.value, id)} else {})
    {
      var pair := Opening(e.kind);
      if pair.None? { return; }
      var key := Key(pair.value, e.payload);
      if key.None? { return; }
      var run := PairRun(pair.value, key.value, id, e.owner, Open, at, at + Timeout(pair.value), None, None);
      var earlier := EarlierCloser(log[..id - 1], pair.value, key.value);
      if earlier.Some? {
        run := Close(run, earlier.value, Max(at, log[earlier.value - 1].at));
        closures := closures + {(earlier.value, id)};
      }
      runs := runs + [run];
    }

    /** Persist one event in one transaction; any refusal rolls every table back. */
    method InsertEventRow(e: Event, now: int) returns (answer: Answer)
      requires Valid(State())
      modifies this
      ensures State() == Next(old(State()), Publishing(e, now))
      ensures answer == AnswerOf(Publish(old(State()), e, now))
      ensures Valid(State())
    {
      StepKeepsValid(State(), Publishing(e, now));
      var existing := Find(log, e);
      if existing.Some? {
        var i := existing.value;
        if log[i].event.canonical != e.canonical { return Rejected(KeyReused); }
        var (reply, _) := D.RetryReply(receipts[i]);
        return Duplicate(i + 1, reply, Restore(log[i], e));
      }
      if e.fence.Some? && !Owns(tasks, attempts, resourceApps, e.fence.value, now) { return Rejected(StaleAttempt); }
      var refusal := StoreRow(e, now);
      return if refusal.Some? then Rejected(refusal.value) else Inserted(|log|);
    }

    /** The writing half of the transaction: insert, wake, close, open and project, or roll back. */
    method StoreRow(e: Event, now: int) returns (refusal: Option<Refusal>)
      requires Shaped(State())
      modifies this
      ensures var woken := WakeTask(old(tasks), resourceApps, e, |old(log)| + 1, now);
              && refusal == (if woken.Err? then Some(woken.error)
                             else if e.effect.Threshold? && e.effect.metric !in old(thresholds) then Some(UnknownMetric)
                             else None)
              && State() == (if refusal.Some? then old(State()) else AfterStore(old(State()), e, now, woken.value))
    {
      var savedLog, savedReceipts, savedRuns, savedClosures, savedTasks := log, receipts, runs, closures, tasks;
      var id := |log| + 1;
      log, receipts := log + [Logged(e, now)], receipts + [D.FRESH];
      var woken := WakeTask(tasks, resourceApps, e, id, now);
      if woken.Err? {
        log, receipts := savedLog, savedReceipts;
        return Some(woken.error);
      }
      tasks := woken.value;
      ClosePairForFollowup(e, id, now);
      CloseConventionPairs(e, id, now, savedRuns, savedClosures);
      assert log[..id - 1] == savedLog;
      OpenConventionPair(e, id, now);
      match e.effect {
        case NoEffect =>
        case Evaluation(session, verdict) => evaluations := evaluations[session := verdict];
        case Threshold(metric, limit) =>
          if metric !in thresholds {
            log, receipts, runs, closures, tasks := savedLog, savedReceipts, savedRuns, savedClosures, savedTasks;
            return Some(UnknownMetric);
          }
          thresholds := thresholds[metric := limit];
      }
      return None;
    }

    method SweepStalePairs(now: int)
      requires Valid(State())
      modifies this`runs
      ensures State() == Next(old(State()), SweepingPairs(now))
      ensures Valid(State())
    {
      StepKeepsValid(State(), SweepingPairs(now));
      runs := SweptPairs(runs, now);
    }

    method SweepUnacceptedEvents(now: int, planned: set<int>)
      requires Valid(State())
      modifies this`receipts
      ensures State() == Next(old(State()), SweepingEvents(now, planned))
      ensures Valid(State())
    {
      StepKeepsValid(State(), SweepingEvents(now, planned));
      receipts := SweptEvents(State(), now, planned);
    }
  }
}
