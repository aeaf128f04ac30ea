/** What the metric service promises: episodes over whole runs, and its rules read off the sorted samples. */
module MetricLaws {
  import opened Prelude
  import opened Samples
  import opened Metrics

  // ---- Alerts over whole runs ----

  lemma {:induction false} StepKeepsAlert(t: Tables, s: Step, i: nat)
    requires i < |t.alerts|
    ensures i < |Next(t, s).alerts|
    ensures Next(t, s).alerts[i].metric == t.alerts[i].metric && Next(t, s).alerts[i].createdAt == t.alerts[i].createdAt
    ensures t.alerts[i].resolvedAt.Some? ==> Next(t, s).alerts[i].resolvedAt == t.alerts[i].resolvedAt
  {
  }

  /** Once set, an alert's resolution time never changes, and its metric and creation time never do. */
  lemma {:induction false} ResolutionIsFinal(t: Tables, steps: seq<Step>, i: nat)
    requires Valid(t) && i < |t.alerts|
    ensures i < |Run(t, steps).alerts|
    ensures Run(t, steps).alerts[i].metric == t.alerts[i].metric
    ensures Run(t, steps).alerts[i].createdAt == t.alerts[i].createdAt
    ensures t.alerts[i].resolvedAt.Some? ==> Run(t, steps).alerts[i].resolvedAt == t.alerts[i].resolvedAt
    decreases |steps|
  {
    if steps != [] {
      StepKeepsAlert(t, steps[0], i);
      StepKeepsValid(t, steps[0]);
      ResolutionIsFinal(Next(t, steps[0]), steps[1..], i);
    }
  }

  /**
   * The account of every alert after any run from empty tables: one breach event, at most one recovery and that
   * one later than the breach, at most one open alert per metric.
   */
  lemma {:induction false} EpisodesAreAccounted(steps: seq<Step>, id: nat)
    ensures var t := Run(NO_TABLES, steps);
            && BreachCount(t.emitted, id) == (if 1 <= id <= |t.alerts| then 1 else 0)
            && RecoveryCount(t.emitted, id) <= BreachCount(t.emitted, id)
            && (1 <= id <= |t.alerts| && t.alerts[id - 1].resolvedAt.None? ==> RecoveryCount(t.emitted, id) == 0)
            && OneOpenEach(t.alerts) && BreachFirst(t.emitted)
  {
    assert Valid(NO_TABLES);
    RunKeepsValid(NO_TABLES, steps);
  }

  lemma {:induction false} OpenAlertAfterRename(alerts: seq<Alert>, i: nat, kind: AlertKind, id: string)
    requires OneOpenEach(alerts) && OpenAlert(alerts, id) == Some(i)
    ensures OpenAlert(alerts[i := alerts[i].(kind := kind)], id) == Some(i)
  {
    var after := alerts[i := alerts[i].(kind := kind)];
    assert IsOpen(after[i], id);
    var j := OpenAlert(after, id).value;
    assert IsOpen(alerts[j], id);
  }

  lemma {:induction false} NoOpenAlertAfterClose(alerts: seq<Alert>, i: nat, now: int, id: string)
    requires OneOpenEach(alerts) && OpenAlert(alerts, id) == Some(i)
    ensures OpenAlert(alerts[i := Resolve(alerts[i], now)], id) == None
  {
  }

  lemma {:induction false} ConcludeTwice(t: Tables, id: string, v: Verdict, value: Option<real>, now: int)
    requires Valid(t)
    ensures var once := Conclude(t, id, v, value, now).0; Conclude(once, id, v, value, now).0 == once
  {
    var alert := OpenAlert(t.alerts, id);
    if v.Judged? && v.breached {
      if alert.Some? {
        OpenAlertAfterRename(t.alerts, alert.value, v.kind, id);
      }
    } else if v.Judged? && alert.Some? {
      NoOpenAlertAfterClose(t.alerts, alert.value, now, id);
    }
  }

  /** Evaluating again without new evidence changes nothing and signals nothing: an episode is announced once. */
  lemma {:induction false} EvaluatingTwiceIsQuiet(t: Tables, id: string, now: int)
    requires Valid(t)
    ensures var once := Next(t, Evaluating(id, now)); Next(once, Evaluating(id, now)) == once
  {
    if EvaluateOne(t, id, now).Ok? && id in t.metrics && t.metrics[id].definition.threshold.Some? {
      var d := t.metrics[id].definition;
      var alert := OpenAlert(t.alerts, id);
      if d.rule.disabled || d.rule.mode == DisabledMode {
        if alert.Some? { NoOpenAlertAfterClose(t.alerts, alert.value, now, id); }
      } else if Calculate(t.samples, id, d, now).Ok? {
        var value := Calculate(t.samples, id, d, now).value;
        var o := CalculationOptions(d.calculation).value;
        ConcludeTwice(t, id, Judge(t.samples, id, d, o, d.threshold.value, value, now), value, now);
      }
    }
  }

  /**
   * What a report says about the episode afterwards: breached means the named alert is the open one, ok or recovered
   * means none is open, unknown means nothing changed.
   */
  ghost predicate Tells(report: Report, t: Tables, after: Tables, id: string) {
    match report
    case BreachedAs(k) => k >= 1 && OpenAlert(after.alerts, id) == Some(k - 1)
    case RecoveredAs(k) => k >= 1 && OpenAlert(t.alerts, id) == Some(k - 1) && OpenAlert(after.alerts, id) == None
    case Okay => OpenAlert(after.alerts, id) == None && after.emitted == t.emitted
    case _ => after == t
  }

  lemma {:induction false} OpenAlertAfterOpening(alerts: seq<Alert>, a: Alert)
    requires a.resolvedAt.None?
    ensures OpenAlert(alerts + [a], a.metric) == Some(|alerts|)
  {
    assert (alerts + [a])[|alerts|] == a;
  }

  lemma {:induction false} ConclusionTells(t: Tables, id: string, v: Verdict, value: Option<real>, now: int)
    requires OneOpenEach(t.alerts)
    ensures Tells(Conclude(t, id, v, value, now).1, t, Conclude(t, id, v, value, now).0, id)
  {
    var alert := OpenAlert(t.alerts, id);
    if alert.Some? && v.Judged? {
      if v.breached {
        OpenAlertAfterRename(t.alerts, alert.value, v.kind, id);
      } else {
        NoOpenAlertAfterClose(t.alerts, alert.value, now, id);
      }
    } else if v.Judged? && v.breached {
      OpenAlertAfterOpening(t.alerts, Alert(id, v.kind, now, None));
    }
  }

  lemma {:induction false} ReportTellsTheEpisode(t: Tables, id: string, now: int)
    requires OneOpenEach(t.alerts) && EvaluateOne(t, id, now).Ok?
    ensures Tells(EvaluateOne(t, id, now).value.1, t, EvaluateOne(t, id, now).value.0, id)
  {
    if id in t.metrics && t.metrics[id].definition.status == Active && t.metrics[id].definition.threshold.Some? {
      var d := t.metrics[id].definition;
      if d.rule.disabled || d.rule.mode == DisabledMode {
        var alert := OpenAlert(t.alerts, id);
        if alert.Some? { NoOpenAlertAfterClose(t.alerts, alert.value, now, id); }
      } else {
        var value := Calculate(t.samples, id, d, now).value;
        var o := CalculationOptions(d.calculation).value;
        ConclusionTells(t, id, Judge(t.samples, id, d, o, d.threshold.value, value, now), value, now);
      }
    }
  }

  /** Retiring a metric closes its episode without an event and leaves every other metric's alerts alone. */
  lemma {:induction false} RetirementClosesQuietly(t: Tables, id: string, d: Definition, now: int)
    requires Define(t, id, false, d, now).Ok? && (d.status == Retired || d.status == ClosedDown)
    ensures var after := Define(t, id, false, d, now).value;
            && OpenAlert(after.alerts, id) == None && after.emitted == t.emitted && |after.alerts| == |t.alerts|
            && (forall i | 0 <= i < |t.alerts| && t.alerts[i].metric != id :: after.alerts[i] == t.alerts[i])
            && (id in t.metrics ==> after.metrics[id].current == t.metrics[id].current)
  {
  }

  // ---- The rules, read off the samples in time order ----

  lemma {:induction false} CountedIdsAreDistinct(samples: seq<Row>, keep: Clause)
    requires IdsCount(samples)
    ensures DistinctIds(Where(samples, keep))
  {
    WhereDistinct(samples, keep);
  }

  /** The samples of a metric up to a time, oldest first. */
  function Timeline(samples: seq<Row>, id: string, now: int): seq<Row> {
    Ascending(Where(samples, Spanning(id, None, now)))
  }

  /** After a record, a defined metric's current value is the last sample in time order, also for late arrivals. */
  lemma {:induction false} RecordTracksLatest(t: Tables, id: string, value: real, at: int)
    requires Valid(t) && id in t.metrics
    ensures var u := RecordSample(t, id, value, at);
            var line := Ascending(Where(u.samples, OfMetric(id)));
            && line != [] && u.metrics[id].current == Some(line[|line| - 1].value)
            && Row(|t.samples| + 1, id, value, at) in line
  {
    var u := RecordSample(t, id, value, at);
    var r := Row(|t.samples| + 1, id, value, at);
    RecordKeepsValid(t, id, value, at);
    var rows := Where(u.samples, OfMetric(id));
    CountedIdsAreDistinct(u.samples, OfMetric(id));
    assert u.samples[|t.samples|] == r;
    WhereHas(u.samples, OfMetric(id), r);
    AscendingLists(rows);
    var line := Ascending(rows);
    var i := ListedAt(line, rows, r);
    LastIsLatest(rows, line);
  }

  /** A stall is reported exactly when the final run of equal samples began longer ago than allowed. */
  lemma {:induction false} StalledExactlyWhen(samples: seq<Row>, id: string, rule: AlertRule, now: int)
    requires IdsCount(samples)
    ensures var line := Timeline(samples, id, now);
            Stalled(samples, id, rule, now) <==>
            && rule.stallAfterMs != 0 && line != []
            && var k := RunStart(line, line[|line| - 1].value); k < |line| && now - line[k].at > rule.stallAfterMs
  {
    var rows := Where(samples, Spanning(id, None, now));
    CountedIdsAreDistinct(samples, Spanning(id, None, now));
    var line := Ascending(rows);
    AscendingLists(rows);
    if rows != [] {
      LookupsFindRunStart(rows);
      LastIsLatest(rows, line);
    }
  }

  ghost predicate LastAllBreach(line: seq<Row>, n: nat, threshold: real, op: Op) {
    n <= |line| && forall i | |line| - n <= i < |line| :: Breaches(line[i].value, threshold, op)
  }

  lemma {:induction false} BackwardsAt(line: seq<Row>, n: nat, i: nat)
    ensures |Backwards(line, n)| == Min(n, |line|)
    ensures i < Min(n, |line|) ==> Backwards(line, n)[i] == line[|line| - 1 - i]
    decreases n
  {
    if n > 0 && line != [] { BackwardsAt(line[..|line| - 1], n - 1, if i > 0 then i - 1 else 0); }
  }

  lemma {:induction false} BackwardsBreach(line: seq<Row>, n: nat, threshold: real, op: Op)
    requires n <= |line|
    ensures AllBreach(Backwards(line, n), threshold, op) <==> LastAllBreach(line, n, threshold, op)
  {
    BackwardsAt(line, n, 0);
    var back := Backwards(line, n);
    if AllBreach(back, threshold, op) {
      forall i | |line| - n <= i < |line| ensures Breaches(line[i].value, threshold, op) {
        BackwardsAt(line, n, |line| - 1 - i);
        assert back[|line| - 1 - i] == line[i];
      }
    }
    if LastAllBreach(line, n, threshold, op) {
      forall i | 0 <= i < |back| ensures Breaches(back[i].value, threshold, op) { BackwardsAt(line, n, i); }
    }
  }

  /** The consecutive rules look at the last `n` samples in time order: too few is unknown, else all must breach. */
  lemma {:induction false} ConsecutiveExactlyWhen(
      samples: seq<Row>, id: string, d: Definition, threshold: real, over: bool, now: int)
    requires IdsCount(samples)
    ensures var line := Timeline(samples, id, now);
            var n := RequiredCount(d.rule);
            var v := Consecutive(samples, id, d, threshold, over, now);
            && (v.Unknown? <==> over && |line| < n)
            && (v.Judged? && v.breached <==> over && LastAllBreach(line, n, threshold, d.op))
  {
    var rows := Where(samples, Spanning(id, None, now));
    CountedIdsAreDistinct(samples, Spanning(id, None, now));
    AscendingLists(rows);
    var line := Ascending(rows);
    NewestReadsBackwards(rows, line, RequiredCount(d.rule));
    BackwardsAt(line, RequiredCount(d.rule), 0);
    if RequiredCount(d.rule) <= |line| { BackwardsBreach(line, RequiredCount(d.rule), threshold, d.op); }
  }

  /** The samples of a metric up to a time are all there, oldest first. */
  lemma {:induction false} TimelineHolds(samples: seq<Row>, id: string, from: Option<int>, now: int, r: Row)
    requires IdsCount(samples)
    ensures var line := Ascending(Where(samples, Spanning(id, from, now)));
            && InTimeOrder(line)
            && (r in line <==> r in samples && r.metric == id && r.at <= now && (from.Some? ==> from.value <= r.at))
  {
    var rows := Where(samples, Spanning(id, from, now));
    CountedIdsAreDistinct(samples, Spanning(id, from, now));
    AscendingLists(rows);
    WhereHas(samples, Spanning(id, from, now), r);
    assert r in Ascending(rows) <==> r in Elements(Ascending(rows));
    assert r in rows <==> r in Elements(rows);
  }

  /** Options that cannot be used: malformed, not positive, a mean without a window, or a latest value with one. */
  ghost predicate Unusable(c: RawCalculation) {
    || c.Malformed?
    || (c.Given? && c.options.windowMs.Some? && c.options.windowMs.value <= 0)
    || (c.Given? && c.options.maxAgeMs.Some? && c.options.maxAgeMs.value <= 0)
    || (c.Given? && c.options.minSamples.Some? && c.options.minSamples.value <= 0)
    || (c.Given? && c.options.how == Mean && c.options.windowMs.None?)
    || (c.Given? && c.options.how == LatestValue && (c.options.windowMs.Some? || c.options.minSamples.Some?))
  }

  lemma {:induction false} RefusedExactlyWhenUnusable(samples: seq<Row>, id: string, d: Definition, now: int)
    ensures Calculate(samples, id, d, now).Err? <==> Unusable(d.calculation)
    ensures Unusable(d.calculation) ==> Calculate(samples, id, d, now) == Err(BadCalculation)
    ensures !Unusable(d.calculation) ==>
            CalculationOptions(d.calculation) ==
            Ok(if d.calculation.Given? then d.calculation.options else Calculation(LatestValue, None, None, None))
  {
  }

  /** How old the last sample may be: as configured, else two measuring intervals, else the window, else any age. */
  ghost predicate AgeLimit(d: Definition, age: Option<int>) {
    var maxAge := if d.calculation.Given? then d.calculation.options.maxAgeMs else None;
    var window := if d.calculation.Given? then d.calculation.options.windowMs else None;
    var paced := d.measureInterval.Some? && d.measureInterval.value > 0;
    && (maxAge.Some? ==> age == maxAge)
    && (maxAge.None? && paced ==> age == Some(d.measureInterval.value + d.measureInterval.value))
    && (maxAge.None? && !paced ==> age == window)
  }

  ghost predicate TooOld(line: seq<Row>, age: Option<int>, now: int) {
    line == [] || (age.Some? && line[|line| - 1].at < now - age.value)
  }

  lemma {:induction false} LatestOfTimeline(samples: seq<Row>, id: string, now: int)
    requires IdsCount(samples)
    ensures var line := Timeline(samples, id, now);
            Latest(Where(samples, Spanning(id, None, now))) == if line == [] then None else Some(line[|line| - 1])
  {
    var rows := Where(samples, Spanning(id, None, now));
    CountedIdsAreDistinct(samples, Spanning(id, None, now));
    AscendingLists(rows);
    var line := Ascending(rows);
    assert line != [] ==> line[0] in Elements(line);
    if rows != [] { LastIsLatest(rows, line); } else { assert Elements(rows) == {}; }
  }

  /** A latest-value calculation is the last sample in time order, unless there is none or it is too old. */
  lemma {:induction false} LatestCalculationExactlyWhen(
      samples: seq<Row>, id: string, d: Definition, age: Option<int>, now: int)
    requires IdsCount(samples) && !Unusable(d.calculation) && AgeLimit(d, age)
    requires d.calculation.Given? ==> d.calculation.options.how == LatestValue
    ensures var line := Timeline(samples, id, now);
            Calculate(samples, id, d, now) == Ok(if TooOld(line, age, now) then None else Some(line[|line| - 1].value))
  {
    LatestOfTimeline(samples, id, now);
  }

  /** Whether a mean is known: a last sample young enough and enough samples, at least two unless configured. */
  lemma {:induction false} MeanIsKnownExactlyWhen(
      samples: seq<Row>, id: string, d: Definition, age: Option<int>, now: int)
    requires IdsCount(samples) && !Unusable(d.calculation) && AgeLimit(d, age)
    requires d.calculation.Given? && d.calculation.options.how == Mean
    ensures var o := d.calculation.options;
            var window := Where(samples, Spanning(id, Some(now - o.windowMs.value + 1), now));
            var enough := if o.minSamples.Some? then o.minSamples.value else 2;
            && Calculate(samples, id, d, now).Ok?
            && (Calculate(samples, id, d, now).value.Some? <==>
                !TooOld(Timeline(samples, id, now), age, now) && |window| >= enough)
  {
    LatestOfTimeline(samples, id, now);
  }

  /** A sum is that of its values, whichever of them is taken out first. */
  lemma {:induction false} SumAddsEveryValue(rows: seq<Row>, i: nat)
    requires i < |rows|
    ensures Sum(rows) == Sum(rows[..i] + rows[i + 1..]) + rows[i].value && Sum([]) == 0.0
    decreases |rows|
  {
    var init, last := rows[..|rows| - 1], rows[|rows| - 1];
    if i < |rows| - 1 {
      SumAddsEveryValue(init, i);
      var rest := init[..i] + init[i + 1..];
      assert rows[..i] + rows[i + 1..] == rest + [last];
      assert (rest + [last])[..|rest|] == rest;
    } else {
      assert rows[..i] + rows[i + 1..] == init;
    }
  }

  lemma {:induction false} SumBetween(rows: seq<Row>, lo: real, hi: real)
    requires forall i | 0 <= i < |rows| :: lo <= rows[i].value <= hi
    ensures lo * |rows| as real <= Sum(rows) <= hi * |rows| as real
    decreases |rows|
  {
    if rows != [] {
      var init := rows[..|rows| - 1];
      SumBetween(init, lo, hi);
      assert lo * |rows| as real == lo * |init| as real + lo && hi * |rows| as real == hi * |init| as real + hi;
    }
  }

  /** A known mean is the average of enough samples of its window, so it lies between any bounds of them. */
  lemma {:induction false} MeanIsTheAverageOfItsWindow(
      samples: seq<Row>, id: string, d: Definition, now: int, lo: real, hi: real)
    requires CalculationOptions(d.calculation).Ok? && CalculationOptions(d.calculation).value.how == Mean
    requires Calculate(samples, id, d, now).Ok? && Calculate(samples, id, d, now).value.Some?
    requires forall r | r in samples && r.metric == id
                 && now - CalculationOptions(d.calculation).value.windowMs.value < r.at <= now ::
               lo <= r.value <= hi
    ensures lo <= Calculate(samples, id, d, now).value.value <= hi
    ensures var o := CalculationOptions(d.calculation).value;
            var window := Where(samples, Spanning(id, Some(now - o.windowMs.value + 1), now));
            && |window| >= (if o.minSamples.Some? then o.minSamples.value else 2)
            && Calculate(samples, id, d, now).value.value * |window| as real == Sum(window)
  {
    var o := CalculationOptions(d.calculation).value;
    var span := Spanning(id, Some(now - o.windowMs.value + 1), now);
    var window := Where(samples, span);
    forall i | 0 <= i < |window| ensures lo <= window[i].value <= hi { WhereHas(samples, span, window[i]); }
    MeanBetween(window, lo, hi);
    QuotientTimes(Sum(window), |window| as real);
  }

  lemma {:induction false} QuotientTimes(x: real, n: real)
    requires n > 0.0
    ensures x / n * n == x
  {
  }

  lemma {:induction false} MeanBetween(rows: seq<Row>, lo: real, hi: real)
    requires rows != [] && forall i | 0 <= i < |rows| :: lo <= rows[i].value <= hi
    ensures lo <= Sum(rows) / |rows| as real <= hi
  {
    SumBetween(rows, lo, hi);
    QuotientBetween(Sum(rows), |rows| as real, lo, hi);
  }

  lemma {:induction false} QuotientBetween(x: real, n: real, lo: real, hi: real)
    requires n > 0.0 && lo * n <= x <= hi * n
    ensures lo <= x / n <= hi
  {
    assert x / n * n == x;
  }

  lemma {:induction false} LastTwoBackwards(line: seq<Row>)
    ensures |Backwards(line, 2)| == Min(2, |line|)
    ensures |line| >= 2 ==> Backwards(line, 2)[0] == line[|line| - 1] && Backwards(line, 2)[1] == line[|line| - 2]
  {
    BackwardsAt(line, 2, 0);
    BackwardsAt(line, 2, 1);
  }

  /** A rate is that between the last two samples in time order that are young enough, unknown for fewer. */
  lemma {:induction false} RateIsOfLastTwo(samples: seq<Row>, id: string, d: Definition, maxAge: Option<int>, now: int)
    requires IdsCount(samples)
    ensures var from := if maxAge.Some? then Some(now - maxAge.value) else None;
            var line := Ascending(Where(samples, Spanning(id, from, now)));
            RateOf(samples, id, d, maxAge, now) ==
            if |line| < 2 then None else RateBetween(line[|line| - 2], line[|line| - 1], d.rule.perDay)
  {
    var span := Spanning(id, if maxAge.Some? then Some(now - maxAge.value) else None, now);
    var rows := Where(samples, span);
    CountedIdsAreDistinct(samples, span);
    AscendingLists(rows);
    NewestReadsBackwards(rows, Ascending(rows), 2);
    LastTwoBackwards(Ascending(rows));
  }

  /** A known rate is the change per hour, or per day, of a counter that did not go down. */
  lemma {:induction false} SlopeIsChangePerTime(a: Row, b: Row, perDay: bool)
    requires RateBetween(a, b, perDay).Some?
    ensures a.at < b.at && a.value <= b.value && RateBetween(a, b, perDay).value == Slope(a, b, perDay)
    ensures Slope(a, b, perDay) >= 0.0
    ensures Slope(a, b, perDay) * (b.at - a.at) as real ==
            (b.value - a.value) * (if perDay then 86400000.0 else 3600000.0)
  {
    var elapsed, change := (b.at - a.at) as real, b.value - a.value;
    assert change / elapsed * elapsed == change;
    assert change / elapsed >= 0.0;
  }

  predicate Evaluable(t: Tables, id: string) {
    && id in t.metrics && t.metrics[id].definition.status == Active && t.metrics[id].definition.threshold.Some?
    && !t.metrics[id].definition.rule.disabled && t.metrics[id].definition.rule.mode != DisabledMode
  }

  // ---- Exactly when an evaluation breaches ----

  ghost predicate PastLimit(v: real, limit: real, op: Op) {
    || (op == Above && v > limit)
    || (op == AtLeast && v >= limit)
    || (op == AtMost && v <= limit)
    || (op == Below && v < limit)
  }

  /** The calculated value is known and past the limit. */
  ghost predicate Over(t: Tables, id: string, now: int)
    requires Evaluable(t, id)
  {
    var d := t.metrics[id].definition;
    var v := Calculate(t.samples, id, d, now);
    v.Ok? && v.value.Some? && PastLimit(v.value.value, d.threshold.value, d.op)
  }

  /** The calculated value is not known. */
  ghost predicate ValueUnknown(t: Tables, id: string, now: int)
    requires Evaluable(t, id)
  {
    Calculate(t.samples, id, t.metrics[id].definition, now) == Ok(None)
  }

  /**
   * What an evaluation that finds a breach of this kind, or none, or cannot tell, says and does. A breach opens an
   * alert and is announced, or gives the open alert its kind. No breach resolves the open alert, if any, and
   * announces the recovery at the known value.
   */
  ghost predicate Finds(t: Tables, id: string, now: int, unknown: bool, breached: bool, kind: AlertKind)
    requires Evaluable(t, id) && Calculate(t.samples, id, t.metrics[id].definition, now).Ok?
  {
    var v := Calculate(t.samples, id, t.metrics[id].definition, now).value;
    var open, n := OpenAlert(t.alerts, id), |t.alerts|;
    EvaluateOne(t, id, now) == Ok(
      if unknown then (t, UnknownValue)
      else if breached then
        if open.None? then
          (t.(alerts := t.alerts + [Alert(id, kind, now, None)], emitted := t.emitted + [Breach(n + 1, id)]),
           BreachedAs(n + 1))
        else
          (t.(alerts := t.alerts[open.value := t.alerts[open.value].(kind := kind)]), BreachedAs(open.value + 1))
      else if open.None? || v.None? then (t, Okay)
      else
        (t.(alerts := t.alerts[open.value := t.alerts[open.value].(resolvedAt := Some(now))],
            emitted := t.emitted + [Recovered(open.value + 1, id, v.value)]),
         RecoveredAs(open.value + 1)))
  }

  lemma {:induction false} VerdictFinds(t: Tables, id: string, now: int, verdict: Verdict)
    requires Evaluable(t, id) && Calculate(t.samples, id, t.metrics[id].definition, now).Ok?
    requires var d := t.metrics[id].definition;
             verdict == Judge(t.samples, id, d, CalculationOptions(d.calculation).value, d.threshold.value,
                              Calculate(t.samples, id, d, now).value, now)
    ensures verdict.Unknown? ==> forall b, k :: Finds(t, id, now, true, b, k)
    ensures verdict.Judged? ==> Finds(t, id, now, false, verdict.breached, verdict.kind)
    ensures verdict.Judged? && !verdict.breached ==> forall k :: Finds(t, id, now, false, false, k)
  {
  }

  lemma {:induction false} BreachesIsPastLimit(v: real, limit: real, op: Op)
    ensures Breaches(v, limit, op) <==> PastLimit(v, limit, op)
  {
  }

  /** Metrics that are not active or have no limit are not reported; unusable options are a fault and change nothing. */
  lemma {:induction false} NotReportedExactlyWhen(t: Tables, id: string, now: int)
    ensures EvaluateOne(t, id, now) == Ok((t, NoReport)) <==>
            id !in t.metrics || t.metrics[id].definition.status != Active || t.metrics[id].definition.threshold.None?
    ensures EvaluateOne(t, id, now).Err? <==> Evaluable(t, id) && Unusable(t.metrics[id].definition.calculation)
  {
    if Evaluable(t, id) { RefusedExactlyWhenUnusable(t.samples, id, t.metrics[id].definition, now); }
  }

  /** A metric whose alerts are disabled is reported as fine, and an alert it has is resolved without an event. */
  lemma {:induction false} DisabledIsQuiet(t: Tables, id: string, now: int)
    requires id in t.metrics && t.metrics[id].definition.status == Active && t.metrics[id].definition.threshold.Some?
    requires t.metrics[id].definition.rule.disabled || t.metrics[id].definition.rule.mode == DisabledMode
    ensures var open := OpenAlert(t.alerts, id);
            EvaluateOne(t, id, now) == Ok(
              if open.None? then (t, Okay)
              else (t.(alerts := t.alerts[open.value := t.alerts[open.value].(resolvedAt := Some(now))]), Okay))
  {
  }

  /** The rule that applies: over a number of samples in a row, by rate, or the plain one. */
  ghost predicate RuleInARow(d: Definition) {
    (d.kind == Health && d.rule.mode == ConsecutiveFailures) || (d.kind == Gauge && d.rule.mode == Sustained)
  }

  ghost predicate RuleByRate(d: Definition) { d.kind == Counter && d.rule.mode == Rate }

  /** The plain rule breaches exactly when the known value is past the limit, and cannot tell when it is not known. */
  lemma {:induction false} PlainBreachExactlyWhen(t: Tables, id: string, now: int)
    requires Evaluable(t, id) && !Unusable(t.metrics[id].definition.calculation)
    requires !RuleInARow(t.metrics[id].definition) && !RuleByRate(t.metrics[id].definition)
    ensures Calculate(t.samples, id, t.metrics[id].definition, now).Ok?
    ensures Finds(t, id, now, ValueUnknown(t, id, now), Over(t, id, now), ThresholdKind)
  {
    var d := t.metrics[id].definition;
    RefusedExactlyWhenUnusable(t.samples, id, d, now);
    var v := Calculate(t.samples, id, d, now).value;
    if v.Some? { BreachesIsPastLimit(v.value, d.threshold.value, d.op); }
  }

  /** The last `n` samples of the line are all past the limit. */
  ghost predicate AllPastLimit(line: seq<Row>, n: int, limit: real, op: Op) {
    n <= |line| && forall i | |line| - n <= i < |line| && 0 <= i :: PastLimit(line[i].value, limit, op)
  }

  /**
   * A rule over samples in a row breaches exactly when the known value and each of the last samples, three unless
   * configured, are past the limit. It cannot tell when the value is not known, or is past the limit with too few
   * samples.
   */
  lemma {:induction false} InARowBreachExactlyWhen(t: Tables, id: string, n: int, now: int)
    requires IdsCount(t.samples) && Evaluable(t, id) && !Unusable(t.metrics[id].definition.calculation)
    requires RuleInARow(t.metrics[id].definition)
    requires var count := t.metrics[id].definition.rule.count;
             n == if count.Some? && count.value > 0 then count.value else 3
    ensures Calculate(t.samples, id, t.metrics[id].definition, now).Ok?
    ensures var d, line, over := t.metrics[id].definition, Timeline(t.samples, id, now), Over(t, id, now);
            Finds(t, id, now, ValueUnknown(t, id, now) || (over && |line| < n),
                  over && AllPastLimit(line, n, d.threshold.value, d.op),
                  if d.rule.mode == Sustained then SustainedKind else ConsecutiveKind)
  {
    var d, line := t.metrics[id].definition, Timeline(t.samples, id, now);
    RefusedExactlyWhenUnusable(t.samples, id, d, now);
    var v := Calculate(t.samples, id, d, now).value;
    if v.Some? { BreachesIsPastLimit(v.value, d.threshold.value, d.op); }
    var over := v.Some? && Breaches(v.value, d.threshold.value, d.op);
    ConsecutiveExactlyWhen(t.samples, id, d, d.threshold.value, over, now);
    assert LastAllBreach(line, n, d.threshold.value, d.op) <==> AllPastLimit(line, n, d.threshold.value, d.op);
  }

  /** The change per hour, or per day, of the last two samples; unknown for fewer, at one time, or after a reset. */
  ghost predicate IsRate(line: seq<Row>, perDay: bool, rate: Option<real>) {
    if |line| < 2 then rate.None?
    else
      var a, b := line[|line| - 2], line[|line| - 1];
      if b.at <= a.at || b.value < a.value then rate.None?
      else
        rate.Some? &&
        rate.value * (b.at - a.at) as real == (b.value - a.value) * (if perDay then 86400000.0 else 3600000.0)
  }

  lemma {:induction false} SameFactor(x: real, y: real, n: real)
    requires n > 0.0 && x * n == y * n
    ensures x == y
  {
    assert x == x * n / n && y == y * n / n;
  }

  lemma {:induction false} RateIsUnique(line: seq<Row>, perDay: bool, rate: Option<real>)
    requires IsRate(line, perDay, rate)
    ensures rate == if |line| < 2 then None else RateBetween(line[|line| - 2], line[|line| - 1], perDay)
  {
    if |line| >= 2 {
      var a, b := line[|line| - 2], line[|line| - 1];
      if RateBetween(a, b, perDay).Some? {
        SlopeIsChangePerTime(a, b, perDay);
        SameFactor(rate.value, RateBetween(a, b, perDay).value, (b.at - a.at) as real);
      }
    }
  }

  /** The final stretch of equal values begins at `k`. */
  ghost predicate IsStretch(line: seq<Row>, k: int) {
    && 0 <= k < |line|
    && (forall i | k <= i < |line| :: line[i].value == line[|line| - 1].value)
    && (k > 0 ==> line[k - 1].value != line[|line| - 1].value)
  }

  /** The value has stood still since before the allowed time. */
  ghost predicate StandsStill(line: seq<Row>, allowed: int, now: int) {
    allowed != 0 && exists k :: IsStretch(line, k) && line[k].at < now - allowed
  }

  lemma {:induction false} StretchIsRunStart(line: seq<Row>, k: int)
    requires line != []
    ensures IsStretch(line, k) <==> k == RunStart(line, line[|line| - 1].value)
  {
    var start := RunStart(line, line[|line| - 1].value);
    assert start < |line|;
    if IsStretch(line, k) { assert k == start; }
  }

  lemma {:induction false} StalledIsStandingStill(samples: seq<Row>, id: string, rule: AlertRule, now: int)
    requires IdsCount(samples)
    ensures Stalled(samples, id, rule, now) <==> StandsStill(Timeline(samples, id, now), rule.stallAfterMs, now)
  {
    StalledExactlyWhen(samples, id, rule, now);
    var line := Timeline(samples, id, now);
    if line != [] {
      StretchIsRunStart(line, RunStart(line, line[|line| - 1].value));
      if StandsStill(line, rule.stallAfterMs, now) {
        var k :| IsStretch(line, k) && line[k].at < now - rule.stallAfterMs;
        StretchIsRunStart(line, k);
      }
    }
  }

  lemma {:induction false} RateIs(
      samples: seq<Row>, id: string, d: Definition, age: Option<int>, rate: Option<real>, now: int)
    requires IdsCount(samples)
    requires var from := if age.Some? then Some(now - age.value) else None;
             IsRate(Ascending(Where(samples, Spanning(id, from, now))), d.rule.perDay, rate)
    ensures RateOf(samples, id, d, age, now) == rate
  {
    var from := if age.Some? then Some(now - age.value) else None;
    RateIsOfLastTwo(samples, id, d, age, now);
    RateIsUnique(Ascending(Where(samples, Spanning(id, from, now))), d.rule.perDay, rate);
  }

  lemma {:induction false} AgeLimitIsMaxAge(d: Definition, age: Option<int>)
    requires !Unusable(d.calculation) && AgeLimit(d, age)
    ensures CalculationOptions(d.calculation).Ok?
    ensures MaxAge(CalculationOptions(d.calculation).value, d.measureInterval) == age
  {
  }

  lemma {:induction false} ByRateMeans(
      samples: seq<Row>, id: string, d: Definition, age: Option<int>, v: Option<real>, over: bool, rate: Option<real>,
      now: int)
    requires rate == if v.Some? then RateOf(samples, id, d, age, now) else None
    ensures var still, off := Stalled(samples, id, d.rule, now), OutsideRates(rate, d.rule);
            ByRate(samples, id, d, age, v, over, now) ==
            if !over && !off && !still && rate.None? && (d.rule.minRate.Some? || d.rule.maxRate.Some?) then Unknown
            else Judged(over || off || still,
                        if still then StallKind else if off && !over then RateKind else ThresholdKind)
  {
  }

  ghost predicate OutsideRates(rate: Option<real>, rule: AlertRule) {
    && rate.Some?
    && ((rule.minRate.Some? && rate.value < rule.minRate.value)
        || (rule.maxRate.Some? && rule.maxRate.value < rate.value))
  }

  /**
   * The rate rule breaches exactly when the value is past the limit, or the rate of the last two samples that are young
   * enough is outside the configured rates, or the value stands still. Otherwise it cannot tell when the value is not
   * known, or when rates are configured and the rate is not known.
   */
  lemma {:induction false} RateBreachExactlyWhen(t: Tables, id: string, age: Option<int>, rate: Option<real>, now: int)
    requires IdsCount(t.samples) && Evaluable(t, id) && !Unusable(t.metrics[id].definition.calculation)
    requires RuleByRate(t.metrics[id].definition) && AgeLimit(t.metrics[id].definition, age)
    requires var from := if age.Some? then Some(now - age.value) else None;
             if ValueUnknown(t, id, now) then rate.None?
             else IsRate(Ascending(Where(t.samples, Spanning(id, from, now))),
                         t.metrics[id].definition.rule.perDay, rate)
    ensures Calculate(t.samples, id, t.metrics[id].definition, now).Ok?
    ensures var rule := t.metrics[id].definition.rule;
            var over, off := Over(t, id, now), OutsideRates(rate, rule);
            var still := StandsStill(Timeline(t.samples, id, now), rule.stallAfterMs, now);
            var blind := ValueUnknown(t, id, now) || (rate.None? && (rule.minRate.Some? || rule.maxRate.Some?));
            Finds(t, id, now, !over && !off && !still && blind, over || off || still,
                  if still then StallKind else if off && !over then RateKind else ThresholdKind)
  {
    var d := t.metrics[id].definition;
    RefusedExactlyWhenUnusable(t.samples, id, d, now);
    var v := Calculate(t.samples, id, d, now).value;
    var o := CalculationOptions(d.calculation).value;
    var over := v.Some? && Breaches(v.value, d.threshold.value, d.op);
    StalledIsStandingStill(t.samples, id, d.rule, now);
    if v.Some? {
      BreachesIsPastLimit(v.value, d.threshold.value, d.op);
      RateIs(t.samples, id, d, age, rate, now);
    }
    AgeLimitIsMaxAge(d, age);
    ByRateMeans(t.samples, id, d, age, v, over, rate, now);
    VerdictFinds(t, id, now, Judge(t.samples, id, d, o, d.threshold.value, v, now));
  }

  /**
   * "Recovered means the value is back within the threshold" is not true of the consecutive rules. With an open
   * alert and a known value beyond the threshold, a recovery is signalled exactly when the rule is a consecutive
   * one, enough samples exist, and not all of the last `n` are beyond it.
   */
  lemma {:induction false} RecoversBeyondThresholdExactlyWhen(t: Tables, id: string, now: int)
    requires Valid(t) && Evaluable(t, id) && OpenAlert(t.alerts, id).Some?
    requires var value := Calculate(t.samples, id, t.metrics[id].definition, now);
             value.Ok? && value.value.Some?
             && Breaches(value.value.value, t.metrics[id].definition.threshold.value, t.metrics[id].definition.op)
    ensures var d := t.metrics[id].definition;
            var line := Timeline(t.samples, id, now);
            var n := RequiredCount(d.rule);
            EvaluateOne(t, id, now).Ok?
            && (EvaluateOne(t, id, now).value.1.RecoveredAs? <==>
                IsConsecutive(d) && n <= |line| && !LastAllBreach(line, n, d.threshold.value, d.op))
  {
    var d := t.metrics[id].definition;
    ConsecutiveExactlyWhen(t.samples, id, d, d.threshold.value, true, now);
  }

  /**
   * A recovery is signalled only for the metric's open alert, with the known value, and only when the rule is clear:
   * not stalled and within its rates under a rate rule, and beyond the threshold only as the law above allows.
   */
  lemma {:induction false} RecoveryMeansClear(t: Tables, id: string, now: int)
    requires Valid(t) && EvaluateOne(t, id, now).Ok? && EvaluateOne(t, id, now).value.1.RecoveredAs?
    ensures Evaluable(t, id) && OpenAlert(t.alerts, id).Some?
    ensures var d := t.metrics[id].definition;
            var value := Calculate(t.samples, id, d, now);
            && value.Ok? && value.value.Some?
            && EvaluateOne(t, id, now).value.0.emitted
               == t.emitted + [Recovered(OpenAlert(t.alerts, id).value + 1, id, value.value.value)]
            && (d.kind == Counter && d.rule.mode == Rate ==>
                && !Stalled(t.samples, id, d.rule, now)
                && !OffRate(
                     RateOf(t.samples, id, d, MaxAge(CalculationOptions(d.calculation).value, d.measureInterval), now),
                     d.rule))
            && (Breaches(value.value.value, d.threshold.value, d.op) ==>
                IsConsecutive(d)
                  && !LastAllBreach(Timeline(t.samples, id, now), RequiredCount(d.rule), d.threshold.value, d.op))
  {
    var d := t.metrics[id].definition;
    var value := Calculate(t.samples, id, d, now).value.value;
    if Breaches(value, d.threshold.value, d.op) { RecoversBeyondThresholdExactlyWhen(t, id, now); }
  }

  // ---- A concrete recovery beyond the threshold ----

  /** Above 5 for two samples in a row. */
  const SUSTAINED_GAUGE :=
    Definition(Some(5.0), Above, Gauge, Active, None, Absent,
                   AlertRule(false, Sustained, Some(2), false, None, None, 0))

  const LOW := Row(1, "m", 1.0, 1)
  const HIGH := Row(2, "m", 9.0, 2)

  lemma {:induction false} ExampleRows()
    ensures Where([LOW, HIGH], Spanning("m", None, 3)) == [LOW, HIGH]
    ensures Latest([LOW, HIGH]) == Some(HIGH)
  {
    assert [LOW, HIGH][..1] == [LOW] && [LOW][..0] == [];
    assert Where([LOW], Spanning("m", None, 3)) == [LOW] && Latest([LOW]) == Some(LOW);
  }

  lemma {:induction false} ExampleTimeline()
    ensures Timeline([LOW, HIGH], "m", 3) == [LOW, HIGH]
    ensures !LastAllBreach([LOW, HIGH], 2, 5.0, Above)
  {
    ExampleRows();
    assert [LOW, HIGH][..1] == [LOW] && [LOW][..0] == [];
    assert InsertSample([], LOW) == [LOW] && InsertSample([LOW], HIGH) == [LOW, HIGH];
    assert Ascending([LOW]) == InsertSample(Ascending([]), LOW);
    assert Ascending([LOW, HIGH]) == InsertSample(Ascending([LOW]), HIGH);
    assert !Breaches([LOW, HIGH][0].value, 5.0, Above);
  }

  lemma {:induction false} ExampleValue()
    ensures Calculate([LOW, HIGH], "m", SUSTAINED_GAUGE, 3) == Ok(Some(9.0))
  {
    ExampleRows();
  }

  const DEFINED := Next(NO_TABLES, Defining("m", false, SUSTAINED_GAUGE, 0))
  const SAMPLED := Next(Next(DEFINED, Recording("m", 1.0, 1)), Recording("m", 9.0, 2))
  const ALERTED := Next(SAMPLED, Alerting("m", "manual", 2))

  lemma {:induction false} ExampleDefined()
    ensures Valid(DEFINED) && DEFINED.samples == [] && DEFINED.alerts == []
    ensures "m" in DEFINED.metrics && DEFINED.metrics["m"].definition == SUSTAINED_GAUGE
  {
    assert Valid(NO_TABLES);
    StepKeepsValid(NO_TABLES, Defining("m", false, SUSTAINED_GAUGE, 0));
  }

  lemma {:induction false} ExampleSampled()
    ensures Valid(SAMPLED) && SAMPLED.samples == [LOW, HIGH] && SAMPLED.alerts == []
    ensures "m" in SAMPLED.metrics && SAMPLED.metrics["m"].definition == SUSTAINED_GAUGE
  {
    ExampleDefined();
    StepKeepsValid(DEFINED, Recording("m", 1.0, 1));
    StepKeepsValid(Next(DEFINED, Recording("m", 1.0, 1)), Recording("m", 9.0, 2));
  }

  lemma {:induction false} ExampleAlerted()
    ensures Valid(ALERTED) && ALERTED.samples == [LOW, HIGH] && OpenAlert(ALERTED.alerts, "m").Some?
    ensures "m" in ALERTED.metrics && ALERTED.metrics["m"].definition == SUSTAINED_GAUGE
  {
    ExampleSampled();
    StepKeepsValid(SAMPLED, Alerting("m", "manual", 2));
  }

  /** A concrete case: two samples, only the newer above the limit; the open alert recovers at that value. */
  lemma {:induction false} RecoveryBeyondThresholdHappens()
    ensures exists t: Tables, id: string, now: int ::
              && Valid(t) && Evaluable(t, id)
              && EvaluateOne(t, id, now).Ok? && EvaluateOne(t, id, now).value.1.RecoveredAs?
              && var v := Calculate(t.samples, id, t.metrics[id].definition, now);
              v.Ok? && v.value.Some? && Breaches(v.value.value, t.metrics[id].definition.threshold.value, Above)
  {
    ExampleAlerted();
    ExampleValue();
    ExampleTimeline();
    RecoversBeyondThresholdExactlyWhen(ALERTED, "m", 3);
  }
}
