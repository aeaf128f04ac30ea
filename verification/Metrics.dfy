/** Metric definitions, samples and alert episodes: what each call of the metric service does to the tables. */
module Metrics {
  import opened Prelude
  import opened Samples

  // ---- Definitions ----

  datatype Method = LatestValue | Mean

  datatype Calculation = Calculation(
    how: Method, windowMs: Option<int>, maxAgeMs: Option<int>, minSamples: Option<int>)

  /** The stored calculation options, which older definitions may hold in any shape. */
  datatype RawCalculation = Absent | Malformed | Given(options: Calculation)

  datatype AlertMode = PlainMode | DisabledMode | ConsecutiveFailures | Sustained | Rate

  datatype AlertRule = AlertRule(
    disabled: bool, mode: AlertMode, count: Option<int>,
    perDay: bool, minRate: Option<real>, maxRate: Option<real>, stallAfterMs: int)

  datatype Op = Above | AtLeast | AtMost | Below

  datatype MetricKind = Gauge | Counter | Health | Derived

  datatype MetricStatus = Active | Retired | ClosedDown | OtherStatus

  datatype Definition = Definition(
    threshold: Option<real>, op: Op, kind: MetricKind, status: MetricStatus,
    measureInterval: Option<int>, calculation: RawCalculation, rule: AlertRule)

  /** A metric row: its definition and the current value kept beside it. */
  datatype Metric = Metric(definition: Definition, current: Option<real>)

  datatype AlertKind = ThresholdKind | RateKind | StallKind | ConsecutiveKind | SustainedKind | Manual(name: string)

  /** An alert row; its id is its position plus one. */
  datatype Alert = Alert(metric: string, kind: AlertKind, createdAt: int, resolvedAt: Option<int>)

  datatype Emitted = Breach(alertId: nat, metric: string) | Recovered(alertId: nat, metric: string, value: real)

  datatype Tables = Tables(
    metrics: map<string, Metric>, samples: seq<Row>, alerts: seq<Alert>, emitted: seq<Emitted>)

  datatype Fault = BlankId | BadCalculation | UnknownMetric

  // ---- Calculation ----

  predicate Positive(x: Option<int>) { x.Some? ==> x.value > 0 }

  function CalculationOptions(raw: RawCalculation): Result<Calculation, Fault> {
    match raw
    case Absent => Ok(Calculation(LatestValue, None, None, None))
    case Malformed => Err(BadCalculation)
    case Given(o) =>
      if !(Positive(o.windowMs) && Positive(o.maxAgeMs) && Positive(o.minSamples)) then Err(BadCalculation)
      else if o.how == Mean && o.windowMs.None? then Err(BadCalculation)
      else if o.how == LatestValue && (o.windowMs.Some? || o.minSamples.Some?) then Err(BadCalculation)
      else Ok(o)
  }

  function MaxAge(o: Calculation, measureInterval: Option<int>): Option<int> {
    if o.maxAgeMs.Some? then o.maxAgeMs
    else if measureInterval.Some? && measureInterval.value > 0 then Some(measureInterval.value * 2)
    else o.windowMs
  }

  function Sum(rows: seq<Row>): real
    decreases |rows|
  {
    if rows == [] then 0.0 else Sum(rows[..|rows| - 1]) + rows[|rows| - 1].value
  }

  /** The calculated value, or None when it is unknown. */
  function Calculate(samples: seq<Row>, id: string, d: Definition, now: int): Result<Option<real>, Fault> {
    var checked := CalculationOptions(d.calculation);
    if checked.Err? then Err(checked.error)
    else
      var o := checked.value;
      var latest := Latest(Where(samples, Spanning(id, None, now)));
      var maxAge := MaxAge(o, d.measureInterval);
      if latest.None? then Ok(None)
      else if maxAge.Some? && now - latest.value.at > maxAge.value then Ok(None)
      else if o.how == LatestValue then Ok(Some(latest.value.value))
      else
        var window := Where(samples, Spanning(id, Some(now - o.windowMs.value + 1), now));
        if |window| < (if o.minSamples.Some? then o.minSamples.value else 2) then Ok(None)
        else if |window| == 0 then Ok(None)
        else Ok(Some(Sum(window) / |window| as real))
  }

  predicate Breaches(value: real, threshold: real, op: Op) {
    match op
    case Above => value > threshold
    case AtLeast => value >= threshold
    case AtMost => value <= threshold
    case Below => value < threshold
  }

  // ---- The alert rules ----

  datatype Verdict = Unknown | Judged(breached: bool, kind: AlertKind)

  predicate IsConsecutive(d: Definition) {
    (d.kind == Health && d.rule.mode == ConsecutiveFailures) || (d.kind == Gauge && d.rule.mode == Sustained)
  }

  function RequiredCount(r: AlertRule): nat { if r.count.Some? && r.count.value > 0 then r.count.value else 3 }

  function AllBreach(rows: seq<Row>, threshold: real, op: Op): bool {
    forall i | 0 <= i < |rows| :: Breaches(rows[i].value, threshold, op)
  }

  function Consecutive(samples: seq<Row>, id: string, d: Definition, threshold: real, over: bool, now: int): Verdict {
    var newest := Newest(Where(samples, Spanning(id, None, now)), RequiredCount(d.rule));
    if over && |newest| < RequiredCount(d.rule) then Unknown
    else Judged(over && AllBreach(newest, threshold, d.op),
                if d.rule.mode == Sustained then SustainedKind else ConsecutiveKind)
  }

  /** Change per hour, or per day, between two samples. */
  function Slope(a: Row, b: Row, perDay: bool): real
    requires a.at < b.at
  {
    var perHour := (b.value - a.value) / (b.at - a.at) as real * 3600000.0;
    if perDay then perHour * 24.0 else perHour
  }

  /** The rate between the two newest samples that count. */
  function RateOf(samples: seq<Row>, id: string, d: Definition, maxAge: Option<int>, now: int): Option<real> {
    var two := Newest(Where(samples, Spanning(id, if maxAge.Some? then Some(now - maxAge.value) else None, now)), 2);
    if |two| < 2 then None else RateBetween(two[1], two[0], d.rule.perDay)
  }

  /** Unknown for two samples at the same time, and after a counter reset. */
  function RateBetween(a: Row, b: Row, perDay: bool): Option<real> {
    if b.at - a.at <= 0 || b.value - a.value < 0.0 then None else Some(Slope(a, b, perDay))
  }

  predicate Stalled(samples: seq<Row>, id: string, r: AlertRule, now: int) {
    var first := FirstUnchanged(Where(samples, Spanning(id, None, now)));
    r.stallAfterMs != 0 && first.Some? && now - first.value.at > r.stallAfterMs
  }

  predicate OffRate(rate: Option<real>, r: AlertRule) {
    rate.Some? && ((r.minRate.Some? && rate.value < r.minRate.value)
                    || (r.maxRate.Some? && rate.value > r.maxRate.value))
  }

  function ByRate(
      samples: seq<Row>, id: string, d: Definition, maxAge: Option<int>, value: Option<real>, over: bool, now: int)
    : Verdict
  {
    var rate := if value.Some? then RateOf(samples, id, d, maxAge, now) else None;
    var off := OffRate(rate, d.rule);
    var stalled := Stalled(samples, id, d.rule, now);
    if !(over || off || stalled) && rate.None? && (d.rule.minRate.Some? || d.rule.maxRate.Some?) then Unknown
    else Judged(over || off || stalled, if stalled then StallKind else if off && !over then RateKind else ThresholdKind)
  }

  /** Whether the metric breaches now, by the rule its definition selects. */
  function Judge(
      samples: seq<Row>, id: string, d: Definition, o: Calculation, threshold: real, value: Option<real>, now: int)
    : Verdict
  {
    var over := value.Some? && Breaches(value.value, threshold, d.op);
    var verdict :=
      if IsConsecutive(d) then Consecutive(samples, id, d, threshold, over, now)
      else if d.kind == Counter && d.rule.mode == Rate then
        ByRate(samples, id, d, MaxAge(o, d.measureInterval), value, over, now)
      else Judged(over, ThresholdKind);
    if verdict.Judged? && !verdict.breached && value.None? then Unknown else verdict
  }

  // ---- Episodes ----

  predicate IsOpen(a: Alert, id: string) { a.metric == id && a.resolvedAt.None? }

  /** The open alert of a metric. */
  function OpenAlert(alerts: seq<Alert>, id: string): (i: Option<nat>)
    ensures i.Some? ==> i.value < |alerts| && IsOpen(alerts[i.value], id)
    ensures i.None? ==> forall j | 0 <= j < |alerts| :: !IsOpen(alerts[j], id)
    decreases |alerts|
  {
    if alerts == [] then None
    else if IsOpen(alerts[|alerts| - 1], id) then Some(|alerts| - 1)
    else OpenAlert(alerts[..|alerts| - 1], id)
  }

  function Resolve(a: Alert, now: int): Alert { a.(resolvedAt := OrElse(a.resolvedAt, Some(now))) }

  /** Resolve whatever alerts of the metric are still open. */
  function ResolveAll(alerts: seq<Alert>, id: string, now: int): (out: seq<Alert>)
    ensures |out| == |alerts|
  {
    seq(|alerts|, i requires 0 <= i < |alerts| => if IsOpen(alerts[i], id) then Resolve(alerts[i], now) else alerts[i])
  }

  datatype Report = NoReport | Okay | UnknownValue | BreachedAs(alertId: nat) | RecoveredAs(alertId: nat)

  function OpenEpisode(t: Tables, id: string, kind: AlertKind, now: int): Tables {
    t.(alerts := t.alerts + [Alert(id, kind, now, None)], emitted := t.emitted + [Breach(|t.alerts| + 1, id)])
  }

  function CloseEpisode(t: Tables, i: nat, now: int, value: Option<real>): Tables
    requires i < |t.alerts|
  {
    t.(alerts := t.alerts[i := Resolve(t.alerts[i], now)],
       emitted := if value.Some? then t.emitted + [Recovered(i + 1, t.alerts[i].metric, value.value)] else t.emitted)
  }

  /** One metric's evaluation transaction. */
  function EvaluateOne(t: Tables, id: string, now: int): Result<(Tables, Report), Fault> {
    if id !in t.metrics || t.metrics[id].definition.status != Active || t.metrics[id].definition.threshold.None? then
      Ok((t, NoReport))
    else
      var d := t.metrics[id].definition;
      var alert := OpenAlert(t.alerts, id);
      if d.rule.disabled || d.rule.mode == DisabledMode then
        Ok((if alert.Some? then CloseEpisode(t, alert.value, now, None) else t, Okay))
      else
        var calculated := Calculate(t.samples, id, d, now);
        if calculated.Err? then Err(calculated.error)
        else
          var value := calculated.value;
          var o := CalculationOptions(d.calculation).value;
          Ok(Conclude(t, id, Judge(t.samples, id, d, o, d.threshold.value, value, now), value, now))
  }

  /** What a verdict does to the episode: open it, keep it, close it with a recovery, or leave things alone. */
  function Conclude(t: Tables, id: string, v: Verdict, value: Option<real>, now: int): (Tables, Report) {
    var alert := OpenAlert(t.alerts, id);
    match v
    case Unknown => (t, UnknownValue)
    case Judged(true, kind) =>
      if alert.None? then (OpenEpisode(t, id, kind, now), BreachedAs(|t.alerts| + 1))
      else (t.(alerts := t.alerts[alert.value := t.alerts[alert.value].(kind := kind)]), BreachedAs(alert.value + 1))
    case Judged(false, _) =>
      if alert.None? then (t, Okay) else (CloseEpisode(t, alert.value, now, value), RecoveredAs(alert.value + 1))
  }

  function Define(t: Tables, id: string, blank: bool, d: Definition, now: int): Result<Tables, Fault> {
    if blank then Err(BlankId)
    else if CalculationOptions(d.calculation).Err? then Err(BadCalculation)
    else
      var current := if id in t.metrics then t.metrics[id].current else None;
      Ok(t.(metrics := t.metrics[id := Metric(d, current)],
            alerts :=
              if d.status == Retired || d.status == ClosedDown then ResolveAll(t.alerts, id, now) else t.alerts))
  }

  function RecordSample(t: Tables, id: string, value: real, at: int): Tables {
    var samples := t.samples + [Row(|t.samples| + 1, id, value, at)];
    if id in t.metrics then
      var latest := Latest(Where(samples, OfMetric(id)));
      t.(samples := samples,
         metrics := t.metrics[id := t.metrics[id].(current := if latest.Some? then Some(latest.value.value) else None)])
    else t.(samples := samples)
  }

  function ManualAlert(t: Tables, id: string, name: string, now: int): Result<Tables, Fault> {
    if id !in t.metrics then Err(UnknownMetric)
    else
      var alert := OpenAlert(t.alerts, id);
      if alert.Some? then Ok(t.(alerts := t.alerts[alert.value := t.alerts[alert.value].(kind := Manual(name))]))
      else Ok(OpenEpisode(t, id, Manual(name), now))
  }

  function ResolveAlert(t: Tables, alertId: int, now: int): Tables {
    if 1 <= alertId <= |t.alerts| then
      t.(alerts := t.alerts[alertId - 1 := Resolve(t.alerts[alertId - 1], now)])
    else t
  }

  // ---- Runs ----

  datatype Step =
    | Defining(id: string, blank: bool, definition: Definition, now: int)
    | Recording(id: string, value: real, at: int)
    | Evaluating(id: string, now: int)
    | Alerting(id: string, name: string, now: int)
    | Resolving(alertId: int, now: int)

  function Next(t: Tables, s: Step): Tables {
    match s
    case Defining(id, blank, d, now) => var r := Define(t, id, blank, d, now); if r.Ok? then r.value else t
    case Recording(id, value, at) => RecordSample(t, id, value, at)
    case Evaluating(id, now) => var r := EvaluateOne(t, id, now); if r.Ok? then r.value.0 else t
    case Alerting(id, name, now) => var r := ManualAlert(t, id, name, now); if r.Ok? then r.value else t
    case Resolving(alertId, now) => ResolveAlert(t, alertId, now)
  }

  function Run(t: Tables, steps: seq<Step>): Tables
    decreases |steps|
  {
    if steps == [] then t else Run(Next(t, steps[0]), steps[1..])
  }

  const NO_TABLES: Tables := Tables(map[], [], [], [])

  // ---- The invariant ----

  function BreachCount(emitted: seq<Emitted>, id: nat): nat
    decreases |emitted|
  {
    if emitted == [] then 0
    else
      var last := emitted[|emitted| - 1];
      BreachCount(emitted[..|emitted| - 1], id) + (if last.Breach? && last.alertId == id then 1 else 0)
  }

  function RecoveryCount(emitted: seq<Emitted>, id: nat): nat
    decreases |emitted|
  {
    if emitted == [] then 0
    else
      var last := emitted[|emitted| - 1];
      RecoveryCount(emitted[..|emitted| - 1], id) + (if last.Recovered? && last.alertId == id then 1 else 0)
  }

  ghost predicate OneOpenEach(alerts: seq<Alert>) {
    forall i, j | 0 <= i < j < |alerts| :: alerts[i].resolvedAt.None? && alerts[j].resolvedAt.None? ==>
      alerts[i].metric != alerts[j].metric
  }

  /** Every alert id has exactly one breach, at most one recovery, and a recovery only once resolved. */
  ghost predicate Accounted(alerts: seq<Alert>, emitted: seq<Emitted>) {
    && (forall id: nat :: BreachCount(emitted, id) == if 1 <= id <= |alerts| then 1 else 0)
    && (forall id: nat :: RecoveryCount(emitted, id) <= 1)
    && (forall id: nat | RecoveryCount(emitted, id) == 1 :: 1 <= id <= |alerts| && alerts[id - 1].resolvedAt.Some?)
  }

  /** Every recovery comes after the breach of the same alert and metric. */
  ghost predicate BreachFirst(emitted: seq<Emitted>) {
    forall k | 0 <= k < |emitted| && emitted[k].Recovered? ::
      exists j | 0 <= j < k :: emitted[j] == Breach(emitted[k].alertId, emitted[k].metric)
  }

  ghost predicate Announced(alerts: seq<Alert>, emitted: seq<Emitted>) {
    forall i | 0 <= i < |alerts| :: Breach(i + 1, alerts[i].metric) in emitted
  }

  ghost predicate CurrentIsLatest(t: Tables) {
    forall id | id in t.metrics && t.metrics[id].current.Some? ::
      var latest := Latest(Where(t.samples, OfMetric(id)));
      latest.Some? && t.metrics[id].current == Some(latest.value.value)
  }

  ghost predicate IdsCount(samples: seq<Row>) { forall i | 0 <= i < |samples| :: samples[i].id == i + 1 }

  ghost predicate Valid(t: Tables) {
    && IdsCount(t.samples) && CurrentIsLatest(t)
    && OneOpenEach(t.alerts) && Accounted(t.alerts, t.emitted)
    && BreachFirst(t.emitted) && Announced(t.alerts, t.emitted)
  }

  lemma {:induction false} CountsAfterEmit(emitted: seq<Emitted>, e: Emitted, id: nat)
    ensures BreachCount(emitted + [e], id) == BreachCount(emitted, id) + (if e.Breach? && e.alertId == id then 1 else 0)
    ensures RecoveryCount(emitted + [e], id) == RecoveryCount(emitted, id)
              + (if e.Recovered? && e.alertId == id then 1 else 0)
  {
    assert (emitted + [e])[..|emitted|] == emitted;
  }

  lemma {:induction false} OpenKeepsValid(t: Tables, id: string, kind: AlertKind, now: int)
    requires Valid(t) && OpenAlert(t.alerts, id).None?
    ensures Valid(OpenEpisode(t, id, kind, now))
  {
    var u := OpenEpisode(t, id, kind, now);
    var e := Breach(|t.alerts| + 1, id);
    forall x: nat ensures BreachCount(u.emitted, x) == if 1 <= x <= |u.alerts| then 1 else 0 {
      CountsAfterEmit(t.emitted, e, x);
    }
    forall x: nat ensures RecoveryCount(u.emitted, x) == RecoveryCount(t.emitted, x) {
      CountsAfterEmit(t.emitted, e, x);
    }
    EmitKeepsOrder(t.emitted, e);
    assert Announced(u.alerts, u.emitted) by {
      assert u.emitted[|t.emitted|] == e;
      assert forall i | 0 <= i < |t.alerts| :: u.alerts[i] == t.alerts[i];
    }
  }

  lemma {:induction false} EmitKeepsOrder(emitted: seq<Emitted>, e: Emitted)
    requires BreachFirst(emitted) && (e.Recovered? ==> Breach(e.alertId, e.metric) in emitted)
    ensures BreachFirst(emitted + [e])
  {
    var out := emitted + [e];
    forall k | 0 <= k < |out| && out[k].Recovered?
      ensures exists j | 0 <= j < k :: out[j] == Breach(out[k].alertId, out[k].metric)
    {
      if k < |emitted| {
        var j :| 0 <= j < k && emitted[j] == Breach(emitted[k].alertId, emitted[k].metric);
        assert out[j] == emitted[j];
      } else {
        var j :| 0 <= j < |emitted| && emitted[j] == Breach(e.alertId, e.metric);
        assert out[j] == emitted[j];
      }
    }
  }

  lemma {:induction false} CloseKeepsValid(t: Tables, i: nat, now: int, value: Option<real>)
    requires Valid(t) && i < |t.alerts| && t.alerts[i].resolvedAt.None?
    ensures Valid(CloseEpisode(t, i, now, value))
  {
    var u := CloseEpisode(t, i, now, value);
    if value.Some? {
      var e := Recovered(i + 1, t.alerts[i].metric, value.value);
      forall x: nat ensures BreachCount(u.emitted, x) == BreachCount(t.emitted, x) { CountsAfterEmit(t.emitted, e, x); }
      forall x: nat
        ensures RecoveryCount(u.emitted, x) == RecoveryCount(t.emitted, x) + if x == i + 1 then 1 else 0
      {
        CountsAfterEmit(t.emitted, e, x);
      }
      assert RecoveryCount(t.emitted, i + 1) == 0;
      assert Breach(i + 1, t.alerts[i].metric) in t.emitted;
      EmitKeepsOrder(t.emitted, e);
      assert forall x | x in t.emitted :: x in u.emitted;
    }
  }

  lemma {:induction false} ResolveAllKeepsValid(t: Tables, id: string, now: int)
    requires Valid(t)
    ensures Valid(t.(alerts := ResolveAll(t.alerts, id, now)))
  {
  }

  lemma {:induction false} RenameKeepsValid(t: Tables, i: nat, kind: AlertKind)
    requires Valid(t) && i < |t.alerts|
    ensures Valid(t.(alerts := t.alerts[i := t.alerts[i].(kind := kind)]))
  {
  }

  lemma {:induction false} OfMetricAfterAppend(rows: seq<Row>, r: Row, id: string)
    ensures Where(rows + [r], OfMetric(id)) == Where(rows, OfMetric(id)) + (if r.metric == id then [r] else [])
  {
    assert (rows + [r])[..|rows|] == rows;
  }

  lemma {:induction false} RecordKeepsValid(t: Tables, id: string, value: real, at: int)
    requires Valid(t)
    ensures Valid(RecordSample(t, id, value, at))
  {
    var u := RecordSample(t, id, value, at);
    var r := Row(|t.samples| + 1, id, value, at);
    forall m | m in u.metrics && u.metrics[m].current.Some?
      ensures var latest := Latest(Where(u.samples, OfMetric(m)));
              latest.Some? && u.metrics[m].current == Some(latest.value.value)
    {
      OfMetricAfterAppend(t.samples, r, m);
      if m != id { assert Where(t.samples, OfMetric(m)) + [] == Where(t.samples, OfMetric(m)); }
    }
  }

  lemma {:induction false} StepKeepsValid(t: Tables, s: Step)
    requires Valid(t)
    ensures Valid(Next(t, s))
  {
    match s
    case Defining(id, blank, d, now) => ResolveAllKeepsValid(t, id, now);
    case Recording(id, value, at) => RecordKeepsValid(t, id, value, at);
    case Evaluating(id, now) => EvaluateKeepsValid(t, id, now);
    case Alerting(id, name, now) =>
      var alert := OpenAlert(t.alerts, id);
      if id in t.metrics {
        if alert.Some? {
          RenameKeepsValid(t, alert.value, Manual(name));
        } else {
          OpenKeepsValid(t, id, Manual(name), now);
        }
      }
    case Resolving(alertId, now) =>
      if 1 <= alertId <= |t.alerts| && t.alerts[alertId - 1].resolvedAt.None? {
        CloseKeepsValid(t, alertId - 1, now, None);
      }
  }

  lemma {:induction false} ConcludeKeepsValid(t: Tables, id: string, v: Verdict, value: Option<real>, now: int)
    requires Valid(t)
    ensures Valid(Conclude(t, id, v, value, now).0)
  {
    var alert := OpenAlert(t.alerts, id);
    match v
    case Unknown =>
    case Judged(true, kind) =>
      if alert.None? { OpenKeepsValid(t, id, kind, now); } else { RenameKeepsValid(t, alert.value, kind); }
    case Judged(false, _) =>
      if alert.Some? { CloseKeepsValid(t, alert.value, now, value); }
  }

  lemma {:induction false} EvaluateKeepsValid(t: Tables, id: string, now: int)
    requires Valid(t)
    ensures Valid(Next(t, Evaluating(id, now)))
  {
    var alert := OpenAlert(t.alerts, id);
    if alert.Some? { CloseKeepsValid(t, alert.value, now, None); }
    if id in t.metrics && t.metrics[id].definition.threshold.Some? {
      var d := t.metrics[id].definition;
      var calculated := Calculate(t.samples, id, d, now);
      if calculated.Ok? {
        var o := CalculationOptions(d.calculation).value;
        var v := Judge(t.samples, id, d, o, d.threshold.value, calculated.value, now);
        ConcludeKeepsValid(t, id, v, calculated.value, now);
      }
    }
  }

  /** In every reachable state of every run the episode accounting holds. */
  lemma {:induction false} RunKeepsValid(t: Tables, steps: seq<Step>)
    requires Valid(t)
    ensures Valid(Run(t, steps))
    decreases |steps|
  {
    if steps != [] {
      StepKeepsValid(t, steps[0]);
      RunKeepsValid(Next(t, steps[0]), steps[1..]);
    }
  }
}
