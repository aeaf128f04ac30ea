/** The metric service as the object that updates the metric, sample and alert tables. */
module MetricServices {
  import opened Prelude
  import opened Samples
  import opened Metrics

  /** Evaluate the listed metrics in turn, each in its own transaction, up to the first fault. */
  function EvaluateEach(t: Tables, ids: seq<string>, times: seq<int>): (Tables, seq<Report>, Option<Fault>)
    requires |times| == |ids|
    decreases |ids|
  {
    if ids == [] then (t, [], None)
    else
      match EvaluateOne(t, ids[0], times[0])
      case Err(why) => (t, [], Some(why))
      case Ok((next, report)) =>
        var (end, reports, fault) := EvaluateEach(next, ids[1..], times[1..]);
        (end, [report] + reports, fault)
  }

  /** A failing metric stops the pass but keeps what the metrics before it committed. */
  lemma {:induction false} FaultKeepsEarlierWork(t: Tables, ids: seq<string>, times: seq<int>)
    requires |times| == |ids|
    ensures var (end, reports, fault) := EvaluateEach(t, ids, times);
            var done := |reports|;
            && done <= |ids| && (fault.None? <==> done == |ids|)
            && end == Run(t, seq(done, i requires 0 <= i < done => Evaluating(ids[i], times[i])))
            && (fault.Some? ==> EvaluateOne(end, ids[done], times[done]) == Err(fault.value))
    decreases |ids|
  {
    if ids != [] && EvaluateOne(t, ids[0], times[0]).Ok? {
      var next := EvaluateOne(t, ids[0], times[0]).value.0;
      var rest := EvaluateEach(next, ids[1..], times[1..]);
      FaultKeepsEarlierWork(next, ids[1..], times[1..]);
      var done := |rest.1| + 1;
      var steps := seq(done, i requires 0 <= i < done => Evaluating(ids[i], times[i]));
      assert steps[1..] == seq(done - 1, i requires 0 <= i < done - 1 => Evaluating(ids[1..][i], times[1..][i]));
    }
  }

  class MetricService {
    var metrics: map<string, Metric>
    var samples: seq<Row>
    var alerts: seq<Alert>
    var emitted: seq<Emitted>

    function State(): Tables
      reads this
    {
      Tables(metrics, samples, alerts, emitted)
    }

    constructor()
      ensures State() == NO_TABLES && Valid(State())
    {
      metrics, samples, alerts, emitted := map[], [], [], [];
    }

    method DefineMetric(id: string, blank: bool, d: Definition, now: int) returns (fault: Option<Fault>)
      requires Valid(State())
      modifies this`metrics, this`alerts
      ensures State() == Next(old(State()), Defining(id, blank, d, now)) && Valid(State())
      ensures fault == if blank then Some(BlankId)
                       else if CalculationOptions(d.calculation).Err? then Some(BadCalculation) else None
    {
      StepKeepsValid(State(), Defining(id, blank, d, now));
      if blank { return Some(BlankId); }
      if CalculationOptions(d.calculation).Err? { return Some(BadCalculation); }
      var current := if id in metrics then metrics[id].current else None;
      metrics := metrics[id := Metric(d, current)];
      if d.status == Retired || d.status == ClosedDown { alerts := ResolveAll(alerts, id, now); }
      return None;
    }

    method Record(id: string, value: real, at: int)
      requires Valid(State())
      modifies this`samples, this`metrics
      ensures State() == Next(old(State()), Recording(id, value, at)) && Valid(State())
    {
      StepKeepsValid(State(), Recording(id, value, at));
      samples := samples + [Row(|samples| + 1, id, value, at)];
      if id in metrics {
        var latest := Latest(Where(samples, OfMetric(id)));
        metrics := metrics[id := metrics[id].(current := if latest.Some? then Some(latest.value.value) else None)];
      }
    }

    /** One metric's transaction: decide, then move the episode and signal it together. */
    method EvaluateMetric(id: string, now: int) returns (r: Result<Report, Fault>)
      requires Valid(State())
      modifies this`alerts, this`emitted
      ensures State() == Next(old(State()), Evaluating(id, now)) && Valid(State())
      ensures r == match EvaluateOne(old(State()), id, now) case Ok((_, report)) => Ok(report) case Err(why) => Err(why)
    {
      StepKeepsValid(State(), Evaluating(id, now));
      if id !in metrics { return Ok(NoReport); }
      var d := metrics[id].definition;
      if d.status != Active || d.threshold.None? { return Ok(NoReport); }
      var alert := OpenAlert(alerts, id);
      if d.rule.disabled || d.rule.mode == DisabledMode {
        if alert.Some? { alerts := alerts[alert.value := Resolve(alerts[alert.value], now)]; }
        return Ok(Okay);
      }
      var calculated := Calculate(samples, id, d, now);
      if calculated.Err? { return Err(calculated.error); }
      var value := calculated.value;
      var verdict := Judge(samples, id, d, CalculationOptions(d.calculation).value, d.threshold.value, value, now);
      if verdict.Unknown? { return Ok(UnknownValue); }
      if verdict.breached {
        if alert.Some? {
          alerts := alerts[alert.value := alerts[alert.value].(kind := verdict.kind)];
          return Ok(BreachedAs(alert.value + 1));
        }
        alerts := alerts + [Alert(id, verdict.kind, now, None)];
        emitted := emitted + [Breach(|alerts|, id)];
        return Ok(BreachedAs(|alerts|));
      }
      if alert.None? { return Ok(Okay); }
      alerts := alerts[alert.value := Resolve(alerts[alert.value], now)];
      emitted := emitted + [Recovered(alert.value + 1, id, value.value)];
      return Ok(RecoveredAs(alert.value + 1));
    }

    /** One pass over several metrics: each is its own transaction, and the first fault ends the pass. */
    method Evaluate(ids: seq<string>, times: seq<int>) returns (reports: seq<Report>, fault: Option<Fault>)
      requires Valid(State()) && |times| == |ids|
      modifies this`alerts, this`emitted
      ensures (State(), reports, fault) == EvaluateEach(old(State()), ids, times)
      ensures Valid(State())
    {
      reports, fault := [], None;
      var i := 0;
      assert ids[0..] == ids && times[0..] == times;
      assert [] + EvaluateEach(State(), ids, times).1 == EvaluateEach(State(), ids, times).1;
      while i < |ids|
        invariant 0 <= i <= |ids| && Valid(State()) && fault == None
        invariant var (end, more, stop) := EvaluateEach(State(), ids[i..], times[i..]);
                  EvaluateEach(old(State()), ids, times) == (end, reports + more, stop)
      {
        assert ids[i..][1..] == ids[i + 1..] && times[i..][1..] == times[i + 1..];
        assert reports + [] == reports;
        var r := EvaluateMetric(ids[i], times[i]);
        if r.Err? { return reports, Some(r.error); }
        ghost var more := EvaluateEach(State(), ids[i + 1..], times[i + 1..]).1;
        assert (reports + [r.value]) + more == reports + ([r.value] + more);
        reports := reports + [r.value];
        i := i + 1;
      }
      assert ids[i..] == [] && reports + [] == reports;
    }

    method RaiseAlert(id: string, name: string, now: int) returns (fault: Option<Fault>)
      requires Valid(State())
      modifies this`alerts, this`emitted
      ensures State() == Next(old(State()), Alerting(id, name, now)) && Valid(State())
      ensures fault == if id in metrics then None else Some(UnknownMetric)
    {
      StepKeepsValid(State(), Alerting(id, name, now));
      if id !in metrics { return Some(UnknownMetric); }
      var alert := OpenAlert(alerts, id);
      if alert.Some? {
        alerts := alerts[alert.value := alerts[alert.value].(kind := Manual(name))];
      } else {
        alerts := alerts + [Alert(id, Manual(name), now, None)];
        emitted := emitted + [Breach(|alerts|, id)];
      }
      return None;
    }

    method ResolveOne(alertId: int, now: int)
      requires Valid(State())
      modifies this`alerts
      ensures State() == Next(old(State()), Resolving(alertId, now)) && Valid(State())
    {
      StepKeepsValid(State(), Resolving(alertId, now));
      if 1 <= alertId <= |alerts| { alerts := alerts[alertId - 1 := Resolve(alerts[alertId - 1], now)]; }
    }
  }
}
