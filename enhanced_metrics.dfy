/** The aggregates of `build_sessions_enhanced`, the deprecated `generate_summary`
    and the two-connector report of `process_ocpp_logs`. */
module EnhancedMetrics {
  import opened Wrappers
  import opened Events
  import opened Histograms
  import opened EnhancedSessions
  import MeterStats
  import EnhancedPartition
  import Seqs

  /** The metrics dict. The keys the empty-input dict does not carry are `None` there. */
  datatype Metrics = Metrics(
    totalSessions: nat,
    successfulSessions: nat,
    successfulSessionErrors: map<string, nat>,
    failedSessions: nat,
    failedSessionReasons: map<string, nat>,
    incompleteSessions: nat,
    interruptedSessions: Option<nat>,
    totalEnergyKwh: real,
    averageEnergyKwh: Option<real>,
    totalDurationHours: real,
    averageDurationMinutes: Option<real>,
    averagePowerKw: real,
    peakPowerKw: Option<real>)

  /** The dict returned for an empty partition or an empty session list. */
  const EmptyMetrics := Metrics(0, 0, map[], 0, map[], 0, None, 0.0, None, 0.0, None, 0.0, None)

  /** The sessions with the given outcome. */
  function CountResult(ss: seq<Session>, o: Outcome): (n: nat)
    ensures n <= |ss|
  {
    if ss == [] then 0 else CountResult(ss[..|ss| - 1], o) + (if ss[|ss| - 1].result == o then 1 else 0)
  }

  /** The labels the `errors` text of a session splits into, once `"None"` and empty
      pieces are dropped. */
  function CodesOf(errors: SessionErrors): set<string> {
    match errors
    case NoErrors => {}
    case Codes(codes) => codes - {"", "None"}
    case NoStopTransaction => {"No Stop Transaction"}
  }

  /** Every label the histogram loop meets over the sessions with outcome `o`. */
  function ErrorLabels(ss: seq<Session>, o: Outcome): multiset<string> {
    if ss == [] then multiset{}
    else
      var s := ss[|ss| - 1];
      ErrorLabels(ss[..|ss| - 1], o) + (if s.result == o then multiset(CodesOf(s.errors)) else multiset{})
  }

  /** The number of sessions with outcome `o` whose errors list `code`. */
  function SessionsListing(ss: seq<Session>, o: Outcome, code: string): (n: nat)
    ensures n <= CountResult(ss, o)
  {
    if ss == [] then 0
    else
      var s := ss[|ss| - 1];
      SessionsListing(ss[..|ss| - 1], o, code) + (if s.result == o && code in CodesOf(s.errors) then 1 else 0)
  }

  /** Each session adds at most one to a label's count: the histogram counts sessions, not status rows. */
  lemma {:induction false} HistogramCountsSessions(ss: seq<Session>, o: Outcome, code: string)
    ensures ErrorLabels(ss, o)[code] == SessionsListing(ss, o, code)
    ensures (if code in ToMap(ErrorLabels(ss, o)) then ToMap(ErrorLabels(ss, o))[code] else 0) == SessionsListing(ss, o, code)
  {
    if ss != [] {
      HistogramCountsSessions(ss[..|ss| - 1], o, code);
    }
  }

  function EnergiesKwh(ss: seq<Session>): (r: seq<real>)
    ensures |r| == |ss| && forall k :: 0 <= k < |ss| ==> r[k] == ss[k].energyKwh
  {
    seq(|ss|, k requires 0 <= k < |ss| => ss[k].energyKwh)
  }

  function DurationsHours(ss: seq<Session>): (r: seq<real>)
    ensures |r| == |ss| && forall k :: 0 <= k < |ss| ==> r[k] == ss[k].durationHours
  {
    seq(|ss|, k requires 0 <= k < |ss| => ss[k].durationHours)
  }

  function DurationsMinutes(ss: seq<Session>): (r: seq<real>)
    ensures |r| == |ss| && forall k :: 0 <= k < |ss| ==> r[k] == ss[k].durationMinutes
  {
    seq(|ss|, k requires 0 <= k < |ss| => ss[k].durationMinutes)
  }

  function AvgPowers(ss: seq<Session>): (r: seq<real>)
    ensures |r| == |ss| && forall k :: 0 <= k < |ss| ==> r[k] == ss[k].avgPowerKw
  {
    seq(|ss|, k requires 0 <= k < |ss| => ss[k].avgPowerKw)
  }

  /** The positive `avg_power_kw` values, in session order and with every repeat,
      since Average Power is their mean. */
  function PositiveAvgPowers(ss: seq<Session>): (r: seq<real>)
    ensures forall x :: x in r <==> exists k :: 0 <= k < |ss| && ss[k].avgPowerKw == x && x > 0.0
    ensures forall x :: multiset(r)[x] == if x > 0.0 then multiset(AvgPowers(ss))[x] else 0
    ensures Seqs.IsSubseq(r, AvgPowers(ss))
  {
    Seqs.Filter(AvgPowers(ss), x => x > 0.0)
  }

  function MaxPowers(ss: seq<Session>): (r: seq<real>)
    ensures |r| == |ss| && forall k :: 0 <= k < |ss| ==> r[k] == ss[k].maxPowerKw
  {
    seq(|ss|, k requires 0 <= k < |ss| => ss[k].maxPowerKw)
  }

  /** `Peak Power (kW)`: the largest per-session peak when some session has a positive one, else 0. */
  function PeakPower(ss: seq<Session>): (p: real)
    ensures (exists k :: 0 <= k < |ss| && ss[k].maxPowerKw > 0.0) ==>
              p > 0.0 && (exists k :: 0 <= k < |ss| && ss[k].maxPowerKw == p) &&
              forall k :: 0 <= k < |ss| ==> ss[k].maxPowerKw <= p
    ensures (forall k :: 0 <= k < |ss| ==> ss[k].maxPowerKw <= 0.0) ==> p == 0.0
  {
    if exists k :: 0 <= k < |ss| && ss[k].maxPowerKw > 0.0 then
      var m := MeterStats.MaxOrZero(MaxPowers(ss));
      assert MaxPowers(ss)[0] == ss[0].maxPowerKw;
      m
    else 0.0
  }

  /** The metrics dict of a session list. */
  function MetricsOf(ss: seq<Session>): Metrics {
    if ss == [] then EmptyMetrics
    else
      var n := |ss| as real;
      Metrics(
        |ss|,
        CountResult(ss, Successful), ToMap(ErrorLabels(ss, Successful)),
        CountResult(ss, Failed), ToMap(ErrorLabels(ss, Failed)),
        CountResult(ss, Incomplete), Some(CountResult(ss, Interrupted)),
        MeterStats.Sum(EnergiesKwh(ss)), Some(MeterStats.Sum(EnergiesKwh(ss)) / n),
        MeterStats.Sum(DurationsHours(ss)), Some(MeterStats.Sum(DurationsMinutes(ss)) / n),
        MeterStats.Mean(PositiveAvgPowers(ss)),
        Some(PeakPower(ss)))
  }

  /** The totals of the sessions built from a log: Total Energy is never negative and
      is 0 only when no session delivered energy; Average Duration, in minutes, is
      Total Duration, in hours, times 60 over the session count; Average Power is
      positive exactly when some session has a positive average power. */
  lemma {:induction false} SessionTotals(rows: seq<Event>, ss: seq<Session>)
    requires ss == Sessions(rows)
    ensures MetricsOf(ss).totalEnergyKwh >= 0.0
    ensures MetricsOf(ss).totalEnergyKwh == 0.0 <==> forall k :: 0 <= k < |ss| ==> ss[k].energyKwh == 0.0
    ensures ss != [] ==> MetricsOf(ss).averageDurationMinutes == Some(MetricsOf(ss).totalDurationHours * 60.0 / |ss| as real)
    ensures MetricsOf(ss).averagePowerKw > 0.0 <==> exists k :: 0 <= k < |ss| && ss[k].avgPowerKw > 0.0
  {
    SessionColumns(rows);
    TotalEnergyOf(ss);
    AverageDurationOf(ss);
    AveragePowerOf(ss);
  }

  /** Every session built from a log has a non-negative energy, and its two
      duration columns measure the same interval. */
  lemma SessionColumns(rows: seq<Event>)
    ensures forall k :: 0 <= k < |Sessions(rows)| ==>
              Sessions(rows)[k].energyKwh >= 0.0 &&
              Sessions(rows)[k].durationMinutes == Sessions(rows)[k].durationHours * 60.0
  {
    var ss := Sessions(rows);
    forall k | 0 <= k < |ss|
      ensures ss[k].energyKwh >= 0.0 && ss[k].durationMinutes == ss[k].durationHours * 60.0
    {
      SessionEnergy(rows, StartRows(rows)[k]);
    }
  }

  lemma TotalEnergyOf(ss: seq<Session>)
    requires forall k :: 0 <= k < |ss| ==> ss[k].energyKwh >= 0.0
    ensures MetricsOf(ss).totalEnergyKwh >= 0.0
    ensures MetricsOf(ss).totalEnergyKwh == 0.0 <==> forall k :: 0 <= k < |ss| ==> ss[k].energyKwh == 0.0
  {
    if ss != [] {
      MeterStats.SumNonNegative(EnergiesKwh(ss));
    }
  }

  lemma AverageDurationOf(ss: seq<Session>)
    requires forall k :: 0 <= k < |ss| ==> ss[k].durationMinutes == ss[k].durationHours * 60.0
    ensures ss != [] ==> MetricsOf(ss).averageDurationMinutes == Some(MetricsOf(ss).totalDurationHours * 60.0 / |ss| as real)
  {
    if ss != [] {
      var hours, minutes := MeterStats.Sum(DurationsHours(ss)), MeterStats.Sum(DurationsMinutes(ss));
      MeterStats.SumScaled(DurationsHours(ss), DurationsMinutes(ss), 60.0);
      assert minutes == hours * 60.0;
      assert MetricsOf(ss).averageDurationMinutes == Some(minutes / |ss| as real);
      assert MetricsOf(ss).totalDurationHours == hours;
    }
  }

  lemma AveragePowerOf(ss: seq<Session>)
    ensures MetricsOf(ss).averagePowerKw > 0.0 <==> exists k :: 0 <= k < |ss| && ss[k].avgPowerKw > 0.0
  {
    if ss != [] {
      var powers := PositiveAvgPowers(ss);
      assert forall i :: 0 <= i < |powers| ==> powers[i] in powers;
      MeterStats.MeanOfPositives(powers);
      if exists k :: 0 <= k < |ss| && ss[k].avgPowerKw > 0.0 {
        var k :| 0 <= k < |ss| && ss[k].avgPowerKw > 0.0;
        assert ss[k].avgPowerKw in powers;
      }
    }
  }

  /** The outcome counts partition the sessions. */
  lemma {:induction false} CountsAddUp(ss: seq<Session>)
    ensures CountResult(ss, Successful) + CountResult(ss, Failed) + CountResult(ss, Incomplete)
            + CountResult(ss, Interrupted) == |ss|
  {
    if ss != [] {
      CountsAddUp(ss[..|ss| - 1]);
    }
  }

  /** The inner histogram loop: one increment per label of one session. */
  method AddLabels(h0: map<string, nat>, codes: set<string>, ghost base: multiset<string>) returns (h: map<string, nat>)
    requires h0 == ToMap(base)
    ensures h == ToMap(base + multiset(codes))
  {
    h := h0;
    var remaining := codes;
    ghost var done: set<string> := {};
    while remaining != {}
      invariant done + remaining == codes && done !! remaining
      invariant h == ToMap(base + multiset(done))
      decreases |remaining|
    {
      var c :| c in remaining;
      BumpAdds(base + multiset(done), c);
      h := Bump(h, c);
      assert multiset(done + {c}) == multiset(done) + multiset{c};
      assert base + multiset(done + {c}) == (base + multiset(done)) + multiset{c};
      done := done + {c};
      remaining := remaining - {c};
    }
  }

  /** A histogram loop: `h[e] = h.get(e, 0) + 1` for each label of each session with outcome `o`. */
  method CountErrorCodes(ss: seq<Session>, o: Outcome) returns (h: map<string, nat>)
    ensures h == ToMap(ErrorLabels(ss, o))
  {
    h := map[];
    for i := 0 to |ss|
      invariant h == ToMap(ErrorLabels(ss[..i], o))
    {
      assert ss[..i + 1][..i] == ss[..i];
      if ss[i].result == o {
        h := AddLabels(h, CodesOf(ss[i].errors), ErrorLabels(ss[..i], o));
      }
    }
    assert ss[..|ss|] == ss;
  }

  /** `build_sessions_enhanced`: the sessions and their metrics. */
  method BuildSessionsEnhanced(rows: seq<Event>) returns (sessions: seq<Session>, metrics: Metrics)
    ensures sessions == Sessions(rows)
    ensures metrics == MetricsOf(sessions)
  {
    if |rows| == 0 {
      return [], EmptyMetrics;
    }
    sessions := BuildSessions(rows);
    if |sessions| == 0 {
      return sessions, EmptyMetrics;
    }
    var successfulErrors := CountErrorCodes(sessions, Successful);
    var failedReasons := CountErrorCodes(sessions, Failed);
    var n := |sessions| as real;
    metrics := Metrics(
      |sessions|,
      CountResult(sessions, Successful), successfulErrors,
      CountResult(sessions, Failed), failedReasons,
      CountResult(sessions, Incomplete), Some(CountResult(sessions, Interrupted)),
      MeterStats.Sum(EnergiesKwh(sessions)), Some(MeterStats.Sum(EnergiesKwh(sessions)) / n),
      MeterStats.Sum(DurationsHours(sessions)), Some(MeterStats.Sum(DurationsMinutes(sessions)) / n),
      MeterStats.Mean(PositiveAvgPowers(sessions)),
      Some(PeakPower(sessions)));
  }

  /** Without rows, or without a StartTransaction among them, there are no sessions and
      every count and total is 0 with empty histograms. */
  lemma NoStartsNoMetrics(rows: seq<Event>)
    requires forall k :: 0 <= k < |rows| ==> !IsStart(rows[k])
    ensures Sessions(rows) == []
    ensures MetricsOf(Sessions(rows)) == EmptyMetrics
  {
  }

  /** Sessions are only ever Successful without errors, so the Successful Session
      Errors histogram of the engine is always empty. */
  lemma {:induction false} SuccessfulErrorsAlwaysEmpty(rows: seq<Event>)
    ensures MetricsOf(Sessions(rows)).successfulSessionErrors == map[]
  {
    var ss := Sessions(rows);
    forall k | 0 <= k < |ss| ensures ss[k].result == Successful ==> ss[k].errors == NoErrors {
      ErrorsMatchOutcome(rows, StartRows(rows)[k]);
    }
    NoSuccessfulLabels(ss);
  }

  lemma {:induction false} NoSuccessfulLabels(ss: seq<Session>)
    requires forall k :: 0 <= k < |ss| ==> ss[k].result == Successful ==> ss[k].errors == NoErrors
    ensures ErrorLabels(ss, Successful) == multiset{}
  {
    if ss != [] {
      var init := ss[..|ss| - 1];
      assert forall k :: 0 <= k < |init| ==> init[k] == ss[k];
      NoSuccessfulLabels(init);
    }
  }

  /** Failed Session Reasons counts, per code, the failed sessions whose window
      reported that code; the count of failed sessions bounds each entry. */
  lemma FailedReasonsCountSessions(rows: seq<Event>, code: string)
    ensures var m := MetricsOf(Sessions(rows));
            (if code in m.failedSessionReasons then m.failedSessionReasons[code] else 0)
              == SessionsListing(Sessions(rows), Failed, code) <= m.failedSessions
  {
    HistogramCountsSessions(Sessions(rows), Failed, code);
  }

  /** The summary dict of `generate_summary`. */
  datatype Summary = Summary(
    totalSessions: nat,
    successfulSessions: nat,
    successfulSessionErrors: map<string, nat>,
    failedSessions: nat,
    failedSessionReasons: map<string, nat>,
    incompleteSessions: nat)

  /** `generate_summary`: the counting part of the metrics, built by the same loops. */
  method GenerateSummary(ss: seq<Session>) returns (summary: Summary)
    ensures var m := MetricsOf(ss);
            summary == Summary(m.totalSessions, m.successfulSessions, m.successfulSessionErrors,
                               m.failedSessions, m.failedSessionReasons, m.incompleteSessions)
  {
    if |ss| == 0 {
      return Summary(0, 0, map[], 0, map[], 0);
    }
    var successfulErrors := CountErrorCodes(ss, Successful);
    var failedReasons := CountErrorCodes(ss, Failed);
    summary := Summary(|ss|, CountResult(ss, Successful), successfulErrors,
                       CountResult(ss, Failed), failedReasons, CountResult(ss, Incomplete));
  }

  /** The response of `process_ocpp_logs`: each connector's sessions and metrics. */
  datatype Report = Report(connector1: seq<Session>, connector2: seq<Session>, report1: Metrics, report2: Metrics)

  method ProcessOcppLogs(rows: seq<Event>) returns (report: Report)
    ensures report.connector1 == Sessions(EnhancedPartition.ConnectorRows(rows, 1))
    ensures report.connector2 == Sessions(EnhancedPartition.ConnectorRows(rows, 2))
    ensures report.report1 == MetricsOf(report.connector1)
    ensures report.report2 == MetricsOf(report.connector2)
  {
    var sessions1, metrics1 := BuildSessionsEnhanced(EnhancedPartition.ConnectorRows(rows, 1));
    var sessions2, metrics2 := BuildSessionsEnhanced(EnhancedPartition.ConnectorRows(rows, 2));
    report := Report(sessions1, sessions2, metrics1, metrics2);
  }
}
