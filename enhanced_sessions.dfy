/** `build_sessions_enhanced`, session part: one session per StartTransaction row
    (OCPP 1.6, section 4.8), paired with the first StopTransaction row (section 4.10)
    stamped strictly later, with energy, duration, power, the StatusNotification
    errors seen in between (section 4.9) and a four-way outcome. */
module EnhancedSessions {
  import opened Wrappers
  import opened Events
  import MeterStats
  import Seqs

  datatype Outcome = Successful | Failed | Incomplete | Interrupted

  /** The `errors` column: `"None"`, the distinct codes joined from a set, or
      `"No Stop Transaction"` for a session that was never stopped. */
  datatype SessionErrors = NoErrors | Codes(codes: set<string>) | NoStopTransaction

  /** One session record. Times are in seconds; `None` in `transactionId` stands for
      `"N/A"` and in `endTime` for `"Ongoing/Not Found"`. */
  datatype Session = Session(
    transactionId: Option<int>,
    startTime: int,
    endTime: Option<int>,
    durationMinutes: real,
    durationHours: real,
    energyKwh: real,
    meterStartWh: int,
    meterStopWh: int,
    avgPowerKw: real,
    maxPowerKw: real,
    avgVoltage: real,
    avgCurrent: real,
    idTag: string,
    reason: string,
    errors: SessionErrors,
    result: Outcome)

  predicate IsStart(e: Event) { e.command == StartTransactionRequest }
  predicate IsStop(e: Event) { e.command == StopTransactionRequest }
  predicate IsStatus(e: Event) { e.command == StatusNotificationRequest }

  /** `stop_txns[stop_txns['real_datetime'] > start_time].iloc[0]`: the index of the
      first StopTransaction row, in row order, stamped strictly after `t`. */
  function FirstStopAfter(rows: seq<Event>, t: int): (r: Option<nat>)
    ensures r.Some? ==> r.value < |rows| && IsStop(rows[r.value]) && rows[r.value].time > t
    ensures r.Some? ==> forall k :: 0 <= k < r.value ==> !(IsStop(rows[k]) && rows[k].time > t)
    ensures r.None? ==> forall k :: 0 <= k < |rows| ==> !(IsStop(rows[k]) && rows[k].time > t)
  {
    if rows == [] then None
    else if IsStop(rows[0]) && rows[0].time > t then Some(0)
    else
      match FirstStopAfter(rows[1..], t)
      case None => None
      case Some(j) => Some(j + 1)
  }

  /** `status_payload.get('errorCode', 'NoError')`. */
  function ErrorCodeOf(e: Event): string {
    e.payload.errorCode.GetOr("NoError")
  }

  /** A StatusNotification stamped inside the closed window [lo, hi]. */
  predicate StatusIn(e: Event, lo: int, hi: int) {
    IsStatus(e) && lo <= e.time <= hi
  }

  /** The error codes, other than "NoError", of the StatusNotifications in [lo, hi], in row order. */
  function WindowErrors(rows: seq<Event>, lo: int, hi: int): seq<string> {
    if rows == [] then []
    else
      var e := rows[|rows| - 1];
      WindowErrors(rows[..|rows| - 1], lo, hi)
        + (if StatusIn(e, lo, hi) && ErrorCodeOf(e) != "NoError" then [ErrorCodeOf(e)] else [])
  }

  /** Some StatusNotification in [lo, hi] reports status "Charging". */
  predicate ChargingSeen(rows: seq<Event>, lo: int, hi: int) {
    exists k :: 0 <= k < |rows| && StatusIn(rows[k], lo, hi) && rows[k].payload.status == Some("Charging")
  }

  lemma WindowErrorsSnoc(rows: seq<Event>, e: Event, lo: int, hi: int)
    ensures WindowErrors(rows + [e], lo, hi) ==
            WindowErrors(rows, lo, hi) + (if StatusIn(e, lo, hi) && ErrorCodeOf(e) != "NoError" then [ErrorCodeOf(e)] else [])
  {
    assert (rows + [e])[..|rows|] == rows;
  }

  /** A code is among the window's errors exactly when a StatusNotification in the
      window reports it and it is not "NoError" (an absent code reads as "NoError"). */
  lemma {:induction false} WindowErrorsMembers(rows: seq<Event>, lo: int, hi: int, code: string)
    ensures code in WindowErrors(rows, lo, hi) <==>
            code != "NoError" && exists k :: 0 <= k < |rows| && StatusIn(rows[k], lo, hi) && ErrorCodeOf(rows[k]) == code
  {
    if rows != [] {
      var init := rows[..|rows| - 1];
      var e := rows[|rows| - 1];
      var tail := if StatusIn(e, lo, hi) && ErrorCodeOf(e) != "NoError" then [ErrorCodeOf(e)] else [];
      assert rows == init + [e];
      assert WindowErrors(rows, lo, hi) == WindowErrors(init, lo, hi) + tail;
      WindowErrorsMembers(init, lo, hi, code);
      assert (exists k :: 0 <= k < |rows| && StatusIn(rows[k], lo, hi) && ErrorCodeOf(rows[k]) == code) <==>
             (exists k :: 0 <= k < |init| && StatusIn(init[k], lo, hi) && ErrorCodeOf(init[k]) == code) ||
             (StatusIn(e, lo, hi) && ErrorCodeOf(e) == code);
    }
  }

  /** The loop over `session_statuses`: collects the error codes and notes whether
      "Charging" was seen. */
  method ScanStatuses(rows: seq<Event>, lo: int, hi: int) returns (errors: seq<string>, hadCharging: bool)
    ensures errors == WindowErrors(rows, lo, hi)
    ensures hadCharging == ChargingSeen(rows, lo, hi)
  {
    errors, hadCharging := [], false;
    for i := 0 to |rows|
      invariant errors == WindowErrors(rows[..i], lo, hi)
      invariant hadCharging <==> exists k :: 0 <= k < i && StatusIn(rows[k], lo, hi) && rows[k].payload.status == Some("Charging")
    {
      var e := rows[i];
      WindowErrorsSnoc(rows[..i], e, lo, hi);
      assert rows[..i + 1] == rows[..i] + [e];
      if StatusIn(e, lo, hi) {
        var errorCode := ErrorCodeOf(e);
        var status := e.payload.status.GetOr("");
        if errorCode != "NoError" {
          errors := errors + [errorCode];
        }
        if status == "Charging" {
          hadCharging := true;
        }
      }
    }
    assert rows[..|rows|] == rows;
  }

  /** The outcome rule, in priority order: any error fails the session; otherwise it
      succeeded if it charged for more than a minute; otherwise it is incomplete if
      shorter than a minute and interrupted if not. */
  function Classify(hasErrors: bool, hadCharging: bool, durationMinutes: real): Outcome {
    if hasErrors then Failed
    else if hadCharging && durationMinutes > 1.0 then Successful
    else if durationMinutes < 1.0 then Incomplete
    else Interrupted
  }

  /** A MeterValues row of the session's window and of the start's connector. */
  predicate InMeterWindow(e: Event, lo: int, hi: int, connector: int) {
    e.command == MeterValuesRequest && lo <= e.time <= hi && ConnectorOf(e) == connector
  }

  /** The MeterValues rows of the session's window and of the start's connector, in
      row order and with every duplicate kept, since the voltage and current means
      count each row. */
  function MeterRowsIn(rows: seq<Event>, lo: int, hi: int, connector: int): (r: seq<Event>)
    ensures forall e :: e in r <==> e in rows && InMeterWindow(e, lo, hi, connector)
    ensures forall e :: multiset(r)[e] == if InMeterWindow(e, lo, hi, connector) then multiset(rows)[e] else 0
    ensures Seqs.IsSubseq(r, rows)
  {
    Seqs.Filter(rows, e => InMeterWindow(e, lo, hi, connector))
  }

  /** `(meterStop - meterStart) / 1000` when positive, else 0. */
  function EnergyKwh(meterStart: int, meterStop: int): real {
    var energyWh := meterStop - meterStart;
    if energyWh > 0 then energyWh as real / 1000.0 else 0.0
  }

  /** `energy / hours` when the duration is positive, else 0. */
  function AvgPowerKw(energyKwh: real, durationHours: real): real {
    if durationHours > 0.0 then energyKwh / durationHours else 0.0
  }

  /** The session record for one StartTransaction row. */
  function SessionFor(rows: seq<Event>, start: Event): Session {
    var meterStart := start.payload.meterStart.GetOr(0);
    var idTag := start.payload.idTag.GetOr("Unknown");
    match FirstStopAfter(rows, start.time)
    case None =>
      Session(None, start.time, None, 0.0, 0.0, 0.0, meterStart, meterStart, 0.0, 0.0, 0.0, 0.0,
              idTag, "Not Completed", NoStopTransaction, Incomplete)
    case Some(j) =>
      var stop := rows[j];
      var meterStop := stop.payload.meterStop.GetOr(meterStart);
      var durationSec := stop.time - start.time;
      var minutes := durationSec as real / 60.0;
      var hours := durationSec as real / 3600.0;
      var energy := EnergyKwh(meterStart, meterStop);
      var errors := WindowErrors(rows, start.time, stop.time);
      var meterRows := MeterRowsIn(rows, start.time, stop.time, ConnectorOf(start));
      Session(stop.payload.transactionId, start.time, Some(stop.time), minutes, hours, energy,
              meterStart, meterStop, AvgPowerKw(energy, hours),
              MeterStats.MaxOrZero(MeterStats.PowersKw(meterRows)),
              MeterStats.Mean(MeterStats.Voltages(meterRows)),
              MeterStats.Mean(MeterStats.Currents(meterRows)),
              idTag, stop.payload.reason.GetOr("Normal"),
              if |errors| > 0 then Codes(set c | c in errors) else NoErrors,
              Classify(|errors| > 0, ChargingSeen(rows, start.time, stop.time), minutes))
  }

  /** The body of the loop over `start_txns`: builds one session record. */
  method BuildSession(rows: seq<Event>, start: Event) returns (s: Session)
    ensures s == SessionFor(rows, start)
  {
    var meterStart := start.payload.meterStart.GetOr(0);
    var idTag := start.payload.idTag.GetOr("Unknown");
    var stopIndex := FirstStopAfter(rows, start.time);
    if stopIndex.Some? {
      var stop := rows[stopIndex.value];
      var meterStop := stop.payload.meterStop.GetOr(meterStart);
      var energy := EnergyKwh(meterStart, meterStop);
      var durationSec := stop.time - start.time;
      var minutes := durationSec as real / 60.0;
      var hours := durationSec as real / 3600.0;
      var errors, hadCharging := ScanStatuses(rows, start.time, stop.time);
      var result := Classify(|errors| > 0, hadCharging, minutes);
      var meterRows := MeterRowsIn(rows, start.time, stop.time, ConnectorOf(start));
      var avgVoltage, avgCurrent, maxPower := MeterStats.ExtractMeterStats(meterRows);
      s := Session(stop.payload.transactionId, start.time, Some(stop.time), minutes, hours, energy,
                   meterStart, meterStop, AvgPowerKw(energy, hours), maxPower, avgVoltage, avgCurrent,
                   idTag, stop.payload.reason.GetOr("Normal"),
                   if |errors| > 0 then Codes(set c | c in errors) else NoErrors, result);
    } else {
      s := Session(None, start.time, None, 0.0, 0.0, 0.0, meterStart, meterStart, 0.0, 0.0, 0.0, 0.0,
                   idTag, "Not Completed", NoStopTransaction, Incomplete);
    }
  }

  /** The StartTransaction rows, in row order: one entry per such row. */
  function StartRows(rows: seq<Event>): (r: seq<Event>)
    ensures forall e :: e in r <==> e in rows && IsStart(e)
    ensures forall e :: multiset(r)[e] == if IsStart(e) then multiset(rows)[e] else 0
    ensures Seqs.IsSubseq(r, rows)
  {
    Seqs.Filter(rows, IsStart)
  }

  /** The session list: one record per StartTransaction row, in row order. */
  function Sessions(rows: seq<Event>): (r: seq<Session>)
    ensures |r| == |StartRows(rows)|
    ensures forall k :: 0 <= k < |r| ==> r[k] == SessionFor(rows, StartRows(rows)[k])
  {
    SessionsOf(rows, StartRows(rows))
  }

  function SessionsOf(rows: seq<Event>, starts: seq<Event>): (r: seq<Session>)
    ensures |r| == |starts|
    ensures forall k :: 0 <= k < |r| ==> r[k] == SessionFor(rows, starts[k])
  {
    if starts == [] then [] else SessionsOf(rows, starts[..|starts| - 1]) + [SessionFor(rows, starts[|starts| - 1])]
  }

  /** The loop over the StartTransaction rows. */
  method BuildSessions(rows: seq<Event>) returns (sessions: seq<Session>)
    ensures sessions == Sessions(rows)
  {
    sessions := [];
    ghost var starts: seq<Event> := [];
    for i := 0 to |rows|
      invariant starts == StartRows(rows[..i])
      invariant sessions == SessionsOf(rows, starts)
    {
      assert rows[..i + 1][..i] == rows[..i];
      if IsStart(rows[i]) {
        var s := BuildSession(rows, rows[i]);
        sessions := sessions + [s];
        assert (starts + [rows[i]])[..|starts|] == starts;
        starts := starts + [rows[i]];
      }
    }
    assert rows[..|rows|] == rows;
  }

  /** A start with no later StopTransaction yields the placeholder record: Incomplete,
      no end, zero duration and energy, meterStop equal to meterStart, reason "Not Completed". */
  lemma UnpairedSession(rows: seq<Event>, start: Event)
    ensures var s := SessionFor(rows, start);
            s.endTime.None? <==> forall k :: 0 <= k < |rows| ==> !(IsStop(rows[k]) && rows[k].time > start.time)
    ensures var s := SessionFor(rows, start);
            s.endTime.None? ==>
              s.result == Incomplete && s.durationMinutes == 0.0 && s.energyKwh == 0.0 &&
              s.meterStopWh == s.meterStartWh && s.reason == "Not Completed" && s.errors == NoStopTransaction
  {
    var r := FirstStopAfter(rows, start.time);
    if r.Some? {
      assert IsStop(rows[r.value]) && rows[r.value].time > start.time;
    }
  }

  /** A paired session ends at the first StopTransaction stamped strictly after the
      start, so its duration is positive. Its meterStop (meterStart when the stop has
      none), transactionId and reason ("Normal" when absent) are that stop's; its
      start time, meterStart and idTag are the start's. */
  lemma PairedSession(rows: seq<Event>, start: Event)
    ensures var s := SessionFor(rows, start);
            s.endTime.Some? ==>
              (exists j :: 0 <= j < |rows| && IsStop(rows[j]) && rows[j].time == s.endTime.value &&
                           (forall k :: 0 <= k < j ==> !(IsStop(rows[k]) && rows[k].time > start.time)) &&
                           s.meterStopWh == rows[j].payload.meterStop.GetOr(s.meterStartWh) &&
                           s.transactionId == rows[j].payload.transactionId &&
                           s.reason == rows[j].payload.reason.GetOr("Normal")) &&
              s.startTime == start.time &&
              s.meterStartWh == start.payload.meterStart.GetOr(0) &&
              s.idTag == start.payload.idTag.GetOr("Unknown") &&
              s.endTime.value > start.time &&
              s.durationMinutes > 0.0 &&
              s.durationMinutes * 60.0 == (s.endTime.value - start.time) as real
  {
    var r := FirstStopAfter(rows, start.time);
    if r.Some? {
      var s := SessionFor(rows, start);
      var j := r.value;
      assert IsStop(rows[j]) && rows[j].time == s.endTime.value;
      assert s.meterStopWh == rows[j].payload.meterStop.GetOr(s.meterStartWh);
    }
  }

  /** Energy is never negative: it is the meter delta in kWh when that delta is
      positive and 0 otherwise, a missing meterStart reading as 0 and a missing
      meterStop as meterStart. Both duration columns measure the same interval. */
  lemma SessionEnergy(rows: seq<Event>, start: Event)
    ensures var s := SessionFor(rows, start);
            s.energyKwh >= 0.0 &&
            s.meterStartWh == start.payload.meterStart.GetOr(0) &&
            (s.meterStopWh > s.meterStartWh ==> s.energyKwh * 1000.0 == (s.meterStopWh - s.meterStartWh) as real) &&
            (s.meterStopWh <= s.meterStartWh ==> s.energyKwh == 0.0) &&
            (s.durationHours == 0.0 ==> s.avgPowerKw == 0.0) &&
            (s.durationHours > 0.0 ==> s.avgPowerKw == s.energyKwh / s.durationHours) &&
            s.durationHours >= 0.0 &&
            s.durationMinutes == s.durationHours * 60.0
  {
  }

  /** The outcome rule of a paired session, stated over the rows themselves: Failed
      exactly when some StatusNotification in [start, stop] reports an error code
      other than "NoError"; otherwise Successful exactly when "Charging" was seen and
      the session lasted more than a minute; otherwise Incomplete under a minute and
      Interrupted from one minute on. */
  lemma OutcomeRule(rows: seq<Event>, start: Event)
    requires SessionFor(rows, start).endTime.Some?
    ensures var s := SessionFor(rows, start);
            var stop := s.endTime.value;
            var failed := exists k :: 0 <= k < |rows| && StatusIn(rows[k], start.time, stop) && ErrorCodeOf(rows[k]) != "NoError";
            (s.result == Failed <==> failed) &&
            (s.result == Successful <==> !failed && ChargingSeen(rows, start.time, stop) && s.durationMinutes > 1.0) &&
            (s.result == Incomplete <==> !failed && !(ChargingSeen(rows, start.time, stop) && s.durationMinutes > 1.0) && s.durationMinutes < 1.0) &&
            (s.result == Interrupted <==> !failed && !(ChargingSeen(rows, start.time, stop) && s.durationMinutes > 1.0) && s.durationMinutes >= 1.0)
  {
    var s := SessionFor(rows, start);
    var stop := s.endTime.value;
    var errors := WindowErrors(rows, start.time, stop);
    if |errors| > 0 {
      WindowErrorsMembers(rows, start.time, stop, errors[0]);
    } else {
      forall k | 0 <= k < |rows| && StatusIn(rows[k], start.time, stop)
        ensures ErrorCodeOf(rows[k]) == "NoError"
      {
        WindowErrorsMembers(rows, start.time, stop, ErrorCodeOf(rows[k]));
      }
    }
  }

  /** The error column of a failed session lists at least one code, and a session
      that is not Failed carries no codes. */
  lemma ErrorsMatchOutcome(rows: seq<Event>, start: Event)
    ensures var s := SessionFor(rows, start);
            (s.result == Failed <==> s.errors.Codes?) &&
            (s.errors.Codes? ==> s.errors.codes != {}) &&
            (s.result == Successful ==> s.errors == NoErrors)
  {
    var s := SessionFor(rows, start);
    if s.endTime.Some? {
      var errors := WindowErrors(rows, start.time, s.endTime.value);
      if |errors| > 0 {
        assert errors[0] in s.errors.codes;
      }
    }
  }

  /** A session of exactly one minute without errors is Interrupted, whether or not
      it charged: the Successful test needs more than one minute, the Incomplete test
      less than one. */
  lemma OneMinuteIsInterrupted(rows: seq<Event>, start: Event)
    requires SessionFor(rows, start).endTime.Some?
    requires SessionFor(rows, start).endTime.value == start.time + 60
    requires WindowErrors(rows, start.time, start.time + 60) == []
    ensures SessionFor(rows, start).result == Interrupted
  {
  }

  /** Pairing does not close a session when a second start arrives: both starts below
      pair with the same stop. */
  lemma TwoStartsShareAStop()
    ensures var p := Payload(Some(1), None, None, None, None, None, None, None, []);
            var rows := [Event(StartTransactionRequest, 0, p), Event(StartTransactionRequest, 100, p),
                         Event(StopTransactionRequest, 200, p)];
            SessionFor(rows, rows[0]).endTime == Some(200) && SessionFor(rows, rows[1]).endTime == Some(200)
  {
    var p := Payload(Some(1), None, None, None, None, None, None, None, []);
    var rows := [Event(StartTransactionRequest, 0, p), Event(StartTransactionRequest, 100, p),
                 Event(StopTransactionRequest, 200, p)];
    assert FirstStopAfter(rows[2..], 0) == Some(0);
    assert FirstStopAfter(rows[1..], 0) == Some(1);
    assert FirstStopAfter(rows, 0) == Some(2);
    assert FirstStopAfter(rows[2..], 100) == Some(0);
    assert FirstStopAfter(rows[1..], 100) == Some(1);
    assert FirstStopAfter(rows, 100) == Some(2);
  }
}
