/** The per-session verdicts of the older engine: `set_stop`, the priority-based
    stop classification, `set_vendorErrorCode`, the error shown for a session, and
    the rule that drops an unfinished last session. */
module StopClassification {
  import opened Wrappers
  import opened Text
  import opened LogRows
  import SessionBounds
  import opened SessionDetails

  /** The `stop` column: "Successful", "Failed / Error" or "Incomplete"; a session
      that never reached Charging gets None, a precharging failure. */
  datatype StopClass = Successful | FailedError | Incomplete

  /** Values of an error record that do not count as a real error. */
  const SuccessfulPatterns: set<string> := {
    "NoError", "Local", "Remote", "UserRequestedStop", "None",
    "StopReason:NoError", "StopReason:Local", "StopReason:Remote", "StopReason:UserRequestedStop"
  }

  /** A truthy value outside the successful patterns. */
  predicate IsRealError(v: string) {
    v != "" && v !in SuccessfulPatterns
  }

  predicate RecordHasRealError(e: ErrorRecord) {
    exists j :: 0 <= j < |RecordValues(e)| && IsRealError(RecordValues(e)[j])
  }

  /** `has_real_errors`: some error record of the session holds a real error. */
  predicate HasRealErrors(es: seq<ErrorRecord>) {
    exists i :: 0 <= i < |es| && RecordHasRealError(es[i])
  }

  /** The StopReason values of a clean stop. */
  const CleanStopReasons: set<string> := {"NoError", "Local", "Remote", "UserRequestedStop"}

  /** The reasons that decide a closing stop before the StopReason is consulted. */
  const DecisiveReasons: set<Option<string>> := {Some("Remote"), Some("Local"), Some("EVDisconnected"), Some("Reboot")}

  /** The verdict of a meterStop, Available or Finishing stop: the reason first, then
      the StopReason, then whether the session recorded a real error. */
  function ByReason(reason: Option<string>, stopReason: Option<string>, realErrors: bool): (c: StopClass)
    ensures c != Incomplete
    ensures reason == Some("Remote") || reason == Some("Local") ==> c == Successful
    ensures reason == Some("EVDisconnected") ==> c == FailedError
    ensures reason == Some("Reboot") ==> (c == Successful <==> !realErrors)
    ensures reason !in DecisiveReasons && stopReason.Some? ==> (c == Successful <==> stopReason.value in CleanStopReasons)
    ensures reason !in DecisiveReasons && stopReason.None? ==> (c == Successful <==> !realErrors)
  {
    if reason == Some("Remote") || reason == Some("Local") then Successful
    else if reason == Some("EVDisconnected") then FailedError
    else if reason == Some("Reboot") then (if realErrors then FailedError else Successful)
    else if stopReason.Some? then (if stopReason.value in CleanStopReasons then Successful else FailedError)
    else if realErrors then FailedError
    else Successful
  }

  /** `set_stop(row)`. */
  function StopOf(s: SessionRow): (c: Option<StopClass>)
    ensures c == Some(Incomplete) <==> s.bounds.stopType == SessionBounds.Incomplete
    ensures c.None? <==> s.bounds.stopType != SessionBounds.Incomplete && !s.isCharging
    ensures s.bounds.stopType != SessionBounds.Incomplete && s.isCharging && s.soc.Some? && s.soc.value >= 99.0 ==>
              c == Some(Successful)
    ensures s.bounds.stopType in {SessionBounds.Faulted, SessionBounds.NoClearStop} && s.isCharging &&
            !(s.soc.Some? && s.soc.value >= 99.0) ==>
              c == Some(FailedError)
    ensures s.bounds.stopType in {SessionBounds.MeterStop, SessionBounds.Available, SessionBounds.Finishing} &&
            s.isCharging && !(s.soc.Some? && s.soc.value >= 99.0) ==>
              c == Some(ByReason(s.reason, s.stopReason, HasRealErrors(s.allErrors)))
  {
    var t := s.bounds.stopType;
    if t == SessionBounds.Incomplete then Some(Incomplete)
    else if !s.isCharging then None
    else if s.soc.Some? && s.soc.value >= 99.0 then Some(Successful)
    else if t == SessionBounds.MeterStop then Some(ByReason(s.reason, s.stopReason, HasRealErrors(s.allErrors)))
    else if t == SessionBounds.Faulted then Some(FailedError)
    else if t == SessionBounds.Available || t == SessionBounds.Finishing then
      Some(ByReason(s.reason, s.stopReason, HasRealErrors(s.allErrors)))
    else Some(FailedError)
  }

  /** A meterStop stop outranks the status stops, but all three are judged alike:
      changing one of them for another never changes the verdict. */
  lemma ClosingStopsAgree(s: SessionRow, t: SessionBounds.StopType)
    requires s.bounds.stopType in {SessionBounds.MeterStop, SessionBounds.Available, SessionBounds.Finishing}
    requires t in {SessionBounds.MeterStop, SessionBounds.Available, SessionBounds.Finishing}
    ensures StopOf(s.(bounds := s.bounds.(stopType := t))) == StopOf(s)
  {
  }

  /** A charging session that closed cleanly, with neither reason nor StopReason and
      no real error, is Successful; one real error makes it Failed / Error. */
  lemma CleanCloseSucceeds(s: SessionRow)
    requires s.bounds.stopType in {SessionBounds.MeterStop, SessionBounds.Available, SessionBounds.Finishing}
    requires s.isCharging && s.reason.None? && s.stopReason.None?
    ensures StopOf(s) == Some(Successful) <==> (HasRealErrors(s.allErrors) ==> s.soc.Some? && s.soc.value >= 99.0)
  {
  }

  /** The innermost loop of `has_real_errors`: the values of one record. */
  method ScanRecord(e: ErrorRecord) returns (found: bool)
    ensures found == RecordHasRealError(e)
  {
    var values := RecordValues(e);
    found := false;
    var j := 0;
    while j < |values| && !found
      invariant 0 <= j <= |values|
      invariant found <==> exists m :: 0 <= m < j && IsRealError(values[m])
    {
      if IsRealError(values[j]) {
        found := true;
      }
      j := j + 1;
    }
  }

  /** The loop of `has_real_errors` over the error records, stopping at the first real error. */
  method ScanRealErrors(es: seq<ErrorRecord>) returns (found: bool)
    ensures found == HasRealErrors(es)
  {
    found := false;
    var i := 0;
    while i < |es| && !found
      invariant 0 <= i <= |es|
      invariant found <==> exists m :: 0 <= m < i && RecordHasRealError(es[m])
    {
      found := ScanRecord(es[i]);
      i := i + 1;
    }
  }

  /** `set_stop` with its error scan. */
  method SetStop(s: SessionRow) returns (c: Option<StopClass>)
    ensures c == StopOf(s)
  {
    var t := s.bounds.stopType;
    if t == SessionBounds.Incomplete {
      return Some(Incomplete);
    }
    if !s.isCharging {
      return None;
    }
    var realErrors := ScanRealErrors(s.allErrors);
    if s.soc.Some? && s.soc.value >= 99.0 {
      return Some(Successful);
    }
    if t == SessionBounds.MeterStop {
      return Some(ByReason(s.reason, s.stopReason, realErrors));
    }
    if t == SessionBounds.Faulted {
      return Some(FailedError);
    }
    if t == SessionBounds.Available || t == SessionBounds.Finishing {
      return Some(ByReason(s.reason, s.stopReason, realErrors));
    }
    c := Some(FailedError);
  }

  /** The first truthy value of a record, in key order. */
  function FirstTruthy(vs: seq<string>): (v: Option<string>)
    ensures v.Some? ==> v.value != "" && exists k :: 0 <= k < |vs| && vs[k] == v.value && forall j :: 0 <= j < k ==> vs[j] == ""
    ensures v.None? ==> forall k :: 0 <= k < |vs| ==> vs[k] == ""
  {
    if vs == [] then None
    else if vs[0] != "" then Some(vs[0])
    else
      var rest := FirstTruthy(vs[1..]);
      assert forall k :: 0 < k < |vs| ==> vs[k] == vs[1..][k - 1];
      rest
  }

  /** A charging session whose first error record shows no truthy value: the
      fallback fields decide its error. */
  predicate FallsBack(s: SessionRow) {
    s.isCharging && !(|s.allErrors| > 0 && FirstTruthy(RecordValues(s.allErrors[0])).Some?)
  }

  /** `set_vendorErrorCode(row)`: "Precharging Failure" for a session that never
      charged; else the first value of its first error record; else info, then
      vendorErrorCode, then a StopReason other than NoError, then "EVDisconnected"
      for an EV that left below 99 % SoC; else none. */
  function VendorErrorOf(s: SessionRow): (v: Option<string>)
    ensures !s.isCharging ==> v == Some("Precharging Failure")
    ensures s.isCharging && |s.allErrors| > 0 && FirstTruthy(RecordValues(s.allErrors[0])).Some? ==>
              v == FirstTruthy(RecordValues(s.allErrors[0]))
    ensures FallsBack(s) && Truthy(s.info) ==> v == s.info
    ensures FallsBack(s) && !Truthy(s.info) && Truthy(s.vendorErrorCode) ==> v == s.vendorErrorCode
    ensures FallsBack(s) && !Truthy(s.info) && !Truthy(s.vendorErrorCode) &&
            s.stopReason.Some? && s.stopReason.value != "NoError" ==>
              v == s.stopReason
    ensures FallsBack(s) && !Truthy(s.info) && !Truthy(s.vendorErrorCode) &&
            (s.stopReason.None? || s.stopReason == Some("NoError")) ==>
              v == (if s.reason == Some("EVDisconnected") && s.soc.Some? && s.soc.value < 99.0
                    then Some("EVDisconnected") else None)
    ensures v.None? ==> s.isCharging && (s.info.None? || s.info == Some("")) &&
                        (s.stopReason.None? || s.stopReason == Some("NoError"))
  {
    if !s.isCharging then Some("Precharging Failure")
    else if |s.allErrors| > 0 && FirstTruthy(RecordValues(s.allErrors[0])).Some? then
      FirstTruthy(RecordValues(s.allErrors[0]))
    else if s.info.Some? && s.info.value != "" then s.info
    else if s.vendorErrorCode.Some? && s.vendorErrorCode.value != "" then s.vendorErrorCode
    else if s.stopReason.Some? && s.stopReason.value != "NoError" then s.stopReason
    else if s.reason == Some("EVDisconnected") && s.soc.Some? && s.soc.value < 99.0 then Some("EVDisconnected")
    else None
  }

  /** A field `Keep` retained is a truthy string. */
  lemma KeptTruthy(v: Option<string>)
    ensures Keep(v) != Some("")
  {
    assert Strip("") == "";
  }

  /** The values of a row's error record are all truthy strings. */
  lemma RecordValuesTruthy(r: LogRow)
    ensures "" !in RecordValues(ErrorRecordOf(r))
  {
    KeptTruthy(r.errorCode);
    KeptTruthy(r.info);
    KeptTruthy(r.vendorErrorCode);
    KeptTruthy(r.reason);
    KeptTruthy(r.stopReason);
  }

  /** A charging session whose first error record holds truthy values shows the first of them. */
  lemma FirstRecordShown(s: SessionRow)
    requires s.isCharging && |s.allErrors| > 0
    requires |RecordValues(s.allErrors[0])| > 0 && "" !in RecordValues(s.allErrors[0])
    ensures VendorErrorOf(s) == Some(RecordValues(s.allErrors[0])[0])
  {
    assert RecordValues(s.allErrors[0])[0] in RecordValues(s.allErrors[0]);
  }

  /** A charging session with error records shows the first value of its first record. */
  lemma RecordedErrorShown(rows: seq<LogRow>, b: SessionBounds.Bounds, tid: Option<string>)
    requires b.start <= b.stop <= b.errorWindowEnd < |rows|
    requires SessionRecord(rows, b, tid).isCharging && |SessionRecord(rows, b, tid).allErrors| > 0
    ensures |RecordValues(SessionRecord(rows, b, tid).allErrors[0])| > 0
    ensures VendorErrorOf(SessionRecord(rows, b, tid)) == Some(RecordValues(SessionRecord(rows, b, tid).allErrors[0])[0])
  {
    var s := SessionRecord(rows, b, tid);
    var es := ErrorsIn(rows, b.start, b.errorWindowEnd + 1);
    assert s.allErrors == es;
    ErrorsInInformative(rows, b.start, b.errorWindowEnd + 1);
    assert es[0] in es;
    ErrorsFromRows(rows, b.start, b.errorWindowEnd + 1, es[0]);
    var k :| b.start <= k < b.errorWindowEnd + 1 && Produces(rows[k], es[0]);
    RecordValuesTruthy(rows[k]);
    assert ErrorRecordOf(rows[k]) == s.allErrors[0];
    FirstRecordShown(s);
  }

  /** A row of the connector report: the session's columns with the error shown in
      place of vendorErrorCode, and its stop class. */
  datatype ReportRow = ReportRow(session: SessionRow, stop: Option<StopClass>)

  function Classified(s: SessionRow): (r: ReportRow)
    ensures r.stop == StopOf(s) && r.session == s.(vendorErrorCode := VendorErrorOf(s))
  {
    ReportRow(s.(vendorErrorCode := VendorErrorOf(s)), StopOf(s))
  }

  /** `last_row.get('reason') == None and is_Charging == 1 and stop != "Incomplete"`.
      A session without a transactionId has no transaction to merge with, so its
      reason is the merge's NaN, which is not None: such a row never counts. */
  predicate Unfinished(r: ReportRow) {
    r.session.transactionId.Some? && r.session.reason.None? && r.session.isCharging && r.stop != Some(Incomplete)
  }

  /** Both `apply` passes, then the drop of an unfinished last row: exactly that row
      goes, and every other row is its session classified, in order. */
  function ConnectorReport(xf: seq<SessionRow>): (x: seq<ReportRow>)
    ensures |xf| > 0 && Unfinished(Classified(xf[|xf| - 1])) ==> |x| == |xf| - 1
    ensures !(|xf| > 0 && Unfinished(Classified(xf[|xf| - 1]))) ==> |x| == |xf|
    ensures forall k :: 0 <= k < |x| ==> x[k] == Classified(xf[k])
  {
    var all := seq(|xf|, k requires 0 <= k < |xf| => Classified(xf[k]));
    if |all| > 0 && Unfinished(all[|all| - 1]) then all[..|all| - 1] else all
  }

  /** A session that ended Incomplete is never dropped, so the report keeps every row. */
  lemma IncompleteLastKept(xf: seq<SessionRow>)
    requires |xf| > 0 && xf[|xf| - 1].bounds.stopType == SessionBounds.Incomplete
    ensures |ConnectorReport(xf)| == |xf|
  {
    assert StopOf(xf[|xf| - 1]) == Some(Incomplete);
  }
}
