/** The second half of `report_df` for one session: status flags and start mode,
    times and duration, the transactionId, the error records, energy, peak power and
    the single-value and maximum columns. The session rows are [start, stop], the
    error window [stop, errorWindowEnd] and the full session [start, errorWindowEnd]. */
module SessionDetails {
  import opened Wrappers
  import opened LogRows
  import opened SessionBounds
  import opened TransactionIds

  /** The first value `f` yields in [lo, hi): `df[col].dropna().iloc[0]`. */
  function FirstPresent<T>(rows: seq<LogRow>, lo: nat, hi: nat, f: LogRow -> Option<T>): Option<T>
    requires hi <= |rows|
    decreases hi - lo
  {
    if lo >= hi then None
    else if f(rows[lo]).Some? then f(rows[lo])
    else FirstPresent(rows, lo + 1, hi, f)
  }

  /** The first present value comes from a row of the range with none before it;
      none means no row of the range has one. */
  lemma {:induction false} FirstPresentIsFirst<T>(rows: seq<LogRow>, lo: nat, hi: nat, f: LogRow -> Option<T>)
    requires hi <= |rows|
    ensures var r := FirstPresent(rows, lo, hi, f);
            (r.Some? ==> exists k :: lo <= k < hi && f(rows[k]) == r && forall j :: lo <= j < k ==> f(rows[j]).None?) &&
            (r.None? ==> forall k :: lo <= k < hi ==> f(rows[k]).None?)
    decreases hi - lo
  {
    if lo < hi && f(rows[lo]).None? {
      FirstPresentIsFirst(rows, lo + 1, hi, f);
    }
  }

  /** The last value `f` yields in [lo, hi): `df[col].dropna().iloc[-1]`. */
  function LastPresent<T>(rows: seq<LogRow>, lo: nat, hi: nat, f: LogRow -> Option<T>): Option<T>
    requires hi <= |rows|
    decreases hi - lo
  {
    if lo >= hi then None
    else if f(rows[hi - 1]).Some? then f(rows[hi - 1])
    else LastPresent(rows, lo, hi - 1, f)
  }

  /** The last present value comes from a row of the range with none after it;
      none means no row of the range has one. */
  lemma {:induction false} LastPresentIsLast<T>(rows: seq<LogRow>, lo: nat, hi: nat, f: LogRow -> Option<T>)
    requires hi <= |rows|
    ensures var r := LastPresent(rows, lo, hi, f);
            (r.Some? ==> exists k :: lo <= k < hi && f(rows[k]) == r && forall j :: k < j < hi ==> f(rows[j]).None?) &&
            (r.None? ==> forall k :: lo <= k < hi ==> f(rows[k]).None?)
    decreases hi - lo
  {
    if lo < hi && f(rows[hi - 1]).None? {
      LastPresentIsLast(rows, lo, hi - 1, f);
    }
  }

  /** The largest value `f` yields in [lo, hi): `pd.to_numeric(...).max()`, NaN when none. */
  function MaxPresent(rows: seq<LogRow>, lo: nat, hi: nat, f: LogRow -> Option<real>): Option<real>
    requires hi <= |rows|
    decreases hi - lo
  {
    if lo >= hi then None
    else
      var rest := MaxPresent(rows, lo + 1, hi, f);
      match f(rows[lo])
      case None => rest
      case Some(x) => if rest.Some? && rest.value > x then rest else Some(x)
  }

  /** The maximum is a value of the range no other value exceeds; none means the
      range has no value. */
  lemma {:induction false} MaxPresentIsMax(rows: seq<LogRow>, lo: nat, hi: nat, f: LogRow -> Option<real>)
    requires hi <= |rows|
    ensures var r := MaxPresent(rows, lo, hi, f);
            (r.Some? ==> exists k :: lo <= k < hi && f(rows[k]) == r) &&
            (r.Some? ==> forall k :: lo <= k < hi && f(rows[k]).Some? ==> f(rows[k]).value <= r.value) &&
            (r.None? <==> forall k :: lo <= k < hi ==> f(rows[k]).None?)
    decreases hi - lo
  {
    if lo < hi {
      MaxPresentIsMax(rows, lo + 1, hi, f);
    }
  }

  /** One entry of `all_errors`: the timestamp and every error field that carries
      information, in the order errorCode, info, vendorErrorCode, reason, StopReason. */
  datatype ErrorRecord = ErrorRecord(
    timestamp: Option<int>,
    errorCode: Option<string>,
    info: Option<string>,
    vendorErrorCode: Option<string>,
    reason: Option<string>,
    stopReason: Option<string>)

  function Keep(v: Option<string>): (r: Option<string>)
    ensures r.Some? <==> Significant(v)
    ensures r.Some? ==> r == v
  {
    if Significant(v) then v else None
  }

  function ErrorRecordOf(r: LogRow): ErrorRecord {
    ErrorRecord(r.time, Keep(r.errorCode), Keep(r.info), Keep(r.vendorErrorCode), Keep(r.reason), Keep(r.stopReason))
  }

  /** The non-timestamp values of a record, in key order. */
  function RecordValues(e: ErrorRecord): seq<string> {
    (if e.errorCode.Some? then [e.errorCode.value] else []) +
    (if e.info.Some? then [e.info.value] else []) +
    (if e.vendorErrorCode.Some? then [e.vendorErrorCode.value] else []) +
    (if e.reason.Some? then [e.reason.value] else []) +
    (if e.stopReason.Some? then [e.stopReason.value] else [])
  }

  /** The error records of the rows in [lo, hi), one per row with an informative field. */
  function ErrorsIn(rows: seq<LogRow>, lo: nat, hi: nat): (es: seq<ErrorRecord>)
    requires hi <= |rows|
    ensures |es| <= if hi >= lo then hi - lo else 0
    decreases hi - lo
  {
    if lo >= hi then []
    else
      var r := rows[hi - 1];
      ErrorsIn(rows, lo, hi - 1) + (if HasErrorField(r) then [ErrorRecordOf(r)] else [])
  }

  /** Every error record carries at least one informative value. */
  lemma {:induction false} ErrorsInInformative(rows: seq<LogRow>, lo: nat, hi: nat)
    requires hi <= |rows|
    ensures forall k :: 0 <= k < |ErrorsIn(rows, lo, hi)| ==> |RecordValues(ErrorsIn(rows, lo, hi)[k])| > 0
    decreases hi - lo
  {
    if lo < hi {
      ErrorsInInformative(rows, lo, hi - 1);
    }
  }

  /** The scan over one row's five error fields: does any carry information? */
  method ScanErrorFields(row: LogRow) returns (hasError: bool)
    ensures hasError == HasErrorField(row)
  {
    hasError := false;
    var fields := [row.errorCode, row.info, row.vendorErrorCode, row.reason, row.stopReason];
    for f := 0 to 5
      invariant hasError <==> exists k :: 0 <= k < f && Significant(fields[k])
    {
      if Significant(fields[f]) {
        hasError := true;
      }
    }
    assert hasError <==> Significant(fields[0]) || Significant(fields[1]) || Significant(fields[2]) ||
                         Significant(fields[3]) || Significant(fields[4]);
  }

  /** The row-by-row loop over the full session building `all_errors`. */
  method CollectErrors(rows: seq<LogRow>, lo: nat, hi: nat) returns (allErrors: seq<ErrorRecord>)
    requires lo <= hi <= |rows|
    ensures allErrors == ErrorsIn(rows, lo, hi)
  {
    allErrors := [];
    for idx := lo to hi
      invariant allErrors == ErrorsIn(rows, lo, idx)
    {
      var row := rows[idx];
      var hasError := ScanErrorFields(row);
      if hasError {
        allErrors := allErrors + [ErrorRecordOf(row)];
      }
    }
  }

  /** Row `k` produces the record `e`. */
  predicate Produces(r: LogRow, e: ErrorRecord) {
    HasErrorField(r) && ErrorRecordOf(r) == e
  }

  /** Widening the range keeps the earlier records. */
  lemma ErrorsInExtends(rows: seq<LogRow>, lo: nat, hi: nat)
    requires lo < hi <= |rows|
    ensures forall e :: e in ErrorsIn(rows, lo, hi - 1) ==> e in ErrorsIn(rows, lo, hi)
  {
    var prev := ErrorsIn(rows, lo, hi - 1);
    assert ErrorsIn(rows, lo, hi)[..|prev|] == prev;
  }

  /** Every row of [lo, hi) with an informative field contributes its record. */
  lemma {:induction false} RowRecordInErrors(rows: seq<LogRow>, lo: nat, hi: nat, k: nat)
    requires lo <= k < hi <= |rows| && HasErrorField(rows[k])
    ensures ErrorRecordOf(rows[k]) in ErrorsIn(rows, lo, hi)
    decreases hi - lo
  {
    var prev := ErrorsIn(rows, lo, hi - 1);
    if k < hi - 1 {
      RowRecordInErrors(rows, lo, hi - 1, k);
      ErrorsInExtends(rows, lo, hi);
    } else {
      assert ErrorsIn(rows, lo, hi) == prev + [ErrorRecordOf(rows[k])];
    }
  }

  /** Every record comes from a row of [lo, hi) with an informative field. */
  lemma {:induction false} ErrorsFromRows(rows: seq<LogRow>, lo: nat, hi: nat, e: ErrorRecord)
    requires hi <= |rows| && e in ErrorsIn(rows, lo, hi)
    ensures exists k :: lo <= k < hi && Produces(rows[k], e)
    decreases hi - lo
  {
    var prev := ErrorsIn(rows, lo, hi - 1);
    var last := if HasErrorField(rows[hi - 1]) then [ErrorRecordOf(rows[hi - 1])] else [];
    assert ErrorsIn(rows, lo, hi) == prev + last;
    if e in prev {
      ErrorsFromRows(rows, lo, hi - 1, e);
      var k :| lo <= k < hi - 1 && Produces(rows[k], e);
      assert lo <= k < hi && Produces(rows[k], e);
    } else {
      assert Produces(rows[hi - 1], e);
    }
  }

  /** The records are exactly those of the rows of [lo, hi) with an informative field. */
  lemma ErrorsInRecordsRows(rows: seq<LogRow>, lo: nat, hi: nat, e: ErrorRecord)
    requires hi <= |rows|
    ensures e in ErrorsIn(rows, lo, hi) <==> exists k :: lo <= k < hi && Produces(rows[k], e)
  {
    if e in ErrorsIn(rows, lo, hi) {
      ErrorsFromRows(rows, lo, hi, e);
    }
    if exists k :: lo <= k < hi && Produces(rows[k], e) {
      var k :| lo <= k < hi && Produces(rows[k], e);
      RowRecordInErrors(rows, lo, hi, k);
    }
  }

  /** The per-session columns, before the merge with the transaction-level columns. */
  datatype SessionRow = SessionRow(
    bounds: Bounds,
    isPreparing: bool,
    isAutoStart: bool,
    isRemoteStart: bool,
    isRfidStart: bool,
    isCharging: bool,
    transactionId: Option<string>,
    startTime: Option<int>,
    endTime: Option<int>,
    durationMinutes: Option<real>,
    energyKwh: Option<real>,
    peakPowerKw: Option<real>,
    allErrors: seq<ErrorRecord>,
    errorCode: Option<string>,
    info: Option<string>,
    vendorErrorCode: Option<string>,
    reason: Option<string>,
    stopReason: Option<string>,
    power: Option<real>,
    soc: Option<real>)

  predicate StatusSeen(rows: seq<LogRow>, lo: nat, hi: nat, s: string)
    requires hi <= |rows|
  {
    exists k :: lo <= k < hi && HasStatus(rows[k], s)
  }

  /** The idTag of the first StartTransactionRequest of the session that has one. */
  function StartTag(rows: seq<LogRow>, lo: nat, hi: nat): Option<string>
    requires hi <= |rows|
  {
    FirstPresent(rows, lo, hi, (r: LogRow) => if r.command == "StartTransactionRequest" then r.idTag else None)
  }

  /** (auto, remote, rfid): from the StartTransaction idTag when the session has one,
      exactly one of them set; otherwise whether the relabelled start statuses occur. */
  function StartFlags(rows: seq<LogRow>, lo: nat, hi: nat): (f: (bool, bool, bool))
    requires hi <= |rows|
    ensures StartTag(rows, lo, hi).Some? ==>
              var m := StartModeOf(StartTag(rows, lo, hi).value);
              f == (m == AutoStart, m == RemoteStart, m == RfidStart)
    ensures StartTag(rows, lo, hi).None? ==>
              f == (StatusSeen(rows, lo, hi, "Auto-Start"), StatusSeen(rows, lo, hi, "REMOTE-Start"), StatusSeen(rows, lo, hi, "RFID-Start"))
  {
    match StartTag(rows, lo, hi)
    case Some(tag) =>
      var m := StartModeOf(tag);
      (m == AutoStart, m == RemoteStart, m == RfidStart)
    case None =>
      (StatusSeen(rows, lo, hi, "Auto-Start"), StatusSeen(rows, lo, hi, "REMOTE-Start"), StatusSeen(rows, lo, hi, "RFID-Start"))
  }

  /** Where the backward search may begin: at most 200 rows back and not before the previous start. */
  function BackwardStart(starts: seq<nat>, i: nat): (b: nat)
    requires i < |starts|
    ensures b + 200 >= starts[i]
    ensures b <= starts[i] || (i > 0 && b == starts[i - 1])
    ensures i > 0 ==> b >= starts[i - 1]
    ensures b == 0 || b + 200 == starts[i] || (i > 0 && b == starts[i - 1])
  {
    var start := starts[i];
    var back := if start >= 200 then start - 200 else 0;
    if i > 0 && starts[i - 1] > back then starts[i - 1] else back
  }

  /** The value of a single-value column: the last one in the error window, else the
      last one in the session rows. */
  function SingleValue(rows: seq<LogRow>, b: Bounds, f: LogRow -> Option<string>): Option<string>
    requires b.start <= b.stop <= b.errorWindowEnd < |rows|
  {
    var inWindow := LastPresent(rows, b.stop, b.errorWindowEnd + 1, f);
    if inWindow.Some? then inWindow else LastPresent(rows, b.start, b.stop + 1, f)
  }

  function MeterStartOf(r: LogRow): Option<real> {
    if r.meterStart.Some? then Some(r.meterStart.value as real) else None
  }

  function MeterStopOf(r: LogRow): Option<real> {
    if r.meterStop.Some? then Some(r.meterStop.value as real) else None
  }

  function EnergyRegister(r: LogRow): Option<real> { MetricValue(r, "Energy.Active.Import.Register") }
  function PowerOf(r: LogRow): Option<real> { MetricValue(r, "Power.Active.Import") }
  function SocOf(r: LogRow): Option<real> { MetricValue(r, "SoC_EV") }
  function TimeOf(r: LogRow): Option<int> { r.time }
  function ConnectorOf(r: LogRow): Option<string> { r.connectorId }
  function ErrorCodeOf(r: LogRow): Option<string> { r.errorCode }
  function InfoOf(r: LogRow): Option<string> { r.info }
  function VendorErrorCodeOf(r: LogRow): Option<string> { r.vendorErrorCode }
  function ReasonOf(r: LogRow): Option<string> { r.reason }
  function StopReasonOf(r: LogRow): Option<string> { r.stopReason }

  /** Energy in kWh: the last meterStop of the full session (else the last energy
      register reading there) minus the first meterStart of the session rows, when
      both exist. It is not clamped: a meter that went backwards gives a negative value. */
  function SessionEnergy(rows: seq<LogRow>, b: Bounds): (e: Option<real>)
    requires b.start <= b.stop <= b.errorWindowEnd < |rows|
    ensures e.Some? <==> FirstPresent(rows, b.start, b.stop + 1, MeterStartOf).Some? &&
                         (LastPresent(rows, b.start, b.errorWindowEnd + 1, MeterStopOf).Some? ||
                          LastPresent(rows, b.start, b.errorWindowEnd + 1, EnergyRegister).Some?)
  {
    var meterStart := FirstPresent(rows, b.start, b.stop + 1, MeterStartOf);
    var meterStop := LastPresent(rows, b.start, b.errorWindowEnd + 1, MeterStopOf);
    var meterEnd := if meterStop.Some? then meterStop else LastPresent(rows, b.start, b.errorWindowEnd + 1, EnergyRegister);
    if meterStart.Some? && meterEnd.Some? then Some((meterEnd.value - meterStart.value) / 1000.0) else None
  }

  /** With `s` the first session row carrying a meterStart and `k` the last row of
      the full session carrying a meterStop, the energy is meterStop - meterStart, in kWh. */
  lemma SessionEnergyFromMeterStop(rows: seq<LogRow>, b: Bounds, s: nat, k: nat)
    requires b.start <= b.stop <= b.errorWindowEnd < |rows|
    requires b.start <= s <= b.stop && rows[s].meterStart.Some?
    requires forall j :: b.start <= j < s ==> rows[j].meterStart.None?
    requires b.start <= k <= b.errorWindowEnd && rows[k].meterStop.Some?
    requires forall j :: k < j <= b.errorWindowEnd ==> rows[j].meterStop.None?
    ensures SessionEnergy(rows, b) == Some((rows[k].meterStop.value as real - rows[s].meterStart.value as real) / 1000.0)
  {
    FirstPresentIsFirst(rows, b.start, b.stop + 1, MeterStartOf);
    LastPresentIsLast(rows, b.start, b.errorWindowEnd + 1, MeterStopOf);
  }

  /** Without any meterStop in the full session, the last Energy.Active.Import.Register
      reading (row `k`) stands in for it. */
  lemma SessionEnergyFromRegister(rows: seq<LogRow>, b: Bounds, s: nat, k: nat)
    requires b.start <= b.stop <= b.errorWindowEnd < |rows|
    requires b.start <= s <= b.stop && rows[s].meterStart.Some?
    requires forall j :: b.start <= j < s ==> rows[j].meterStart.None?
    requires forall j :: b.start <= j <= b.errorWindowEnd ==> rows[j].meterStop.None?
    requires b.start <= k <= b.errorWindowEnd && EnergyRegister(rows[k]).Some?
    requires forall j :: k < j <= b.errorWindowEnd ==> EnergyRegister(rows[j]).None?
    ensures SessionEnergy(rows, b) == Some((EnergyRegister(rows[k]).value - rows[s].meterStart.value as real) / 1000.0)
  {
    FirstPresentIsFirst(rows, b.start, b.stop + 1, MeterStartOf);
    LastPresentIsLast(rows, b.start, b.errorWindowEnd + 1, MeterStopOf);
    LastPresentIsLast(rows, b.start, b.errorWindowEnd + 1, EnergyRegister);
  }

  /** The session's peak power: the largest Power.Active.Import reading of the full
      session, in kW. */
  function PeakPowerKw(rows: seq<LogRow>, b: Bounds): Option<real>
    requires b.start <= b.errorWindowEnd < |rows|
  {
    var peak := MaxPresent(rows, b.start, b.errorWindowEnd + 1, PowerOf);
    if peak.Some? then Some(peak.value / 1000.0) else None
  }

  /** The peak is a reading of the full session, in kW, that no reading there exceeds;
      it is missing exactly when the session has no power reading. */
  lemma PeakPowerIsMax(rows: seq<LogRow>, b: Bounds)
    requires b.start <= b.errorWindowEnd < |rows|
    ensures var p := PeakPowerKw(rows, b);
            (p.Some? ==> exists k :: b.start <= k <= b.errorWindowEnd && PowerOf(rows[k]) == Some(p.value * 1000.0)) &&
            (p.Some? ==> forall k :: b.start <= k <= b.errorWindowEnd && PowerOf(rows[k]).Some? ==> PowerOf(rows[k]).value <= p.value * 1000.0) &&
            (p.None? <==> forall k :: b.start <= k <= b.errorWindowEnd ==> PowerOf(rows[k]).None?)
  {
    MaxPresentIsMax(rows, b.start, b.errorWindowEnd + 1, PowerOf);
  }

  /** The transactionId search of session `i`, given the ids of the earlier sessions. */
  function SessionTidFor(rows: seq<LogRow>, starts: seq<nat>, i: nat, b: Bounds, taken: set<string>): (t: Option<string>)
    requires Framed(rows, starts, i, b)
    ensures t.Some? ==> t.value !in taken
  {
    AssignedTid(rows, b.start, SearchEnd(starts, i, |rows|), BackwardStart(starts, i),
                FirstPresent(rows, b.start, b.stop + 1, ConnectorOf),
                StatusSeen(rows, b.start, b.stop + 1, "Charging"), taken)
  }

  /** The columns of one session record, given its bounds, its transactionId and its error records. */
  function DetailsWith(rows: seq<LogRow>, b: Bounds, tid: Option<string>, allErrors: seq<ErrorRecord>): (s: SessionRow)
    requires b.start <= b.stop <= b.errorWindowEnd < |rows|
    ensures s.bounds == b && s.transactionId == tid && s.allErrors == allErrors
    ensures s.isCharging <==> StatusSeen(rows, b.start, b.stop + 1, "Charging")
  {
    var sessionEnd := b.stop + 1;
    var windowEnd := b.errorWindowEnd + 1;
    var flags := StartFlags(rows, b.start, sessionEnd);
    var startTime := FirstPresent(rows, b.start, sessionEnd, TimeOf);
    var endTime := LastPresent(rows, b.stop, windowEnd, TimeOf);
    SessionRow(
      b, StatusSeen(rows, b.start, sessionEnd, "Preparing"), flags.0, flags.1, flags.2,
      StatusSeen(rows, b.start, sessionEnd, "Charging"), tid,
      startTime, endTime,
      if startTime.Some? && endTime.Some? then Some((endTime.value - startTime.value) as real / 60.0) else None,
      SessionEnergy(rows, b),
      PeakPowerKw(rows, b),
      allErrors,
      SingleValue(rows, b, ErrorCodeOf),
      SingleValue(rows, b, InfoOf),
      SingleValue(rows, b, VendorErrorCodeOf),
      SingleValue(rows, b, ReasonOf),
      SingleValue(rows, b, StopReasonOf),
      MaxPresent(rows, b.start, sessionEnd, PowerOf),
      MaxPresent(rows, b.start, sessionEnd, SocOf))
  }

  /** The record of session `i` with bounds `b` and transactionId `tid`: the error
      records span the whole session and its error window. */
  function SessionRecord(rows: seq<LogRow>, b: Bounds, tid: Option<string>): (s: SessionRow)
    requires b.start <= b.stop <= b.errorWindowEnd < |rows|
    ensures s.bounds == b && s.transactionId == tid
    ensures s.isCharging <==> StatusSeen(rows, b.start, b.stop + 1, "Charging")
  {
    DetailsWith(rows, b, tid, ErrorsIn(rows, b.start, b.errorWindowEnd + 1))
  }

  /** Every session starts at its Preparing row, so its Preparing flag is always set. */
  lemma PreparingAlwaysSet(rows: seq<LogRow>, starts: seq<nat>, i: nat, tid: Option<string>)
    requires starts == Starts(rows) && i < |starts|
    ensures SessionRecord(rows, BoundsFor(rows, starts, i), tid).isPreparing
  {
    var b := BoundsFor(rows, starts, i);
    assert IsStartRow(rows, b.start);
  }

  /** A session whose StartTransaction carries an idTag sets exactly one start mode. */
  lemma ExactlyOneStartMode(rows: seq<LogRow>, b: Bounds, tid: Option<string>)
    requires b.start <= b.stop <= b.errorWindowEnd < |rows|
    requires StartTag(rows, b.start, b.stop + 1).Some?
    ensures var s := SessionRecord(rows, b, tid);
            (if s.isAutoStart then 1 else 0) + (if s.isRemoteStart then 1 else 0) + (if s.isRfidStart then 1 else 0) == 1
  {
  }

  /** Builds a session's record from its bounds and its transactionId. */
  type Builder = (Bounds, Option<string>) --> SessionRow

  /** `mk` builds the session records of `rows`. The trigger keeps the solver from
      expanding a record unless the session's record is already in view. */
  ghost predicate Implements(rows: seq<LogRow>, mk: Builder) {
    forall b: Bounds, t: Option<string> {:trigger SessionRecord(rows, b, t)} ::
      b.start <= b.stop <= b.errorWindowEnd < |rows| ==> mk.requires(b, t) && mk(b, t) == SessionRecord(rows, b, t)
  }

  /** The columns of one session once its transactionId is known, with the loop over
      its rows that gathers the error records: the record `mk` specifies. */
  method SessionDetailsAt(rows: seq<LogRow>, b: Bounds, tid: Option<string>, ghost mk: Builder) returns (s: SessionRow)
    requires b.start <= b.stop <= b.errorWindowEnd < |rows|
    requires Implements(rows, mk)
    ensures mk.requires(b, tid) && s == mk(b, tid)
  {
    var allErrors := CollectErrors(rows, b.start, b.errorWindowEnd + 1);
    s := DetailsWith(rows, b, tid, allErrors);
    RecordUnfolds(rows, b, tid, allErrors);
    assert mk(b, tid) == SessionRecord(rows, b, tid);
  }

  /** A session's record is `DetailsWith` over its error records. */
  lemma RecordUnfolds(rows: seq<LogRow>, b: Bounds, tid: Option<string>, allErrors: seq<ErrorRecord>)
    requires b.start <= b.stop <= b.errorWindowEnd < |rows|
    requires allErrors == ErrorsIn(rows, b.start, b.errorWindowEnd + 1)
    ensures SessionRecord(rows, b, tid) == DetailsWith(rows, b, tid, allErrors)
  {
  }
}
