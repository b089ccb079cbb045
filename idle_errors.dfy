/** `detect_idle_errors`: the rows of one connector's log that carry error
    information while no session is open. A session covers its rows from
    Session_Start through the end of its two-minute error window. */
module IdleErrors {
  import opened Wrappers
  import opened LogRows
  import opened SessionDetails

  /** A row of the sessions frame: Session_Start, Session_Stop and Error_Window_End,
      the last of which may be NaN. */
  datatype Span = Span(start: int, stop: int, errorWindowEnd: Option<int>)

  /** The spans of the session records `report_df` produced. */
  function SessionSpans(xf: seq<SessionRow>): (spans: seq<Span>)
    ensures |spans| == |xf|
    ensures forall k :: 0 <= k < |xf| ==>
              spans[k] == Span(xf[k].bounds.start, xf[k].bounds.stop, Some(xf[k].bounds.errorWindowEnd))
  {
    seq(|xf|, k requires 0 <= k < |xf| => Span(xf[k].bounds.start, xf[k].bounds.stop, Some(xf[k].bounds.errorWindowEnd)))
  }

  /** The first row a span covers: its start, raised to 0. */
  function CoverLo(s: Span): int {
    if s.start < 0 then 0 else s.start
  }

  /** The last row a span covers among `n` rows: its error window's end (its stop
      when that is NaN), lowered to the last row. */
  function CoverHi(s: Span, n: nat): int {
    var end := s.errorWindowEnd.GetOr(s.stop);
    if end < n - 1 then end else n - 1
  }

  predicate CoveredBy(s: Span, n: nat, k: int) {
    CoverLo(s) <= k <= CoverHi(s, n)
  }

  /** Row `k` of `n` lies inside some session. */
  predicate Covered(spans: seq<Span>, n: nat, k: int) {
    exists j :: 0 <= j < |spans| && CoveredBy(spans[j], n, k)
  }

  /** One entry of the result: the row's time, command and status, and its
      informative error fields. */
  datatype IdleError = IdleError(command: string, status: Option<string>, details: ErrorRecord)

  function IdleErrorOf(r: LogRow): IdleError {
    IdleError(r.command, r.status, ErrorRecordOf(r))
  }

  /** Row `k` is reported: no session covers it and it has an informative error field. */
  predicate IsIdleError(rows: seq<LogRow>, spans: seq<Span>, k: nat)
    requires k < |rows|
  {
    !Covered(spans, |rows|, k) && HasErrorField(rows[k])
  }

  /** The idle errors among the first `m` rows, in row order. */
  function IdleUpTo(rows: seq<LogRow>, spans: seq<Span>, m: nat): (es: seq<IdleError>)
    requires m <= |rows|
    ensures |es| <= m
  {
    if m == 0 then []
    else IdleUpTo(rows, spans, m - 1) + (if IsIdleError(rows, spans, m - 1) then [IdleErrorOf(rows[m - 1])] else [])
  }

  /** The result of `detect_idle_errors`: nothing for an empty log or an empty
      sessions frame, else the idle errors of all rows. */
  function IdleErrors(rows: seq<LogRow>, spans: seq<Span>): seq<IdleError> {
    if |rows| == 0 || |spans| == 0 then [] else IdleUpTo(rows, spans, |rows|)
  }

  /** Every reported row yields its entry. */
  lemma {:induction false} IdleRowReported(rows: seq<LogRow>, spans: seq<Span>, m: nat, k: nat)
    requires k < m <= |rows| && IsIdleError(rows, spans, k)
    ensures IdleErrorOf(rows[k]) in IdleUpTo(rows, spans, m)
  {
    var prev := IdleUpTo(rows, spans, m - 1);
    if k < m - 1 {
      IdleRowReported(rows, spans, m - 1, k);
      assert IdleUpTo(rows, spans, m)[..|prev|] == prev;
    } else {
      assert IdleUpTo(rows, spans, m) == prev + [IdleErrorOf(rows[k])];
    }
  }

  /** Every entry comes from a reported row. */
  lemma {:induction false} IdleEntryFromRow(rows: seq<LogRow>, spans: seq<Span>, m: nat, e: IdleError)
    requires m <= |rows| && e in IdleUpTo(rows, spans, m)
    ensures exists k :: 0 <= k < m && IsIdleError(rows, spans, k) && IdleErrorOf(rows[k]) == e
  {
    var prev := IdleUpTo(rows, spans, m - 1);
    if e in prev {
      IdleEntryFromRow(rows, spans, m - 1, e);
      var k :| 0 <= k < m - 1 && IsIdleError(rows, spans, k) && IdleErrorOf(rows[k]) == e;
      assert 0 <= k < m && IsIdleError(rows, spans, k) && IdleErrorOf(rows[k]) == e;
    } else {
      assert IsIdleError(rows, spans, m - 1) && IdleErrorOf(rows[m - 1]) == e;
    }
  }

  /** With at least one session, the entries are exactly those of the rows outside
      every session that have an informative error field; without one there are none. */
  lemma IdleErrorsExactly(rows: seq<LogRow>, spans: seq<Span>, e: IdleError)
    ensures e in IdleErrors(rows, spans) <==>
              |spans| > 0 && exists k :: 0 <= k < |rows| && IsIdleError(rows, spans, k) && IdleErrorOf(rows[k]) == e
  {
    if e in IdleErrors(rows, spans) {
      IdleEntryFromRow(rows, spans, |rows|, e);
    }
    if |spans| > 0 && exists k :: 0 <= k < |rows| && IsIdleError(rows, spans, k) && IdleErrorOf(rows[k]) == e {
      var k :| 0 <= k < |rows| && IsIdleError(rows, spans, k) && IdleErrorOf(rows[k]) == e;
      IdleRowReported(rows, spans, |rows|, k);
    }
  }

  /** No row from a session's start through its error window is ever idle. */
  lemma SessionRowsNeverIdle(rows: seq<LogRow>, xf: seq<SessionRow>, i: nat, k: nat)
    requires i < |xf| && xf[i].bounds.start <= k <= xf[i].bounds.errorWindowEnd < |rows|
    ensures !IsIdleError(rows, SessionSpans(xf), k)
  {
    var spans := SessionSpans(xf);
    assert CoveredBy(spans[i], |rows|, k);
  }

  /** `is_in_session[start : end + 1] = True`. */
  method MarkRange(inSession: array<bool>, lo: int, hi: int)
    requires 0 <= lo <= hi <= inSession.Length
    modifies inSession
    ensures forall k :: 0 <= k < inSession.Length ==> inSession[k] == (old(inSession[k]) || lo <= k < hi)
  {
    for k := lo to hi
      invariant forall j :: 0 <= j < inSession.Length ==> inSession[j] == (old(inSession[j]) || lo <= j < k)
    {
      inSession[k] := true;
    }
  }

  /** Covering by one more span. */
  lemma CoveredSnoc(spans: seq<Span>, i: nat, n: nat, k: int)
    requires i < |spans|
    ensures Covered(spans[..i + 1], n, k) <==> Covered(spans[..i], n, k) || CoveredBy(spans[i], n, k)
  {
    if Covered(spans[..i + 1], n, k) {
      var j :| 0 <= j < i + 1 && CoveredBy(spans[..i + 1][j], n, k);
      if j < i {
        assert CoveredBy(spans[..i][j], n, k);
      }
    }
    if Covered(spans[..i], n, k) {
      var j :| 0 <= j < i && CoveredBy(spans[..i][j], n, k);
      assert CoveredBy(spans[..i + 1][j], n, k);
    }
    if CoveredBy(spans[i], n, k) {
      assert CoveredBy(spans[..i + 1][i], n, k);
    }
  }

  /** The loop over the sessions frame marking every session's rows. */
  method MarkSessions(spans: seq<Span>, n: nat) returns (inSession: array<bool>)
    requires n > 0
    ensures fresh(inSession) && inSession.Length == n
    ensures forall k :: 0 <= k < n ==> inSession[k] == Covered(spans, n, k)
  {
    inSession := new bool[n](_ => false);
    for i := 0 to |spans|
      invariant inSession.Length == n
      invariant forall k :: 0 <= k < n ==> inSession[k] == Covered(spans[..i], n, k)
    {
      var s := spans[i];
      var start := if s.start < 0 then 0 else s.start;
      var end := if s.errorWindowEnd.Some? then s.errorWindowEnd.value else s.stop;
      end := if end < n - 1 then end else n - 1;
      if start <= end {
        MarkRange(inSession, start, end + 1);
      }
      forall k | 0 <= k < n ensures inSession[k] == Covered(spans[..i + 1], n, k) {
        CoveredSnoc(spans, i, n, k);
      }
    }
    assert spans[..|spans|] == spans;
  }

  /** `detect_idle_errors(sf, sessions_df)`. */
  method DetectIdleErrors(rows: seq<LogRow>, spans: seq<Span>) returns (idle: seq<IdleError>)
    ensures idle == IdleErrors(rows, spans)
  {
    if |rows| == 0 || |spans| == 0 {
      return [];
    }
    var inSession := MarkSessions(spans, |rows|);
    idle := [];
    for i := 0 to |rows|
      invariant forall k :: 0 <= k < |rows| ==> inSession[k] == Covered(spans, |rows|, k)
      invariant idle == IdleUpTo(rows, spans, i)
    {
      if !inSession[i] {
        var hasError := ScanErrorFields(rows[i]);
        if hasError {
          idle := idle + [IdleErrorOf(rows[i])];
        }
      }
    }
  }
}
