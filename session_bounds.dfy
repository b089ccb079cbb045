/** The first half of `report_df`: sessions start at every "Preparing" row; each is
    searched up to the next start, closed by the highest-priority stop signal, and
    extended by a two-minute error window after the stop. */
module SessionBounds {
  import opened Wrappers
  import opened LogRows

  /** How the stop row was found. */
  datatype StopType = MeterStop | Available | Faulted | Finishing | Incomplete | NoClearStop

  /** Row `k` opens a session. */
  predicate IsStartRow(rows: seq<LogRow>, k: nat)
    requires k < |rows|
  {
    HasStatus(rows[k], "Preparing")
  }

  /** The indices of the "Preparing" rows, ascending. */
  function Starts(rows: seq<LogRow>): (s: seq<nat>)
    ensures forall k :: 0 <= k < |s| ==> s[k] < |rows| && IsStartRow(rows, s[k])
    ensures forall k :: 0 <= k < |rows| && IsStartRow(rows, k) ==> k in s
    ensures forall a, b :: 0 <= a < b < |s| ==> s[a] < s[b]
  {
    if rows == [] then []
    else
      var init := rows[..|rows| - 1];
      var s := Starts(init);
      assert forall k :: 0 <= k < |init| ==> init[k] == rows[k];
      s + (if HasStatus(rows[|rows| - 1], "Preparing") then [|rows| - 1] else [])
  }

  /** Session `i` is searched up to the next start, or to the end for the last one. */
  function SearchEnd(starts: seq<nat>, i: nat, n: nat): nat
    requires i < |starts|
  {
    if i + 1 < |starts| then starts[i + 1] else n
  }

  predicate IsStartTransaction(r: LogRow) {
    (r.command == "StartTransactionRequest" || r.command == "StartTransactionResponse") && r.transactionId.Some?
  }

  predicate CarriesTid(r: LogRow) {
    r.transactionId.Some?
  }

  /** The session's transactionId: from the first StartTransaction request or response
      carrying one in [lo, hi), else from the first row there carrying one. */
  function SessionTid(rows: seq<LogRow>, lo: nat, hi: nat): (t: Option<string>)
    requires hi <= |rows|
    ensures t.Some? ==> exists k :: lo <= k < hi && rows[k].transactionId == t
    ensures t.None? ==> forall k :: lo <= k < hi ==> rows[k].transactionId.None?
    ensures forall k :: IsFirstIn(rows, lo, hi, IsStartTransaction, k) ==> t == rows[k].transactionId
    ensures (forall k :: lo <= k < hi ==> !IsStartTransaction(rows[k])) ==>
      forall k :: IsFirstIn(rows, lo, hi, CarriesTid, k) ==> t == rows[k].transactionId
  {
    match FirstIn(rows, lo, hi, IsStartTransaction)
    case Some(k) => rows[k].transactionId
    case None =>
      match FirstIn(rows, lo, hi, CarriesTid)
      case Some(k) => rows[k].transactionId
      case None => None
  }

  predicate IsMeterStopOf(r: LogRow, tid: string) {
    HasStatus(r, "meterStop") && r.transactionId == Some(tid)
  }

  predicate IsStatusStop(r: LogRow) {
    HasStatus(r, "Available") || HasStatus(r, "Faulted") || HasStatus(r, "Finishing")
  }

  function StatusStopType(r: LogRow): StopType
    requires IsStatusStop(r)
  {
    if HasStatus(r, "Available") then Available
    else if HasStatus(r, "Faulted") then Faulted
    else Finishing
  }

  /** The stop of a session searched in [lo, hi): the first "meterStop" row of the
      session's transaction; else the first Available, Faulted or Finishing row; else
      the last row, Incomplete if it is still Charging and No_Clear_Stop otherwise. */
  function FindStop(rows: seq<LogRow>, lo: nat, hi: nat, tid: Option<string>): (r: (nat, StopType))
    requires lo < hi <= |rows|
    ensures lo <= r.0 < hi
    ensures r.1 == MeterStop <==> Truthy(tid) && exists k :: lo <= k < hi && IsMeterStopOf(rows[k], tid.value)
    ensures r.1 == MeterStop ==>
              IsMeterStopOf(rows[r.0], tid.value) && forall k :: lo <= k < r.0 ==> !IsMeterStopOf(rows[k], tid.value)
    ensures r.1 in {Available, Faulted, Finishing} ==>
              IsStatusStop(rows[r.0]) && r.1 == StatusStopType(rows[r.0]) && forall k :: lo <= k < r.0 ==> !IsStatusStop(rows[k])
    ensures r.1 in {Incomplete, NoClearStop} <==>
              !(Truthy(tid) && exists k :: lo <= k < hi && IsMeterStopOf(rows[k], tid.value)) &&
              forall k :: lo <= k < hi ==> !IsStatusStop(rows[k])
    ensures r.1 in {Incomplete, NoClearStop} ==> r.0 == hi - 1 && (r.1 == Incomplete <==> HasStatus(rows[hi - 1], "Charging"))
  {
    var meterStop := if Truthy(tid) then FirstIn(rows, lo, hi, (r: LogRow) => IsMeterStopOf(r, tid.value)) else None;
    if meterStop.Some? then (meterStop.value, MeterStop)
    else
      match FirstIn(rows, lo, hi, IsStatusStop)
      case Some(k) => (k, StatusStopType(rows[k]))
      case None =>
        if HasStatus(rows[hi - 1], "Charging") then (hi - 1, Incomplete) else (hi - 1, NoClearStop)
  }

  /** The row stamped at most two minutes after `t`. */
  predicate WithinTwoMinutes(r: LogRow, t: int) {
    r.time.Some? && r.time.value <= t + 120
  }

  /** The last row in [stop, hi) stamped no later than two minutes after the stop;
      the stop itself when it has no timestamp. */
  function ErrorWindowEnd(rows: seq<LogRow>, stop: nat, hi: nat): (e: nat)
    requires stop < hi <= |rows|
    ensures stop <= e < hi
    ensures rows[stop].time.Some? ==>
              WithinTwoMinutes(rows[e], rows[stop].time.value) &&
              forall k :: e < k < hi ==> !WithinTwoMinutes(rows[k], rows[stop].time.value)
    ensures rows[stop].time.None? ==> e == stop
  {
    match rows[stop].time
    case None => stop
    case Some(t) =>
      match LastIn(rows, stop, hi, (r: LogRow) => WithinTwoMinutes(r, t))
      case Some(k) => k
      case None => assert WithinTwoMinutes(rows[stop], t); stop
  }

  datatype Bounds = Bounds(start: nat, stop: nat, stopType: StopType, errorWindowEnd: nat, tid: Option<string>)

  /** The bounds of session `i`. */
  function BoundsFor(rows: seq<LogRow>, starts: seq<nat>, i: nat): (b: Bounds)
    requires starts == Starts(rows) && i < |starts|
    ensures b.start == starts[i]
    ensures b.start <= b.stop <= b.errorWindowEnd < SearchEnd(starts, i, |rows|) <= |rows|
  {
    var start := starts[i];
    var searchEnd := SearchEnd(starts, i, |rows|);
    var tid := SessionTid(rows, start, searchEnd);
    var found := FindStop(rows, start, searchEnd, tid);
    Bounds(start, found.0, found.1, ErrorWindowEnd(rows, found.0, searchEnd), tid)
  }

  /** `b` are bounds session `i` can have: they start at its Preparing row and end
      before the next session's. */
  predicate Framed(rows: seq<LogRow>, starts: seq<nat>, i: nat, b: Bounds) {
    i < |starts| && b.start == starts[i] &&
    b.start <= b.stop <= b.errorWindowEnd < SearchEnd(starts, i, |rows|) <= |rows|
  }

  /** Every bounds triple lies within the rows, in order start <= stop <= errorWindowEnd. */
  predicate WellFramed(rows: seq<LogRow>, bs: seq<Bounds>) {
    forall k :: 0 <= k < |bs| ==> bs[k].start <= bs[k].stop <= bs[k].errorWindowEnd < |rows|
  }

  /** The list `[f(0), ..., f(n - 1)]`, built front to back as the loop builds it. */
  function Tabulate<T>(f: nat --> T, n: nat): (s: seq<T>)
    requires forall i: nat :: i < n ==> f.requires(i)
    ensures |s| == n
  {
    if n == 0 then [] else Tabulate(f, n - 1) + [f(n - 1)]
  }

  /** Entry `k` of the list is `f(k)`. */
  lemma {:induction false} TabulateAt<T>(f: nat --> T, n: nat, k: nat)
    requires forall i: nat :: i < n ==> f.requires(i)
    requires k < n
    ensures Tabulate(f, n)[k] == f(k)
  {
    if k < n - 1 {
      TabulateAt(f, n - 1, k);
    }
  }

  /** Session `i`'s bounds, as a function of `i`. */
  function BoundsOf(rows: seq<LogRow>, starts: seq<nat>): nat --> Bounds
    requires starts == Starts(rows)
  {
    (i: nat) requires i < |starts| => BoundsFor(rows, starts, i)
  }

  /** The bounds of every session, in order of their Preparing rows. */
  function AllBounds(rows: seq<LogRow>): (bs: seq<Bounds>)
    ensures |bs| == |Starts(rows)|
  {
    Tabulate(BoundsOf(rows, Starts(rows)), |Starts(rows)|)
  }

  /** Each session's bounds start at its own Preparing row, stay in order and end
      before the next session's start. */
  lemma AllBoundsFramed(rows: seq<LogRow>)
    ensures forall k :: 0 <= k < |AllBounds(rows)| ==> Framed(rows, Starts(rows), k, AllBounds(rows)[k])
    ensures WellFramed(rows, AllBounds(rows))
  {
    var starts := Starts(rows);
    var bs := AllBounds(rows);
    forall k | 0 <= k < |bs| ensures Framed(rows, starts, k, bs[k]) {
      TabulateAt(BoundsOf(rows, starts), |starts|, k);
    }
  }

  /** Consecutive sessions do not overlap: each one's error window ends before the next start. */
  lemma SessionsDisjoint(rows: seq<LogRow>, i: nat)
    requires i + 1 < |AllBounds(rows)|
    ensures AllBounds(rows)[i].errorWindowEnd < AllBounds(rows)[i + 1].start
  {
    AllBoundsFramed(rows);
    var starts := Starts(rows);
    assert Framed(rows, starts, i, AllBounds(rows)[i]);
    assert Framed(rows, starts, i + 1, AllBounds(rows)[i + 1]);
  }

  /** No Preparing row means no session. */
  lemma {:induction false} NoPreparingNoSessions(rows: seq<LogRow>)
    requires forall k :: 0 <= k < |rows| ==> !HasStatus(rows[k], "Preparing")
    ensures Starts(rows) == [] && AllBounds(rows) == []
  {
    if rows != [] {
      var init := rows[..|rows| - 1];
      assert forall k :: 0 <= k < |init| ==> init[k] == rows[k];
      NoPreparingNoSessions(init);
    }
  }

  /** The body of the loop over the starts: one session's search range, transaction,
      stop and error window. */
  method SessionBoundsAt(rows: seq<LogRow>, starts: seq<nat>, i: nat) returns (b: Bounds)
    requires starts == Starts(rows) && i < |starts|
    ensures b == BoundsFor(rows, starts, i)
  {
    var start := starts[i];
    var searchEnd := if i + 1 < |starts| then starts[i + 1] else |rows|;
    var tid := SessionTid(rows, start, searchEnd);
    var found := FindStop(rows, start, searchEnd, tid);
    var windowEnd := ErrorWindowEnd(rows, found.0, searchEnd);
    b := Bounds(start, found.0, found.1, windowEnd, tid);
  }

  /** The loop over the starts, appending one bounds record per session. */
  method FindSessionBounds(rows: seq<LogRow>) returns (sessions: seq<Bounds>)
    ensures sessions == AllBounds(rows)
  {
    var starts := Starts(rows);
    sessions := [];
    for i := 0 to |starts|
      invariant sessions == Tabulate(BoundsOf(rows, starts), i)
    {
      var b := SessionBoundsAt(rows, starts, i);
      sessions := sessions + [b];
    }
  }
}
