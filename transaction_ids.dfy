/** The transactionId search of `report_df`: forward tiers over the session's search
    range, backward tiers over at most 200 earlier rows, and an expanded 500-row
    backward tier for charging sessions; every tier skips ids already given to an
    earlier session. */
module TransactionIds {
  import opened Wrappers
  import opened LogRows

  /** A row offering a transactionId not yet taken. */
  predicate Usable(r: LogRow, taken: set<string>) {
    r.transactionId.Some? && r.transactionId.value !in taken
  }

  /** `df['connectorId'].astype(str) == session_connector_id`. */
  predicate OnConnector(r: LogRow, conn: string) {
    r.connectorId == Some(conn)
  }

  /** `t` is an id not yet taken, carried by a row in [lo, hi). */
  predicate FreshFrom(rows: seq<LogRow>, lo: int, hi: int, taken: set<string>, t: Option<string>) {
    t.Some? ==> t.value !in taken && exists k :: 0 <= k < |rows| && lo <= k < hi && rows[k].transactionId == t
  }

  function TidAt(rows: seq<LogRow>, k: Option<nat>): (t: Option<string>)
    requires k.Some? ==> k.value < |rows|
  {
    if k.Some? then rows[k.value].transactionId else None
  }

  /** The id on the first row of [lo, hi) satisfying `p`, none when no row does. */
  function FirstTid(rows: seq<LogRow>, lo: nat, hi: nat, p: LogRow -> bool): (t: Option<string>)
    requires hi <= |rows|
    ensures forall k :: IsFirstIn(rows, lo, hi, p, k) ==> t == rows[k].transactionId
    ensures (forall k :: lo <= k < hi ==> !p(rows[k])) ==> t.None?
  {
    TidAt(rows, FirstIn(rows, lo, hi, p))
  }

  /** The id on the last row of [lo, hi) satisfying `p`, none when no row does. */
  function LastTid(rows: seq<LogRow>, lo: nat, hi: nat, p: LogRow -> bool): (t: Option<string>)
    requires hi <= |rows|
    ensures forall k :: IsLastIn(rows, lo, hi, p, k) ==> t == rows[k].transactionId
    ensures (forall k :: lo <= k < hi ==> !p(rows[k])) ==> t.None?
  {
    TidAt(rows, LastIn(rows, lo, hi, p))
  }

  /** `a or b` on candidate ids: the first one Python reads as true. */
  function OrElse(a: Option<string>, b: Option<string>): (r: Option<string>)
    ensures Truthy(a) ==> r == a
    ensures !Truthy(a) ==> r == b
  {
    if Truthy(a) then a else b
  }

  /** The row masks the tiers select with. */
  function StartRequestOn(conn: Option<string>, taken: set<string>): LogRow -> bool {
    (r: LogRow) => r.command == "StartTransactionRequest" && Usable(r, taken) && (Truthy(conn) ==> OnConnector(r, conn.value))
  }

  function CommandRow(command: string, taken: set<string>): LogRow -> bool {
    (r: LogRow) => r.command == command && Usable(r, taken)
  }

  function CommandOn(command: string, conn: string, taken: set<string>): LogRow -> bool {
    (r: LogRow) => r.command == command && Usable(r, taken) && OnConnector(r, conn)
  }

  function AnyUsable(taken: set<string>): LogRow -> bool {
    (r: LogRow) => Usable(r, taken)
  }

  function UsableOn(conn: string, taken: set<string>): LogRow -> bool {
    (r: LogRow) => Usable(r, taken) && OnConnector(r, conn)
  }

  function StopFor(tid: string): LogRow -> bool {
    (r: LogRow) => IsStopFor(r, tid)
  }

  /** Forward tiers over [start, forwardEnd), each taking the FIRST match: a
      StartTransactionRequest (on the session's connector when it has one), a
      StartTransactionResponse, a StopTransactionRequest, then any row. A tier is
      consulted only when every earlier one gave no non-empty id. */
  function ForwardTid(rows: seq<LogRow>, start: nat, forwardEnd: nat, conn: Option<string>, taken: set<string>): (t: Option<string>)
    requires forwardEnd <= |rows|
    ensures FreshFrom(rows, start, forwardEnd, taken, t)
    ensures forall k :: IsFirstIn(rows, start, forwardEnd, StartRequestOn(conn, taken), k) && Truthy(rows[k].transactionId) ==>
      t == rows[k].transactionId
    ensures !Truthy(FirstTid(rows, start, forwardEnd, StartRequestOn(conn, taken))) ==>
      forall k :: IsFirstIn(rows, start, forwardEnd, CommandRow("StartTransactionResponse", taken), k) && Truthy(rows[k].transactionId) ==>
        t == rows[k].transactionId
    ensures !Truthy(FirstTid(rows, start, forwardEnd, StartRequestOn(conn, taken))) &&
            !Truthy(FirstTid(rows, start, forwardEnd, CommandRow("StartTransactionResponse", taken))) ==>
      forall k :: IsFirstIn(rows, start, forwardEnd, CommandRow("StopTransactionRequest", taken), k) && Truthy(rows[k].transactionId) ==>
        t == rows[k].transactionId
    ensures !Truthy(FirstTid(rows, start, forwardEnd, StartRequestOn(conn, taken))) &&
            !Truthy(FirstTid(rows, start, forwardEnd, CommandRow("StartTransactionResponse", taken))) &&
            !Truthy(FirstTid(rows, start, forwardEnd, CommandRow("StopTransactionRequest", taken))) ==>
      (forall k :: IsFirstIn(rows, start, forwardEnd, AnyUsable(taken), k) ==> t == rows[k].transactionId) &&
      ((forall k :: start <= k < forwardEnd ==> !Usable(rows[k], taken)) ==> t.None?)
  {
    var f1 := FirstTid(rows, start, forwardEnd, StartRequestOn(conn, taken));
    var f2 := FirstTid(rows, start, forwardEnd, CommandRow("StartTransactionResponse", taken));
    var f3 := FirstTid(rows, start, forwardEnd, CommandRow("StopTransactionRequest", taken));
    var f4 := FirstTid(rows, start, forwardEnd, AnyUsable(taken));
    OrElse(f1, OrElse(f2, OrElse(f3, f4)))
  }

  predicate IsStopFor(r: LogRow, tid: string) {
    (r.command == "StopTransactionRequest" || r.command == "StopTransactionResponse") && r.transactionId == Some(tid)
  }

  /** First backward tier, only for a session with a connector: the last
      StartTransactionResponse in [backwardStart, start) on the session's connector,
      else the last StartTransactionResponse on any connector. */
  function BackwardResponseTid(rows: seq<LogRow>, backwardStart: nat, start: nat, conn: Option<string>, taken: set<string>): (t: Option<string>)
    requires start <= |rows|
    ensures FreshFrom(rows, backwardStart, start, taken, t)
    ensures !Truthy(conn) ==> t.None?
    ensures Truthy(conn) ==>
      forall k :: IsLastIn(rows, backwardStart, start, CommandOn("StartTransactionResponse", conn.value, taken), k) ==>
        t == rows[k].transactionId
    ensures Truthy(conn) && (forall k :: backwardStart <= k < start ==> !CommandOn("StartTransactionResponse", conn.value, taken)(rows[k])) ==>
      (forall k :: IsLastIn(rows, backwardStart, start, CommandRow("StartTransactionResponse", taken), k) ==> t == rows[k].transactionId) &&
      ((forall k :: backwardStart <= k < start ==> !CommandRow("StartTransactionResponse", taken)(rows[k])) ==> t.None?)
  {
    var responses := LastIn(rows, backwardStart, start, CommandRow("StartTransactionResponse", taken));
    if responses.Some? && Truthy(conn) then
      var matching := LastIn(rows, backwardStart, start, CommandOn("StartTransactionResponse", conn.value, taken));
      if matching.Some? then TidAt(rows, matching) else TidAt(rows, responses)
    else None
  }

  /** Second backward tier, only for a session with a connector: the last
      StartTransactionRequest in [backwardStart, start) on the session's connector. */
  function BackwardRequestTid(rows: seq<LogRow>, backwardStart: nat, start: nat, conn: Option<string>, taken: set<string>): (t: Option<string>)
    requires start <= |rows|
    ensures FreshFrom(rows, backwardStart, start, taken, t)
    ensures !Truthy(conn) ==> t.None?
    ensures Truthy(conn) ==>
      (forall k :: IsLastIn(rows, backwardStart, start, CommandOn("StartTransactionRequest", conn.value, taken), k) ==>
         t == rows[k].transactionId) &&
      ((forall k :: backwardStart <= k < start ==> !CommandOn("StartTransactionRequest", conn.value, taken)(rows[k])) ==> t.None?)
  {
    if Truthy(conn) then LastTid(rows, backwardStart, start, CommandOn("StartTransactionRequest", conn.value, taken))
    else None
  }

  /** Third backward tier: the id on the last usable row of [backwardStart, start),
      unless a StopTransaction in that range carries it. */
  function BackwardOpenTid(rows: seq<LogRow>, backwardStart: nat, start: nat, taken: set<string>): (t: Option<string>)
    requires start <= |rows|
    ensures FreshFrom(rows, backwardStart, start, taken, t)
    ensures forall k :: IsLastIn(rows, backwardStart, start, AnyUsable(taken), k) ==>
      t == if exists j :: backwardStart <= j < start && IsStopFor(rows[j], rows[k].transactionId.value)
           then None else rows[k].transactionId
    ensures (forall k :: backwardStart <= k < start ==> !Usable(rows[k], taken)) ==> t.None?
  {
    var candidate := LastIn(rows, backwardStart, start, AnyUsable(taken));
    if candidate.Some? then
      var tid := rows[candidate.value].transactionId.value;
      if FirstIn(rows, backwardStart, start, StopFor(tid)).None? then Some(tid) else None
    else None
  }

  /** Backward tiers over [backwardStart, start), each taking the LAST match and each
      consulted only when the earlier ones gave no non-empty id. */
  function BackwardTid(rows: seq<LogRow>, backwardStart: nat, start: nat, conn: Option<string>, taken: set<string>): (t: Option<string>)
    requires start <= |rows|
    ensures FreshFrom(rows, backwardStart, start, taken, t)
    ensures Truthy(BackwardResponseTid(rows, backwardStart, start, conn, taken)) ==>
      t == BackwardResponseTid(rows, backwardStart, start, conn, taken)
    ensures !Truthy(BackwardResponseTid(rows, backwardStart, start, conn, taken)) &&
            Truthy(BackwardRequestTid(rows, backwardStart, start, conn, taken)) ==>
      t == BackwardRequestTid(rows, backwardStart, start, conn, taken)
    ensures !Truthy(BackwardResponseTid(rows, backwardStart, start, conn, taken)) &&
            !Truthy(BackwardRequestTid(rows, backwardStart, start, conn, taken)) ==>
      t == BackwardOpenTid(rows, backwardStart, start, taken)
  {
    OrElse(BackwardResponseTid(rows, backwardStart, start, conn, taken),
           OrElse(BackwardRequestTid(rows, backwardStart, start, conn, taken),
                  BackwardOpenTid(rows, backwardStart, start, taken)))
  }

  /** The start of the expanded range: 500 rows back, clipped at the first row. */
  function ExpandedStart(start: nat): (lo: nat)
    ensures lo <= start && lo + 500 >= start
    ensures start >= 500 ==> lo + 500 == start
  {
    if start >= 500 then start - 500 else 0
  }

  /** The expanded tier, tried only for a session that reached Charging and has a
      connector: the id on the last usable row on that connector among the 500 rows
      before the start. */
  function ExpandedTid(rows: seq<LogRow>, start: nat, conn: Option<string>, charging: bool, taken: set<string>): (t: Option<string>)
    requires start <= |rows|
    ensures FreshFrom(rows, start - 500, start, taken, t)
    ensures !(charging && Truthy(conn)) ==> t.None?
    ensures charging && Truthy(conn) ==>
      (forall k :: IsLastIn(rows, ExpandedStart(start), start, UsableOn(conn.value, taken), k) ==> t == rows[k].transactionId) &&
      ((forall k :: ExpandedStart(start) <= k < start ==> !UsableOn(conn.value, taken)(rows[k])) ==> t.None?)
  {
    if charging && Truthy(conn) then LastTid(rows, ExpandedStart(start), start, UsableOn(conn.value, taken))
    else None
  }

  /** The id a session is given: the forward tiers, else the backward tiers, else the
      expanded tier, the first to produce a non-empty id; none when all fail. It is
      never one already taken, and it is carried by a row between 500 rows before
      the start and the end of the forward range. */
  function AssignedTid(rows: seq<LogRow>, start: nat, forwardEnd: nat, backwardStart: nat,
                       conn: Option<string>, charging: bool, taken: set<string>): (t: Option<string>)
    requires start <= forwardEnd <= |rows|
    requires backwardStart + 500 >= start
    ensures t.Some? ==> t.value != "" && t.value !in taken
    ensures t.Some? ==> exists k :: 0 <= k && start <= k + 500 && k < forwardEnd && rows[k].transactionId == t
    ensures Truthy(ForwardTid(rows, start, forwardEnd, conn, taken)) ==> t == ForwardTid(rows, start, forwardEnd, conn, taken)
    ensures !Truthy(ForwardTid(rows, start, forwardEnd, conn, taken)) &&
            Truthy(BackwardTid(rows, backwardStart, start, conn, taken)) ==>
      t == BackwardTid(rows, backwardStart, start, conn, taken)
    ensures !Truthy(ForwardTid(rows, start, forwardEnd, conn, taken)) &&
            !Truthy(BackwardTid(rows, backwardStart, start, conn, taken)) &&
            Truthy(ExpandedTid(rows, start, conn, charging, taken)) ==>
      t == ExpandedTid(rows, start, conn, charging, taken)
    ensures !Truthy(ForwardTid(rows, start, forwardEnd, conn, taken)) &&
            !Truthy(BackwardTid(rows, backwardStart, start, conn, taken)) &&
            !Truthy(ExpandedTid(rows, start, conn, charging, taken)) ==>
      t.None?
  {
    var found := OrElse(ForwardTid(rows, start, forwardEnd, conn, taken),
                 OrElse(BackwardTid(rows, backwardStart, start, conn, taken),
                        ExpandedTid(rows, start, conn, charging, taken)));
    if Truthy(found) then found else None
  }

  /** The forward StartTransactionRequest tier wins whenever it finds a non-empty id. */
  lemma ForwardRequestFirst(rows: seq<LogRow>, start: nat, forwardEnd: nat, backwardStart: nat,
                            conn: Option<string>, charging: bool, taken: set<string>, k: nat)
    requires start <= k < forwardEnd <= |rows|
    requires backwardStart + 500 >= start
    requires rows[k].command == "StartTransactionRequest" && Usable(rows[k], taken) && rows[k].transactionId.value != ""
    requires !Truthy(conn) || OnConnector(rows[k], conn.value)
    requires forall j :: start <= j < k ==>
               !(rows[j].command == "StartTransactionRequest" && Usable(rows[j], taken) && (!Truthy(conn) || OnConnector(rows[j], conn.value)))
    ensures AssignedTid(rows, start, forwardEnd, backwardStart, conn, charging, taken) == rows[k].transactionId
  {
    assert IsFirstIn(rows, start, forwardEnd, StartRequestOn(conn, taken), k);
  }
}
