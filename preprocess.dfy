/** The row preparation of `final_process`, from the extracted fields to the two
    per-connector frames: connector fill by transaction, status relabelling,
    reversal, the Preparing/Authorize connector fill, dropping of noise commands
    and the partition by connector. */
module Preprocess {
  import opened Wrappers
  import opened LogRows
  import Seqs

  // ---------------------------------------------------------------------------
  // Connector fill by transactionId

  /** A row of transaction `tid` that has a connector. */
  predicate CarriesConnector(r: LogRow, tid: string) {
    r.transactionId == Some(tid) && r.connectorId.Some?
  }

  /** `rows_with_connector["connectorId"].iloc[0]`: the connector of the first row of
      transaction `tid` that has one. */
  function FirstConnectorFor(rows: seq<LogRow>, tid: string): (c: Option<string>)
    ensures c.Some? ==> exists k :: 0 <= k < |rows| && CarriesConnector(rows[k], tid) && rows[k].connectorId == c &&
                                   forall j :: 0 <= j < k ==> !CarriesConnector(rows[j], tid)
    ensures c.None? <==> forall k :: 0 <= k < |rows| ==> !CarriesConnector(rows[k], tid)
  {
    var i := FirstIn(rows, 0, |rows|, (r: LogRow) => CarriesConnector(r, tid));
    if i.Some? then rows[i.value].connectorId else None
  }

  /** A row missing its connector takes the one its transaction shows elsewhere. */
  function FillFromTransaction(rows: seq<LogRow>, r: LogRow): LogRow {
    if r.connectorId.None? && r.transactionId.Some? && FirstConnectorFor(rows, r.transactionId.value).Some? then
      r.(connectorId := FirstConnectorFor(rows, r.transactionId.value))
    else r
  }

  /** The frame after the loop over the transactions: a row missing its connector
      takes the first connector its transaction shows, and nothing else changes. */
  function ConnectorsFilled(rows: seq<LogRow>): (r: seq<LogRow>)
    ensures |r| == |rows|
    ensures forall k :: 0 <= k < |rows| ==> r[k] == rows[k].(connectorId := r[k].connectorId)
    ensures forall k :: 0 <= k < |rows| && rows[k].connectorId.Some? ==> r[k] == rows[k]
    ensures forall k :: 0 <= k < |rows| && rows[k].connectorId.None? && rows[k].transactionId.Some? ==>
              r[k].connectorId == FirstConnectorFor(rows, rows[k].transactionId.value)
    ensures forall k :: 0 <= k < |rows| && r[k].connectorId != rows[k].connectorId ==>
              exists j :: 0 <= j < |rows| && rows[j].transactionId == rows[k].transactionId && rows[j].connectorId == r[k].connectorId
  {
    seq(|rows|, k requires 0 <= k < |rows| => FillFromTransaction(rows, rows[k]))
  }

  /** Filling twice changes nothing more: a filled row's transaction already had that connector. */
  lemma ConnectorsFilledIdempotent(rows: seq<LogRow>)
    ensures ConnectorsFilled(ConnectorsFilled(rows)) == ConnectorsFilled(rows)
  {
    var once := ConnectorsFilled(rows);
    forall k | 0 <= k < |once| ensures FillFromTransaction(once, once[k]) == once[k] {
      if once[k].connectorId.None? && once[k].transactionId.Some? {
        var t := once[k].transactionId.value;
        assert rows[k].connectorId.None? && FirstConnectorFor(rows, t).None?;
        forall j | 0 <= j < |once| ensures !CarriesConnector(once[j], t) {
          assert once[j] == FillFromTransaction(rows, rows[j]);
        }
      }
    }
  }

  /** The loop over the distinct transactionIds, writing the missing connectors in place. */
  method FillConnectorsByTransaction(a: array<LogRow>)
    modifies a
    ensures a[..] == ConnectorsFilled(old(a[..]))
  {
    var orig := a[..];
    for i := 0 to a.Length
      invariant a[..] == FilledUpTo(orig, i)
    {
      var r := a[i];
      if r.connectorId.None? && r.transactionId.Some? {
        var c := FirstConnectorFor(orig, r.transactionId.value);
        if c.Some? {
          a[i] := r.(connectorId := c);
        }
      }
    }
    FilledPointwise(orig, a[..]);
  }

  /** The frame once the first `i` rows are filled from their transactions. */
  function FilledUpTo(rows: seq<LogRow>, i: nat): (r: seq<LogRow>)
    requires i <= |rows|
    ensures |r| == |rows|
  {
    seq(|rows|, k requires 0 <= k < |rows| => if k < i then FillFromTransaction(rows, rows[k]) else rows[k])
  }

  /** A frame whose every row is that row filled from its transaction is the filled frame. */
  lemma FilledPointwise(rows: seq<LogRow>, s: seq<LogRow>)
    requires |s| == |rows| && forall k :: 0 <= k < |rows| ==> s[k] == FillFromTransaction(rows, rows[k])
    ensures s == ConnectorsFilled(rows)
  {
  }

  // ---------------------------------------------------------------------------
  // Status relabelling by message Id

  /** The Ids of the `command` rows whose status is "Accepted". */
  function AcceptedIds(rows: seq<LogRow>, command: string): (ids: set<string>)
    ensures forall id :: id in ids <==> exists k :: 0 <= k < |rows| && rows[k].command == command && HasStatus(rows[k], "Accepted") && rows[k].id == id
  {
    set k | 0 <= k < |rows| && rows[k].command == command && HasStatus(rows[k], "Accepted") :: rows[k].id
  }

  /** Every row whose Id is in `ids` gets status "Accepted". */
  function MarkAccepted(rows: seq<LogRow>, ids: set<string>): (r: seq<LogRow>)
    ensures |r| == |rows|
    ensures forall k :: 0 <= k < |rows| ==> r[k] == (if rows[k].id in ids then rows[k].(status := Some("Accepted")) else rows[k])
  {
    seq(|rows|, k requires 0 <= k < |rows| => if rows[k].id in ids then rows[k].(status := Some("Accepted")) else rows[k])
  }

  /** `df[~df['Id'].isin(ids)]`: the rows whose Id is not in `ids`, in order and with
      every copy kept. */
  function DropIds(rows: seq<LogRow>, ids: set<string>): (r: seq<LogRow>)
    ensures |r| <= |rows|
    ensures forall x :: x in r <==> x in rows && x.id !in ids
    ensures forall x :: multiset(r)[x] == if x.id !in ids then multiset(rows)[x] else 0
    ensures Seqs.IsSubseq(r, rows)
  {
    Seqs.Filter(rows, (x: LogRow) => x.id !in ids)
  }

  /** An accepted StartTransactionRequest is relabelled "meterStart". */
  function MarkMeterStart(rows: seq<LogRow>): (r: seq<LogRow>)
    ensures |r| == |rows|
    ensures forall k :: 0 <= k < |rows| ==>
              r[k] == (if rows[k].command == "StartTransactionRequest" && HasStatus(rows[k], "Accepted")
                       then rows[k].(status := Some("meterStart")) else rows[k])
  {
    seq(|rows|, k requires 0 <= k < |rows| =>
      if rows[k].command == "StartTransactionRequest" && HasStatus(rows[k], "Accepted")
      then rows[k].(status := Some("meterStart")) else rows[k])
  }

  /** Invalid authorisations are dropped (request and response share the Id), then
      the request rows of accepted StartTransaction, RemoteStartTransaction and
      Authorize exchanges take the status "Accepted", an accepted StartTransaction
      request becoming "meterStart". */
  function AcceptanceRelabelled(rows: seq<LogRow>): seq<LogRow> {
    RelabelKept(DropIds(rows, InvalidIds(rows)))
  }

  /** The four relabelling steps on the rows that survive the drop. */
  function RelabelKept(r0: seq<LogRow>): seq<LogRow> {
    var r1 := MarkAccepted(r0, AcceptedIds(r0, "StartTransactionResponse"));
    var r2 := MarkAccepted(r1, AcceptedIds(r1, "RemoteStartTransactionResponse"));
    var r3 := MarkMeterStart(r2);
    MarkAccepted(r3, AcceptedIds(r3, "AuthorizeResponse"))
  }

  /** The Ids of rejected authorisations. */
  function InvalidIds(rows: seq<LogRow>): (ids: set<string>)
    ensures forall id :: id in ids <==> exists k :: 0 <= k < |rows| && rows[k].command == "AuthorizeResponse" && HasStatus(rows[k], "Invalid") && rows[k].id == id
  {
    set k | 0 <= k < |rows| && rows[k].command == "AuthorizeResponse" && HasStatus(rows[k], "Invalid") :: rows[k].id
  }

  /** The row Ids the early steps accept: those of an "Accepted" StartTransaction or
      RemoteStartTransaction response. */
  function EarlyIds(r0: seq<LogRow>): set<string> {
    AcceptedIds(r0, "StartTransactionResponse") + AcceptedIds(r0, "RemoteStartTransactionResponse")
  }

  /** The status a row of the kept frame `r0` ends with, stated on `r0` alone. An Id
      is accepted early when a StartTransaction or RemoteStartTransaction response
      with that Id was "Accepted", and late when an Authorize response with that Id
      was "Accepted", or was given "Accepted" by the early step. A late Id ends
      "Accepted"; an early one ends "meterStart" on a StartTransactionRequest and
      "Accepted" elsewhere; an accepted StartTransactionRequest with neither ends
      "meterStart"; every other row keeps its status. */
  function AcceptanceStatus(r0: seq<LogRow>, x: LogRow): Option<string> {
    var early := x.id in EarlyIds(r0);
    var late := x.id in AcceptedIds(r0, "AuthorizeResponse") ||
                (early && exists k :: 0 <= k < |r0| && r0[k].command == "AuthorizeResponse" && r0[k].id == x.id);
    if late then Some("Accepted")
    else if early then (if x.command == "StartTransactionRequest" then Some("meterStart") else Some("Accepted"))
    else if x.command == "StartTransactionRequest" && HasStatus(x, "Accepted") then Some("meterStart")
    else x.status
  }

  /** The two early steps together mark exactly the early Ids: a RemoteStartTransaction
      response the first step accepted only adds an Id the first step already marked. */
  lemma EarlyAccepted(r0: seq<LogRow>)
    ensures var r1 := MarkAccepted(r0, AcceptedIds(r0, "StartTransactionResponse"));
            var r2 := MarkAccepted(r1, AcceptedIds(r1, "RemoteStartTransactionResponse"));
            r2 == MarkAccepted(r0, EarlyIds(r0))
  {
    var a1 := AcceptedIds(r0, "StartTransactionResponse");
    var r1 := MarkAccepted(r0, a1);
    var a2 := AcceptedIds(r1, "RemoteStartTransactionResponse");
    var b2 := AcceptedIds(r0, "RemoteStartTransactionResponse");
    forall id | id in a2 ensures id in a1 + b2 {
      var k :| 0 <= k < |r1| && r1[k].command == "RemoteStartTransactionResponse" && HasStatus(r1[k], "Accepted") && r1[k].id == id;
      if r0[k].id !in a1 {
        assert r1[k] == r0[k];
      }
    }
    forall id | id in b2 ensures id in a1 + a2 {
      var k :| 0 <= k < |r0| && r0[k].command == "RemoteStartTransactionResponse" && HasStatus(r0[k], "Accepted") && r0[k].id == id;
      if id !in a1 {
        assert r1[k] == r0[k];
      }
    }
    assert a1 + a2 == a1 + b2;
  }

  /** Whether the last step accepts the Id of row `k`, stated on `r0`. */
  lemma LateAccepted(r0: seq<LogRow>, k: nat)
    requires k < |r0|
    ensures var r3 := MarkMeterStart(MarkAccepted(r0, EarlyIds(r0)));
            var id := r0[k].id;
            id in AcceptedIds(r3, "AuthorizeResponse") <==>
              id in AcceptedIds(r0, "AuthorizeResponse") ||
              (id in EarlyIds(r0) && exists j :: 0 <= j < |r0| && r0[j].command == "AuthorizeResponse" && r0[j].id == id)
  {
    LateAcceptedOnly(r0, r0[k].id);
    LateAcceptedAll(r0, r0[k].id);
  }

  /** An Id the last step accepts was accepted by an Authorize response, or was
      early and carried by one. */
  lemma LateAcceptedOnly(r0: seq<LogRow>, id: string)
    ensures var r3 := MarkMeterStart(MarkAccepted(r0, EarlyIds(r0)));
            id in AcceptedIds(r3, "AuthorizeResponse") ==>
              id in AcceptedIds(r0, "AuthorizeResponse") ||
              (id in EarlyIds(r0) && exists j :: 0 <= j < |r0| && r0[j].command == "AuthorizeResponse" && r0[j].id == id)
  {
    var r2 := MarkAccepted(r0, EarlyIds(r0));
    var r3 := MarkMeterStart(r2);
    if id in AcceptedIds(r3, "AuthorizeResponse") {
      var j :| 0 <= j < |r3| && r3[j].command == "AuthorizeResponse" && HasStatus(r3[j], "Accepted") && r3[j].id == id;
      assert r3[j] == r2[j];
      if id !in EarlyIds(r0) {
        assert r2[j] == r0[j];
      }
    }
  }

  /** Conversely, such an Id is accepted by the last step. */
  lemma LateAcceptedAll(r0: seq<LogRow>, id: string)
    ensures var r3 := MarkMeterStart(MarkAccepted(r0, EarlyIds(r0)));
            id in AcceptedIds(r0, "AuthorizeResponse") ||
            (id in EarlyIds(r0) && exists j :: 0 <= j < |r0| && r0[j].command == "AuthorizeResponse" && r0[j].id == id) ==>
              id in AcceptedIds(r3, "AuthorizeResponse")
  {
    var r2 := MarkAccepted(r0, EarlyIds(r0));
    var r3 := MarkMeterStart(r2);
    if id in AcceptedIds(r0, "AuthorizeResponse") {
      var j :| 0 <= j < |r0| && r0[j].command == "AuthorizeResponse" && HasStatus(r0[j], "Accepted") && r0[j].id == id;
      assert r3[j] == r2[j];
      assert r3[j].command == "AuthorizeResponse" && HasStatus(r3[j], "Accepted") && r3[j].id == id;
    } else if id in EarlyIds(r0) && exists j :: 0 <= j < |r0| && r0[j].command == "AuthorizeResponse" && r0[j].id == id {
      var j :| 0 <= j < |r0| && r0[j].command == "AuthorizeResponse" && r0[j].id == id;
      assert r2[j] == r0[j].(status := Some("Accepted"));
      assert r3[j] == r2[j];
      assert r3[j].command == "AuthorizeResponse" && HasStatus(r3[j], "Accepted") && r3[j].id == id;
    }
  }

  /** The relabelling of the kept rows changes each row only in its status, which
      becomes its `AcceptanceStatus`. */
  lemma RelabelKeptStatus(r0: seq<LogRow>)
    ensures var r := RelabelKept(r0);
            |r| == |r0| && forall k :: 0 <= k < |r0| ==> r[k] == r0[k].(status := AcceptanceStatus(r0, r0[k]))
  {
    var early := EarlyIds(r0);
    var r2 := MarkAccepted(r0, early);
    var r3 := MarkMeterStart(r2);
    var a3 := AcceptedIds(r3, "AuthorizeResponse");
    EarlyAccepted(r0);
    assert RelabelKept(r0) == MarkAccepted(r3, a3);
    forall k | 0 <= k < |r0| ensures MarkAccepted(r3, a3)[k] == r0[k].(status := AcceptanceStatus(r0, r0[k])) {
      RelabelKeptAt(r0, k);
    }
  }

  lemma RelabelKeptAt(r0: seq<LogRow>, k: nat)
    requires k < |r0|
    ensures var early := EarlyIds(r0);
            var r3 := MarkMeterStart(MarkAccepted(r0, early));
            MarkAccepted(r3, AcceptedIds(r3, "AuthorizeResponse"))[k] == r0[k].(status := AcceptanceStatus(r0, r0[k]))
  {
    var early := EarlyIds(r0);
    var r2 := MarkAccepted(r0, early);
    var r3 := MarkMeterStart(r2);
    var x := r0[k];
    assert r2[k] == if x.id in early then x.(status := Some("Accepted")) else x;
    LateAccepted(r0, k);
  }

  /** The relabelling, stated on the kept rows: Invalid authorisations are dropped
      with every row sharing their Id, the rest keep their order, and each kept row
      changes only in its status, which becomes its `AcceptanceStatus`. */
  lemma AcceptanceRelabelledStatus(rows: seq<LogRow>)
    ensures var r0 := DropIds(rows, InvalidIds(rows));
            var r := AcceptanceRelabelled(rows);
            |r| == |r0| &&
            forall k :: 0 <= k < |r0| ==> r[k] == r0[k].(status := AcceptanceStatus(r0, r0[k]))
  {
    RelabelKeptStatus(DropIds(rows, InvalidIds(rows)));
  }

  /** The relabelling never turns a StartTransactionResponse into "meterStart": only
      requests are relabelled so, and responses can only become "Accepted". */
  lemma {:induction false} ResponsesNeverMeterStart(rows: seq<LogRow>)
    requires forall k :: 0 <= k < |rows| ==> !(rows[k].command == "StartTransactionResponse" && HasStatus(rows[k], "meterStart"))
    ensures var r := AcceptanceRelabelled(rows);
            forall k :: 0 <= k < |r| ==> !(r[k].command == "StartTransactionResponse" && HasStatus(r[k], "meterStart"))
  {
    var r0 := DropIds(rows, InvalidIds(rows));
    var r := AcceptanceRelabelled(rows);
    AcceptanceRelabelledStatus(rows);
    forall k | 0 <= k < |r| ensures !(r[k].command == "StartTransactionResponse" && HasStatus(r[k], "meterStart")) {
      assert r[k] == r0[k].(status := AcceptanceStatus(r0, r0[k]));
      assert r0[k] in rows;
      ResponseStatus(r0, r0[k]);
    }
  }

  /** A StartTransactionResponse either becomes "Accepted" or keeps its status. */
  lemma ResponseStatus(r0: seq<LogRow>, x: LogRow)
    ensures x.command == "StartTransactionResponse" ==>
              AcceptanceStatus(r0, x) == Some("Accepted") || AcceptanceStatus(r0, x) == x.status
  {
  }

  // ---------------------------------------------------------------------------
  // Reversal

  /** `sort_values(by='S.No', ascending=False)`: the frame read bottom-up. */
  function Reversed(rows: seq<LogRow>): (r: seq<LogRow>)
    ensures |r| == |rows| && forall k :: 0 <= k < |rows| ==> r[k] == rows[|rows| - 1 - k]
  {
    seq(|rows|, k requires 0 <= k < |rows| => rows[|rows| - 1 - k])
  }

  // ---------------------------------------------------------------------------
  // The Preparing / Authorize connector fill

  predicate IsAcceptedAuthorize(r: LogRow) {
    r.command == "AuthorizeRequest" && HasStatus(r, "Accepted")
  }

  predicate IsPreparing(r: LogRow) {
    r.command == "StatusNotificationRequest" && HasStatus(r, "Preparing")
  }

  /** `df.iloc[i]['connectorId'] == c`: NaN equals nothing. */
  predicate SameConnector(r: LogRow, c: Option<string>) {
    r.connectorId.Some? && r.connectorId == c
  }

  /** The tag-to-row map only points at accepted Authorize rows in [lo, j). */
  predicate TagsValid(rows: seq<LogRow>, d: map<Option<string>, nat>, lo: nat, j: nat) {
    forall t :: t in d ==> lo <= d[t] < j && d[t] < |rows| && IsAcceptedAuthorize(rows[d[t]])
  }

  /** The inner `while True` scan from row `j`, with the accepted Authorize rows seen so
      far by idTag: the Authorize row to stamp with connector `c`, found when a
      StartTransaction (relabelled "meterStart") on `c` presents a seen tag; the scan
      ends empty-handed at an Available or Finishing row on `c` or at the end. */
  function Scan(rows: seq<LogRow>, j: nat, c: Option<string>, d: map<Option<string>, nat>, ghost lo: nat): (r: Option<nat>)
    requires lo <= j && TagsValid(rows, d, lo, j)
    ensures r.Some? ==> lo <= r.value < |rows| && IsAcceptedAuthorize(rows[r.value]) && c.Some?
    decreases |rows| - j
  {
    if j >= |rows| then None
    else
      var r := rows[j];
      var d' := if IsAcceptedAuthorize(r) then d[r.idTag := j] else d;
      if r.command == "StartTransactionRequest" && HasStatus(r, "meterStart") && SameConnector(r, c) && r.idTag in d' then
        Some(d'[r.idTag])
      else if (HasStatus(r, "Available") || HasStatus(r, "Finishing")) && SameConnector(r, c) then None
      else Scan(rows, j + 1, c, d', lo)
  }

  /** The Authorize row the Preparing row `i` stamps, if any. */
  function Target(rows: seq<LogRow>, i: nat): (r: Option<nat>)
    requires i < |rows|
    ensures r.Some? ==> i < r.value < |rows| && IsAcceptedAuthorize(rows[r.value]) && rows[i].connectorId.Some?
  {
    if IsPreparing(rows[i]) then Scan(rows, i + 1, rows[i].connectorId, map[], i + 1) else None
  }

  /** The rows after the outer loop has visited the first `n` rows. */
  function AuthorizeFilled(rows: seq<LogRow>, n: nat): (r: seq<LogRow>)
    requires n <= |rows|
    ensures |r| == |rows|
  {
    if n == 0 then rows
    else
      var prev := AuthorizeFilled(rows, n - 1);
      match Target(rows, n - 1)
      case None => prev
      case Some(t) => prev[t := prev[t].(connectorId := rows[n - 1].connectorId)]
  }

  /** The rows the in-place updates leave alone in every field the scan reads. */
  predicate Agrees(cur: seq<LogRow>, orig: seq<LogRow>) {
    |cur| == |orig| &&
    forall k :: 0 <= k < |orig| ==>
      cur[k] == orig[k].(connectorId := cur[k].connectorId) &&
      (!IsAcceptedAuthorize(orig[k]) ==> cur[k] == orig[k])
  }

  /** The fill only ever changes the connector of row `k`, and only when it is an
      accepted Authorize row. */
  lemma {:induction false} AuthorizeFilledKeeps(rows: seq<LogRow>, n: nat, k: nat)
    requires n <= |rows| && k < |rows|
    ensures AuthorizeFilled(rows, n)[k] == rows[k].(connectorId := AuthorizeFilled(rows, n)[k].connectorId)
    ensures !IsAcceptedAuthorize(rows[k]) ==> AuthorizeFilled(rows, n)[k] == rows[k]
  {
    if n > 0 {
      AuthorizeFilledKeeps(rows, n - 1, k);
      var prev, cur := AuthorizeFilled(rows, n - 1), AuthorizeFilled(rows, n);
      match Target(rows, n - 1)
      case None =>
      case Some(t) =>
        if k != t {
          assert cur[k] == prev[k];
        } else {
          assert IsAcceptedAuthorize(rows[k]);
          assert cur[k] == prev[k].(connectorId := rows[n - 1].connectorId);
        }
    }
  }

  /** The fill only ever changes the connector of accepted Authorize rows. */
  lemma AuthorizeFilledAgrees(rows: seq<LogRow>, n: nat)
    requires n <= |rows|
    ensures Agrees(AuthorizeFilled(rows, n), rows)
  {
    forall k | 0 <= k < |rows|
      ensures AuthorizeFilled(rows, n)[k] == rows[k].(connectorId := AuthorizeFilled(rows, n)[k].connectorId)
      ensures !IsAcceptedAuthorize(rows[k]) ==> AuthorizeFilled(rows, n)[k] == rows[k]
    {
      AuthorizeFilledKeeps(rows, n, k);
    }
  }

  /** The last of the first `n` rows whose scan stamps row `k`, if any. */
  function LastStamper(rows: seq<LogRow>, n: nat, k: nat): (i: Option<nat>)
    requires n <= |rows|
    ensures i.Some? ==> i.value < n && Target(rows, i.value) == Some(k)
  {
    if n == 0 then None
    else if Target(rows, n - 1) == Some(k) then Some(n - 1)
    else LastStamper(rows, n - 1, k)
  }

  /** Row `k` ends with the connector of the last Preparing row that stamped it, and
      keeps its own when none did. */
  lemma {:induction false} AuthorizeFilledStamp(rows: seq<LogRow>, n: nat, k: nat)
    requires n <= |rows| && k < |rows|
    ensures LastStamper(rows, n, k).None? ==> AuthorizeFilled(rows, n)[k] == rows[k]
    ensures LastStamper(rows, n, k).Some? ==>
              AuthorizeFilled(rows, n)[k].connectorId == rows[LastStamper(rows, n, k).value].connectorId
  {
    if n > 0 {
      AuthorizeFilledAt(rows, n, k);
      if Target(rows, n - 1) != Some(k) {
        AuthorizeFilledStamp(rows, n - 1, k);
      }
    }
  }

  /** Row `k` after `n` steps: the step `n - 1` stamps it or leaves it as it was. */
  lemma AuthorizeFilledAt(rows: seq<LogRow>, n: nat, k: nat)
    requires 0 < n <= |rows| && k < |rows|
    ensures AuthorizeFilled(rows, n)[k] ==
              if Target(rows, n - 1) == Some(k) then AuthorizeFilled(rows, n - 1)[k].(connectorId := rows[n - 1].connectorId)
              else AuthorizeFilled(rows, n - 1)[k]
  {
  }

  /** One step of the inner scan, read from the current array: the same decision as on the original rows. */
  method ScanStep(a: array<LogRow>, j: nat, c: Option<string>, d: map<Option<string>, nat>, ghost orig: seq<LogRow>, ghost lo: nat)
    returns (d': map<Option<string>, nat>, found: Option<nat>, stop: bool)
    requires lo <= j < a.Length && Agrees(a[..], orig) && TagsValid(orig, d, lo, j)
    ensures TagsValid(orig, d', lo, j + 1)
    ensures found.Some? ==> stop
    ensures stop ==> Scan(orig, j, c, d, lo) == found
    ensures !stop ==> Scan(orig, j, c, d, lo) == Scan(orig, j + 1, c, d', lo)
  {
    var r := a[j];
    assert r == orig[j].(connectorId := r.connectorId);
    d' := d;
    if r.command == "AuthorizeRequest" && r.status == Some("Accepted") {
      d' := d[r.idTag := j];
    }
    found, stop := None, false;
    if r.command == "StartTransactionRequest" && r.status == Some("meterStart") && r.connectorId.Some? && r.connectorId == c {
      if r.idTag in d' {
        found, stop := Some(d'[r.idTag]), true;
      }
    }
    if !stop && (r.status == Some("Available") || r.status == Some("Finishing")) && r.connectorId.Some? && r.connectorId == c {
      stop := true;
    }
  }

  /** The `while True` scan after the Preparing row `i`, reading the current array. */
  method FindTarget(a: array<LogRow>, i: nat, ghost orig: seq<LogRow>) returns (target: Option<nat>)
    requires i < a.Length && Agrees(a[..], orig) && IsPreparing(orig[i])
    ensures target == Target(orig, i)
  {
    var d: map<Option<string>, nat> := map[];
    var c := a[i].connectorId;
    assert c == orig[i].connectorId;
    var j := i + 1;
    target := None;
    while j < a.Length
      invariant i + 1 <= j <= a.Length
      invariant TagsValid(orig, d, i + 1, j)
      invariant Scan(orig, j, c, d, i + 1) == Target(orig, i)
      decreases a.Length - j
    {
      var d', found, stop := ScanStep(a, j, c, d, orig, i + 1);
      if stop {
        return found;
      }
      d, j := d', j + 1;
    }
  }

  /** The outer loop over the rows and its `while True` scan, stamping the connector
      of each Preparing row onto the Authorize row whose tag starts its transaction. */
  method FillAuthorizeConnectors(a: array<LogRow>)
    modifies a
    ensures a[..] == AuthorizeFilled(old(a[..]), a.Length)
  {
    ghost var orig := a[..];
    for i := 0 to a.Length
      invariant a[..] == AuthorizeFilled(orig, i)
    {
      var x := a[i];
      AuthorizeFilledAgrees(orig, i);
      if x.command == "StatusNotificationRequest" && x.status == Some("Preparing") {
        assert x == orig[i];
        var target := FindTarget(a, i, orig);
        if target.Some? {
          a[target.value] := a[target.value].(connectorId := x.connectorId);
        }
      } else {
        assert !IsPreparing(orig[i]);
      }
    }
  }

  // ---------------------------------------------------------------------------
  // Transaction id mapping, RemoteStop acceptance and dropped commands

  /** Row `k` is selected and no later selected row shares its Id. */
  predicate LastSelected(rows: seq<LogRow>, sel: LogRow -> bool, k: int) {
    0 <= k < |rows| && sel(rows[k]) && forall j :: k < j < |rows| && sel(rows[j]) ==> rows[j].id != rows[k].id
  }

  /** `df.loc[mask, ['Id', col]].set_index('Id')[col].to_dict()`: every Id of a
      selected row, mapped to the column value of the last selected row with that
      Id, since `to_dict` lets a later row overwrite an earlier one. */
  function IdMap(rows: seq<LogRow>, sel: LogRow -> bool, col: LogRow -> Option<string>): (m: map<string, Option<string>>)
    ensures forall id :: id in m <==> exists k :: 0 <= k < |rows| && sel(rows[k]) && rows[k].id == id
  {
    if rows == [] then map[]
    else
      var init, r := rows[..|rows| - 1], rows[|rows| - 1];
      var m := IdMap(init, sel, col);
      assert forall k :: 0 <= k < |init| ==> init[k] == rows[k];
      if sel(r) then m[r.id := col(r)] else m
  }

  /** The last selected row with an Id decides that Id's entry, and every entry has one. */
  lemma IdMapLast(rows: seq<LogRow>, sel: LogRow -> bool, col: LogRow -> Option<string>)
    ensures forall k :: LastSelected(rows, sel, k) ==> rows[k].id in IdMap(rows, sel, col) && IdMap(rows, sel, col)[rows[k].id] == col(rows[k])
    ensures forall id :: id in IdMap(rows, sel, col) ==> exists k :: LastSelected(rows, sel, k) && rows[k].id == id
  {
    forall k | LastSelected(rows, sel, k) ensures rows[k].id in IdMap(rows, sel, col) && IdMap(rows, sel, col)[rows[k].id] == col(rows[k]) {
      IdMapLastWins(rows, sel, col, k);
    }
    forall id | id in IdMap(rows, sel, col) ensures exists k :: LastSelected(rows, sel, k) && rows[k].id == id {
      IdMapEntryFromLast(rows, sel, col, id);
    }
  }

  lemma {:induction false} IdMapLastWins(rows: seq<LogRow>, sel: LogRow -> bool, col: LogRow -> Option<string>, k: int)
    requires LastSelected(rows, sel, k)
    ensures rows[k].id in IdMap(rows, sel, col) && IdMap(rows, sel, col)[rows[k].id] == col(rows[k])
    decreases |rows|
  {
    var init, r := rows[..|rows| - 1], rows[|rows| - 1];
    var m := IdMap(init, sel, col);
    assert IdMap(rows, sel, col) == if sel(r) then m[r.id := col(r)] else m;
    if k < |init| {
      assert LastSelected(init, sel, k);
      IdMapLastWins(init, sel, col, k);
    }
  }

  lemma {:induction false} IdMapEntryFromLast(rows: seq<LogRow>, sel: LogRow -> bool, col: LogRow -> Option<string>, id: string)
    requires id in IdMap(rows, sel, col)
    ensures exists k :: LastSelected(rows, sel, k) && rows[k].id == id
    decreases |rows|
  {
    if rows == [] {
      assert false;
    }
    var init, r := rows[..|rows| - 1], rows[|rows| - 1];
    var m := IdMap(init, sel, col);
    assert IdMap(rows, sel, col) == if sel(r) then m[r.id := col(r)] else m;
    if sel(r) && id == r.id {
      assert LastSelected(rows, sel, |rows| - 1);
    } else {
      assert id in m;
      IdMapEntryFromLast(init, sel, col, id);
      var k :| LastSelected(init, sel, k) && init[k].id == id;
      assert rows[k] == init[k];
      forall j | k < j < |rows| && sel(rows[j]) ensures rows[j].id != id {
        if j < |init| {
          assert rows[j] == init[j];
        }
      }
    }
  }

  predicate IsMeterStartResponse(r: LogRow) {
    r.command == "StartTransactionResponse" && HasStatus(r, "meterStart")
  }

  function TidOf(r: LogRow): Option<string> { r.transactionId }

  /** `df["Id"].map(tid_mapping).fillna(df["transactionId"])`: a row whose Id was last
      seen on a StartTransactionResponse labelled "meterStart" with a transactionId
      takes that transactionId; every other row, and every other field, is unchanged. */
  function MapTids(rows: seq<LogRow>): (r: seq<LogRow>)
    ensures |r| == |rows|
    ensures forall k :: 0 <= k < |rows| ==> r[k] == rows[k].(transactionId := r[k].transactionId)
    ensures forall k, j ::
              0 <= k < |rows| && LastSelected(rows, IsMeterStartResponse, j) && rows[j].id == rows[k].id &&
              rows[j].transactionId.Some? ==>
                r[k].transactionId == rows[j].transactionId
    ensures forall k :: 0 <= k < |rows| && r[k] != rows[k] ==>
              exists j :: LastSelected(rows, IsMeterStartResponse, j) && rows[j].id == rows[k].id &&
                          rows[j].transactionId.Some? && r[k].transactionId == rows[j].transactionId
  {
    var m := IdMap(rows, IsMeterStartResponse, TidOf);
    IdMapLast(rows, IsMeterStartResponse, TidOf);
    seq(|rows|, k requires 0 <= k < |rows| =>
      if rows[k].id in m && m[rows[k].id].Some? then rows[k].(transactionId := m[rows[k].id]) else rows[k])
  }

  /** With no StartTransactionResponse labelled "meterStart" the mapping changes nothing. */
  lemma MapTidsIdentity(rows: seq<LogRow>)
    requires forall k :: 0 <= k < |rows| ==> !IsMeterStartResponse(rows[k])
    ensures MapTids(rows) == rows
  {
  }

  /** The mapping is dead code on real logs: the relabelling only labels requests
      "meterStart", so unless the log itself labels a StartTransactionResponse so,
      the frame reaching the mapping has no such row and passes through unchanged. */
  lemma MappingKeepsStamped(rows: seq<LogRow>)
    requires forall k :: 0 <= k < |rows| ==> !IsMeterStartResponse(rows[k])
    ensures MapTids(Stamped(rows)) == Stamped(rows)
  {
    var filled := ConnectorsFilled(rows);
    assert forall k :: 0 <= k < |filled| ==> !IsMeterStartResponse(filled[k]);
    ResponsesNeverMeterStart(filled);
    var relabelled := AcceptanceRelabelled(filled);
    var reversed := Reversed(relabelled);
    AuthorizeFilledAgrees(reversed, |relabelled|);
    var stamped := Stamped(rows);
    forall k | 0 <= k < |stamped| ensures !IsMeterStartResponse(stamped[k]) {
      assert stamped[k] == reversed[k].(connectorId := stamped[k].connectorId);
    }
    MapTidsIdentity(stamped);
  }

  const DroppedCommands: set<string> := {"RemoteStartTransactionResponse", "AuthorizeResponse",
    "RemoteStopTransactionResponse", "HeartbeatRequest", "HeartbeatResponse"}

  /** `df[~df['command'].isin([...])]`: the rows of every other command, in order and
      with every copy kept. */
  function DropCommands(rows: seq<LogRow>): (r: seq<LogRow>)
    ensures forall x :: x in r <==> x in rows && x.command !in DroppedCommands
    ensures forall x :: multiset(r)[x] == if x.command !in DroppedCommands then multiset(rows)[x] else 0
    ensures Seqs.IsSubseq(r, rows)
  {
    Seqs.Filter(rows, (x: LogRow) => x.command !in DroppedCommands)
  }

  // ---------------------------------------------------------------------------
  // The status relabel of `np.select`

  function StartLabel(m: StartMode): string {
    match m
    case AutoStart => "Auto-Start"
    case RfidStart => "RFID-Start"
    case RemoteStart => "REMOTE-Start"
  }

  /** The first matching condition decides the new status; none keeps the old one. */
  function RelabelledStatus(r: LogRow): Option<string> {
    if r.command == "StartTransactionRequest" then Some(StartLabel(StartModeOf(r.idTag.GetOr("nan"))))
    else if r.command == "RemoteStopTransactionRequest" && HasStatus(r, "Accepted") then Some("REMOTE-Stop")
    else if HasStatus(r, "Charging") && r.info == Some("100%SOC") then Some("FullCharge-Stop")
    else if r.mentionsMeterStop then Some("meterStop")
    else r.status
  }

  /** A StartTransaction row is labelled by the start-mode rule, which a missing tag
      sends to REMOTE-Start; other rows keep their status unless one of the later
      conditions holds. */
  lemma RelabelRule(r: LogRow)
    ensures r.command == "StartTransactionRequest" ==>
              RelabelledStatus(r) == Some(StartLabel(StartModeOf(r.idTag.GetOr("nan"))))
    ensures r.command == "StartTransactionRequest" && r.idTag.None? ==> RelabelledStatus(r) == Some("REMOTE-Start")
    ensures r.command != "StartTransactionRequest" && r.command != "RemoteStopTransactionRequest" &&
            !(HasStatus(r, "Charging") && r.info == Some("100%SOC")) && !r.mentionsMeterStop ==>
              RelabelledStatus(r) == r.status
  {
    MissingTagIsRemote();
  }

  function RelabelStatuses(rows: seq<LogRow>): (r: seq<LogRow>)
    ensures |r| == |rows|
    ensures forall k :: 0 <= k < |rows| ==> r[k] == rows[k].(status := RelabelledStatus(rows[k]))
  {
    seq(|rows|, k requires 0 <= k < |rows| => rows[k].(status := RelabelledStatus(rows[k])))
  }

  // ---------------------------------------------------------------------------
  // StartTransactionResponse connector and the partition

  predicate IsStartRequest(r: LogRow) { r.command == "StartTransactionRequest" }

  function ConnectorOfRow(r: LogRow): Option<string> { r.connectorId }

  /** A StartTransactionResponse takes the connector of the last StartTransactionRequest
      with its Id, keeping its own when there is none or that request has none; no
      other row and no other field changes. */
  function ResponseConnectors(rows: seq<LogRow>): (r: seq<LogRow>)
    ensures |r| == |rows|
    ensures forall k :: 0 <= k < |rows| ==> r[k] == rows[k].(connectorId := r[k].connectorId)
    ensures forall k :: 0 <= k < |rows| && rows[k].command != "StartTransactionResponse" ==> r[k] == rows[k]
    ensures forall k, j ::
              0 <= k < |rows| && rows[k].command == "StartTransactionResponse" &&
              LastSelected(rows, IsStartRequest, j) && rows[j].id == rows[k].id && rows[j].connectorId.Some? ==>
                r[k].connectorId == rows[j].connectorId
    ensures forall k :: 0 <= k < |rows| && r[k] != rows[k] ==>
              exists j :: LastSelected(rows, IsStartRequest, j) && rows[j].id == rows[k].id &&
                          rows[j].connectorId.Some? && r[k].connectorId == rows[j].connectorId
  {
    var m := IdMap(rows, IsStartRequest, ConnectorOfRow);
    IdMapLast(rows, IsStartRequest, ConnectorOfRow);
    seq(|rows|, k requires 0 <= k < |rows| =>
      if rows[k].command == "StartTransactionResponse" && rows[k].id in m && m[rows[k].id].Some?
      then rows[k].(connectorId := m[rows[k].id]) else rows[k])
  }

  /** The row belongs to the frame of connector `c`. */
  predicate InFrame(x: LogRow, c: string) {
    x.connectorId == Some(c) || x.connectorId == Some("0")
  }

  /** `df[df['connectorId'].isin([c, '0'])]`: the rows on `c` or on "0", in order and
      with every copy kept. */
  function ConnectorFrame(rows: seq<LogRow>, c: string): (r: seq<LogRow>)
    ensures |r| <= |rows|
    ensures forall x :: x in r <==> x in rows && InFrame(x, c)
    ensures forall x :: multiset(r)[x] == if InFrame(x, c) then multiset(rows)[x] else 0
    ensures Seqs.IsSubseq(r, rows)
  {
    Seqs.Filter(rows, (x: LogRow) => InFrame(x, c))
  }

  /** Unlike the current engine, a row without a connector reaches neither frame. */
  lemma MissingConnectorInNeither(rows: seq<LogRow>, x: LogRow)
    requires x.connectorId.None?
    ensures x !in ConnectorFrame(rows, "1") && x !in ConnectorFrame(rows, "2")
  {
  }

  // ---------------------------------------------------------------------------
  // The whole preparation

  /** The steps up to the Preparing / Authorize fill, on values. */
  function Stamped(rows: seq<LogRow>): seq<LogRow> {
    var relabelled := AcceptanceRelabelled(ConnectorsFilled(rows));
    AuthorizeFilled(Reversed(relabelled), |relabelled|)
  }

  /** The steps after it: transaction mapping, RemoteStop acceptance, dropped
      commands, the status relabel and the response connectors. */
  function Finished(stamped: seq<LogRow>): seq<LogRow> {
    var mapped := MapTids(stamped);
    var remoteStop := MarkAccepted(mapped, AcceptedIds(mapped, "RemoteStopTransactionResponse"));
    ResponseConnectors(RelabelStatuses(DropCommands(remoteStop)))
  }

  /** Every preparation step in order, on values. */
  function Prepared(rows: seq<LogRow>): seq<LogRow> {
    Finished(Stamped(rows))
  }

  /** A fresh array holding `rows`. */
  method ToArray(rows: seq<LogRow>) returns (a: array<LogRow>)
    ensures fresh(a) && a[..] == rows
  {
    a := new LogRow[|rows|](k requires 0 <= k < |rows| => rows[k]);
  }

  /** The steps that run on arrays: the connector fill by transaction, then, after
      relabelling and reversal, the Preparing / Authorize fill. */
  method StampRows(rows: seq<LogRow>) returns (stamped: seq<LogRow>)
    ensures stamped == Stamped(rows)
  {
    var a := ToArray(rows);
    FillConnectorsByTransaction(a);
    var relabelled := AcceptanceRelabelled(a[..]);
    var reversed := ToArray(Reversed(relabelled));
    FillAuthorizeConnectors(reversed);
    stamped := reversed[..];
  }

  /** The preparation split into the connector-1 and connector-2 frames. */
  method PrepareFrames(rows: seq<LogRow>) returns (frame1: seq<LogRow>, frame2: seq<LogRow>)
    ensures frame1 == ConnectorFrame(Prepared(rows), "1")
    ensures frame2 == ConnectorFrame(Prepared(rows), "2")
  {
    var stamped := StampRows(rows);
    var prepared := Finished(stamped);
    frame1 := ConnectorFrame(prepared, "1");
    frame2 := ConnectorFrame(prepared, "2");
  }
}
