/** The `report_df` loop over the sessions, which carries the set of transactionIds
    already given out, and the final merge of the session columns with the
    per-transaction columns (`groupby("transactionId")` with first / max, then a
    left merge). */
module Report {
  import opened Wrappers
  import opened LogRows
  import opened SessionBounds
  import opened SessionDetails

  /** The ids assigned so far: `set(xf.loc[:i-1, 'transactionId'].dropna())`. */
  function TakenOf(tids: seq<Option<string>>): set<string> {
    set k | 0 <= k < |tids| && tids[k].Some? :: tids[k].value
  }

  lemma TakenOfSnoc(tids: seq<Option<string>>, t: Option<string>)
    ensures TakenOf(tids + [t]) == TakenOf(tids) + (if t.Some? then {t.value} else {})
  {
    var ts := tids + [t];
    forall x | x in TakenOf(tids) ensures x in TakenOf(ts) {
      var k :| 0 <= k < |tids| && tids[k] == Some(x);
      assert ts[k] == tids[k];
    }
    forall x | x in TakenOf(ts) ensures x in TakenOf(tids) || t == Some(x) {
      var k :| 0 <= k < |ts| && ts[k] == Some(x);
      if k < |tids| {
        assert ts[k] == tids[k];
      }
    }
    if t.Some? {
      assert ts[|tids|] == t;
    }
  }

  /** No id is given to two sessions. */
  predicate Distinct(tids: seq<Option<string>>) {
    forall a, b :: 0 <= a < b < |tids| && tids[a].Some? ==> tids[a] != tids[b]
  }

  /** Appending an id not yet taken keeps the ids distinct. */
  lemma FreshTidKeepsDistinct(tids: seq<Option<string>>, t: Option<string>)
    requires Distinct(tids)
    requires t.Some? ==> t.value !in TakenOf(tids)
    ensures Distinct(tids + [t])
  {
    var ts := tids + [t];
    forall a, b | 0 <= a < b < |ts| && ts[a].Some?
      ensures ts[a] != ts[b]
    {
      assert ts[a] == tids[a];
      if b == |tids| {
        assert tids[a].value in TakenOf(tids);
      } else {
        assert ts[b] == tids[b];
      }
    }
  }

  /** `bounds` holds one bounds record per start, each framed by its start. */
  predicate AllFramed(rows: seq<LogRow>, starts: seq<nat>, bounds: seq<Bounds>) {
    |bounds| == |starts| && forall k :: 0 <= k < |bounds| ==> Framed(rows, starts, k, bounds[k])
  }

  /** Bounds framed session by session lie within the rows, in order. */
  lemma AllFramedWellFramed(rows: seq<LogRow>, starts: seq<nat>, bounds: seq<Bounds>)
    requires AllFramed(rows, starts, bounds)
    ensures WellFramed(rows, bounds)
  {
    forall k | 0 <= k < |bounds| ensures bounds[k].start <= bounds[k].stop <= bounds[k].errorWindowEnd < |rows| {
      assert Framed(rows, starts, k, bounds[k]);
    }
  }

  /** The transactionId column of the first `n` sessions. Each session's search skips
      the ids of the sessions before it, so no two sessions share a transactionId. */
  function AssignedTids(rows: seq<LogRow>, starts: seq<nat>, bounds: seq<Bounds>, n: nat): (tids: seq<Option<string>>)
    requires AllFramed(rows, starts, bounds) && n <= |bounds|
    ensures |tids| == n
    ensures Distinct(tids)
  {
    if n == 0 then []
    else
      var prev := AssignedTids(rows, starts, bounds, n - 1);
      var t := SessionTidFor(rows, starts, n - 1, bounds[n - 1], TakenOf(prev));
      FreshTidKeepsDistinct(prev, t);
      prev + [t]
  }

  /** The record builder of `report_df`: the session's columns over `rows`. */
  function RecordBuilder(rows: seq<LogRow>): Builder {
    (b: Bounds, t: Option<string>) requires b.start <= b.stop <= b.errorWindowEnd < |rows| => SessionRecord(rows, b, t)
  }

  /** `mk` can build the record of every pair of bounds and transactionId. */
  ghost predicate Builds(mk: Builder, bs: seq<Bounds>, ts: seq<Option<string>>) {
    |bs| == |ts| && forall k :: 0 <= k < |bs| ==> mk.requires(bs[k], ts[k])
  }

  /** A record of bounds framed within `rows` keeps the bounds and the transactionId
      it was built from. */
  ghost predicate KeepsKeys(rows: seq<LogRow>, mk: Builder) {
    forall b: Bounds, t: Option<string> :: b.start <= b.stop <= b.errorWindowEnd < |rows| ==>
      mk.requires(b, t) && mk(b, t).bounds == b && mk(b, t).transactionId == t
  }

  /** `mk` builds the record of any bounds framed within `rows`. */
  ghost predicate Accepts(rows: seq<LogRow>, mk: Builder) {
    forall b: Bounds, t: Option<string> :: b.start <= b.stop <= b.errorWindowEnd < |rows| ==> mk.requires(b, t)
  }

  lemma RecordBuilderKeepsKeys(rows: seq<LogRow>)
    ensures KeepsKeys(rows, RecordBuilder(rows))
  {
    var mk := RecordBuilder(rows);
    forall b: Bounds, t: Option<string> | b.start <= b.stop <= b.errorWindowEnd < |rows|
      ensures mk.requires(b, t) && mk(b, t).bounds == b && mk(b, t).transactionId == t
    {
      assert mk(b, t) == SessionRecord(rows, b, t);
    }
  }

  lemma RecordBuilderImplements(rows: seq<LogRow>)
    ensures Accepts(rows, RecordBuilder(rows)) && Implements(rows, RecordBuilder(rows))
  {
  }

  /** Framed bounds can all be built, whatever their transactionIds. */
  lemma FramedBuilds(rows: seq<LogRow>, mk: Builder, bs: seq<Bounds>, ts: seq<Option<string>>)
    requires Accepts(rows, mk) && WellFramed(rows, bs) && |bs| == |ts|
    ensures Builds(mk, bs, ts)
  {
  }

  /** The records built from bounds `bs` and transactionIds `ts`, in order. */
  function RecordsOf(bs: seq<Bounds>, ts: seq<Option<string>>, mk: Builder): (xf: seq<SessionRow>)
    requires Builds(mk, bs, ts)
    ensures |xf| == |bs|
  {
    if bs == [] then []
    else
      var n := |bs| - 1;
      assert Builds(mk, bs[..n], ts[..n]);
      RecordsOf(bs[..n], ts[..n], mk) + [mk(bs[n], ts[n])]
  }

  /** Record `k` has the bounds and the transactionId it was built from. */
  lemma {:induction false} RecordsOfKeys(rows: seq<LogRow>, bs: seq<Bounds>, ts: seq<Option<string>>, mk: Builder, k: nat)
    requires Builds(mk, bs, ts) && WellFramed(rows, bs) && KeepsKeys(rows, mk) && k < |bs|
    ensures RecordsOf(bs, ts, mk)[k].bounds == bs[k]
    ensures RecordsOf(bs, ts, mk)[k].transactionId == ts[k]
  {
    var n := |bs| - 1;
    assert Builds(mk, bs[..n], ts[..n]) && WellFramed(rows, bs[..n]);
    if k < n {
      RecordsOfKeys(rows, bs[..n], ts[..n], mk, k);
    }
  }

  /** Extending the loop's prefix of bounds by one session adds that session's record. */
  lemma RecordsSnoc(bs: seq<Bounds>, i: nat, ts: seq<Option<string>>, t: Option<string>, mk: Builder)
    requires i < |bs| && |ts| == i && Builds(mk, bs[..i + 1], ts + [t])
    ensures Builds(mk, bs[..i], ts)
    ensures RecordsOf(bs[..i + 1], ts + [t], mk) == RecordsOf(bs[..i], ts, mk) + [mk(bs[i], t)]
  {
    assert bs[..i + 1][..i] == bs[..i];
    assert (ts + [t])[..i] == ts;
  }

  /** The records of all sessions, one per Preparing row. */
  function SessionRecords(rows: seq<LogRow>): (xf: seq<SessionRow>)
    ensures |xf| == |Starts(rows)|
  {
    var bounds := AllBounds(rows);
    AllBoundsFramed(rows);
    var tids := AssignedTids(rows, Starts(rows), bounds, |bounds|);
    RecordBuilderImplements(rows);
    FramedBuilds(rows, RecordBuilder(rows), bounds, tids);
    RecordsOf(bounds, tids, RecordBuilder(rows))
  }

  predicate TidsDistinct(xf: seq<SessionRow>) {
    forall a, b :: 0 <= a < b < |xf| && xf[a].transactionId.Some? ==> xf[a].transactionId != xf[b].transactionId
  }

  /** No two session records share a transactionId. */
  lemma SessionTidsDistinct(rows: seq<LogRow>)
    ensures TidsDistinct(SessionRecords(rows))
  {
    var xf := SessionRecords(rows);
    var bounds := AllBounds(rows);
    AllBoundsFramed(rows);
    var tids := AssignedTids(rows, Starts(rows), bounds, |bounds|);
    RecordBuilderImplements(rows);
    FramedBuilds(rows, RecordBuilder(rows), bounds, tids);
    RecordBuilderKeepsKeys(rows);
    forall a, b | 0 <= a < b < |xf| && xf[a].transactionId.Some?
      ensures xf[a].transactionId != xf[b].transactionId
    {
      RecordsOfKeys(rows, bounds, tids, RecordBuilder(rows), a);
      RecordsOfKeys(rows, bounds, tids, RecordBuilder(rows), b);
    }
  }

  /** The first half of one pass of the session loop: search session `i`'s
      transactionId among the ids not yet taken, and take it. */
  method NextTid(rows: seq<LogRow>, starts: seq<nat>, bounds: seq<Bounds>, i: nat, taken: set<string>,
                 ghost tids: seq<Option<string>>)
    returns (tid: Option<string>, taken': set<string>, ghost tids': seq<Option<string>>)
    requires AllFramed(rows, starts, bounds) && i < |bounds|
    requires tids == AssignedTids(rows, starts, bounds, i) && taken == TakenOf(tids)
    ensures tids' == tids + [tid] && tids' == AssignedTids(rows, starts, bounds, i + 1)
    ensures taken' == TakenOf(tids')
  {
    assert Framed(rows, starts, i, bounds[i]);
    tid := SessionTidFor(rows, starts, i, bounds[i], taken);
    TakenOfSnoc(tids, tid);
    tids' := tids + [tid];
    taken' := taken;
    if tid.Some? {
      taken' := taken + {tid.value};
    }
  }

  /** The loop over the sessions, given their bounds: one record per session, each
      excluding the ids given to the sessions before it. `mk` stands for the record
      builder the records are specified with. */
  method RecordsLoop(rows: seq<LogRow>, starts: seq<nat>, bounds: seq<Bounds>, ghost mk: Builder) returns (xf: seq<SessionRow>)
    requires AllFramed(rows, starts, bounds) && Accepts(rows, mk) && Implements(rows, mk)
    ensures Builds(mk, bounds, AssignedTids(rows, starts, bounds, |bounds|))
    ensures xf == RecordsOf(bounds, AssignedTids(rows, starts, bounds, |bounds|), mk)
  {
    AllFramedWellFramed(rows, starts, bounds);
    xf := [];
    var taken: set<string> := {};
    ghost var tids: seq<Option<string>> := [];
    for i := 0 to |bounds|
      invariant tids == AssignedTids(rows, starts, bounds, i) && taken == TakenOf(tids)
      invariant Builds(mk, bounds[..i], tids)
      invariant xf == RecordsOf(bounds[..i], tids, mk)
    {
      var tid;
      ghost var before := tids;
      tid, taken, tids := NextTid(rows, starts, bounds, i, taken, tids);
      var s := SessionDetailsAt(rows, bounds[i], tid, mk);
      FramedBuilds(rows, mk, bounds[..i + 1], tids);
      RecordsSnoc(bounds, i, before, tid, mk);
      xf := xf + [s];
    }
    assert bounds[..|bounds|] == bounds;
  }

  /** The session loop of `report_df`: bounds first, then the records. */
  method SessionLoop(rows: seq<LogRow>) returns (xf: seq<SessionRow>)
    ensures xf == SessionRecords(rows)
  {
    var starts := Starts(rows);
    var bounds := FindSessionBounds(rows);
    AllBoundsFramed(rows);
    RecordBuilderImplements(rows);
    xf := RecordsLoop(rows, starts, bounds, RecordBuilder(rows));
  }

  // ---------------------------------------------------------------------------
  // The merge with the transaction-level columns

  predicate InGroup(x: SessionRow, tid: string) {
    x.transactionId == Some(tid)
  }

  /** `first` of a column over the records of transaction `tid` from index `i` on:
      the value of the first record of the group where the column is present. */
  function GroupFirst(xf: seq<SessionRow>, tid: string, f: SessionRow -> Option<string>, i: nat): (r: Option<string>)
    requires i <= |xf|
    decreases |xf| - i
    ensures r.None? <==> forall k :: i <= k < |xf| && InGroup(xf[k], tid) ==> f(xf[k]).None?
    ensures r.Some? ==>
              exists k :: i <= k < |xf| && InGroup(xf[k], tid) && f(xf[k]) == r &&
                          forall j :: i <= j < k && InGroup(xf[j], tid) ==> f(xf[j]).None?
  {
    if i == |xf| then None
    else if InGroup(xf[i], tid) && f(xf[i]).Some? then f(xf[i])
    else GroupFirst(xf, tid, f, i + 1)
  }

  /** `max` of a column over the records of transaction `tid` from index `i` on. */
  function GroupMax(xf: seq<SessionRow>, tid: string, f: SessionRow -> Option<real>, i: nat): (r: Option<real>)
    requires i <= |xf|
    decreases |xf| - i
    ensures r.None? <==> forall k :: i <= k < |xf| && InGroup(xf[k], tid) ==> f(xf[k]).None?
    ensures r.Some? ==> exists k :: i <= k < |xf| && InGroup(xf[k], tid) && f(xf[k]) == r
    ensures r.Some? ==> forall k :: i <= k < |xf| && InGroup(xf[k], tid) && f(xf[k]).Some? ==> f(xf[k]).value <= r.value
  {
    if i == |xf| then None
    else
      var rest := GroupMax(xf, tid, f, i + 1);
      var here := if InGroup(xf[i], tid) then f(xf[i]) else None;
      if here.Some? && (rest.None? || here.value >= rest.value) then here else rest
  }

  function ErrorCodeCol(x: SessionRow): Option<string> { x.errorCode }
  function InfoCol(x: SessionRow): Option<string> { x.info }
  function VendorErrorCodeCol(x: SessionRow): Option<string> { x.vendorErrorCode }
  function ReasonCol(x: SessionRow): Option<string> { x.reason }
  function StopReasonCol(x: SessionRow): Option<string> { x.stopReason }
  function PowerCol(x: SessionRow): Option<real> { x.power }
  function SocCol(x: SessionRow): Option<real> { x.soc }

  /** A record after the left merge: a session without a transactionId loses its
      transaction-level columns; one with an id takes its transaction's group values. */
  function MergedRow(xf: seq<SessionRow>, s: SessionRow): SessionRow {
    match s.transactionId
    case None =>
      s.(errorCode := None, info := None, vendorErrorCode := None, reason := None, stopReason := None,
         power := None, soc := None)
    case Some(tid) =>
      s.(errorCode := GroupFirst(xf, tid, ErrorCodeCol, 0),
         info := GroupFirst(xf, tid, InfoCol, 0),
         vendorErrorCode := GroupFirst(xf, tid, VendorErrorCodeCol, 0),
         reason := GroupFirst(xf, tid, ReasonCol, 0),
         stopReason := GroupFirst(xf, tid, StopReasonCol, 0),
         power := GroupMax(xf, tid, PowerCol, 0),
         soc := GroupMax(xf, tid, SocCol, 0))
  }

  function Merged(xf: seq<SessionRow>): (r: seq<SessionRow>)
    ensures |r| == |xf| && forall k :: 0 <= k < |xf| ==> r[k] == MergedRow(xf, xf[k])
  {
    seq(|xf|, k requires 0 <= k < |xf| => MergedRow(xf, xf[k]))
  }

  /** A group of one record: `first` returns that record's value. */
  lemma GroupFirstOfSingle(xf: seq<SessionRow>, k: nat, f: SessionRow -> Option<string>)
    requires k < |xf| && xf[k].transactionId.Some?
    requires forall j :: 0 <= j < |xf| && j != k ==> !InGroup(xf[j], xf[k].transactionId.value)
    ensures GroupFirst(xf, xf[k].transactionId.value, f, 0) == f(xf[k])
  {
    var r := GroupFirst(xf, xf[k].transactionId.value, f, 0);
    if r.Some? {
      var m :| 0 <= m < |xf| && InGroup(xf[m], xf[k].transactionId.value) && f(xf[m]) == r;
      assert m == k;
    }
  }

  /** A group of one record: `max` returns that record's value. */
  lemma GroupMaxOfSingle(xf: seq<SessionRow>, k: nat, f: SessionRow -> Option<real>)
    requires k < |xf| && xf[k].transactionId.Some?
    requires forall j :: 0 <= j < |xf| && j != k ==> !InGroup(xf[j], xf[k].transactionId.value)
    ensures GroupMax(xf, xf[k].transactionId.value, f, 0) == f(xf[k])
  {
    var r := GroupMax(xf, xf[k].transactionId.value, f, 0);
    if r.Some? {
      var m :| 0 <= m < |xf| && InGroup(xf[m], xf[k].transactionId.value) && f(xf[m]) == r;
      assert m == k;
    }
  }

  /** With distinct ids the merge hands every session with an id its own values back,
      and only the sessions without an id lose the transaction-level columns. */
  lemma MergeKeepsDistinctRows(xf: seq<SessionRow>)
    requires TidsDistinct(xf)
    ensures forall k :: 0 <= k < |xf| && xf[k].transactionId.Some? ==> Merged(xf)[k] == xf[k]
  {
    forall k | 0 <= k < |xf| && xf[k].transactionId.Some? ensures Merged(xf)[k] == xf[k] {
      forall j | 0 <= j < |xf| && j != k ensures !InGroup(xf[j], xf[k].transactionId.value) {
        if j < k {
          assert xf[j].transactionId.Some? ==> xf[j].transactionId != xf[k].transactionId;
        } else {
          assert xf[k].transactionId != xf[j].transactionId;
        }
      }
      GroupFirstOfSingle(xf, k, ErrorCodeCol);
      GroupFirstOfSingle(xf, k, InfoCol);
      GroupFirstOfSingle(xf, k, VendorErrorCodeCol);
      GroupFirstOfSingle(xf, k, ReasonCol);
      GroupFirstOfSingle(xf, k, StopReasonCol);
      GroupMaxOfSingle(xf, k, PowerCol);
      GroupMaxOfSingle(xf, k, SocCol);
    }
  }

  /** `report_df(sf)`: the merged session records. */
  method ReportDf(rows: seq<LogRow>) returns (report: seq<SessionRow>)
    ensures report == Merged(SessionRecords(rows))
  {
    var xf := SessionLoop(rows);
    report := Merged(xf);
  }
}
