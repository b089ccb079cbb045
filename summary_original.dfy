/** `build_summary` of the older engine: the per-connector counts, the two error
    histograms keyed by stop class, and the power, energy and duration figures,
    computed from the classified session rows. */
module OriginalSummary {
  import opened Wrappers
  import opened Histograms
  import opened SessionDetails
  import opened StopClassification
  import opened IdleErrors
  import MeterStats

  datatype Summary = Summary(
    preparingSessions: nat,
    chargingSessions: nat,
    successfulSessions: nat,
    failedSessions: nat,
    incompleteSessions: nat,
    successfulErrorSummary: map<string, nat>,
    failedErrorSummary: map<string, nat>,
    idleTimeErrors: seq<IdleError>,
    remoteStart: nat,
    autoStart: nat,
    rfidStart: nat,
    peakPowerKw: real,
    avgPowerKw: real,
    totalEnergyKwh: real,
    avgDurationMinutes: real)

  /** The dict returned for an empty frame. */
  function EmptySummary(idle: seq<IdleError>): Summary {
    Summary(0, 0, 0, 0, 0, map[], map[], idle, 0, 0, 0, 0.0, 0.0, 0.0, 0.0)
  }

  /** The rows satisfying `p`: the sum of a 0/1 column. */
  function CountIf(x: seq<ReportRow>, p: ReportRow -> bool): (n: nat)
    ensures n <= |x|
  {
    if x == [] then 0 else CountIf(x[..|x| - 1], p) + (if p(x[|x| - 1]) then 1 else 0)
  }

  predicate IsPreparingRow(r: ReportRow) { r.session.isPreparing }
  predicate IsChargingRow(r: ReportRow) { r.session.isCharging }
  predicate IsRemoteStartRow(r: ReportRow) { r.session.isRemoteStart }
  predicate IsAutoStartRow(r: ReportRow) { r.session.isAutoStart }
  predicate IsRfidStartRow(r: ReportRow) { r.session.isRfidStart }

  /** `(df['stop'] == c).sum()`; `c` None counts the precharging failures. */
  function CountStop(x: seq<ReportRow>, c: Option<StopClass>): (n: nat)
    ensures n <= |x|
  {
    if x == [] then 0 else CountStop(x[..|x| - 1], c) + (if x[|x| - 1].stop == c then 1 else 0)
  }

  /** Every row has exactly one stop class or none, so the three counts and the
      precharging failures add up to the number of rows. */
  lemma {:induction false} StopCountsAddUp(x: seq<ReportRow>)
    ensures CountStop(x, Some(Successful)) + CountStop(x, Some(FailedError)) + CountStop(x, Some(Incomplete))
            + CountStop(x, None) == |x|
  {
    if x != [] {
      StopCountsAddUp(x[..|x| - 1]);
      match x[|x| - 1].stop
      case None =>
      case Some(c) => assert c == Successful || c == FailedError || c == Incomplete;
    }
  }

  /** The power column, converted from W to kW. */
  function PowerKwOf(r: ReportRow): Option<real> {
    if r.session.power.Some? then Some(r.session.power.value / 1000.0) else None
  }

  function EnergyOf(r: ReportRow): Option<real> { r.session.energyKwh }

  function DurationOf(r: ReportRow): Option<real> { r.session.durationMinutes }

  /** `pd.to_numeric(column).dropna()`: the present values of a column, in row order. */
  function Column(x: seq<ReportRow>, f: ReportRow -> Option<real>): (vs: seq<real>)
    ensures |vs| <= |x|
  {
    if x == [] then [] else Column(x[..|x| - 1], f) + (if f(x[|x| - 1]).Some? then [f(x[|x| - 1]).value] else [])
  }

  /** The column is built row by row: a single row gives its value when present and
      nothing otherwise, and the column of a concatenation is the concatenation of
      the columns, so order and repetition are kept. */
  lemma {:induction false} ColumnAppend(a: seq<ReportRow>, b: seq<ReportRow>, f: ReportRow -> Option<real>)
    ensures |a| == 1 ==> Column(a, f) == if f(a[0]).Some? then [f(a[0]).value] else []
    ensures Column(a + b, f) == Column(a, f) + Column(b, f)
    decreases |b|
  {
    if |a| == 1 {
      assert a[..0] == [];
    }
    if b == [] {
      assert a + b == a;
    } else {
      var init := b[..|b| - 1];
      assert (a + b)[..|a + b| - 1] == a + init;
      ColumnAppend(a, init, f);
    }
  }

  /** The column holds exactly the present values of the rows. */
  lemma {:induction false} ColumnValues(x: seq<ReportRow>, f: ReportRow -> Option<real>, v: real)
    ensures v in Column(x, f) <==> exists k :: 0 <= k < |x| && f(x[k]) == Some(v)
  {
    if x != [] {
      var init := x[..|x| - 1];
      ColumnValues(init, f, v);
      if exists k :: 0 <= k < |init| && f(init[k]) == Some(v) {
        var k :| 0 <= k < |init| && f(init[k]) == Some(v);
        assert x[k] == init[k];
      }
      if exists k :: 0 <= k < |x| && f(x[k]) == Some(v) {
        var k :| 0 <= k < |x| && f(x[k]) == Some(v);
        if k < |init| {
          assert init[k] == x[k];
        }
      }
    }
  }

  /** A value the histogram loop counts: truthy and neither "None" nor "NoError". */
  predicate Countable(v: string) {
    v != "" && v != "None" && v != "NoError"
  }

  /** The union of `f` over a list, built front to back as a loop builds it. */
  function SumOver<T>(xs: seq<T>, f: T -> multiset<string>): multiset<string> {
    if xs == [] then multiset{} else SumOver(xs[..|xs| - 1], f) + f(xs[|xs| - 1])
  }

  /** One more pass of a loop adds the next element's share. */
  lemma SumOverSnoc<T>(xs: seq<T>, f: T -> multiset<string>, i: nat)
    requires i < |xs|
    ensures SumOver(xs[..i + 1], f) == SumOver(xs[..i], f) + f(xs[i])
  {
    assert xs[..i + 1][..i] == xs[..i];
  }

  lemma {:induction false} SumOverHas<T>(xs: seq<T>, f: T -> multiset<string>, v: string)
    ensures v in SumOver(xs, f) <==> exists i :: 0 <= i < |xs| && v in f(xs[i])
  {
    if xs != [] {
      var init := xs[..|xs| - 1];
      SumOverHas(init, f, v);
      if exists i :: 0 <= i < |init| && v in f(init[i]) {
        var i :| 0 <= i < |init| && v in f(init[i]);
        assert xs[i] == init[i];
      }
      if exists i :: 0 <= i < |xs| && v in f(xs[i]) {
        var i :| 0 <= i < |xs| && v in f(xs[i]);
        if i < |init| {
          assert init[i] == xs[i];
        }
      }
    }
  }

  /** The share of one value of an error record. */
  function ValueLabel(v: string): multiset<string> {
    if Countable(v) then multiset{v} else multiset{}
  }

  /** The values counted from one error record. */
  function RecordLabels(e: ErrorRecord): multiset<string> {
    SumOver(RecordValues(e), ValueLabel)
  }

  /** The values counted from the error records of a row classified `c`. */
  function RowLabels(c: StopClass): ReportRow -> multiset<string> {
    (r: ReportRow) => if r.stop == Some(c) then SumOver(r.session.allErrors, RecordLabels) else multiset{}
  }

  /** Every value the histogram loop meets over the sessions classified `c`. */
  function StopLabels(x: seq<ReportRow>, c: StopClass): multiset<string> {
    SumOver(x, RowLabels(c))
  }

  /** One error record contributes exactly its countable values. */
  lemma RecordLabelsHold(e: ErrorRecord, v: string)
    ensures v in RecordLabels(e) <==> Countable(v) && v in RecordValues(e)
  {
    var vs := RecordValues(e);
    SumOverHas(vs, ValueLabel, v);
    if Countable(v) && v in vs {
      var j :| 0 <= j < |vs| && vs[j] == v;
      assert v in ValueLabel(vs[j]);
    }
  }

  /** Every label of the histogram of stop class `c` is a value, neither "None" nor
      "NoError", of an error record of some session classified `c`. */
  lemma HistogramLabelFromSession(x: seq<ReportRow>, c: StopClass, v: string)
    requires v in ToMap(StopLabels(x, c))
    ensures Countable(v)
    ensures exists k, i :: 0 <= k < |x| && x[k].stop == Some(c) && 0 <= i < |x[k].session.allErrors| &&
                           v in RecordValues(x[k].session.allErrors[i])
  {
    SumOverHas(x, RowLabels(c), v);
    var k :| 0 <= k < |x| && v in RowLabels(c)(x[k]);
    var es := x[k].session.allErrors;
    SumOverHas(es, RecordLabels, v);
    var i :| 0 <= i < |es| && v in RecordLabels(es[i]);
    RecordLabelsHold(es[i], v);
  }

  /** Every such value of a session classified `c` is a label of its histogram. */
  lemma SessionLabelInHistogram(x: seq<ReportRow>, c: StopClass, v: string, k: nat, i: nat)
    requires k < |x| && x[k].stop == Some(c) && i < |x[k].session.allErrors|
    requires Countable(v) && v in RecordValues(x[k].session.allErrors[i])
    ensures v in ToMap(StopLabels(x, c))
  {
    var es := x[k].session.allErrors;
    RecordLabelsHold(es[i], v);
    SumOverHas(es, RecordLabels, v);
    assert v in RowLabels(c)(x[k]);
    SumOverHas(x, RowLabels(c), v);
  }

  /** The innermost histogram loop: the values of one error record. */
  method CountValues(h0: map<string, nat>, vs: seq<string>, ghost base: multiset<string>) returns (h: map<string, nat>)
    requires h0 == ToMap(base)
    ensures h == ToMap(base + SumOver(vs, ValueLabel))
  {
    h := h0;
    for j := 0 to |vs|
      invariant h == ToMap(base + SumOver(vs[..j], ValueLabel))
    {
      SumOverSnoc(vs, ValueLabel, j);
      ghost var seen := base + SumOver(vs[..j], ValueLabel);
      if Countable(vs[j]) {
        BumpAdds(seen, vs[j]);
        h := Bump(h, vs[j]);
        assert base + SumOver(vs[..j + 1], ValueLabel) == seen + multiset{vs[j]};
      } else {
        assert base + SumOver(vs[..j + 1], ValueLabel) == seen;
      }
    }
    assert vs[..|vs|] == vs;
  }

  /** The middle histogram loop: the error records of one session. */
  method CountRecords(h0: map<string, nat>, es: seq<ErrorRecord>, ghost base: multiset<string>) returns (h: map<string, nat>)
    requires h0 == ToMap(base)
    ensures h == ToMap(base + SumOver(es, RecordLabels))
  {
    h := h0;
    for i := 0 to |es|
      invariant h == ToMap(base + SumOver(es[..i], RecordLabels))
    {
      SumOverSnoc(es, RecordLabels, i);
      h := CountValues(h, RecordValues(es[i]), base + SumOver(es[..i], RecordLabels));
      assert base + SumOver(es[..i + 1], RecordLabels) == base + SumOver(es[..i], RecordLabels) + RecordLabels(es[i]);
    }
    assert es[..|es|] == es;
  }

  /** The outer histogram loop: the sessions classified `c`. */
  method ErrorSummary(x: seq<ReportRow>, c: StopClass) returns (h: map<string, nat>)
    ensures h == ToMap(StopLabels(x, c))
  {
    h := map[];
    for k := 0 to |x|
      invariant h == ToMap(StopLabels(x[..k], c))
    {
      SumOverSnoc(x, RowLabels(c), k);
      if x[k].stop == Some(c) {
        h := CountRecords(h, x[k].session.allErrors, StopLabels(x[..k], c));
      } else {
        assert StopLabels(x[..k + 1], c) == StopLabels(x[..k], c);
      }
    }
    assert x[..|x|] == x;
  }

  /** The summary of a non-empty frame. */
  function Computed(x: seq<ReportRow>, idle: seq<IdleError>): Summary {
    var powers := Column(x, PowerKwOf);
    Summary(
      CountIf(x, IsPreparingRow), CountIf(x, IsChargingRow),
      CountStop(x, Some(Successful)), CountStop(x, Some(FailedError)), CountStop(x, Some(Incomplete)),
      ToMap(StopLabels(x, Successful)), ToMap(StopLabels(x, FailedError)),
      idle,
      CountIf(x, IsRemoteStartRow), CountIf(x, IsAutoStartRow), CountIf(x, IsRfidStartRow),
      MeterStats.MaxOrZero(powers), MeterStats.Mean(powers),
      MeterStats.Sum(Column(x, EnergyOf)), MeterStats.Mean(Column(x, DurationOf)))
  }

  /** `build_summary(df, idle_errors)`. */
  function SummaryOf(x: seq<ReportRow>, idle: seq<IdleError>): Summary {
    if x == [] then EmptySummary(idle) else Computed(x, idle)
  }

  /** The empty-frame guard is a shortcut: on no rows the general computation gives
      the same all-zero dict. */
  lemma EmptyGuardAgrees(x: seq<ReportRow>, idle: seq<IdleError>)
    ensures SummaryOf(x, idle) == Computed(x, idle)
  {
    if x == [] {
      assert StopLabels(x, Successful) == multiset{};
      assert StopLabels(x, FailedError) == multiset{};
      assert ToMap(multiset{}) == map[];
    }
  }

  /** The peak is the largest power reading of any session, in kW, and 0 when no
      session has one; the same holds for the empty frame. */
  lemma PeakIsLargestPower(x: seq<ReportRow>, idle: seq<IdleError>)
    ensures var peak := SummaryOf(x, idle).peakPowerKw;
            ((exists k :: 0 <= k < |x| && PowerKwOf(x[k]).Some?) ==>
               (exists k :: 0 <= k < |x| && PowerKwOf(x[k]) == Some(peak)) &&
               forall k :: 0 <= k < |x| && PowerKwOf(x[k]).Some? ==> PowerKwOf(x[k]).value <= peak) &&
            ((forall k :: 0 <= k < |x| ==> PowerKwOf(x[k]).None?) ==> peak == 0.0)
  {
    var powers := Column(x, PowerKwOf);
    var peak := SummaryOf(x, idle).peakPowerKw;
    if x != [] {
      assert peak == MeterStats.MaxOrZero(powers);
      if exists k :: 0 <= k < |x| && PowerKwOf(x[k]).Some? {
        var k :| 0 <= k < |x| && PowerKwOf(x[k]).Some?;
        ColumnValues(x, PowerKwOf, PowerKwOf(x[k]).value);
        ColumnValues(x, PowerKwOf, peak);
        forall j | 0 <= j < |x| && PowerKwOf(x[j]).Some? ensures PowerKwOf(x[j]).value <= peak {
          ColumnValues(x, PowerKwOf, PowerKwOf(x[j]).value);
        }
      } else if powers != [] {
        ColumnValues(x, PowerKwOf, powers[0]);
      }
    }
  }

  /** The stop counts of a summary and its precharging failures add up to the rows. */
  lemma SummaryCountsAddUp(x: seq<ReportRow>, idle: seq<IdleError>)
    ensures var s := SummaryOf(x, idle);
            s.successfulSessions + s.failedSessions + s.incompleteSessions + CountStop(x, None) == |x|
  {
    StopCountsAddUp(x);
  }

  /** `build_summary`, with its two histogram loops. */
  method BuildSummary(x: seq<ReportRow>, idle: seq<IdleError>) returns (summary: Summary)
    ensures summary == SummaryOf(x, idle)
  {
    if |x| == 0 {
      return EmptySummary(idle);
    }
    var successfulErrors := ErrorSummary(x, Successful);
    var failedErrors := ErrorSummary(x, FailedError);
    var powers := Column(x, PowerKwOf);
    summary := Summary(
      CountIf(x, IsPreparingRow), CountIf(x, IsChargingRow),
      CountStop(x, Some(Successful)), CountStop(x, Some(FailedError)), CountStop(x, Some(Incomplete)),
      successfulErrors, failedErrors,
      idle,
      CountIf(x, IsRemoteStartRow), CountIf(x, IsAutoStartRow), CountIf(x, IsRfidStartRow),
      MeterStats.MaxOrZero(powers), MeterStats.Mean(powers),
      MeterStats.Sum(Column(x, EnergyOf)), MeterStats.Mean(Column(x, DurationOf)));
  }
}
