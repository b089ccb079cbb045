/** The rows the older engine works on: one per logged OCPP message, with the
    fields its regular expressions pull out of the payload (absent fields are
    `None`, standing for NaN) and the MeterValues attributes it extracts. */
module LogRows {
  import opened Wrappers
  import opened Text
  import opened Events

  datatype LogRow = LogRow(
    id: string,
    command: string,
    time: Option<int>,
    status: Option<string>,
    connectorId: Option<string>,
    transactionId: Option<string>,
    idTag: Option<string>,
    meterStart: Option<int>,
    meterStop: Option<int>,
    errorCode: Option<string>,
    info: Option<string>,
    vendorErrorCode: Option<string>,
    reason: Option<string>,
    stopReason: Option<string>,
    /** The raw payload text contains "meterStop". */
    mentionsMeterStop: bool,
    /** Attribute name to extracted MeterValues sample (see `SelectedMetrics`). */
    metrics: map<string, SampleValue>)

  predicate HasStatus(r: LogRow, s: string) { r.status == Some(s) }

  /** `pd.to_numeric(..., errors="coerce")` of an extracted attribute: a number, or NaN. */
  function MetricValue(r: LogRow, attr: string): Option<real> {
    if attr in r.metrics then
      match r.metrics[attr]
      case Numeric(x) => Some(x)
      case _ => None
    else None
  }

  /** Python truthiness of an optional string: present and non-empty. */
  predicate Truthy(s: Option<string>) { s.Some? && s.value != "" }

  /** A field carries error information: present and, once stripped, none of
      "", "None", "nan", "NoError". */
  predicate Significant(v: Option<string>) {
    v.Some? && Strip(v.value) !in {"", "None", "nan", "NoError"}
  }

  /** Some error field carries information. */
  predicate HasErrorField(r: LogRow) {
    Significant(r.errorCode) || Significant(r.info) || Significant(r.vendorErrorCode) ||
    Significant(r.reason) || Significant(r.stopReason)
  }

  /** Row `k` is the first row of [lo, hi) satisfying `p`. */
  predicate IsFirstIn(rows: seq<LogRow>, lo: int, hi: int, p: LogRow -> bool, k: int) {
    0 <= lo <= k < hi <= |rows| && p(rows[k]) && forall j :: lo <= j < k ==> !p(rows[j])
  }

  /** Row `k` is the last row of [lo, hi) satisfying `p`. */
  predicate IsLastIn(rows: seq<LogRow>, lo: int, hi: int, p: LogRow -> bool, k: int) {
    0 <= lo <= k < hi <= |rows| && p(rows[k]) && forall j :: k < j < hi ==> !p(rows[j])
  }

  /** The index of the first row in [lo, hi) satisfying `p`: `df.iloc[lo:hi][mask].index[0]`. */
  function FirstIn(rows: seq<LogRow>, lo: nat, hi: nat, p: LogRow -> bool): (r: Option<nat>)
    requires hi <= |rows|
    ensures r.Some? ==> lo <= r.value < hi && p(rows[r.value]) && forall k :: lo <= k < r.value ==> !p(rows[k])
    ensures r.None? ==> forall k :: lo <= k < hi ==> !p(rows[k])
    ensures forall k :: IsFirstIn(rows, lo, hi, p, k) ==> r == Some(k)
    decreases hi - lo
  {
    if lo >= hi then None
    else if p(rows[lo]) then Some(lo)
    else FirstIn(rows, lo + 1, hi, p)
  }

  /** The index of the last row in [lo, hi) satisfying `p`: `...index[-1]`. */
  function LastIn(rows: seq<LogRow>, lo: nat, hi: nat, p: LogRow -> bool): (r: Option<nat>)
    requires hi <= |rows|
    ensures r.Some? ==> lo <= r.value < hi && p(rows[r.value]) && forall k :: r.value < k < hi ==> !p(rows[k])
    ensures r.None? ==> forall k :: lo <= k < hi ==> !p(rows[k])
    ensures forall k :: IsLastIn(rows, lo, hi, p, k) ==> r == Some(k)
    decreases hi - lo
  {
    if lo >= hi then None
    else if p(rows[hi - 1]) then Some(hi - 1)
    else LastIn(rows, lo, hi - 1, p)
  }

  /** How a session was started, read from the StartTransaction idTag. */
  datatype StartMode = AutoStart | RfidStart | RemoteStart

  /** "VID" anywhere in the tag means an automatic (vehicle id) start, otherwise an
      8-character tag is an RFID card, otherwise the start was remote. */
  function StartModeOf(tag: string): (m: StartMode)
    ensures m == AutoStart <==> Contains(tag, "VID")
    ensures m == RfidStart <==> !Contains(tag, "VID") && |tag| == 8
    ensures m == RemoteStart <==> !Contains(tag, "VID") && |tag| != 8
  {
    if Contains(tag, "VID") then AutoStart
    else if |tag| == 8 then RfidStart
    else RemoteStart
  }

  /** `str(idTag)` of a missing tag ("nan" or "None") is neither "VID"-bearing nor 8 long. */
  lemma MissingTagIsRemote()
    ensures StartModeOf("nan") == RemoteStart && StartModeOf("None") == RemoteStart
  {
    assert !Contains("nan", "VID") by {
      assert "nan"[..3][0] != "VID"[0];
      assert !Contains("nan"[1..], "VID");
    }
    assert !Contains("None", "VID") by {
      assert "None"[..3][0] != "VID"[0];
      assert "None"[1..] == "one";
      assert "one"[..3][0] != "VID"[0];
      assert !Contains("one"[1..], "VID");
    }
  }
}
