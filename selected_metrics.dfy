/** `extract_selected_ocpp_metrics`: the MeterValues samples of one message
    (OCPP 1.6, section 4.7) reduced to a small set of named attributes, chosen by
    measurand and location, with Power.Active.Import normalised to W. */
module SelectedMetrics {
  import opened Wrappers
  import opened Events
  import MeterStats

  /** The `ALLOWED_ATTRIBUTES` table: (measurand, location) to attribute name. */
  function Allowed(measurand: Option<string>, location: Option<string>): Option<string> {
    match (measurand, location)
    case (Some("Current.Import"), Some("EV")) => Some("Current.Import_EV")
    case (Some("Current.Import"), Some("Outlet")) => Some("Current.Import_Outlet")
    case (Some("Energy.Active.Import.Register"), None) => Some("Energy.Active.Import.Register")
    case (Some("Power.Active.Import"), None) => Some("Power.Active.Import")
    case (Some("SoC"), Some("EV")) => Some("SoC_EV")
    case (Some("Voltage"), Some("EV")) => Some("Voltage_EV")
    case (Some("Voltage"), Some("Inlet")) => Some("Voltage_Inlet")
    case (Some("Voltage"), Some("Outlet")) => Some("Voltage_Outlet")
    case (Some("Temperature"), Some("Cable")) => Some("Temperature_Cable")
    case _ => None
  }

  /** The attribute a sample is filed under: the exact (measurand, location) entry,
      else the measurand's location-independent entry, else none. */
  function AttributeOf(sv: SampledValue): (a: Option<string>)
    ensures Allowed(sv.measurand, sv.location).Some? ==> a == Allowed(sv.measurand, sv.location)
    ensures Allowed(sv.measurand, sv.location).None? ==> a == Allowed(sv.measurand, None)
  {
    var exact := Allowed(sv.measurand, sv.location);
    if exact.Some? then exact else Allowed(sv.measurand, None)
  }

  /** What is stored for a sample filed under `attr`: a numeric power reading in kWh
      is scaled to W, one in Wh is kept; everything else is the raw value. */
  function Stored(attr: string, sv: SampledValue): SampleValue {
    if attr == "Power.Active.Import" && sv.value.Numeric? then
      if sv.unit == Some("kWh") then Numeric(sv.value.x * 1000.0)
      else sv.value
    else sv.value
  }

  /** The sample is stored: it has a value and an attribute. */
  predicate Kept(sv: SampledValue) {
    !sv.value.Missing? && AttributeOf(sv).Some?
  }

  /** One pass of the inner loop. */
  function Record(result: map<string, SampleValue>, sv: SampledValue): map<string, SampleValue> {
    if Kept(sv) then result[AttributeOf(sv).value := Stored(AttributeOf(sv).value, sv)] else result
  }

  function SelectedOf(svs: seq<SampledValue>): map<string, SampleValue> {
    if svs == [] then map[] else Record(SelectedOf(svs[..|svs| - 1]), svs[|svs| - 1])
  }

  lemma SelectedSnoc(svs: seq<SampledValue>, sv: SampledValue)
    ensures SelectedOf(svs + [sv]) == Record(SelectedOf(svs), sv)
  {
    assert (svs + [sv])[..|svs|] == svs;
  }

  /** Each attribute holds what the LAST sample filed under it stored; an attribute
      is present exactly when some sample with a value was filed under it. */
  lemma {:induction false} LastSampleWins(svs: seq<SampledValue>, attr: string)
    ensures attr in SelectedOf(svs) <==> exists k :: 0 <= k < |svs| && Kept(svs[k]) && AttributeOf(svs[k]) == Some(attr)
    ensures attr in SelectedOf(svs) ==>
              exists k :: 0 <= k < |svs| && Kept(svs[k]) && AttributeOf(svs[k]) == Some(attr) &&
                          SelectedOf(svs)[attr] == Stored(attr, svs[k]) &&
                          forall j :: k < j < |svs| ==> !(Kept(svs[j]) && AttributeOf(svs[j]) == Some(attr))
  {
    if svs != [] {
      var init := svs[..|svs| - 1];
      var last := svs[|svs| - 1];
      LastSampleWins(init, attr);
      assert forall k :: 0 <= k < |init| ==> init[k] == svs[k];
      if !(Kept(last) && AttributeOf(last) == Some(attr)) && attr in SelectedOf(svs) {
        var k :| 0 <= k < |init| && Kept(init[k]) && AttributeOf(init[k]) == Some(attr) &&
                 SelectedOf(init)[attr] == Stored(attr, init[k]) &&
                 forall j :: k < j < |init| ==> !(Kept(init[j]) && AttributeOf(init[j]) == Some(attr));
        assert forall j :: k < j < |svs| ==> !(Kept(svs[j]) && AttributeOf(svs[j]) == Some(attr));
      }
    }
  }

  /** Only the table's attribute names appear as keys. */
  lemma {:induction false} KeysAreAllowed(svs: seq<SampledValue>)
    ensures forall a :: a in SelectedOf(svs) ==>
              exists m, l :: Allowed(m, l) == Some(a)
  {
    if svs != [] {
      KeysAreAllowed(svs[..|svs| - 1]);
      var last := svs[|svs| - 1];
      if Kept(last) {
        var exact := Allowed(last.measurand, last.location);
        if exact.Some? {
          assert Allowed(last.measurand, last.location) == Some(AttributeOf(last).value);
        } else {
          assert Allowed(last.measurand, None) == Some(AttributeOf(last).value);
        }
      }
    }
  }

  /** One pass of the inner loop: store a sample with a value under its attribute. */
  method StoreSample(result: map<string, SampleValue>, sv: SampledValue) returns (result': map<string, SampleValue>)
    ensures result' == Record(result, sv)
  {
    result' := result;
    if sv.value != Missing {
      var exact := Allowed(sv.measurand, sv.location);
      if exact.Some? {
        result' := result'[exact.value := Stored(exact.value, sv)];
      } else {
        var byMeasurand := Allowed(sv.measurand, None);
        if byMeasurand.Some? {
          result' := result'[byMeasurand.value := Stored(byMeasurand.value, sv)];
        }
      }
    }
  }

  /** The inner loop over the `sampledValue` list of one entry. */
  method StoreSamples(sampledValues: seq<SampledValue>, result0: map<string, SampleValue>, ghost seen: seq<SampledValue>)
    returns (result: map<string, SampleValue>)
    requires result0 == SelectedOf(seen)
    ensures result == SelectedOf(seen + sampledValues)
  {
    result := result0;
    assert seen + sampledValues[..0] == seen;
    for j := 0 to |sampledValues|
      invariant result == SelectedOf(seen + sampledValues[..j])
    {
      var sv := sampledValues[j];
      SelectedSnoc(seen + sampledValues[..j], sv);
      result := StoreSample(result, sv);
      assert seen + sampledValues[..j + 1] == (seen + sampledValues[..j]) + [sv];
    }
    assert sampledValues[..|sampledValues|] == sampledValues;
  }

  /** The loops over `meterValue` and `sampledValue`, filling the result dict. */
  method ExtractSelectedOcppMetrics(meterValues: seq<MeterValue>) returns (result: map<string, SampleValue>)
    ensures result == SelectedOf(MeterStats.SamplesOfMeterValues(meterValues))
  {
    result := map[];
    for i := 0 to |meterValues|
      invariant result == SelectedOf(MeterStats.SamplesOfMeterValues(meterValues[..i]))
    {
      result := StoreSamples(meterValues[i].sampledValue, result, MeterStats.SamplesOfMeterValues(meterValues[..i]));
      assert meterValues[..i + 1][..i] == meterValues[..i];
    }
    assert meterValues[..|meterValues|] == meterValues;
  }

  /** A numeric Power.Active.Import sample, whatever its location, is filed under
      that attribute: a reading in kWh is scaled to W, any other unit is kept. */
  lemma PowerInKwhScaled(location: Option<string>, unit: Option<string>, v: real)
    ensures var sv := SampledValue(Some("Power.Active.Import"), location, unit, Numeric(v));
            SelectedOf([sv]) == map["Power.Active.Import" := Numeric(if unit == Some("kWh") then v * 1000.0 else v)]
  {
    var sv := SampledValue(Some("Power.Active.Import"), location, unit, Numeric(v));
    assert AttributeOf(sv) == Some("Power.Active.Import");
    assert [sv][..0] == [];
  }
}
