/** `extract_meter_stats`: the MeterValues rows of one session reduced to average
    voltage, average current and peak power (OCPP 1.6, section 4.7). */
module MeterStats {
  import opened Wrappers
  import opened Events

  function SamplesOfMeterValues(mvs: seq<MeterValue>): seq<SampledValue> {
    if mvs == [] then []
    else SamplesOfMeterValues(mvs[..|mvs| - 1]) + mvs[|mvs| - 1].sampledValue
  }

  /** Every sampled value of the rows, in the order the loops visit them. */
  function SamplesOfRows(rows: seq<Event>): seq<SampledValue> {
    if rows == [] then []
    else SamplesOfRows(rows[..|rows| - 1]) + SamplesOfMeterValues(rows[|rows| - 1].payload.meterValue)
  }

  /** `float(sv.get('value', '0'))`: an absent value reads as 0; one `float` rejects is skipped. */
  function Reading(v: SampleValue): Option<real> {
    match v
    case Missing => Some(0.0)
    case Numeric(x) => Some(x)
    case NonNumeric(_) => None
  }

  /** The three lists the loops fill: voltages, currents and powers (in kW). */
  datatype Collected = Collected(voltages: seq<real>, currents: seq<real>, powersKw: seq<real>)

  /** One pass of the innermost loop: file the reading under its measurand. */
  function Step(c: Collected, sv: SampledValue): Collected {
    var reading := Reading(sv.value);
    var measurand := sv.measurand.GetOr("");
    if reading.None? then c
    else if measurand == "Voltage" then c.(voltages := c.voltages + [reading.value])
    else if measurand == "Current.Import" then c.(currents := c.currents + [reading.value])
    else if measurand == "Power.Active.Import" then c.(powersKw := c.powersKw + [reading.value / 1000.0])
    else c
  }

  function Collect(svs: seq<SampledValue>): Collected {
    if svs == [] then Collected([], [], []) else Step(Collect(svs[..|svs| - 1]), svs[|svs| - 1])
  }

  lemma CollectSnoc(svs: seq<SampledValue>, sv: SampledValue)
    ensures Collect(svs + [sv]) == Step(Collect(svs), sv)
  {
    assert (svs + [sv])[..|svs|] == svs;
  }

  function Voltages(rows: seq<Event>): seq<real> {
    Collect(SamplesOfRows(rows)).voltages
  }

  function Currents(rows: seq<Event>): seq<real> {
    Collect(SamplesOfRows(rows)).currents
  }

  /** `Power.Active.Import` readings converted from W to kW. */
  function PowersKw(rows: seq<Event>): seq<real> {
    Collect(SamplesOfRows(rows)).powersKw
  }

  function Sum(xs: seq<real>): real {
    if xs == [] then 0.0 else Sum(xs[..|xs| - 1]) + xs[|xs| - 1]
  }

  /** A sum of non-negative values is non-negative, and 0 only when every value is 0. */
  lemma {:induction false} SumNonNegative(xs: seq<real>)
    requires forall i :: 0 <= i < |xs| ==> xs[i] >= 0.0
    ensures Sum(xs) >= 0.0
    ensures Sum(xs) == 0.0 <==> forall i :: 0 <= i < |xs| ==> xs[i] == 0.0
  {
    if xs != [] {
      SumNonNegative(xs[..|xs| - 1]);
    }
  }

  /** Scaling every value scales the sum. */
  lemma {:induction false} SumScaled(xs: seq<real>, ys: seq<real>, c: real)
    requires |ys| == |xs|
    requires forall i :: 0 <= i < |xs| ==> ys[i] == c * xs[i]
    ensures Sum(ys) == c * Sum(xs)
  {
    if xs != [] {
      SumScaled(xs[..|xs| - 1], ys[..|ys| - 1], c);
    }
  }

  /** `sum(xs) / len(xs) if xs else 0`. */
  function Mean(xs: seq<real>): real {
    if |xs| > 0 then Sum(xs) / (|xs| as real) else 0.0
  }

  /** Python's `max(xs)`: an element of `xs` no smaller than any other. */
  function Max(xs: seq<real>): (m: real)
    requires |xs| > 0
    ensures m in xs
    ensures forall i :: 0 <= i < |xs| ==> xs[i] <= m
  {
    if |xs| == 1 then xs[0]
    else
      var rest := Max(xs[1..]);
      if xs[0] > rest then xs[0] else rest
  }

  /** The mean of positive values is positive exactly when there is a value. */
  lemma MeanOfPositives(xs: seq<real>)
    requires forall i :: 0 <= i < |xs| ==> xs[i] > 0.0
    ensures Mean(xs) > 0.0 <==> xs != []
  {
    if xs != [] {
      SumNonNegative(xs);
      assert xs[0] != 0.0;
    }
  }

  /** `max(xs) if xs else 0`. */
  function MaxOrZero(xs: seq<real>): (m: real)
    ensures xs == [] ==> m == 0.0
    ensures xs != [] ==> m in xs && forall i :: 0 <= i < |xs| ==> xs[i] <= m
  {
    if |xs| > 0 then Max(xs) else 0.0
  }

  /** The innermost loop: file every sampled value of one MeterValue entry. */
  method FileSamples(svs: seq<SampledValue>, voltages: seq<real>, currents: seq<real>, powers: seq<real>,
                     ghost seen: seq<SampledValue>)
    returns (voltages': seq<real>, currents': seq<real>, powers': seq<real>)
    requires Collected(voltages, currents, powers) == Collect(seen)
    ensures Collected(voltages', currents', powers') == Collect(seen + svs)
  {
    voltages', currents', powers' := voltages, currents, powers;
    assert seen + svs[..0] == seen;
    for k := 0 to |svs|
      invariant Collected(voltages', currents', powers') == Collect(seen + svs[..k])
    {
      var sv := svs[k];
      var measurand := sv.measurand.GetOr("");
      var reading := Reading(sv.value);
      if reading.Some? {
        var value := reading.value;
        if measurand == "Voltage" {
          voltages' := voltages' + [value];
        } else if measurand == "Current.Import" {
          currents' := currents' + [value];
        } else if measurand == "Power.Active.Import" {
          powers' := powers' + [value / 1000.0];
        }
      }
      CollectSnoc(seen + svs[..k], sv);
      assert seen + svs[..k + 1] == (seen + svs[..k]) + [sv];
    }
    assert svs[..|svs|] == svs;
  }

  /** The middle loop: file the samples of every MeterValue entry of one row. */
  method FileMeterValues(mvs: seq<MeterValue>, voltages: seq<real>, currents: seq<real>, powers: seq<real>,
                         ghost seen: seq<SampledValue>)
    returns (voltages': seq<real>, currents': seq<real>, powers': seq<real>)
    requires Collected(voltages, currents, powers) == Collect(seen)
    ensures Collected(voltages', currents', powers') == Collect(seen + SamplesOfMeterValues(mvs))
  {
    voltages', currents', powers' := voltages, currents, powers;
    assert seen + SamplesOfMeterValues(mvs[..0]) == seen;
    for j := 0 to |mvs|
      invariant Collected(voltages', currents', powers') == Collect(seen + SamplesOfMeterValues(mvs[..j]))
    {
      voltages', currents', powers' := FileSamples(mvs[j].sampledValue, voltages', currents', powers',
                                                   seen + SamplesOfMeterValues(mvs[..j]));
      assert mvs[..j + 1][..j] == mvs[..j];
      assert seen + SamplesOfMeterValues(mvs[..j + 1]) == (seen + SamplesOfMeterValues(mvs[..j])) + mvs[j].sampledValue;
    }
    assert mvs[..|mvs|] == mvs;
  }

  method ExtractMeterStats(meterRows: seq<Event>) returns (avgVoltage: real, avgCurrent: real, maxPower: real)
    ensures avgVoltage == Mean(Voltages(meterRows))
    ensures avgCurrent == Mean(Currents(meterRows))
    ensures PowersKw(meterRows) == [] ==> maxPower == 0.0
    ensures PowersKw(meterRows) != [] ==>
              maxPower in PowersKw(meterRows) &&
              forall i :: 0 <= i < |PowersKw(meterRows)| ==> PowersKw(meterRows)[i] <= maxPower
    ensures maxPower == MaxOrZero(PowersKw(meterRows))
  {
    if |meterRows| == 0 {
      return 0.0, 0.0, 0.0;
    }
    var voltages: seq<real> := [];
    var currents: seq<real> := [];
    var powers: seq<real> := [];
    for i := 0 to |meterRows|
      invariant Collected(voltages, currents, powers) == Collect(SamplesOfRows(meterRows[..i]))
    {
      voltages, currents, powers := FileMeterValues(meterRows[i].payload.meterValue, voltages, currents, powers,
                                                    SamplesOfRows(meterRows[..i]));
      assert meterRows[..i + 1][..i] == meterRows[..i];
    }
    assert meterRows[..|meterRows|] == meterRows;
    avgVoltage, avgCurrent, maxPower := Mean(voltages), Mean(currents), MaxOrZero(powers);
  }
}
