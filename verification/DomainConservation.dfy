/**
Conservation of energy over domains. A domain that some sweep does not list still has power there:
what its trace interpolates. The domains exceed the whole by exactly the energy of that power.
 */
module DomainConservation {
  import opened Outcomes
  import opened PowerTrace
  import opened PowerAtTime
  import opened PowerEvidence
  import opened PowerSummary
  import opened PowerConservation

  // ----- the traces of a domain -----

  lemma {:induction false} SeriesMembers(evidence: Evidence, scope: Scope)
    ensures forall s :: s in SeriesOf(evidence, scope) <==>
              exists i | 0 <= i < |evidence| :: s in Contribution(evidence[i], scope)
  {
    if evidence != [] {
      SeriesMembers(evidence[1..], scope);
      assert forall i | 1 <= i < |evidence| :: evidence[i] == evidence[1..][i - 1];
      assert SeriesOf(evidence, scope) == Contribution(evidence[0], scope) + SeriesOf(evidence[1..], scope);
    }
  }

  predicate Listed(evidence: Evidence, name: string, i: nat)
    requires i < |evidence|
  {
    name in Keys(evidence[i].domains)
  }

  function Reading(evidence: Evidence, name: string, i: nat): real
    requires i < |evidence|
  {
    Value(evidence[i].domains, name)
  }

  /** The domain's readings at all sweep times, 0 where a sweep does not list it. */
  function ListedPower(evidence: Evidence, name: string): Series {
    seq(|evidence|, i requires 0 <= i < |evidence| => Sample(evidence[i].timestamp, Reading(evidence, name, i)))
  }

  /** What the domain's trace interpolates at the times of the sweeps that do not list it. */
  function InventedPower(evidence: Evidence, name: string): Series {
    seq(|evidence|, i requires 0 <= i < |evidence| =>
      Sample(evidence[i].timestamp,
             if Listed(evidence, name, i) then 0.0
             else PowerAt(SeriesOf(evidence, Domain(name)), evidence[i].timestamp)))
  }

  /** The domain's trace sampled at all sweep times. */
  function FilledPower(evidence: Evidence, name: string): Series {
    Add(ListedPower(evidence, name), InventedPower(evidence, name))
  }

  lemma ListedSample(evidence: Evidence, name: string, i: nat)
    requires name != MONITORED && i < |evidence| && Listed(evidence, name, i)
    ensures Sample(evidence[i].timestamp, Reading(evidence, name, i)) in SeriesOf(evidence, Domain(name))
  {
    SeriesMembers(evidence, Domain(name));
    assert Contribution(evidence[i], Domain(name)) == [Sample(evidence[i].timestamp, Reading(evidence, name, i))];
  }

  lemma SampleIsListed(evidence: Evidence, name: string, j: nat) returns (i: nat)
    requires name != MONITORED && j < |SeriesOf(evidence, Domain(name))|
    ensures i < |evidence| && Listed(evidence, name, i)
    ensures SeriesOf(evidence, Domain(name))[j] == Sample(evidence[i].timestamp, Reading(evidence, name, i))
  {
    var series := SeriesOf(evidence, Domain(name));
    SeriesMembers(evidence, Domain(name));
    assert series[j] in series;
    i :| 0 <= i < |evidence| && series[j] in Contribution(evidence[i], Domain(name));
  }

  /** At the times of its sweeps the filled trace has the power of the domain's own trace. */
  lemma FilledIsPower(evidence: Evidence, name: string, i: nat)
    requires name != MONITORED && i < |evidence| && Increasing(SeriesOf(evidence, Domain(name)))
    ensures FilledPower(evidence, name)[i]
         == Sample(evidence[i].timestamp, PowerAt(SeriesOf(evidence, Domain(name)), evidence[i].timestamp))
  {
    var series := SeriesOf(evidence, Domain(name));
    if Listed(evidence, name, i) {
      ListedSample(evidence, name, i);
      var k :| 0 <= k < |series| && series[k] == Sample(evidence[i].timestamp, Reading(evidence, name, i));
      InterpolateAtSample(series, k);
    } else {
      ValueMissing(evidence[i].domains, name);
    }
  }

  /** Evidence with increasing sweep times, and a domain whose own trace covers the interval. */
  ghost predicate Spans(evidence: Evidence, name: string, start: int, end: int) {
    && name != MONITORED && InTimeOrder(evidence)
    && Measurable(SeriesOf(evidence, Domain(name)), start, end)
  }

  /** Sampled at the times of the sweeps. */
  predicate AtSweeps(series: Series, evidence: Evidence) {
    |series| == |evidence| && forall i | 0 <= i < |evidence| :: series[i].time == evidence[i].timestamp
  }

  predicate SweepsCover(evidence: Evidence, start: int, end: int) {
    evidence != [] && evidence[0].timestamp <= start <= end <= evidence[|evidence| - 1].timestamp
  }

  lemma DomainSpansSweeps(evidence: Evidence, name: string, start: int, end: int)
    requires Spans(evidence, name, start, end)
    ensures SweepsCover(evidence, start, end)
  {
    var series := SeriesOf(evidence, Domain(name));
    var first := SampleIsListed(evidence, name, 0);
    var last := SampleIsListed(evidence, name, |series| - 1);
    var n := |evidence| - 1;
    assert first > 0 ==> evidence[0].timestamp < evidence[first].timestamp;
    assert last < n ==> evidence[last].timestamp < evidence[n].timestamp;
  }

  lemma AtSweepsIsMeasurable(series: Series, evidence: Evidence, start: int, end: int)
    requires AtSweeps(series, evidence) && InTimeOrder(evidence) && SweepsCover(evidence, start, end)
    ensures Measurable(series, start, end)
  {
    forall i, j | 0 <= i < j < |series|
      ensures series[i].time < series[j].time
    {
      assert evidence[i].timestamp < evidence[j].timestamp;
    }
  }

  lemma AllMeasurable(evidence: Evidence, name: string, start: int, end: int)
    requires Spans(evidence, name, start, end)
    ensures Measurable(FilledPower(evidence, name), start, end)
    ensures Measurable(ListedPower(evidence, name), start, end)
    ensures Measurable(InventedPower(evidence, name), start, end)
  {
    DomainSpansSweeps(evidence, name, start, end);
    AtSweepsIsMeasurable(FilledPower(evidence, name), evidence, start, end);
    AtSweepsIsMeasurable(ListedPower(evidence, name), evidence, start, end);
    AtSweepsIsMeasurable(InventedPower(evidence, name), evidence, start, end);
  }

  lemma SweepIsNotBetween(evidence: Evidence, i: nat, k: nat)
    requires InTimeOrder(evidence) && i < |evidence| && k + 1 < |evidence|
    ensures !(evidence[k].timestamp < evidence[i].timestamp < evidence[k + 1].timestamp)
  {
    if i < k {
      assert evidence[i].timestamp < evidence[k].timestamp;
    } else if k + 1 < i {
      assert evidence[k + 1].timestamp < evidence[i].timestamp;
    }
  }

  lemma NoSampleBetweenSweeps(evidence: Evidence, name: string, k: nat)
    requires name != MONITORED && InTimeOrder(evidence) && k + 1 < |evidence|
    ensures NoneInside(SeriesOf(evidence, Domain(name)), evidence[k].timestamp, evidence[k + 1].timestamp)
  {
    var series := SeriesOf(evidence, Domain(name));
    forall j | 0 <= j < |series|
      ensures !(evidence[k].timestamp < series[j].time < evidence[k + 1].timestamp)
    {
      var i := SampleIsListed(evidence, name, j);
      SweepIsNotBetween(evidence, i, k);
    }
  }

  lemma SegmentIsSpanned(evidence: Evidence, name: string, k: nat, start: int, end: int, time: int)
    requires Spans(evidence, name, start, end) && start <= time <= end
    requires k + 1 < |evidence| && evidence[k].timestamp < time < evidence[k + 1].timestamp
    ensures Measurable(SeriesOf(evidence, Domain(name)), evidence[k].timestamp, evidence[k + 1].timestamp)
  {
    var series := SeriesOf(evidence, Domain(name));
    NoSampleBetweenSweeps(evidence, name, k);
    assert series[0].time <= evidence[k].timestamp && evidence[k + 1].timestamp <= Last(series).time;
  }

  lemma FilledPowerAt(evidence: Evidence, name: string, start: int, end: int, time: int)
    requires Spans(evidence, name, start, end) && start <= time <= end
    ensures PowerAt(FilledPower(evidence, name), time) == PowerAt(SeriesOf(evidence, Domain(name)), time)
  {
    var filled := FilledPower(evidence, name);
    AllMeasurable(evidence, name, start, end);
    var k := Locate(filled, time);
    FilledIsPower(evidence, name, k);
    if time == filled[k].time {
      InterpolateAtSample(filled, k);
    } else {
      FilledIsPower(evidence, name, k + 1);
      InterpolateBetween(filled, k, time);
      SegmentIsSpanned(evidence, name, k, start, end, time);
      NoSampleBetweenSweeps(evidence, name, k);
      LinearBetween(SeriesOf(evidence, Domain(name)), evidence[k].timestamp, evidence[k + 1].timestamp, time);
    }
  }

  /** A domain's energy is that of its readings and that of the power invented for it. */
  lemma EnergyOfDomain(evidence: Evidence, name: string, start: int, end: int)
    requires Spans(evidence, name, start, end)
    ensures Measurable(ListedPower(evidence, name), start, end)
    ensures Measurable(InventedPower(evidence, name), start, end)
    ensures Energy(SeriesOf(evidence, Domain(name)), start, end)
         == Energy(ListedPower(evidence, name), start, end) + Energy(InventedPower(evidence, name), start, end)
  {
    AllMeasurable(evidence, name, start, end);
    forall time | start <= time <= end
      ensures PowerAt(FilledPower(evidence, name), time) == PowerAt(SeriesOf(evidence, Domain(name)), time)
    {
      FilledPowerAt(evidence, name, start, end, time);
    }
    SamePowerSameEnergy(FilledPower(evidence, name), SeriesOf(evidence, Domain(name)), start, end);
    EnergyAdds(ListedPower(evidence, name), InventedPower(evidence, name), start, end);
  }

  // ----- all domains together -----

  /** The energy over an interval, 0 where the trace does not cover it. */
  function EnergyWithin(series: Series, start: int, end: int): real {
    match Clip(series, start, end)
    case Some(clipped) => Integrate(clipped)
    case None => 0.0
  }

  /** The energy of the domains' own traces. */
  function DomainsEnergy(evidence: Evidence, names: seq<string>, start: int, end: int): real {
    if names == [] then 0.0
    else
      EnergyWithin(SeriesOf(evidence, Domain(names[0])), start, end) + DomainsEnergy(evidence, names[1..], start, end)
  }

  /** The energy of the power invented for domains at sweeps that do not list them. */
  function InventedEnergy(evidence: Evidence, names: seq<string>, start: int, end: int): real {
    if names == [] then 0.0
    else EnergyWithin(InventedPower(evidence, names[0]), start, end) + InventedEnergy(evidence, names[1..], start, end)
  }

  lemma SumTraceAdds(evidence: Evidence, names: seq<string>)
    requires names != []
    ensures SameTimes(ListedPower(evidence, names[0]), SumTrace(evidence, Domains, names[1..]))
    ensures SumTrace(evidence, Domains, names)
         == Add(ListedPower(evidence, names[0]), SumTrace(evidence, Domains, names[1..]))
  {
  }

  lemma {:induction false} ZeroTrace(series: Series, start: int, end: int)
    requires Measurable(series, start, end) && forall i | 0 <= i < |series| :: series[i].watts == 0.0
    ensures Energy(series, start, end) == 0.0
  {
    EnergyInHull(series, start, end, 0.0, 0.0, Seconds(start, end));
  }

  lemma EnergyIsWithin(series: Series, start: int, end: int)
    requires Measurable(series, start, end)
    ensures EnergyWithin(series, start, end) == Energy(series, start, end)
  {
    ClipEnergy(series, start, end);
  }

  lemma OneMoreDomain(evidence: Evidence, names: seq<string>, start: int, end: int)
    requires names != [] && Spans(evidence, names[0], start, end)
    requires Measurable(SumTrace(evidence, Domains, names[1..]), start, end)
    ensures Measurable(SumTrace(evidence, Domains, names), start, end)
    ensures EnergyWithin(SeriesOf(evidence, Domain(names[0])), start, end)
            + Energy(SumTrace(evidence, Domains, names[1..]), start, end)
         == Energy(SumTrace(evidence, Domains, names), start, end)
            + EnergyWithin(InventedPower(evidence, names[0]), start, end)
  {
    EnergyOfDomain(evidence, names[0], start, end);
    EnergyIsWithin(SeriesOf(evidence, Domain(names[0])), start, end);
    EnergyIsWithin(InventedPower(evidence, names[0]), start, end);
    SumTraceAdds(evidence, names);
    EnergyAdds(ListedPower(evidence, names[0]), SumTrace(evidence, Domains, names[1..]), start, end);
  }

  lemma {:induction false} DomainsEnergyIs(evidence: Evidence, names: seq<string>, start: int, end: int)
    requires InTimeOrder(evidence) && SweepsCover(evidence, start, end)
    requires forall name | name in names :: Spans(evidence, name, start, end)
    ensures Measurable(SumTrace(evidence, Domains, names), start, end)
    ensures DomainsEnergy(evidence, names, start, end)
         == Energy(SumTrace(evidence, Domains, names), start, end) + InventedEnergy(evidence, names, start, end)
  {
    AtSweepsIsMeasurable(SumTrace(evidence, Domains, names), evidence, start, end);
    if names == [] {
      ZeroTrace(SumTrace(evidence, Domains, names), start, end);
    } else {
      DomainsEnergyIs(evidence, names[1..], start, end);
      OneMoreDomain(evidence, names, start, end);
    }
  }

  /** The names include every domain of every sweep, and each of them spans the interval. */
  ghost predicate AllDomains(evidence: Evidence, names: seq<string>, start: int, end: int) {
    && Distinct(names) && InTimeOrder(evidence) && SweepsCover(evidence, start, end)
    && NoMonitoredDomain(evidence)
    && (forall i | 0 <= i < |evidence| :: WellFormed(evidence[i]))
    && (forall i, name | 0 <= i < |evidence| && name in Keys(evidence[i].domains) :: name in names)
    && forall name | name in names :: Spans(evidence, name, start, end)
  }

  lemma WholeIsListedPower(evidence: Evidence, names: seq<string>, start: int, end: int)
    requires AllDomains(evidence, names, start, end)
    ensures SeriesOf(evidence, Domain(MONITORED)) == SumTrace(evidence, Domains, names)
  {
    MonitoredSeries(evidence);
    var whole, sum := SeriesOf(evidence, Domain(MONITORED)), SumTrace(evidence, Domains, names);
    forall i | 0 <= i < |evidence|
      ensures whole[i] == sum[i]
    {
      WholeIsSum(evidence[i], Domains, names);
    }
  }

  /** The domains exceed everything monitored by exactly the energy of the invented power, whatever the readings. */
  lemma DomainsExceedByInvented(evidence: Evidence, names: seq<string>, start: int, end: int)
    requires AllDomains(evidence, names, start, end)
    ensures Measurable(SeriesOf(evidence, Domain(MONITORED)), start, end)
    ensures DomainsEnergy(evidence, names, start, end)
         == Energy(SeriesOf(evidence, Domain(MONITORED)), start, end) + InventedEnergy(evidence, names, start, end)
  {
    WholeIsListedPower(evidence, names, start, end);
    DomainsEnergyIs(evidence, names, start, end);
  }

  // ----- when nothing is invented -----

  /** Sweep i is around the interval: from the last at or before its start to the first at or after its end. */
  predicate SweepAround(evidence: Evidence, i: nat, start: int, end: int) {
    && i < |evidence|
    && (i + 1 < |evidence| ==> start < evidence[i + 1].timestamp)
    && (i > 0 ==> evidence[i - 1].timestamp < end)
  }

  predicate ListedAround(evidence: Evidence, name: string, start: int, end: int) {
    forall i | 0 <= i < |evidence| && SweepAround(evidence, i, start, end) :: Listed(evidence, name, i)
  }

  predicate PositiveReadings(evidence: Evidence) {
    forall i, name | 0 <= i < |evidence| && name in Keys(evidence[i].domains) :: Reading(evidence, name, i) > 0.0
  }

  /** A trace of positive readings has positive power wherever it reaches. */
  lemma PositivePower(evidence: Evidence, name: string, time: int)
    requires name != MONITORED && PositiveReadings(evidence)
    requires Increasing(SeriesOf(evidence, Domain(name)))
    ensures Covers(SeriesOf(evidence, Domain(name)), time) ==> PowerAt(SeriesOf(evidence, Domain(name)), time) > 0.0
    ensures PowerAt(SeriesOf(evidence, Domain(name)), time) >= 0.0
  {
    var series := SeriesOf(evidence, Domain(name));
    if Covers(series, time) {
      var k := Locate(series, time);
      var i := SampleIsListed(evidence, name, k);
      if time == series[k].time {
        InterpolateAtSample(series, k);
      } else {
        var j := SampleIsListed(evidence, name, k + 1);
        InterpolateBetween(series, k, time);
        OnLineZeroIff(series[k], series[k + 1], time);
      }
    } else if PowerAt(series, time) != 0.0 {
      InterpolateCovers(series, time);
    }
  }

  lemma TimesInOrder(evidence: Evidence, i: nat, j: nat)
    requires InTimeOrder(evidence) && i < |evidence| && j < |evidence|
    ensures i <= j ==> evidence[i].timestamp <= evidence[j].timestamp
  {
    if i < j {
      assert evidence[i].timestamp < evidence[j].timestamp;
    }
  }

  /** Around the interval every sweep time is within the domain's own trace. */
  lemma AroundIsCovered(evidence: Evidence, name: string, i: nat, start: int, end: int)
    requires Spans(evidence, name, start, end) && start < end && SweepAround(evidence, i, start, end)
    ensures Covers(SeriesOf(evidence, Domain(name)), evidence[i].timestamp)
  {
    var series := SeriesOf(evidence, Domain(name));
    var first := SampleIsListed(evidence, name, 0);
    var last := SampleIsListed(evidence, name, |series| - 1);
    if i + 1 < |evidence| {
      TimesInOrder(evidence, i + 1, first);
    }
    if i > 0 {
      TimesInOrder(evidence, last, i - 1);
    }
    TimesInOrder(evidence, first, i);
    TimesInOrder(evidence, i, last);
  }

  lemma InventedAt(evidence: Evidence, name: string, i: nat, start: int, end: int)
    requires Spans(evidence, name, start, end) && start < end && PositiveReadings(evidence) && i < |evidence|
    ensures InventedPower(evidence, name)[i].watts >= 0.0
    ensures SweepAround(evidence, i, start, end) ==>
              (InventedPower(evidence, name)[i].watts == 0.0 <==> Listed(evidence, name, i))
  {
    PositivePower(evidence, name, evidence[i].timestamp);
    if SweepAround(evidence, i, start, end) {
      AroundIsCovered(evidence, name, i, start, end);
    }
  }

  lemma SameAround(evidence: Evidence, series: Series, i: nat, start: int, end: int)
    requires AtSweeps(series, evidence)
    ensures SweepAround(evidence, i, start, end) <==> Around(series, i, start, end)
  {
  }

  lemma ZeroIffListed(evidence: Evidence, name: string, start: int, end: int)
    requires forall i | 0 <= i < |evidence| && SweepAround(evidence, i, start, end) ::
               InventedPower(evidence, name)[i].watts == 0.0 <==> Listed(evidence, name, i)
    ensures ZeroAround(InventedPower(evidence, name), start, end) <==> ListedAround(evidence, name, start, end)
  {
    var invented := InventedPower(evidence, name);
    forall i: nat
      ensures SweepAround(evidence, i, start, end) <==> Around(invented, i, start, end)
    {
      SameAround(evidence, invented, i, start, end);
    }
  }

  /** No energy is invented for a domain exactly when every sweep around the interval lists it. */
  lemma NothingInventedIff(evidence: Evidence, name: string, start: int, end: int)
    requires Spans(evidence, name, start, end) && start < end && PositiveReadings(evidence)
    ensures EnergyWithin(InventedPower(evidence, name), start, end) >= 0.0
    ensures EnergyWithin(InventedPower(evidence, name), start, end) == 0.0 <==> ListedAround(evidence, name, start, end)
  {
    AllMeasurable(evidence, name, start, end);
    EnergyIsWithin(InventedPower(evidence, name), start, end);
    forall i: nat | i < |evidence|
      ensures InventedPower(evidence, name)[i].watts >= 0.0
      ensures SweepAround(evidence, i, start, end) ==>
                (InventedPower(evidence, name)[i].watts == 0.0 <==> Listed(evidence, name, i))
    {
      InventedAt(evidence, name, i, start, end);
    }
    NoEnergyIffZeroAround(InventedPower(evidence, name), start, end);
    ZeroIffListed(evidence, name, start, end);
  }

  predicate AllListedAround(evidence: Evidence, names: seq<string>, start: int, end: int) {
    forall name | name in names :: ListedAround(evidence, name, start, end)
  }

  lemma {:induction false} NothingInventedAtAllIff(evidence: Evidence, names: seq<string>, start: int, end: int)
    requires forall name | name in names :: Spans(evidence, name, start, end)
    requires start < end && PositiveReadings(evidence)
    ensures InventedEnergy(evidence, names, start, end) >= 0.0
    ensures InventedEnergy(evidence, names, start, end) == 0.0 <==> AllListedAround(evidence, names, start, end)
  {
    if names != [] {
      NothingInventedIff(evidence, names[0], start, end);
      NothingInventedAtAllIff(evidence, names[1..], start, end);
      assert names == [names[0]] + names[1..];
    }
  }

  // ----- accepted evidence -----

  predicate PositiveRows(rows: seq<Row>) {
    forall i | 0 <= i < |rows| :: rows[i].powerUw > 0
  }

  predicate Positive(dict: Dict) {
    forall i | 0 <= i < |dict| :: dict[i].1 > 0.0
  }

  lemma {:induction false} AccumulatePositive(dict: Dict, key: string, watts: real)
    requires Positive(dict) && watts > 0.0
    ensures Positive(Accumulate(dict, key, watts))
  {
    if dict != [] && dict[0].0 != key {
      AccumulatePositive(dict[1..], key, watts);
    }
  }

  lemma {:induction false} SumsPositive(rows: seq<Row>)
    requires PositiveRows(rows)
    ensures Positive(DomainSums(rows))
  {
    if rows != [] {
      var n := |rows| - 1;
      SumsPositive(rows[..n]);
      AccumulatePositive(DomainSums(rows[..n]), rows[n].domain, Watts(rows[n]));
    }
  }

  lemma {:induction false} PositiveValue(dict: Dict, key: string)
    requires Positive(dict) && key in Keys(dict)
    ensures Value(dict, key) > 0.0
  {
    if dict[0].0 != key {
      assert dict == [dict[0]] + dict[1..];
      KeysOfCons(dict[0], dict[1..]);
      PositiveValue(dict[1..], key);
    }
  }

  lemma {:induction false} RowsOfPositive(rows: seq<Row>, n: nat, sample: int)
    requires n <= |rows| && PositiveRows(rows)
    ensures PositiveRows(RowsBefore(rows, n, sample))
  {
    if n > 0 {
      RowsOfPositive(rows, n - 1, sample);
    }
  }

  lemma ParsedPositive(rows: seq<Row>, order: seq<int>, evidence: Evidence)
    requires IsParsed(rows, order, evidence) && PositiveRows(rows)
    ensures PositiveReadings(evidence)
  {
    forall i, name | 0 <= i < |evidence| && name in Keys(evidence[i].domains)
      ensures Reading(evidence, name, i) > 0.0
    {
      RowsOfPositive(rows, |rows|, order[i]);
      SumsPositive(RowsOf(rows, order[i]));
      PositiveValue(evidence[i].domains, name);
    }
  }

  lemma MeasuredIsMeasurable(idle: Series, active: Series, start: int, end: int)
    requires Measure(idle, active, start, end).Some?
    ensures start < end && Measurable(active, start, end)
    ensures Measure(idle, active, start, end).value.activeEnergy == EnergyWithin(active, start, end)
  {
    MonotonicIncreasing(active);
    ClipShapeCovers(active, start, end);
  }

  function WholeMeasure(idle: Evidence, active: Evidence, start: int, end: int): Option<Measurement> {
    Measure(SeriesOf(idle, Domain(MONITORED)), SeriesOf(active, Domain(MONITORED)), start, end)
  }

  lemma AcceptedInOrder(idle: Evidence, active: Evidence, start: int, end: int)
    requires Accepted(idle, active, start, end)
    ensures NoMonitoredDomain(active) && InTimeOrder(active) && SweepsCover(active, start, end)
  {
    var whole := SeriesOf(active, Domain(MONITORED));
    MeasuredIsMeasurable(SeriesOf(idle, Domain(MONITORED)), whole, start, end);
    MonitoredDomainRejected(active);
    MonitoredSeries(active);
    forall i, j | 0 <= i < j < |active|
      ensures active[i].timestamp < active[j].timestamp
    {
      assert whole[i].time < whole[j].time;
    }
  }

  /** The domains of accepted evidence are all its domains, and each spans the launch interval. */
  lemma AcceptedDomains(idle: Evidence, rows: seq<Row>, order: seq<int>, active: Evidence, names: seq<string>,
                        start: int, end: int)
    requires IsParsed(rows, order, active) && Accepted(idle, active, start, end) && Enumerates(active, Domains, names)
    ensures AllDomains(active, names, start, end)
    ensures forall name | name in names :: PartMeasure(idle, active, Domains, name, start, end).Some?
  {
    AcceptedInOrder(idle, active, start, end);
    EvidenceWellFormed(rows, order, active);
    forall i, name | 0 <= i < |active| && name in Keys(active[i].domains)
      ensures name in names
    {
      HasScopeIff(active, Domain(name));
      assert Contribution(active[i], Domain(name)) != [];
    }
    forall name | name in names
      ensures Spans(active, name, start, end)
      ensures PartMeasure(idle, active, Domains, name, start, end).Some?
    {
      assert HasScope(active, Domain(name));
      MeasuredIsMeasurable(SeriesOf(idle, Domain(name)), SeriesOf(active, Domain(name)), start, end);
    }
  }

  lemma {:induction false} ActiveEnergyOfSum(idle: Evidence, active: Evidence, names: seq<string>, start: int, end: int)
    requires names != []
    requires forall name | name in names :: PartMeasure(idle, active, Domains, name, start, end).Some?
    ensures SumOfMeasures(idle, active, Domains, names, start, end).activeEnergy
         == DomainsEnergy(active, names, start, end)
  {
    assert PartMeasure(idle, active, Domains, names[0], start, end).Some?;
    MeasuredIsMeasurable(SeriesOf(idle, Domain(names[0])), SeriesOf(active, Domain(names[0])), start, end);
    if |names| > 1 {
      ActiveEnergyOfSum(idle, active, names[1..], start, end);
    } else {
      assert DomainsEnergy(active, names[1..], start, end) == 0.0;
    }
  }

  /**
  With positive readings the domains' active energies are at least that of everything monitored, and
  equal to it exactly when every sweep from the last at or before the launch interval to the first at
  or after it lists every domain.
   */
  lemma DomainsAddUpIff(idle: Evidence, rows: seq<Row>, order: seq<int>, active: Evidence, domains: seq<string>,
                        start: int, end: int)
    requires IsParsed(rows, order, active) && PositiveRows(rows)
    requires Accepted(idle, active, start, end) && Enumerates(active, Domains, domains)
    ensures domains != [] && forall name | name in domains :: PartMeasure(idle, active, Domains, name, start, end).Some?
    ensures var whole := WholeMeasure(idle, active, start, end).value;
            var energy := SumOfMeasures(idle, active, Domains, domains, start, end).activeEnergy;
            && energy >= whole.activeEnergy
            && (energy == whole.activeEnergy <==> AllListedAround(active, domains, start, end))
  {
    AcceptedDomains(idle, rows, order, active, domains, start, end);
    NamesNotEmpty(active, Domains, domains);
    ActiveEnergyOfSum(idle, active, domains, start, end);
    MeasuredIsMeasurable(SeriesOf(idle, Domain(MONITORED)), SeriesOf(active, Domain(MONITORED)), start, end);
    DomainsExceedByInvented(active, domains, start, end);
    ParsedPositive(rows, order, active);
    NothingInventedAtAllIff(active, domains, start, end);
  }

  // ----- the whole summary -----

  lemma {:induction false} IdleEnergyOfSum(idle: Evidence, active: Evidence, names: seq<string>, start: int, end: int)
    requires names != [] && MONITORED !in names && forall name | name in names :: AllHave(idle, Domains, name)
    requires forall name | name in names :: PartMeasure(idle, active, Domains, name, start, end).Some?
    ensures SumOfMeasures(idle, active, Domains, names, start, end).idleEnergy
         == Integrate(SumTrace(idle, Domains, names))
  {
    if |names| == 1 {
      OnePart(idle, Domains, names[0], names);
    } else {
      IdleEnergyOfSum(idle, active, names[1..], start, end);
      SumTraceStep(idle, Domains, names);
      IntegrateAdds(SeriesOf(idle, Domain(names[0])), SumTrace(idle, Domains, names[1..]));
    }
  }

  lemma DomainSeconds(idle: Evidence, active: Evidence, names: seq<string>, start: int, end: int)
    requires MONITORED !in names && forall name | name in names :: AllHave(idle, Domains, name)
    requires forall name | name in names :: PartMeasure(idle, active, Domains, name, start, end).Some?
    ensures forall i, j | 0 <= i < j < |names| :: SameSeconds(idle, active, Domains, names[i], names[j], start, end)
  {
    forall name | name in names
      ensures idle != []
      ensures var m := PartMeasure(idle, active, Domains, name, start, end).value;
              && m.idleSeconds == Seconds(idle[0].timestamp, idle[|idle| - 1].timestamp)
              && m.activeSeconds == Seconds(start, end)
    {
      PartSeconds(idle, active, Domains, name, start, end);
    }
  }

  lemma SameIdle(whole: Measurement, sum: Measurement)
    requires whole.idleSeconds == sum.idleSeconds > 0.0 && whole.activeSeconds == sum.activeSeconds > 0.0
    requires whole.idleEnergy == sum.idleEnergy
    ensures Summarize(whole) == Summarize(sum) <==> whole.activeEnergy == sum.activeEnergy
  {
  }

  lemma IdleDomains(idleRows: seq<Row>, idleOrder: seq<int>, idle: Evidence, active: Evidence,
                    domains: seq<string>, start: int, end: int)
    requires IsParsed(idleRows, idleOrder, idle) && SameParts(idle, Domains)
    requires Accepted(idle, active, start, end) && Enumerates(active, Domains, domains)
    ensures NoMonitoredDomain(idle) && forall name | name in domains :: AllHave(idle, Domains, name)
    ensures SeriesOf(idle, Domain(MONITORED)) == SumTrace(idle, Domains, domains)
  {
    EvidenceWellFormed(idleRows, idleOrder, idle);
    MonitoredDomainRejected(idle);
    assert Enumerates(idle, Domains, domains);
    EnumeratedPartsAreListed(idle, Domains, domains);
    WholeIsSumTrace(idle, Domains, domains);
  }

  lemma WholeSeconds(idle: Evidence, active: Evidence, start: int, end: int)
    requires Accepted(idle, active, start, end) && NoMonitoredDomain(idle)
    ensures idle != [] && WholeMeasure(idle, active, start, end).Some?
    ensures var whole := WholeMeasure(idle, active, start, end).value;
            && whole.idleSeconds == Seconds(idle[0].timestamp, idle[|idle| - 1].timestamp)
            && whole.activeSeconds == Seconds(start, end)
  {
    assert HasScope(active, Domain(MONITORED));
    MonitoredSeries(idle);
  }

  /** What the idle file contributes to a summary over domains when its sweeps all list the same domains. */
  lemma IdleIsConserved(idleRows: seq<Row>, idleOrder: seq<int>, idle: Evidence, active: Evidence,
                        domains: seq<string>, start: int, end: int)
    requires IsParsed(idleRows, idleOrder, idle) && SameParts(idle, Domains) && domains != []
    requires Accepted(idle, active, start, end) && Enumerates(active, Domains, domains)
    requires forall name | name in domains :: PartMeasure(idle, active, Domains, name, start, end).Some?
    ensures var whole := WholeMeasure(idle, active, start, end).value;
            var sum := SumOfMeasures(idle, active, Domains, domains, start, end);
            && sum.idleEnergy == whole.idleEnergy
            && sum.idleSeconds == whole.idleSeconds > 0.0 && sum.activeSeconds == whole.activeSeconds > 0.0
            && Summarize(sum) == SumSummaries(MeasuresOf(idle, active, Domains, domains, start, end))
  {
    IdleDomains(idleRows, idleOrder, idle, active, domains, start, end);
    WholeSeconds(idle, active, start, end);
    IdleEnergyOfSum(idle, active, domains, start, end);
    DomainSeconds(idle, active, domains, start, end);
    SummaryOfMeasures(idle, active, Domains, domains, start, end);
    PartSeconds(idle, active, Domains, domains[0], start, end);
  }

  /**
  With positive active readings, and idle sweeps that all list the same domains, the summary of
  everything monitored is the sum of the domains' summaries exactly when every sweep around the
  launch interval lists every domain.
   */
  lemma ConservedIff(idleRows: seq<Row>, idleOrder: seq<int>, idle: Evidence,
                     rows: seq<Row>, order: seq<int>, active: Evidence,
                     domains: seq<string>, start: int, end: int)
    requires IsParsed(idleRows, idleOrder, idle) && SameParts(idle, Domains)
    requires IsParsed(rows, order, active) && PositiveRows(rows)
    requires Accepted(idle, active, start, end) && Enumerates(active, Domains, domains)
    ensures Conserved(idle, active, Domains, domains, start, end) <==> AllListedAround(active, domains, start, end)
  {
    DomainsAddUpIff(idle, rows, order, active, domains, start, end);
    IdleIsConserved(idleRows, idleOrder, idle, active, domains, start, end);
    SameIdle(WholeMeasure(idle, active, start, end).value,
             SumOfMeasures(idle, active, Domains, domains, start, end));
  }

  lemma {:induction false} SummedEnergy(idle: Evidence, active: Evidence, names: seq<string>, start: int, end: int)
    requires names != []
    requires forall name | name in names :: PartMeasure(idle, active, Domains, name, start, end).Some?
    ensures SumSummaries(MeasuresOf(idle, active, Domains, names, start, end)).activeEnergy
         == SumOfMeasures(idle, active, Domains, names, start, end).activeEnergy
  {
    var measures := MeasuresOf(idle, active, Domains, names, start, end);
    if |names| > 1 {
      SummedEnergy(idle, active, names[1..], start, end);
      assert measures[1..] == MeasuresOf(idle, active, Domains, names[1..], start, end);
    }
  }

  /** Whatever the idle file holds, a domain missing around the launch interval breaks conservation. */
  lemma MissingDomainBreaks(idle: Evidence, rows: seq<Row>, order: seq<int>, active: Evidence, domains: seq<string>,
                            start: int, end: int)
    requires IsParsed(rows, order, active) && PositiveRows(rows)
    requires Accepted(idle, active, start, end) && Enumerates(active, Domains, domains)
    requires !AllListedAround(active, domains, start, end)
    ensures !Conserved(idle, active, Domains, domains, start, end)
  {
    DomainsAddUpIff(idle, rows, order, active, domains, start, end);
    SummedEnergy(idle, active, domains, start, end);
  }
}
