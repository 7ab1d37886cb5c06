/**
The second importer of the same power evidence, written independently for the CPU benchmark. On
everything the accelerator importer accepts the two compute the same measurements.
 */
module CpuPower {
  import opened Lists
  import opened Outcomes
  import opened PowerTrace
  import opened PowerEvidence
  import opened PowerSummary
  import opened PowerConservation

  datatype CpuSweep = CpuSweep(timestamp: int, domains: Dict)

  function CpuSweepOf(rows: seq<Row>): CpuSweep
    requires rows != []
  {
    CpuSweep(rows[0].timestamp, DomainSums(rows))
  }

  predicate HasCpuSweep(sweeps: map<int, CpuSweep>, rows: seq<Row>, n: nat, sample: int)
    requires n <= |rows|
  {
    var own := RowsBefore(rows, n, sample);
    (sample in sweeps <==> own != []) && (sample in sweeps ==> sweeps[sample] == CpuSweepOf(own))
  }

  function AddCpuRow(sweeps: map<int, CpuSweep>, row: Row): map<int, CpuSweep> {
    var sweep := if row.sample in sweeps then sweeps[row.sample] else CpuSweep(row.timestamp, []);
    sweeps[row.sample := CpuSweep(sweep.timestamp, Accumulate(sweep.domains, row.domain, Watts(row)))]
  }

  lemma HasCpuSweepNext(sweeps: map<int, CpuSweep>, rows: seq<Row>, i: nat, sample: int)
    requires i < |rows| && HasCpuSweep(sweeps, rows, i, sample)
    ensures HasCpuSweep(AddCpuRow(sweeps, rows[i]), rows, i + 1, sample)
  {
    var row, earlier := rows[i], RowsBefore(rows, i, sample);
    if sample == row.sample {
      var own := earlier + [row];
      SweepNext(earlier, row);
      assert own[0] == if earlier == [] then row else earlier[0];
      assert earlier == [] ==> DomainSums(earlier) == [];
      assert AddCpuRow(sweeps, row)[sample] == CpuSweepOf(own);
    } else {
      assert earlier + [] == earlier;
    }
  }

  ghost predicate IsMeteredByDomain(domains: Dict, rows: seq<Row>, sample: int) {
    forall domain :: Value(domains, domain) == DomainMicrowatts(rows, |rows|, sample, domain) as real / 1_000_000.0
  }

  lemma {:induction false} CpuSweepIsMetered(rows: seq<Row>, sample: int)
    ensures IsMeteredByDomain(DomainSums(RowsOf(rows, sample)), rows, sample)
  {
    forall domain
      ensures Value(DomainSums(RowsOf(rows, sample)), domain)
           == DomainMicrowatts(rows, |rows|, sample, domain) as real / 1_000_000.0
    {
      DomainPower(rows, |rows|, sample, domain);
    }
  }

  method ReadSweeps(rows: seq<Row>) returns (sweeps: map<int, CpuSweep>)
    ensures forall sample: int :: HasCpuSweep(sweeps, rows, |rows|, sample)
    ensures forall sample | sample in sweeps :: IsMeteredByDomain(sweeps[sample].domains, rows, sample)
  {
    sweeps := map[];
    for i := 0 to |rows|
      invariant forall sample: int :: HasCpuSweep(sweeps, rows, i, sample)
    {
      ghost var next := i + 1;
      forall sample: int
        ensures HasCpuSweep(AddCpuRow(sweeps, rows[i]), rows, next, sample)
      {
        assert HasCpuSweep(sweeps, rows, i, sample);
        HasCpuSweepNext(sweeps, rows, i, sample);
      }
      sweeps := AddCpuRow(sweeps, rows[i]);
    }
    forall sample | sample in sweeps
      ensures IsMeteredByDomain(sweeps[sample].domains, rows, sample)
    {
      assert HasCpuSweep(sweeps, rows, |rows|, sample);
      CpuSweepIsMetered(rows, sample);
    }
  }

  // ----- traces -----

  type CpuEvidence = seq<CpuSweep>

  function CpuContribution(sweep: CpuSweep, name: string): Series {
    (if name in Keys(sweep.domains) then [Sample(sweep.timestamp, Value(sweep.domains, name))] else [])
    + (if name == MONITORED then [Sample(sweep.timestamp, Total(sweep.domains))] else [])
  }

  function CpuSeriesOf(evidence: CpuEvidence, name: string): Series {
    if evidence == [] then [] else CpuContribution(evidence[0], name) + CpuSeriesOf(evidence[1..], name)
  }

  function AlongPairs(values: Series, time: int): Option<real> {
    if |values| < 2 then None
    else if time == values[0].time then Some(values[0].watts)
    else if values[0].time < time < values[1].time then Some(OnLine(values[0], values[1], time))
    else AlongPairs(values[1..], time)
  }

  /** The last sample is looked at first here, and last in the other importer. */
  function CpuInterpolate(values: Series, time: int): Option<real> {
    if values == [] then None
    else if time == Last(values).time then Some(Last(values).watts)
    else AlongPairs(values, time)
  }

  method CpuMeasure(idle: Series, active: Series, start: int, end: int) returns (r: Option<Measurement>)
    ensures r == CpuMeasurement(idle, active, start, end)
  {
    if |idle| < 2 || |active| < 2 {
      return None;
    }
    var first, last := CpuInterpolate(active, start), CpuInterpolate(active, end);
    if first.None? || last.None? {
      return None;
    }
    var clipped := [Sample(start, first.value)];
    for index := 0 to |active|
      invariant clipped + Inside(active[index..], start, end)
             == [Sample(start, first.value)] + Inside(active, start, end)
    {
      assert active[index..][1..] == active[index + 1..];
      if start < active[index].time < end {
        clipped := clipped + [active[index]];
      }
    }
    assert active[|active|..] == [] && clipped == [Sample(start, first.value)] + Inside(active, start, end);
    clipped := clipped + [Sample(end, last.value)];
    var idleSeconds := Seconds(idle[0].time, Last(idle).time);
    if idleSeconds == 0.0 || start == end {
      return None;
    }
    r := Some(Measurement(Integrate(idle), idleSeconds, Integrate(clipped), Seconds(start, end)));
  }

  function CpuMeasurement(idle: Series, active: Series, start: int, end: int): Option<Measurement> {
    if |idle| < 2 || |active| < 2 then None
    else match (CpuInterpolate(active, start), CpuInterpolate(active, end))
      case (Some(first), Some(last)) =>
        var clipped := [Sample(start, first)] + Inside(active, start, end) + [Sample(end, last)];
        var idleSeconds := Seconds(idle[0].time, Last(idle).time);
        if idleSeconds == 0.0 || start == end then None
        else Some(Measurement(Integrate(idle), idleSeconds, Integrate(clipped), Seconds(start, end)))
      case _ => None
  }

  // ----- agreement -----

  lemma {:induction false} PairsAgree(series: Series, time: int)
    requires Increasing(series) && series != [] && time != Last(series).time
    ensures AlongPairs(series, time) == Interpolate(series, time)
  {
    if |series| >= 2 {
      assert Last(series[1..]) == Last(series);
      PairsAgree(series[1..], time);
    }
  }

  lemma {:induction false} LastInterpolated(series: Series)
    requires Increasing(series) && series != []
    ensures Interpolate(series, Last(series).time) == Some(Last(series).watts)
  {
    if |series| >= 2 {
      assert Last(series[1..]) == Last(series);
      LastInterpolated(series[1..]);
    }
  }

  lemma InterpolationsAgree(series: Series, time: int)
    requires Increasing(series)
    ensures CpuInterpolate(series, time) == Interpolate(series, time)
  {
    if series != [] {
      if time == Last(series).time { LastInterpolated(series); } else { PairsAgree(series, time); }
    }
  }

  /** On any trace the accelerator importer measures, the CPU importer measures the same. */
  lemma MeasurementsAgree(idle: Series, active: Series, start: int, end: int)
    requires Measure(idle, active, start, end).Some?
    ensures CpuMeasurement(idle, active, start, end) == Measure(idle, active, start, end)
  {
    MonotonicIncreasing(idle);
    MonotonicIncreasing(active);
    InterpolationsAgree(active, start);
    InterpolationsAgree(active, end);
    ClipShapeCovers(active, start, end);
    ClipIs(active, start, end);
  }

  function Project(evidence: Evidence): CpuEvidence {
    seq(|evidence|, i requires 0 <= i < |evidence| => CpuSweep(evidence[i].timestamp, evidence[i].domains))
  }

  lemma {:induction false} SeriesAgree(evidence: Evidence, name: string)
    requires forall i | 0 <= i < |evidence| :: WellFormed(evidence[i])
    ensures CpuSeriesOf(Project(evidence), name) == SeriesOf(evidence, Domain(name))
  {
    if evidence != [] {
      assert Project(evidence)[1..] == Project(evidence[1..]);
      SeriesAgree(evidence[1..], name);
      assert WellFormed(evidence[0]);
    }
  }

  /** `evidence` is the sweeps the CPU importer reads from `rows`, one per sample index, by increasing index. */
  ghost predicate IsCpuEvidence(rows: seq<Row>, order: seq<int>, evidence: CpuEvidence) {
    && IsSampleOrder(order, rows) && |evidence| == |order|
    && forall i | 0 <= i < |order| ::
         RowsOf(rows, order[i]) != [] && evidence[i] == CpuSweepOf(RowsOf(rows, order[i]))
  }

  method ReadEvidence(rows: seq<Row>) returns (evidence: CpuEvidence, ghost order: seq<int>)
    ensures IsCpuEvidence(rows, order, evidence)
  {
    var sweeps := ReadSweeps(rows);
    var samples := SortedSamples(rows);
    forall i | 0 <= i < |samples|
      ensures HasCpuSweep(sweeps, rows, |rows|, samples[i]) && samples[i] in sweeps
    {
      assert samples[i] in samples;
    }
    evidence := seq(|samples|, i requires 0 <= i < |samples| => sweeps[samples[i]]);
    order := samples;
  }

  lemma SamplesOccur(rows: seq<Row>, order: seq<int>, other: seq<int>)
    requires IsSampleOrder(order, rows) && IsSampleOrder(other, rows)
    ensures forall i | 0 <= i < |order| :: order[i] in other
  {
    forall i | 0 <= i < |order|
      ensures order[i] in other
    {
      var sample := order[i];
      assert sample in order;
    }
  }

  /** From rows the accelerator importer accepts, the CPU importer reads the same sweeps without their rails. */
  lemma ReadIsProjection(rows: seq<Row>, order: seq<int>, evidence: Evidence, cpuOrder: seq<int>, cpu: CpuEvidence)
    requires IsEvidence(rows, order, evidence) && IsCpuEvidence(rows, cpuOrder, cpu)
    ensures cpu == Project(evidence)
  {
    SamplesOccur(rows, order, cpuOrder);
    SamplesOccur(rows, cpuOrder, order);
    OrderIsUnique(order, cpuOrder);
  }

  /** What the CPU importer demands of the evidence before it reports. */
  ghost predicate CpuAccepted(idle: CpuEvidence, active: CpuEvidence, start: int, end: int) {
    && (forall name: string :: CpuSeriesOf(idle, name) != [] <==> CpuSeriesOf(active, name) != [])
    && CpuSeriesOf(active, "PS") != [] && CpuSeriesOf(active, "PL") != [] && CpuSeriesOf(active, MONITORED) != []
    && 0 < start < end
    && forall name | name in {"PS", "PL", MONITORED} ::
         CpuMeasurement(CpuSeriesOf(idle, name), CpuSeriesOf(active, name), start, end).Some?
  }

  /** Whatever rows the accelerator importer accepts the CPU importer accepts, with the same measurements. */
  lemma ImportersAgree(idleRows: seq<Row>, idleOrder: seq<int>, idle: Evidence,
                       activeRows: seq<Row>, activeOrder: seq<int>, active: Evidence,
                       cpuIdleOrder: seq<int>, cpuIdle: CpuEvidence, cpuActiveOrder: seq<int>, cpuActive: CpuEvidence,
                       start: int, end: int)
    requires IsParsed(idleRows, idleOrder, idle) && IsParsed(activeRows, activeOrder, active)
    requires IsCpuEvidence(idleRows, cpuIdleOrder, cpuIdle) && IsCpuEvidence(activeRows, cpuActiveOrder, cpuActive)
    requires Accepted(idle, active, start, end)
    ensures CpuAccepted(cpuIdle, cpuActive, start, end)
    ensures forall name | name in {"PS", "PL", MONITORED} ::
              (CpuMeasurement(CpuSeriesOf(cpuIdle, name), CpuSeriesOf(cpuActive, name), start, end)
               == Measure(SeriesOf(idle, Domain(name)), SeriesOf(active, Domain(name)), start, end))
  {
    ReadIsProjection(idleRows, idleOrder, idle, cpuIdleOrder, cpuIdle);
    ReadIsProjection(activeRows, activeOrder, active, cpuActiveOrder, cpuActive);
    EvidenceWellFormed(idleRows, idleOrder, idle);
    EvidenceWellFormed(activeRows, activeOrder, active);
    ProjectionsAgree(idle, active, start, end);
  }

  lemma ProjectionsAgree(idle: Evidence, active: Evidence, start: int, end: int)
    requires forall i | 0 <= i < |idle| :: WellFormed(idle[i])
    requires forall i | 0 <= i < |active| :: WellFormed(active[i])
    requires Accepted(idle, active, start, end)
    ensures CpuAccepted(Project(idle), Project(active), start, end)
    ensures forall name | name in {"PS", "PL", MONITORED} ::
              (CpuMeasurement(CpuSeriesOf(Project(idle), name), CpuSeriesOf(Project(active), name), start, end)
               == Measure(SeriesOf(idle, Domain(name)), SeriesOf(active, Domain(name)), start, end))
  {
    forall name: string
      ensures CpuSeriesOf(Project(idle), name) == SeriesOf(idle, Domain(name))
      ensures CpuSeriesOf(Project(active), name) == SeriesOf(active, Domain(name))
    {
      SeriesAgree(idle, name);
      SeriesAgree(active, name);
    }
    forall name | name in {"PS", "PL", MONITORED}
      ensures CpuMeasurement(CpuSeriesOf(Project(idle), name), CpuSeriesOf(Project(active), name), start, end)
           == Measure(SeriesOf(idle, Domain(name)), SeriesOf(active, Domain(name)), start, end)
    {
      assert HasScope(active, Domain(name));
      MeasurementsAgree(SeriesOf(idle, Domain(name)), SeriesOf(active, Domain(name)), start, end);
    }
    assert forall name: string :: HasScope(idle, Domain(name)) <==> HasScope(active, Domain(name));
  }
}
