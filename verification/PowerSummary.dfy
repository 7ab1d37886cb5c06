/**
The power summary of a benchmark: idle mean and active energy per rail, per domain and for
everything monitored. The whole is the sum of its parts.
 */
module PowerSummary {
  import opened Outcomes
  import opened PowerTrace
  import opened PowerEvidence
  import opened Arithmetic

  /** The measured energies of a scope and the durations they were measured over. */
  datatype Measurement = Measurement(idleEnergy: real, idleSeconds: real, activeEnergy: real, activeSeconds: real)

  datatype ScopeSummary = ScopeSummary(
    idleMean: real,
    activeMean: real,
    incrementalMean: real,
    activeEnergy: real,
    incrementalEnergy: real)

  predicate NonMonotonic(series: Series) {
    |series| >= 2 && (series[1].time <= series[0].time || NonMonotonic(series[1..]))
  }

  lemma {:induction false} MonotonicIncreasing(series: Series)
    ensures !NonMonotonic(series) <==> Increasing(series)
  {
    if |series| >= 2 {
      MonotonicIncreasing(series[1..]);
      assert series == [series[0]] + series[1..];
    }
  }

  /** The measurement of one scope over the launch interval; None where the source raises. */
  function Measure(idle: Series, active: Series, start: int, end: int): (m: Option<Measurement>)
    ensures m.Some? ==> m.value.idleSeconds > 0.0 && m.value.activeSeconds > 0.0
  {
    if |idle| < 2 || |active| < 2 then None
    else if NonMonotonic(idle) || NonMonotonic(active) then None
    else
      var clipped := Clip(active, start, end);
      var idleDuration, duration := Last(idle).time - idle[0].time, end - start;
      if clipped.None? || idleDuration <= 0 || duration <= 0 then None
      else Some(Measurement(Integrate(idle), Seconds(idle[0].time, Last(idle).time),
                            Integrate(clipped.value), Seconds(start, end)))
  }

  function Summarize(m: Measurement): ScopeSummary
    requires m.idleSeconds > 0.0 && m.activeSeconds > 0.0
  {
    var idleMean, activeMean := m.idleEnergy / m.idleSeconds, m.activeEnergy / m.activeSeconds;
    ScopeSummary(idleMean, activeMean, activeMean - idleMean, m.activeEnergy,
                 m.activeEnergy - idleMean * m.activeSeconds)
  }

  /** The means are the energies per second, and the increments are what is active beyond the idle mean. */
  lemma SummaryMeans(m: Measurement)
    requires m.idleSeconds > 0.0 && m.activeSeconds > 0.0
    ensures var s := Summarize(m);
            && s.idleMean * m.idleSeconds == m.idleEnergy && s.activeMean * m.activeSeconds == m.activeEnergy
            && s.activeEnergy == m.activeEnergy
            && s.idleMean + s.incrementalMean == s.activeMean
            && s.incrementalMean * m.activeSeconds == s.incrementalEnergy
  {
    var s := Summarize(m);
    assert (s.activeMean - s.idleMean) * m.activeSeconds
        == s.activeMean * m.activeSeconds - s.idleMean * m.activeSeconds;
  }

  ghost predicate HasScope(evidence: Evidence, scope: Scope) {
    SeriesOf(evidence, scope) != []
  }

  /** The evidence and interval on which the source reports a summary. */
  ghost predicate Accepted(idle: Evidence, active: Evidence, start: int, end: int) {
    && (forall scope: Scope :: HasScope(idle, scope) <==> HasScope(active, scope))
    && HasScope(active, Domain("PS")) && HasScope(active, Domain("PL")) && HasScope(active, Domain(MONITORED))
    && 0 < start < end
    && (forall scope: Scope | HasScope(active, scope) ::
          Measure(SeriesOf(idle, scope), SeriesOf(active, scope), start, end).Some?)
  }

  // ----- measurements add up -----

  function AddMeasurements(a: Measurement, b: Measurement): Measurement {
    Measurement(a.idleEnergy + b.idleEnergy, a.idleSeconds, a.activeEnergy + b.activeEnergy, a.activeSeconds)
  }

  /** A scope sampled together with a measured one is measured too, and its end points coincide. */
  lemma SampledTogether(idle: Series, idle': Series, active: Series, active': Series, start: int, end: int)
    requires SameTimes(idle, idle') && SameTimes(active, active')
    requires Measure(idle, active, start, end).Some?
    ensures Measure(idle', active', start, end).Some?
    ensures Measure(Add(idle, idle'), Add(active, active'), start, end).Some?
    ensures Last(idle).time == Last(idle').time == Last(Add(idle, idle')).time
  {
    AddedMonotonic(idle, idle');
    AddedMonotonic(active, active');
    ClipShapeCovers(active, start, end);
    ClipAdds(active, active', start, end);
  }

  /** The measurement of two scopes sampled together is the sum of their measurements. */
  lemma MeasurementsAdd(idle: Series, idle': Series, active: Series, active': Series, start: int, end: int)
    requires SameTimes(idle, idle') && SameTimes(active, active')
    requires Measure(idle, active, start, end).Some?
    ensures Measure(idle', active', start, end).Some?
    ensures Measure(Add(idle, idle'), Add(active, active'), start, end)
         == Some(AddMeasurements(Measure(idle, active, start, end).value, Measure(idle', active', start, end).value))
  {
    SampledTogether(idle, idle', active, active', start, end);
    IntegrateAdds(idle, idle');
    MonotonicIncreasing(active);
    ClipShapeCovers(active, start, end);
    ClipAdds(active, active', start, end);
    IntegrateAdds(Clip(active, start, end).value, Clip(active', start, end).value);
  }

  lemma AddedMonotonic(a: Series, b: Series)
    requires SameTimes(a, b) && !NonMonotonic(a)
    ensures Increasing(a) && !NonMonotonic(b) && !NonMonotonic(Add(a, b))
    ensures a != [] ==>
              && Last(Add(a, b)).time == Last(a).time == Last(b).time
              && Add(a, b)[0].time == a[0].time == b[0].time
  {
    MonotonicIncreasing(a);
    AddKeepsTimes(a, b);
    MonotonicIncreasing(b);
    MonotonicIncreasing(Add(a, b));
  }

  lemma ClipShapeCovers(series: Series, start: int, end: int)
    requires Increasing(series) && start < end && Clip(series, start, end).Some?
    ensures Covers(series, start) && Covers(series, end)
  {
    InterpolateCovers(series, start);
    InterpolateCovers(series, end);
  }

  lemma {:induction false} InterpolateCovers(series: Series, time: int)
    requires Increasing(series) && Interpolate(series, time).Some?
    ensures Covers(series, time)
  {
    if |series| >= 2 && time != series[0].time && !(series[0].time < time < series[1].time) {
      InterpolateCovers(series[1..], time);
    }
  }

  // ----- energies are within the samples -----

  predicate Within(series: Series, low: real, high: real) {
    forall i | 0 <= i < |series| :: low <= series[i].watts <= high
  }

  lemma MeasuredIdle(idle: Series, active: Series, start: int, end: int, m: Measurement)
    requires Measure(idle, active, start, end) == Some(m)
    ensures Increasing(idle) && |idle| >= 2
    ensures m.idleEnergy == Integrate(idle) && m.idleSeconds == Seconds(idle[0].time, Last(idle).time)
  {
    MonotonicIncreasing(idle);
  }

  lemma MeasuredActive(idle: Series, active: Series, start: int, end: int, m: Measurement)
    requires Measure(idle, active, start, end) == Some(m)
    ensures Increasing(active) && Covers(active, start) && Covers(active, end) && start < end
    ensures m.activeEnergy == Energy(active, start, end) && m.activeSeconds == Seconds(start, end)
  {
    MonotonicIncreasing(active);
    ClipShapeCovers(active, start, end);
  }

  lemma IntegralWithin(series: Series, low: real, high: real, seconds: real, energy: real)
    requires Increasing(series) && series != [] && Within(series, low, high)
    requires seconds == Seconds(series[0].time, Last(series).time) && energy == Integrate(series)
    ensures low * seconds <= energy <= high * seconds
  {
    IntegralAtLeast(series, low, seconds);
    IntegralAtMost(series, high, seconds);
  }

  /** Active energy lies between the least and the greatest active power times the launch duration. */
  lemma ActiveEnergyWithin(idle: Series, active: Series, start: int, end: int, m: Measurement, low: real, high: real)
    requires Measure(idle, active, start, end) == Some(m) && Within(active, low, high)
    ensures low * m.activeSeconds <= m.activeEnergy <= high * m.activeSeconds
  {
    MeasuredActive(idle, active, start, end, m);
    EnergyInHull(active, start, end, low, high, m.activeSeconds);
  }

  // ----- the parts of what is monitored -----

  datatype Kind = Rails | Domains

  function PartOf(sweep: Sweep, kind: Kind): Dict {
    if kind.Rails? then sweep.rails else sweep.domains
  }

  function ScopeOf(kind: Kind, name: string): Scope {
    if kind.Rails? then Rail(name) else Domain(name)
  }

  predicate AllHave(evidence: Evidence, kind: Kind, name: string) {
    forall i | 0 <= i < |evidence| :: name in Keys(PartOf(evidence[i], kind))
  }

  predicate NoMonitoredDomain(evidence: Evidence) {
    forall i | 0 <= i < |evidence| :: MONITORED !in Keys(evidence[i].domains)
  }

  lemma {:induction false} PartSeries(evidence: Evidence, kind: Kind, name: string)
    requires AllHave(evidence, kind, name) && (kind.Domains? ==> name != MONITORED)
    ensures var series := SeriesOf(evidence, ScopeOf(kind, name));
            && |series| == |evidence|
            && forall i | 0 <= i < |evidence| ::
                 series[i] == Sample(evidence[i].timestamp, Value(PartOf(evidence[i], kind), name))
  {
    if evidence != [] {
      assert name in Keys(PartOf(evidence[0], kind));
      PartSeries(evidence[1..], kind, name);
      assert Contribution(evidence[0], ScopeOf(kind, name))
          == [Sample(evidence[0].timestamp, Value(PartOf(evidence[0], kind), name))];
    }
  }

  lemma {:induction false} MonitoredSeries(evidence: Evidence)
    requires NoMonitoredDomain(evidence)
    ensures var series := SeriesOf(evidence, Domain(MONITORED));
            && |series| == |evidence|
            && forall i | 0 <= i < |evidence| :: series[i] == Sample(evidence[i].timestamp, Total(evidence[i].rails))
  {
    if evidence != [] {
      assert MONITORED !in Keys(evidence[0].domains);
      MonitoredSeries(evidence[1..]);
      assert Contribution(evidence[0], Domain(MONITORED)) == [Sample(evidence[0].timestamp, Total(evidence[0].rails))];
    }
  }

  lemma DoubledSampleRejected(sweep: Sweep, tail: Series)
    requires MONITORED in Keys(sweep.domains)
    ensures NonMonotonic(Contribution(sweep, Domain(MONITORED)) + tail)
  {
    var series := Contribution(sweep, Domain(MONITORED)) + tail;
    assert series[0].time == series[1].time;
  }

  /** A domain that happens to be called MONITORED is rejected: it doubles every sample of that trace. */
  lemma {:induction false} MonitoredDomainRejected(evidence: Evidence)
    requires !NonMonotonic(SeriesOf(evidence, Domain(MONITORED)))
    ensures NoMonitoredDomain(evidence)
  {
    if evidence != [] {
      var head, tail := Contribution(evidence[0], Domain(MONITORED)), SeriesOf(evidence[1..], Domain(MONITORED));
      var series: Series := head + tail;
      assert SeriesOf(evidence, Domain(MONITORED)) == series;
      if MONITORED in Keys(evidence[0].domains) {
        DoubledSampleRejected(evidence[0], tail);
      }
      assert series[1..] == tail;
      MonitoredDomainRejected(evidence[1..]);
    }
  }

  /** Every sweep lists exactly the parts `names`, none of them called like the whole. */
  ghost predicate SweepsList(evidence: Evidence, kind: Kind, names: seq<string>) {
    && Distinct(names) && (kind.Domains? ==> MONITORED !in names)
    && forall i | 0 <= i < |evidence| :: forall name :: name in Keys(PartOf(evidence[i], kind)) <==> name in names
  }

  /** The trace of the summed values of `names`. */
  function SumTrace(evidence: Evidence, kind: Kind, names: seq<string>): Series {
    seq(|evidence|, i requires 0 <= i < |evidence| =>
      Sample(evidence[i].timestamp, SumValues(PartOf(evidence[i], kind), names)))
  }

  /** The summed trace of several names is the trace of the first added to that of the rest. */
  lemma SumTraceStep(evidence: Evidence, kind: Kind, names: seq<string>)
    requires names != [] && AllHave(evidence, kind, names[0]) && (kind.Domains? ==> names[0] != MONITORED)
    ensures var first, rest := SeriesOf(evidence, ScopeOf(kind, names[0])), SumTrace(evidence, kind, names[1..]);
            SameTimes(first, rest) && SumTrace(evidence, kind, names) == Add(first, rest)
  {
    PartSeries(evidence, kind, names[0]);
    var first, rest := SeriesOf(evidence, ScopeOf(kind, names[0])), SumTrace(evidence, kind, names[1..]);
    assert SameTimes(first, rest);
    assert forall i | 0 <= i < |evidence| :: SumTrace(evidence, kind, names)[i] == Add(first, rest)[i];
  }

  /** The whole is the sum of any complete list of its parts, sample by sample. */
  lemma WholeIsSumTrace(evidence: Evidence, kind: Kind, names: seq<string>)
    requires forall i | 0 <= i < |evidence| :: WellFormed(evidence[i])
    requires SweepsList(evidence, kind, names) && NoMonitoredDomain(evidence)
    ensures SeriesOf(evidence, Domain(MONITORED)) == SumTrace(evidence, kind, names)
  {
    MonitoredSeries(evidence);
    var whole, sum := SeriesOf(evidence, Domain(MONITORED)), SumTrace(evidence, kind, names);
    forall i | 0 <= i < |evidence|
      ensures whole[i] == sum[i]
    {
      WholeIsSum(evidence[i], kind, names);
    }
  }

  lemma WholeIsSum(sweep: Sweep, kind: Kind, names: seq<string>)
    requires WellFormed(sweep) && Distinct(names)
    requires forall name :: name in Keys(PartOf(sweep, kind)) ==> name in names
    ensures SumValues(PartOf(sweep, kind), names) == Total(sweep.rails)
  {
    SumIsTotal(PartOf(sweep, kind), names);
  }

  ghost function PartMeasure(idle: Evidence, active: Evidence, kind: Kind, name: string, start: int, end: int)
    : Option<Measurement>
  {
    Measure(SeriesOf(idle, ScopeOf(kind, name)), SeriesOf(active, ScopeOf(kind, name)), start, end)
  }

  ghost function SumOfMeasures(idle: Evidence, active: Evidence, kind: Kind, names: seq<string>, start: int, end: int)
    : Measurement
    requires names != []
    requires forall name | name in names :: PartMeasure(idle, active, kind, name, start, end).Some?
  {
    var first := PartMeasure(idle, active, kind, names[0], start, end).value;
    if |names| == 1 then first
    else AddMeasurements(first, SumOfMeasures(idle, active, kind, names[1..], start, end))
  }

  lemma {:induction false} SumTraceMeasure(idle: Evidence, active: Evidence, kind: Kind, names: seq<string>,
                                           start: int, end: int)
    requires names != [] && (kind.Domains? ==> MONITORED !in names)
    requires forall name | name in names :: AllHave(idle, kind, name) && AllHave(active, kind, name)
    requires forall name | name in names :: PartMeasure(idle, active, kind, name, start, end).Some?
    ensures Measure(SumTrace(idle, kind, names), SumTrace(active, kind, names), start, end)
         == Some(SumOfMeasures(idle, active, kind, names, start, end))
  {
    var name, rest := names[0], names[1..];
    if rest == [] {
      OnePart(idle, kind, name, names);
      OnePart(active, kind, name, names);
    } else {
      SumTraceStep(idle, kind, names);
      SumTraceStep(active, kind, names);
      SumTraceMeasure(idle, active, kind, rest, start, end);
      MeasurementsAdd(SeriesOf(idle, ScopeOf(kind, name)), SumTrace(idle, kind, rest),
                      SeriesOf(active, ScopeOf(kind, name)), SumTrace(active, kind, rest), start, end);
    }
  }

  lemma OnePart(evidence: Evidence, kind: Kind, name: string, names: seq<string>)
    requires names == [name] && AllHave(evidence, kind, name) && (kind.Domains? ==> name != MONITORED)
    ensures SumTrace(evidence, kind, names) == SeriesOf(evidence, ScopeOf(kind, name))
  {
    PartSeries(evidence, kind, name);
    var series, sum := SeriesOf(evidence, ScopeOf(kind, name)), SumTrace(evidence, kind, names);
    forall i | 0 <= i < |evidence|
      ensures sum[i] == series[i]
    {
      assert SumValues(PartOf(evidence[i], kind), names[1..]) == 0.0;
    }
  }

  lemma PartsAreMeasured(idle: Evidence, active: Evidence, kind: Kind, names: seq<string>, start: int, end: int)
    requires Accepted(idle, active, start, end)
    requires SweepsList(idle, kind, names) && SweepsList(active, kind, names)
    ensures NoMonitoredDomain(idle) && NoMonitoredDomain(active)
    ensures forall name | name in names ::
              && AllHave(idle, kind, name) && AllHave(active, kind, name)
              && PartMeasure(idle, active, kind, name, start, end).Some?
  {
    MonitoredDomainRejected(idle);
    MonitoredDomainRejected(active);
    assert active != [];
    forall name | name in names
      ensures AllHave(idle, kind, name) && AllHave(active, kind, name)
      ensures PartMeasure(idle, active, kind, name, start, end).Some?
    {
      PartSeries(active, kind, name);
      assert HasScope(active, ScopeOf(kind, name));
    }
  }

  /** The energies of everything monitored are the sums of those of any complete list of parts. */
  lemma WholeIsSumOfParts(idle: Evidence, active: Evidence, kind: Kind, names: seq<string>, start: int, end: int)
    requires Accepted(idle, active, start, end)
    requires forall i | 0 <= i < |idle| :: WellFormed(idle[i])
    requires forall i | 0 <= i < |active| :: WellFormed(active[i])
    requires names != [] && SweepsList(idle, kind, names) && SweepsList(active, kind, names)
    ensures forall name | name in names :: PartMeasure(idle, active, kind, name, start, end).Some?
    ensures Measure(SeriesOf(idle, Domain(MONITORED)), SeriesOf(active, Domain(MONITORED)), start, end)
         == Some(SumOfMeasures(idle, active, kind, names, start, end))
  {
    PartsAreMeasured(idle, active, kind, names, start, end);
    WholeIsSumTrace(idle, kind, names);
    WholeIsSumTrace(active, kind, names);
    SumTraceMeasure(idle, active, kind, names, start, end);
  }

  // ----- summaries add up -----

  function AddSummaries(a: ScopeSummary, b: ScopeSummary): ScopeSummary {
    ScopeSummary(a.idleMean + b.idleMean, a.activeMean + b.activeMean, a.incrementalMean + b.incrementalMean,
                 a.activeEnergy + b.activeEnergy, a.incrementalEnergy + b.incrementalEnergy)
  }

  lemma SummaryOfSum(a: Measurement, b: Measurement)
    requires a.idleSeconds == b.idleSeconds > 0.0 && a.activeSeconds == b.activeSeconds > 0.0
    ensures Summarize(AddMeasurements(a, b)) == AddSummaries(Summarize(a), Summarize(b))
  {
    AddQuotients(a.idleEnergy, b.idleEnergy, a.idleSeconds);
    AddQuotients(a.activeEnergy, b.activeEnergy, a.activeSeconds);
    var x, y := a.idleEnergy / a.idleSeconds, b.idleEnergy / a.idleSeconds;
    assert (x + y) * a.activeSeconds == x * a.activeSeconds + y * a.activeSeconds;
  }

  function SumSummaries(measures: seq<Measurement>): ScopeSummary
    requires measures != []
    requires forall i | 0 <= i < |measures| :: measures[i].idleSeconds > 0.0 && measures[i].activeSeconds > 0.0
  {
    if |measures| == 1 then Summarize(measures[0])
    else AddSummaries(Summarize(measures[0]), SumSummaries(measures[1..]))
  }

  ghost function MeasuresOf(idle: Evidence, active: Evidence, kind: Kind, names: seq<string>, start: int, end: int)
    : (ms: seq<Measurement>)
    requires forall name | name in names :: PartMeasure(idle, active, kind, name, start, end).Some?
    ensures |ms| == |names|
    ensures forall i | 0 <= i < |ms| :: Some(ms[i]) == PartMeasure(idle, active, kind, names[i], start, end)
    ensures forall i | 0 <= i < |ms| :: ms[i].idleSeconds > 0.0 && ms[i].activeSeconds > 0.0
  {
    seq(|names|, i requires 0 <= i < |names| => PartMeasure(idle, active, kind, names[i], start, end).value)
  }

  lemma {:induction false} SummaryOfMeasures(idle: Evidence, active: Evidence, kind: Kind, names: seq<string>,
                                             start: int, end: int)
    requires names != []
    requires forall name | name in names :: PartMeasure(idle, active, kind, name, start, end).Some?
    requires forall i, j | 0 <= i < j < |names| :: SameSeconds(idle, active, kind, names[i], names[j], start, end)
    ensures var sum := SumOfMeasures(idle, active, kind, names, start, end);
            && sum.idleSeconds == PartMeasure(idle, active, kind, names[0], start, end).value.idleSeconds > 0.0
            && sum.activeSeconds == PartMeasure(idle, active, kind, names[0], start, end).value.activeSeconds > 0.0
            && Summarize(sum) == SumSummaries(MeasuresOf(idle, active, kind, names, start, end))
  {
    var measures := MeasuresOf(idle, active, kind, names, start, end);
    if |names| > 1 {
      var rest := names[1..];
      SummaryOfMeasures(idle, active, kind, rest, start, end);
      assert SameSeconds(idle, active, kind, names[0], names[1], start, end);
      SummaryOfSum(measures[0], SumOfMeasures(idle, active, kind, rest, start, end));
      assert measures[1..] == MeasuresOf(idle, active, kind, rest, start, end);
    }
  }

  ghost predicate SameSeconds(idle: Evidence, active: Evidence, kind: Kind, a: string, b: string, start: int, end: int)
  {
    var x, y := PartMeasure(idle, active, kind, a, start, end), PartMeasure(idle, active, kind, b, start, end);
    && x.Some? && y.Some?
    && x.value.idleSeconds == y.value.idleSeconds && x.value.activeSeconds == y.value.activeSeconds
  }

  lemma PartSeconds(idle: Evidence, active: Evidence, kind: Kind, name: string, start: int, end: int)
    requires AllHave(idle, kind, name) && (kind.Domains? ==> name != MONITORED)
    requires PartMeasure(idle, active, kind, name, start, end).Some?
    ensures idle != []
    ensures var m := PartMeasure(idle, active, kind, name, start, end).value;
            && m.idleSeconds == Seconds(idle[0].timestamp, idle[|idle| - 1].timestamp)
            && m.activeSeconds == Seconds(start, end)
  {
    PartSeries(idle, kind, name);
  }

  /**
  Power is conserved over any complete list of parts: active energy, idle and active means and
  incremental energy of everything monitored are the sums over all rails, and over all real domains.
   */
  lemma PowerIsConserved(idle: Evidence, active: Evidence, kind: Kind, names: seq<string>, start: int, end: int)
    requires Accepted(idle, active, start, end)
    requires forall i | 0 <= i < |idle| :: WellFormed(idle[i])
    requires forall i | 0 <= i < |active| :: WellFormed(active[i])
    requires names != [] && SweepsList(idle, kind, names) && SweepsList(active, kind, names)
    ensures forall name | name in names :: PartMeasure(idle, active, kind, name, start, end).Some?
    ensures var whole := Measure(SeriesOf(idle, Domain(MONITORED)), SeriesOf(active, Domain(MONITORED)), start, end);
            && whole.Some?
            && Summarize(whole.value) == SumSummaries(MeasuresOf(idle, active, kind, names, start, end))
  {
    PartsAreMeasured(idle, active, kind, names, start, end);
    WholeIsSumOfParts(idle, active, kind, names, start, end);
    forall i, j | 0 <= i < j < |names|
      ensures SameSeconds(idle, active, kind, names[i], names[j], start, end)
    {
      assert names[i] in names && names[j] in names;
      PartSeconds(idle, active, kind, names[i], start, end);
      PartSeconds(idle, active, kind, names[j], start, end);
    }
    SummaryOfMeasures(idle, active, kind, names, start, end);
  }
}
