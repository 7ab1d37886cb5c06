/**
From a finished sampler run to the power summary: the file the run leaves parses into one sweep per
sample, and clipping any of its traces to the recorded launch interval cannot raise.
 */
module SamplerEvidence {
  import opened Outcomes
  import opened PowerTrace
  import opened PowerEvidence
  import opened PowerSummary
  import opened PowerConservation
  import opened SweepFiles
  import Protocol = SamplerProtocol

  datatype Sensor = Sensor(domain: string, rail: string)

  /** The lines one sweep writes, in sensor order, all with the sweep's timestamp. */
  function SweepRows(sensors: seq<Sensor>, sample: int, stamp: int, powers: seq<int>): seq<Row>
    requires |powers| == |sensors|
  {
    seq(|sensors|, i requires 0 <= i < |sensors| =>
      Row(sample, stamp, sensors[i].domain, sensors[i].rail, powers[i]))
  }

  predicate Complete(sensors: seq<Sensor>, stamps: seq<int>, readings: seq<seq<int>>) {
    |readings| == |stamps| && forall k | 0 <= k < |readings| :: |readings[k]| == |sensors|
  }

  function BlocksOf(sensors: seq<Sensor>, stamps: seq<int>, readings: seq<seq<int>>): Blocks
    requires Complete(sensors, stamps, readings)
  {
    seq(|stamps|, k requires 0 <= k < |stamps| => SweepRows(sensors, k, stamps[k], readings[k]))
  }

  /** The file after all sweeps. */
  function FileRows(sensors: seq<Sensor>, stamps: seq<int>, readings: seq<seq<int>>): seq<Row>
    requires Complete(sensors, stamps, readings)
  {
    FileOf(BlocksOf(sensors, stamps, readings))
  }

  /** No two sensors share a rail key. */
  predicate DistinctSensors(sensors: seq<Sensor>) {
    forall i, j | 0 <= i < j < |sensors| ::
      sensors[i].domain + ":" + sensors[i].rail != sensors[j].domain + ":" + sensors[j].rail
  }

  // ----- the file parses -----

  lemma SweepRowsAreBlock(sensors: seq<Sensor>, sample: int, stamp: int, powers: seq<int>)
    requires DistinctSensors(sensors) && |powers| == |sensors| && sensors != []
    ensures IsBlock(SweepRows(sensors, sample, stamp, powers), sample)
  {
    var block := SweepRows(sensors, sample, stamp, powers);
    assert forall p | 0 <= p < |block| :: RailKey(block[p]) == sensors[p].domain + ":" + sensors[p].rail;
  }

  lemma SweepsAreBlocks(sensors: seq<Sensor>, stamps: seq<int>, readings: seq<seq<int>>)
    requires Complete(sensors, stamps, readings) && sensors != [] && DistinctSensors(sensors)
    ensures AreBlocks(BlocksOf(sensors, stamps, readings))
    ensures SweepsOf(BlocksOf(sensors, stamps, readings)) == EvidenceOf(sensors, stamps, readings)
  {
    forall k | 0 <= k < |stamps|
      ensures IsBlock(BlocksOf(sensors, stamps, readings)[k], k)
    {
      SweepRowsAreBlock(sensors, k, stamps[k], readings[k]);
    }
  }

  function EvidenceOf(sensors: seq<Sensor>, stamps: seq<int>, readings: seq<seq<int>>): Evidence
    requires Complete(sensors, stamps, readings) && sensors != []
  {
    seq(|stamps|, k requires 0 <= k < |stamps| => SweepOf(SweepRows(sensors, k, stamps[k], readings[k])))
  }

  lemma SweepRowsSameParts(sensors: seq<Sensor>, a: int, s: int, p: seq<int>, b: int, t: int, q: seq<int>, kind: Kind)
    requires sensors != [] && |p| == |sensors| == |q|
    ensures Keys(PartOf(SweepOf(SweepRows(sensors, a, s, p)), kind))
         <= Keys(PartOf(SweepOf(SweepRows(sensors, b, t, q)), kind))
  {
    var x, y := SweepRows(sensors, a, s, p), SweepRows(sensors, b, t, q);
    SweepKeys(x);
    SweepKeys(y);
    assert forall i | 0 <= i < |sensors| :: x[i].domain == y[i].domain && RailKey(x[i]) == RailKey(y[i]);
    forall name | name in Keys(PartOf(SweepOf(x), kind))
      ensures name in Keys(PartOf(SweepOf(y), kind))
    {
      if kind.Rails? {
        var i :| 0 <= i < |x| && RailKey(x[i]) == name;
        assert RailKey(y[i]) == name;
      } else {
        var i :| 0 <= i < |x| && x[i].domain == name;
        assert y[i].domain == name;
      }
    }
  }

  lemma SweepsSameParts(sensors: seq<Sensor>, stamps: seq<int>, readings: seq<seq<int>>, kind: Kind)
    requires Complete(sensors, stamps, readings) && sensors != []
    ensures SameParts(EvidenceOf(sensors, stamps, readings), kind)
  {
    var evidence := EvidenceOf(sensors, stamps, readings);
    forall i, j | 0 <= i < |evidence| && 0 <= j < |evidence|
      ensures Keys(PartOf(evidence[i], kind)) == Keys(PartOf(evidence[j], kind))
    {
      SweepRowsSameParts(sensors, i, stamps[i], readings[i], j, stamps[j], readings[j], kind);
      SweepRowsSameParts(sensors, j, stamps[j], readings[j], i, stamps[i], readings[i], kind);
    }
  }

  lemma SamePartsSameRails(evidence: Evidence)
    requires SameParts(evidence, Rails)
    ensures SameRails(evidence)
  {
    forall i, j | 0 <= i < j < |evidence|
      ensures Keys(evidence[i].rails) == Keys(evidence[j].rails)
    {
      assert Keys(PartOf(evidence[i], Rails)) == Keys(PartOf(evidence[j], Rails));
    }
  }

  /** The file parses: one sweep per sample, the same rails and domains in each. */
  lemma FileParses(sensors: seq<Sensor>, stamps: seq<int>, readings: seq<seq<int>>)
    requires Complete(sensors, stamps, readings) && sensors != [] && stamps != [] && DistinctSensors(sensors)
    ensures var evidence := EvidenceOf(sensors, stamps, readings);
            && IsParsed(FileRows(sensors, stamps, readings), SampleOrder(|stamps|), evidence)
            && SameParts(evidence, Rails) && SameParts(evidence, Domains)
  {
    SweepsAreBlocks(sensors, stamps, readings);
    SweepsSameParts(sensors, stamps, readings, Rails);
    SweepsSameParts(sensors, stamps, readings, Domains);
    SamePartsSameRails(EvidenceOf(sensors, stamps, readings));
    SweepFiles.FileParses(BlocksOf(sensors, stamps, readings));
  }

  /** Every rail of every sweep reads what its sensor read. */
  lemma {:induction false} SensorsAreRead(sensors: seq<Sensor>, stamps: seq<int>, readings: seq<seq<int>>,
                                          k: nat, i: nat)
    requires Complete(sensors, stamps, readings) && DistinctSensors(sensors) && k < |stamps| && i < |sensors|
    ensures var sweep := EvidenceOf(sensors, stamps, readings)[k];
            && sweep.timestamp == stamps[k]
            && Value(sweep.rails, sensors[i].domain + ":" + sensors[i].rail) == readings[k][i] as real / 1_000_000.0
  {
    var rows := SweepRows(sensors, k, stamps[k], readings[k]);
    SweepRowsAreBlock(sensors, k, stamps[k], readings[k]);
    ReadingsOfRows(rows);
    ReadingOf(RailReadings(rows), i);
    assert RailKey(rows[i]) == sensors[i].domain + ":" + sensors[i].rail;
  }

  // ----- clipping cannot raise -----

  predicate InOrder(series: Series) {
    forall i, j | 0 <= i < j < |series| :: series[i].time <= series[j].time
  }

  lemma {:induction false} InterpolateInOrder(series: Series, time: int)
    requires InOrder(series) && Covers(series, time)
    ensures Interpolate(series, time).Some?
  {
    if |series| >= 2 && time != series[0].time && !(series[0].time < time < series[1].time) {
      InterpolateInOrder(series[1..], time);
    }
  }

  /** Every sweep contributes to every trace, so each trace runs from the first sweep to the last. */
  lemma {:induction false} TraceSpans(evidence: Evidence, scope: Scope)
    requires evidence != [] && forall i | 0 <= i < |evidence| :: Contribution(evidence[i], scope) != []
    requires forall i, j | 0 <= i < j < |evidence| :: evidence[i].timestamp <= evidence[j].timestamp
    ensures var series := SeriesOf(evidence, scope);
            && |series| >= |evidence| && InOrder(series)
            && series[0].time == evidence[0].timestamp
            && Last(series).time == evidence[|evidence| - 1].timestamp
  {
    var head, rest := Contribution(evidence[0], scope), evidence[1..];
    assert forall i | 0 <= i < |head| :: head[i].time == evidence[0].timestamp;
    if rest == [] {
      assert SeriesOf(rest, scope) == [] && SeriesOf(evidence, scope) == head;
    } else {
      TraceSpans(rest, scope);
      PrependInOrder(head, SeriesOf(rest, scope), evidence[0].timestamp);
    }
  }

  lemma PrependInOrder(head: Series, tail: Series, time: int)
    requires head != [] && forall i | 0 <= i < |head| :: head[i].time == time
    requires InOrder(tail) && tail != [] && time <= tail[0].time
    ensures InOrder(head + tail) && (head + tail)[0] == head[0] && Last(head + tail) == Last(tail)
  {
    var all := head + tail;
    forall i, j | 0 <= i < j < |all|
      ensures all[i].time <= all[j].time
    {
      if j >= |head| {
        assert all[j] == tail[j - |head|] && tail[0].time <= tail[j - |head|].time;
        if i >= |head| { assert all[i] == tail[i - |head|]; }
      }
    }
  }

  lemma ScopeInEverySweep(evidence: Evidence, scope: Scope)
    requires SameParts(evidence, Rails) && SameParts(evidence, Domains) && HasScope(evidence, scope)
    ensures forall i | 0 <= i < |evidence| :: Contribution(evidence[i], scope) != []
  {
    HasScopeIff(evidence, scope);
    var j :| 0 <= j < |evidence| && Contribution(evidence[j], scope) != [];
    forall i | 0 <= i < |evidence|
      ensures Contribution(evidence[i], scope) != []
    {
      assert Keys(PartOf(evidence[i], Rails)) == Keys(PartOf(evidence[j], Rails));
      assert Keys(PartOf(evidence[i], Domains)) == Keys(PartOf(evidence[j], Domains));
    }
  }

  /** A trace of evidence in time order clips to any interval between its first and last sweep. */
  lemma EvidenceClips(evidence: Evidence, scope: Scope, start: int, end: int)
    requires |evidence| >= 2 && SameParts(evidence, Rails) && SameParts(evidence, Domains) && HasScope(evidence, scope)
    requires forall i, j | 0 <= i < j < |evidence| :: evidence[i].timestamp <= evidence[j].timestamp
    requires evidence[0].timestamp <= start <= end <= evidence[|evidence| - 1].timestamp
    ensures |SeriesOf(evidence, scope)| >= 2 && Clip(SeriesOf(evidence, scope), start, end).Some?
  {
    ScopeInEverySweep(evidence, scope);
    TraceSpans(evidence, scope);
    InterpolateInOrder(SeriesOf(evidence, scope), start);
    InterpolateInOrder(SeriesOf(evidence, scope), end);
  }

  /**
  In every run of the sampler, driver and launcher, the evidence collected parses, every trace has
  at least two samples, and clipping it to the recorded launch interval succeeds.
   */
  lemma CollectedTraceClips(run: seq<Protocol.State>, i: nat, s: Protocol.State, sensors: seq<Sensor>, scope: Scope)
    requires sensors != [] && DistinctSensors(sensors)
    requires Protocol.IsRun(run, |sensors|) && i < |run| && s == run[i] && s.driver == Protocol.Collected
    ensures Complete(sensors, s.stamps, s.readings)
    ensures IsParsed(FileRows(sensors, s.stamps, s.readings), SampleOrder(|s.stamps|),
                     EvidenceOf(sensors, s.stamps, s.readings))
    ensures var evidence := EvidenceOf(sensors, s.stamps, s.readings);
            HasScope(evidence, scope) ==>
              && |SeriesOf(evidence, scope)| >= 2
              && Clip(SeriesOf(evidence, scope), s.before, s.after).Some?
  {
    Protocol.TraceBracketsLaunch(run, |sensors|, i);
    FileParses(sensors, s.stamps, s.readings);
    BracketedEvidenceClips(sensors, s.stamps, s.readings, scope, s.before, s.after);
  }

  lemma BracketedEvidenceClips(sensors: seq<Sensor>, stamps: seq<int>, readings: seq<seq<int>>, scope: Scope,
                               start: int, end: int)
    requires Complete(sensors, stamps, readings) && sensors != [] && |stamps| >= 2
    requires forall i, j | 0 <= i < j < |stamps| :: stamps[i] <= stamps[j]
    requires stamps[0] <= start <= end <= stamps[|stamps| - 1]
    ensures var evidence := EvidenceOf(sensors, stamps, readings);
            HasScope(evidence, scope) ==>
              |SeriesOf(evidence, scope)| >= 2 && Clip(SeriesOf(evidence, scope), start, end).Some?
  {
    var evidence := EvidenceOf(sensors, stamps, readings);
    EvidenceTimes(sensors, stamps, readings);
    SweepsSameParts(sensors, stamps, readings, Rails);
    SweepsSameParts(sensors, stamps, readings, Domains);
    if HasScope(evidence, scope) {
      EvidenceClips(evidence, scope, start, end);
    }
  }

  lemma EvidenceTimes(sensors: seq<Sensor>, stamps: seq<int>, readings: seq<seq<int>>)
    requires Complete(sensors, stamps, readings) && sensors != []
    ensures forall k | 0 <= k < |stamps| :: EvidenceOf(sensors, stamps, readings)[k].timestamp == stamps[k]
  {
  }

  // ----- the whole summary of a run -----

  /**
  For every run of the sampler, driver and launcher, and an idle file written by the same sensors,
  an accepted summary is conserved over the rails and over the domains.
   */
  lemma CollectedSummaryIsConserved(run: seq<Protocol.State>, i: nat, s: Protocol.State, sensors: seq<Sensor>,
                                    idleStamps: seq<int>, idleReadings: seq<seq<int>>, kind: Kind, names: seq<string>)
    requires sensors != [] && DistinctSensors(sensors)
    requires Protocol.IsRun(run, |sensors|) && i < |run| && s == run[i] && s.driver == Protocol.Collected
    requires Complete(sensors, idleStamps, idleReadings) && idleStamps != []
    ensures Complete(sensors, s.stamps, s.readings)
    ensures var idle := EvidenceOf(sensors, idleStamps, idleReadings);
            var active := EvidenceOf(sensors, s.stamps, s.readings);
            Accepted(idle, active, s.before, s.after) && Enumerates(active, kind, names)
            ==> Conserved(idle, active, kind, names, s.before, s.after)
  {
    Protocol.TraceBracketsLaunch(run, |sensors|, i);
    FileParses(sensors, s.stamps, s.readings);
    FileParses(sensors, idleStamps, idleReadings);
    var idle, active := EvidenceOf(sensors, idleStamps, idleReadings), EvidenceOf(sensors, s.stamps, s.readings);
    if Accepted(idle, active, s.before, s.after) && Enumerates(active, kind, names) {
      ConservedOverSameParts(FileRows(sensors, idleStamps, idleReadings), SampleOrder(|idleStamps|), idle,
                             FileRows(sensors, s.stamps, s.readings), SampleOrder(|s.stamps|), active,
                             kind, names, s.before, s.after);
    }
  }
}
