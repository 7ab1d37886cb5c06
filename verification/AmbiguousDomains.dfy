/**
Domain names that rail keys do not identify: files the importer accepts whose domains exceed
everything monitored.
 */
module AmbiguousDomains {
  import opened Outcomes
  import opened PowerTrace
  import opened PowerEvidence
  import opened PowerSummary
  import opened PowerConservation
  import opened SweepFiles
  import opened DomainConservation

  /** The rail key "PS:A:B" is rail B of domain PS:A in even sweeps and rail A:B of domain PS in odd ones. */
  function BlockOf(k: nat): seq<Row> {
    [Row(k, k + 1, "PL", "R", 1_000_000),
     if k % 2 == 0 then Row(k, k + 1, "PS:A", "B", 1_000_000) else Row(k, k + 1, "PS", "A:B", 1_000_000)]
  }

  function AmbiguousFile(n: nat): Blocks {
    seq(n, k requires 0 <= k < n => BlockOf(k))
  }

  const DOMAINS := ["PL", "PS", "PS:A"]

  function SecondDomain(k: nat): string {
    if k % 2 == 0 then "PS:A" else "PS"
  }

  lemma TwoRowSweep(a: Row, b: Row)
    requires a.domain != b.domain
    ensures SweepOf([a, b]) == Sweep(a.timestamp, [(a.domain, Watts(a)), (b.domain, Watts(b))],
                                     [(RailKey(a), Watts(a)), (RailKey(b), Watts(b))])
  {
    SweepNext([], a);
    SweepNext([a], b);
    assert [] + [a] == [a] && [a] + [b] == [a, b];
  }

  lemma BlockSweep(k: nat)
    ensures IsBlock(BlockOf(k), k) && PositiveRows(BlockOf(k))
    ensures SweepOf(BlockOf(k))
         == Sweep(k + 1, [("PL", 1.0), (SecondDomain(k), 1.0)], [("PL:R", 1.0), ("PS:A:B", 1.0)])
  {
    var first, second := BlockOf(k)[0], BlockOf(k)[1];
    assert RailKey(first) == "PL:R" && RailKey(second) == "PS:A:B";
    assert "PL:R"[1] != "PS:A:B"[1] && "PL"[1] != "PS"[1] && "PL"[1] != "PS:A"[1];
    TwoRowSweep(first, second);
  }

  lemma KeysOfPair(dict: Dict)
    requires |dict| == 2
    ensures Keys(dict) == {dict[0].0, dict[1].0}
  {
  }

  /** What every sweep of the file is. */
  predicate IsAmbiguous(evidence: Evidence) {
    forall k | 0 <= k < |evidence| :: evidence[k]
      == Sweep(k + 1, [("PL", 1.0), (SecondDomain(k), 1.0)], [("PL:R", 1.0), ("PS:A:B", 1.0)])
  }

  lemma AmbiguousKeys(evidence: Evidence, k: nat)
    requires IsAmbiguous(evidence) && k < |evidence|
    ensures Keys(evidence[k].rails) == {"PL:R", "PS:A:B"}
    ensures Keys(evidence[k].domains) == {"PL", SecondDomain(k)}
    ensures MONITORED !in Keys(evidence[k].domains)
  {
    KeysOfPair(evidence[k].rails);
    KeysOfPair(evidence[k].domains);
    assert MONITORED[0] != "PL"[0] && MONITORED[0] != "PS"[0] && MONITORED[0] != "PS:A"[0];
  }

  lemma FileIsAmbiguous(n: nat)
    ensures AreBlocks(AmbiguousFile(n)) && IsAmbiguous(SweepsOf(AmbiguousFile(n)))
    ensures SameRails(SweepsOf(AmbiguousFile(n)))
  {
    var blocks := AmbiguousFile(n);
    forall k | 0 <= k < n
      ensures IsBlock(blocks[k], k)
      ensures SweepOf(blocks[k])
           == Sweep(k + 1, [("PL", 1.0), (SecondDomain(k), 1.0)], [("PL:R", 1.0), ("PS:A:B", 1.0)])
    {
      BlockSweep(k);
    }
    var evidence := SweepsOf(blocks);
    assert IsAmbiguous(evidence);
    forall k | 0 <= k < n
      ensures Keys(evidence[k].rails) == {"PL:R", "PS:A:B"}
    {
      AmbiguousKeys(evidence, k);
    }
  }

  lemma {:induction false} FilePositive(n: nat)
    ensures PositiveRows(FileOf(AmbiguousFile(n)))
  {
    if n > 0 {
      FilePositive(n - 1);
      BlockSweep(n - 1);
      assert AmbiguousFile(n)[..n - 1] == AmbiguousFile(n - 1);
    }
  }

  // ----- its traces -----

  lemma {:induction false} OneSampleEach(evidence: Evidence, scope: Scope)
    requires InTimeOrder(evidence) && NoMonitoredDomain(evidence)
    ensures Increasing(SeriesOf(evidence, scope))
    ensures forall s | s in SeriesOf(evidence, scope) :: evidence != [] && evidence[0].timestamp <= s.time
  {
    if evidence != [] {
      var rest := SeriesOf(evidence[1..], scope);
      OneSampleEach(evidence[1..], scope);
      assert MONITORED !in Keys(evidence[0].domains);
      assert |Contribution(evidence[0], scope)| <= 1;
      assert forall s | s in rest :: evidence[0].timestamp < evidence[1].timestamp <= s.time;
      assert forall i | 0 <= i < |rest| :: rest[i] in rest;
    }
  }

  lemma SampleOfSweep(evidence: Evidence, scope: Scope, k: nat) returns (j: nat)
    requires k < |evidence| && Contribution(evidence[k], scope) != []
    ensures j < |SeriesOf(evidence, scope)| && SeriesOf(evidence, scope)[j].time == evidence[k].timestamp
  {
    var series, sample := SeriesOf(evidence, scope), Contribution(evidence[k], scope)[0];
    SeriesMembers(evidence, scope);
    assert sample in series;
    j :| 0 <= j < |series| && series[j] == sample;
  }

  lemma CoveringIsMeasured(series: Series, i: nat, j: nat, start: int, end: int)
    requires Increasing(series) && i < |series| && j < |series|
    requires series[i].time <= start < end <= series[j].time
    ensures Measure(series, series, start, end).Some?
  {
    MonotonicIncreasing(series);
    assert series[0].time <= series[i].time && series[j].time <= Last(series).time;
    ClipIs(series, start, end);
  }

  /** A trace with samples at a sweep before the interval and at one after it is measured. */
  lemma TraceIsMeasured(evidence: Evidence, scope: Scope, first: nat, last: nat, start: int, end: int)
    requires InTimeOrder(evidence) && NoMonitoredDomain(evidence) && first < |evidence| && last < |evidence|
    requires Contribution(evidence[first], scope) != [] && Contribution(evidence[last], scope) != []
    requires evidence[first].timestamp <= start < end <= evidence[last].timestamp
    ensures Measure(SeriesOf(evidence, scope), SeriesOf(evidence, scope), start, end).Some?
  {
    OneSampleEach(evidence, scope);
    var i := SampleOfSweep(evidence, scope, first);
    var j := SampleOfSweep(evidence, scope, last);
    CoveringIsMeasured(SeriesOf(evidence, scope), i, j, start, end);
  }

  lemma SameParity(evidence: Evidence, scope: Scope, j: nat, k: nat)
    requires IsAmbiguous(evidence) && j < |evidence| && k < |evidence| && j % 2 == k % 2
    ensures Contribution(evidence[j], scope) != [] <==> Contribution(evidence[k], scope) != []
  {
  }

  lemma FirstAndLast(n: nat, k: nat) returns (first: nat, last: nat)
    requires n >= 2
    ensures first <= 1 && n - 2 <= last < n && first % 2 == k % 2 == last % 2
  {
    first, last := k % 2, if (n - 1) % 2 == k % 2 then n - 1 else n - 2;
  }

  lemma EveryTraceIsMeasured(evidence: Evidence, scope: Scope, start: int, end: int)
    requires IsAmbiguous(evidence) && HasScope(evidence, scope) && 2 <= start < end < |evidence|
    requires InTimeOrder(evidence) && NoMonitoredDomain(evidence)
    ensures Measure(SeriesOf(evidence, scope), SeriesOf(evidence, scope), start, end).Some?
  {
    HasScopeIff(evidence, scope);
    var k :| 0 <= k < |evidence| && Contribution(evidence[k], scope) != [];
    var first, last := FirstAndLast(|evidence|, k);
    SameParity(evidence, scope, first, k);
    SameParity(evidence, scope, last, k);
    TraceIsMeasured(evidence, scope, first, last, start, end);
  }

  lemma AmbiguousDomains(evidence: Evidence)
    requires IsAmbiguous(evidence) && |evidence| >= 2
    ensures NoMonitoredDomain(evidence) && InTimeOrder(evidence)
    ensures Enumerates(evidence, Domains, DOMAINS) && HasScope(evidence, Domain(MONITORED))
  {
    assert MONITORED[0] != "PL"[0] && MONITORED[0] != "PS"[0] && MONITORED[0] != "PS:A"[0];
    assert "PL"[1] != "PS"[1] && "PL"[1] != "PS:A"[1] && |"PS"| != |"PS:A"|;
    forall k | 0 <= k < |evidence|
      ensures Keys(evidence[k].domains) == {"PL", SecondDomain(k)} && MONITORED !in Keys(evidence[k].domains)
    {
      AmbiguousKeys(evidence, k);
    }
    forall name
      ensures name in DOMAINS <==> HasScope(evidence, Domain(name)) && name != MONITORED
    {
      HasScopeIff(evidence, Domain(name));
      assert "PL" in Keys(evidence[0].domains) && "PS:A" in Keys(evidence[0].domains);
      assert "PS" in Keys(evidence[1].domains);
    }
    HasScopeIff(evidence, Domain(MONITORED));
    assert Contribution(evidence[0], Domain(MONITORED)) != [];
  }

  /** The importer accepts the file, as idle and as active evidence: its rails are the same in every sweep. */
  lemma AmbiguousIsAccepted(n: nat, start: int, end: int)
    requires 2 <= start < end < n
    ensures AreBlocks(AmbiguousFile(n))
    ensures var rows, evidence := FileOf(AmbiguousFile(n)), SweepsOf(AmbiguousFile(n));
            && IsParsed(rows, SampleOrder(n), evidence) && PositiveRows(rows)
            && Accepted(evidence, evidence, start, end) && Enumerates(evidence, Domains, DOMAINS)
  {
    FileIsAmbiguous(n);
    FileParses(AmbiguousFile(n));
    FilePositive(n);
    var evidence := SweepsOf(AmbiguousFile(n));
    AmbiguousDomains(evidence);
    assert "PS" in DOMAINS && "PL" in DOMAINS;
    forall scope: Scope | HasScope(evidence, scope)
      ensures Measure(SeriesOf(evidence, scope), SeriesOf(evidence, scope), start, end).Some?
    {
      EveryTraceIsMeasured(evidence, scope, start, end);
    }
  }

  /** And its power is conserved over the rails but not over the domains. */
  lemma AmbiguousDomainsDoNotAddUp(n: nat, rails: seq<string>, start: int, end: int)
    requires 2 <= start < end < n && AreBlocks(AmbiguousFile(n))
    requires Enumerates(SweepsOf(AmbiguousFile(n)), Rails, rails)
    ensures var evidence := SweepsOf(AmbiguousFile(n));
            && Conserved(evidence, evidence, Rails, rails, start, end)
            && !Conserved(evidence, evidence, Domains, DOMAINS, start, end)
  {
    var rows, evidence := FileOf(AmbiguousFile(n)), SweepsOf(AmbiguousFile(n));
    AmbiguousIsAccepted(n, start, end);
    RailsConserved(rows, SampleOrder(n), evidence, rows, SampleOrder(n), evidence, rails, start, end);
    FileIsAmbiguous(n);
    OddSweepMissing(evidence, start, end);
    MissingDomainBreaks(evidence, rows, SampleOrder(n), evidence, DOMAINS, start, end);
  }

  lemma OddSweepMissing(evidence: Evidence, start: int, end: int)
    requires IsAmbiguous(evidence) && 2 <= start < end < |evidence|
    ensures !AllListedAround(evidence, DOMAINS, start, end)
  {
    var k := start - 1;
    AmbiguousKeys(evidence, k);
    var missing := SecondDomain(k + 1);
    assert "PL"[1] != "PS"[1] && "PL"[1] != "PS:A"[1] && |"PS"| != |"PS:A"|;
    assert SweepAround(evidence, k, start, end) && !Listed(evidence, missing, k);
    assert missing in DOMAINS by {
      assert DOMAINS[1] == "PS" && DOMAINS[2] == "PS:A";
    }
    assert !ListedAround(evidence, missing, start, end);
  }
}
