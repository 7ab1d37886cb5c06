/**
Conservation of power from the rows of the sampler files: always over the rails, and over the
domains whenever every sweep lists the same domains, which names without a colon guarantee.
 */
module PowerConservation {
  import opened Outcomes
  import opened PowerTrace
  import opened PowerEvidence
  import opened PowerSummary

  /** Rows that the importer accepts, and the evidence it makes of them. */
  ghost predicate IsParsed(rows: seq<Row>, order: seq<int>, evidence: Evidence) {
    && (forall i | 0 <= i < |rows| :: Consistent(rows, i))
    && evidence != [] && IsEvidence(rows, order, evidence) && SameRails(evidence)
  }

  predicate InTimeOrder(evidence: Evidence) {
    forall i, j | 0 <= i < j < |evidence| :: evidence[i].timestamp < evidence[j].timestamp
  }

  lemma {:induction false} HasScopeIff(evidence: Evidence, scope: Scope)
    ensures HasScope(evidence, scope) <==> exists i | 0 <= i < |evidence| :: Contribution(evidence[i], scope) != []
  {
    if evidence != [] {
      HasScopeIff(evidence[1..], scope);
      assert forall i | 1 <= i < |evidence| :: evidence[i] == evidence[1..][i - 1];
      assert SeriesOf(evidence, scope) == Contribution(evidence[0], scope) + SeriesOf(evidence[1..], scope);
    }
  }

  /** The names of all parts of a kind that have a trace, each once. */
  ghost predicate Enumerates(evidence: Evidence, kind: Kind, names: seq<string>) {
    && Distinct(names)
    && (kind.Domains? ==> MONITORED !in names)
    && forall name :: name in names <==>
         HasScope(evidence, ScopeOf(kind, name)) && (kind.Domains? ==> name != MONITORED)
  }

  /** All sweeps list the same parts of a kind. */
  predicate SameParts(evidence: Evidence, kind: Kind) {
    forall i, j | 0 <= i < |evidence| && 0 <= j < |evidence| ::
      Keys(PartOf(evidence[i], kind)) == Keys(PartOf(evidence[j], kind))
  }

  lemma EnumeratedPartsAreListed(evidence: Evidence, kind: Kind, names: seq<string>)
    requires evidence != [] && Enumerates(evidence, kind, names) && SameParts(evidence, kind)
    requires NoMonitoredDomain(evidence)
    ensures SweepsList(evidence, kind, names)
  {
    forall i, name | 0 <= i < |evidence|
      ensures name in Keys(PartOf(evidence[i], kind)) <==> name in names
    {
      HasScopeIff(evidence, ScopeOf(kind, name));
      if name in Keys(PartOf(evidence[i], kind)) {
        assert Contribution(evidence[i], ScopeOf(kind, name)) != [];
      }
      if name in names {
        var j :| 0 <= j < |evidence| && Contribution(evidence[j], ScopeOf(kind, name)) != [];
        assert Keys(PartOf(evidence[j], kind)) == Keys(PartOf(evidence[i], kind));
      }
    }
  }

  /** The summary of everything monitored is the sum of the summaries of `names`. */
  ghost predicate Conserved(idle: Evidence, active: Evidence, kind: Kind, names: seq<string>, start: int, end: int) {
    && names != []
    && (forall name | name in names :: PartMeasure(idle, active, kind, name, start, end).Some?)
    && var whole := Measure(SeriesOf(idle, Domain(MONITORED)), SeriesOf(active, Domain(MONITORED)), start, end);
       && whole.Some?
       && Summarize(whole.value) == SumSummaries(MeasuresOf(idle, active, kind, names, start, end))
  }

  /** Where every sweep lists the same parts, their summaries add up to that of everything monitored. */
  lemma ConservedOverSameParts(idleRows: seq<Row>, idleOrder: seq<int>, idle: Evidence,
                               activeRows: seq<Row>, activeOrder: seq<int>, active: Evidence,
                               kind: Kind, names: seq<string>, start: int, end: int)
    requires IsParsed(idleRows, idleOrder, idle) && IsParsed(activeRows, activeOrder, active)
    requires Accepted(idle, active, start, end)
    requires SameParts(idle, kind) && SameParts(active, kind) && Enumerates(active, kind, names)
    ensures Conserved(idle, active, kind, names, start, end)
  {
    EvidenceWellFormed(idleRows, idleOrder, idle);
    EvidenceWellFormed(activeRows, activeOrder, active);
    MonitoredDomainRejected(idle);
    MonitoredDomainRejected(active);
    assert Enumerates(idle, kind, names);
    EnumeratedPartsAreListed(idle, kind, names);
    EnumeratedPartsAreListed(active, kind, names);
    NamesNotEmpty(active, kind, names);
    PowerIsConserved(idle, active, kind, names, start, end);
  }

  lemma NamesNotEmpty(evidence: Evidence, kind: Kind, names: seq<string>)
    requires HasScope(evidence, Domain("PS")) && evidence != []
    requires forall i | 0 <= i < |evidence| :: WellFormed(evidence[i])
    requires Enumerates(evidence, kind, names)
    ensures names != []
  {
    if kind.Domains? {
      assert MONITORED[0] != "PS"[0];
      assert "PS" in names;
    } else {
      var key := evidence[0].rails[0].0;
      assert key in Keys(evidence[0].rails);
      HasScopeIff(evidence, Rail(key));
      assert Contribution(evidence[0], Rail(key)) != [];
      assert key in names;
    }
  }

  lemma SameRailsAreSameParts(evidence: Evidence)
    requires SameRails(evidence)
    ensures SameParts(evidence, Rails)
  {
    forall i, j | 0 <= i < |evidence| && 0 <= j < |evidence|
      ensures Keys(PartOf(evidence[i], Rails)) == Keys(PartOf(evidence[j], Rails))
    {
      assert i < j ==> Keys(evidence[i].rails) == Keys(evidence[j].rails);
      assert j < i ==> Keys(evidence[j].rails) == Keys(evidence[i].rails);
    }
  }

  /** Power is conserved over the rails of any accepted evidence. */
  lemma RailsConserved(idleRows: seq<Row>, idleOrder: seq<int>, idle: Evidence,
                       activeRows: seq<Row>, activeOrder: seq<int>, active: Evidence,
                       rails: seq<string>, start: int, end: int)
    requires IsParsed(idleRows, idleOrder, idle) && IsParsed(activeRows, activeOrder, active)
    requires Accepted(idle, active, start, end) && Enumerates(active, Rails, rails)
    ensures Conserved(idle, active, Rails, rails, start, end)
  {
    SameRailsAreSameParts(idle);
    SameRailsAreSameParts(active);
    ConservedOverSameParts(idleRows, idleOrder, idle, activeRows, activeOrder, active, Rails, rails, start, end);
  }

  // ----- domains -----

  lemma {:induction false} FullTrace(evidence: Evidence, name: string)
    requires name != MONITORED
    ensures |SeriesOf(evidence, Domain(name))| <= |evidence|
    ensures |SeriesOf(evidence, Domain(name))| == |evidence| ==> AllHave(evidence, Domains, name)
  {
    if evidence != [] {
      FullTrace(evidence[1..], name);
      assert |Contribution(evidence[0], Domain(name))| == if name in Keys(PartOf(evidence[0], Domains)) then 1 else 0;
      assert forall i | 1 <= i < |evidence| :: evidence[i] == evidence[1..][i - 1];
    }
  }

  ghost predicate Aligned(evidence: Evidence, domains: seq<string>) {
    forall name | name in domains ::
      SameTimes(SeriesOf(evidence, Domain(name)), SeriesOf(evidence, Domain(MONITORED)))
  }

  /** The domains' traces are sampled with the monitored trace exactly when all sweeps list the same domains. */
  lemma AlignedIffSameDomains(evidence: Evidence, domains: seq<string>)
    requires evidence != [] && Enumerates(evidence, Domains, domains) && NoMonitoredDomain(evidence)
    ensures Aligned(evidence, domains) <==> SameParts(evidence, Domains)
  {
    MonitoredSeries(evidence);
    if SameParts(evidence, Domains) {
      EnumeratedPartsAreListed(evidence, Domains, domains);
      forall name | name in domains
        ensures SameTimes(SeriesOf(evidence, Domain(name)), SeriesOf(evidence, Domain(MONITORED)))
      {
        PartSeries(evidence, Domains, name);
      }
    }
    if Aligned(evidence, domains) {
      forall i, j, name | 0 <= i < |evidence| && 0 <= j < |evidence| && name in Keys(PartOf(evidence[i], Domains))
        ensures name in Keys(PartOf(evidence[j], Domains))
      {
        assert Contribution(evidence[i], Domain(name)) != [];
        HasScopeIff(evidence, Domain(name));
        assert name in domains;
        FullTrace(evidence, name);
      }
      SubsetsAreEqual(evidence);
    }
  }

  lemma SubsetsAreEqual(evidence: Evidence)
    requires forall i, j, name
               | 0 <= i < |evidence| && 0 <= j < |evidence| && name in Keys(PartOf(evidence[i], Domains)) ::
               name in Keys(PartOf(evidence[j], Domains))
    ensures SameParts(evidence, Domains)
  {
  }

  predicate ColonFree(rows: seq<Row>) {
    forall i | 0 <= i < |rows| :: ':' !in rows[i].domain
  }

  lemma KeyNamesDomain(a: Row, b: Row)
    requires ':' !in a.domain && ':' !in b.domain && RailKey(a) == RailKey(b)
    ensures a.domain == b.domain
  {
    var key, m, n := RailKey(a), |a.domain|, |b.domain|;
    assert key[m] == ':' && key[n] == ':';
    assert forall i | 0 <= i < m :: key[i] == a.domain[i];
    assert forall i | 0 <= i < n :: key[i] == b.domain[i];
    assert m == n;
  }

  lemma {:induction false} SweepKeys(rows: seq<Row>)
    ensures forall name :: name in Keys(DomainSums(rows)) <==> exists i | 0 <= i < |rows| :: rows[i].domain == name
    ensures forall key :: key in Keys(RailReadings(rows)) <==> exists i | 0 <= i < |rows| :: RailKey(rows[i]) == key
  {
    if rows != [] {
      var n := |rows| - 1;
      var before, row := rows[..n], rows[n];
      SweepKeys(before);
      AccumulateFacts(DomainSums(before), row.domain, Watts(row));
      KeysOfAppend(RailReadings(before), (RailKey(row), Watts(row)));
      assert forall i | 0 <= i < n :: before[i] == rows[i];
    }
  }

  lemma KeysOfAppend(dict: Dict, entry: (string, real))
    ensures Keys(dict + [entry]) == Keys(dict) + {entry.0}
  {
    var whole := dict + [entry];
    assert whole[|dict|] == entry && forall i | 0 <= i < |dict| :: whole[i] == dict[i];
  }

  /** Sweeps with the same rails have the same domains if no domain name has a colon in it. */
  lemma ColonFreeDomains(a: seq<Row>, b: seq<Row>)
    requires ColonFree(a) && ColonFree(b)
    requires Keys(RailReadings(a)) <= Keys(RailReadings(b))
    ensures Keys(DomainSums(a)) <= Keys(DomainSums(b))
  {
    SweepKeys(a);
    SweepKeys(b);
    forall name | name in Keys(DomainSums(a))
      ensures name in Keys(DomainSums(b))
    {
      var i :| 0 <= i < |a| && a[i].domain == name;
      assert RailKey(a[i]) in Keys(RailReadings(a));
      var j :| 0 <= j < |b| && RailKey(b[j]) == RailKey(a[i]);
      KeyNamesDomain(a[i], b[j]);
    }
  }

  lemma {:induction false} RowsOfColonFree(rows: seq<Row>, n: nat, sample: int)
    requires n <= |rows| && ColonFree(rows)
    ensures ColonFree(RowsBefore(rows, n, sample))
  {
    if n > 0 {
      RowsOfColonFree(rows, n - 1, sample);
    }
  }

  lemma ColonFreeSameDomains(rows: seq<Row>, order: seq<int>, evidence: Evidence)
    requires IsParsed(rows, order, evidence) && ColonFree(rows)
    ensures SameParts(evidence, Domains)
  {
    forall i, j | 0 <= i < |evidence| && 0 <= j < |evidence|
      ensures Keys(evidence[i].domains) == Keys(evidence[j].domains)
    {
      var a, b := RowsOf(rows, order[i]), RowsOf(rows, order[j]);
      RowsOfColonFree(rows, |rows|, order[i]);
      RowsOfColonFree(rows, |rows|, order[j]);
      assert Keys(evidence[i].rails) == Keys(evidence[j].rails);
      ColonFreeDomains(a, b);
      ColonFreeDomains(b, a);
    }
  }

  /** Power is conserved over the domains of accepted evidence whose domain names have no colon. */
  lemma DomainsConserved(idleRows: seq<Row>, idleOrder: seq<int>, idle: Evidence,
                         activeRows: seq<Row>, activeOrder: seq<int>, active: Evidence,
                         domains: seq<string>, start: int, end: int)
    requires IsParsed(idleRows, idleOrder, idle) && IsParsed(activeRows, activeOrder, active)
    requires ColonFree(idleRows) && ColonFree(activeRows)
    requires Accepted(idle, active, start, end) && Enumerates(active, Domains, domains)
    ensures Conserved(idle, active, Domains, domains, start, end)
  {
    ColonFreeSameDomains(idleRows, idleOrder, idle);
    ColonFreeSameDomains(activeRows, activeOrder, active);
    ConservedOverSameParts(idleRows, idleOrder, idle, activeRows, activeOrder, active, Domains, domains, start, end);
  }
}
