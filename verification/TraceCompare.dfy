/**
The comparison of two normalised traces, channel by channel, and what its verdict means in terms
of the raw traces: exactly which raw interrupt channels pass for correct service, and that the
verdict is decided by the programming streams and the acknowledged bits.
 */
module TraceCompare {
  import opened Lists
  import opened Outcomes
  import opened TraceEvents
  import opened TraceNormalize
  import opened InterruptService
  import opened PolledService
  import opened InterruptBits
  import opened SequenceDiff

  datatype TraceReport = TraceReport(
    matches: bool,
    counts: Counts,
    firstMismatch: Option<(Channel, nat)>,
    programming: SequenceDiff.Report,
    interrupt: SequenceDiff.Report)

  // ----- the interrupt channel -----

  predicate InterruptMatch(reference: seq<Item>, candidate: seq<Item>) {
    Accepted(reference) && Accepted(candidate) && BitCounts(Acks(reference)) == BitCounts(Acks(candidate))
  }

  predicate Raises(items: seq<Item>) {
    ScanAll(items).Err?
  }

  method ServiceOf(items: seq<Item>) returns (r: Scanned)
    ensures r == ScanAll(items)
  {
    r := SummarizeInterruptService(items);
  }

  method CompareInterruptService(reference: seq<Item>, candidate: seq<Item>)
    returns (r: Result<SequenceDiff.Report, string>)
    ensures r.Err? <==> Raises(reference) || Raises(candidate)
    ensures r.Ok? ==> IsInterruptReport(reference, candidate, r.value)
  {
    var referenceService := ServiceOf(reference);
    if referenceService.Err? {
      return Err(referenceService.error);
    }
    var candidateService := ServiceOf(candidate);
    if candidateService.Err? {
      return Err(candidateService.error);
    }
    var referenceBits := InterruptBitCounts(referenceService.value.acknowledged);
    var candidateBits := InterruptBitCounts(candidateService.value.acknowledged);
    var missing, unexpected := |referenceBits - candidateBits|, |candidateBits - referenceBits|;
    var matches := referenceService.value.errors == [] && candidateService.value.errors == []
                   && referenceBits == candidateBits;
    var mismatched := if referenceBits == candidateBits then 0 else missing + unexpected;
    r := Ok(SequenceDiff.Report(
              matches,
              Counts(|reference|, |candidate|, missing, unexpected, 0, mismatched),
              if matches then None else Some(0)));
  }

  ghost predicate IsInterruptReport(reference: seq<Item>, candidate: seq<Item>, report: SequenceDiff.Report)
    requires !Raises(reference) && !Raises(candidate)
  {
    var r := BitCounts(ScanAll(reference).value.acknowledged);
    var c := BitCounts(ScanAll(candidate).value.acknowledged);
    && report.matches == InterruptMatch(reference, candidate)
    && report.firstMismatch == (if report.matches then None else Some(0))
    && report.counts.reference == |reference| && report.counts.candidate == |candidate|
    && report.counts.missing == |r - c| && report.counts.unexpected == |c - r|
    && report.counts.reordered == 0
    && report.counts.valueMismatched == |r - c| + |c - r|
  }

  // ----- both channels -----

  predicate TraceMatch(reference: seq<Item>, candidate: seq<Item>) {
    && Signatures(OnChannel(reference, Programming)) == Signatures(OnChannel(candidate, Programming))
    && InterruptMatch(OnChannel(reference, Interrupt), OnChannel(candidate, Interrupt))
  }

  /** What a comparison of two normalised traces must report. */
  ghost predicate IsTraceReport(reference: seq<Item>, candidate: seq<Item>, r: Result<TraceReport, string>) {
    && (r.Err? <==> Raises(OnChannel(reference, Interrupt)) || Raises(OnChannel(candidate, Interrupt)))
    && (r.Ok? ==>
          var report := r.value;
          && report.matches == TraceMatch(reference, candidate)
          && (report.firstMismatch.None? <==> report.matches)
          && IsSequenceReport(Signatures(OnChannel(reference, Programming)),
                              Signatures(OnChannel(candidate, Programming)), report.programming)
          && IsInterruptReport(OnChannel(reference, Interrupt), OnChannel(candidate, Interrupt), report.interrupt)
          && (report.firstMismatch.Some? ==>
                report.firstMismatch.value
                == if report.programming.firstMismatch.Some? then (Programming, report.programming.firstMismatch.value)
                   else (Interrupt, 0))
          && report.counts.reference == |reference| && report.counts.candidate == |candidate|
          && report.counts.missing == report.programming.counts.missing + report.interrupt.counts.missing
          && report.counts.unexpected == report.programming.counts.unexpected + report.interrupt.counts.unexpected
          && report.counts.reordered == report.programming.counts.reordered
          && report.counts.valueMismatched
          == report.programming.counts.valueMismatched + report.interrupt.counts.valueMismatched)
  }

  method CompareNormalizedTraces(reference: seq<Item>, candidate: seq<Item>) returns (r: Result<TraceReport, string>)
    ensures IsTraceReport(reference, candidate, r)
  {
    ChannelsPartition(reference);
    ChannelsPartition(candidate);
    var programming := CompareSequence(OnChannel(reference, Programming), OnChannel(candidate, Programming));
    var compared := CompareInterruptService(OnChannel(reference, Interrupt), OnChannel(candidate, Interrupt));
    if compared.Err? {
      return Err(compared.error);
    }
    var interrupt := compared.value;
    var first := None;
    if programming.firstMismatch.Some? {
      first := Some((Programming, programming.firstMismatch.value));
    } else if interrupt.firstMismatch.Some? {
      first := Some((Interrupt, interrupt.firstMismatch.value));
    }
    var p, i := programming.counts, interrupt.counts;
    var counts := Counts(p.reference + i.reference, p.candidate + i.candidate, p.missing + i.missing,
                         p.unexpected + i.unexpected, p.reordered + i.reordered,
                         p.valueMismatched + i.valueMismatched);
    r := Ok(TraceReport(programming.matches && interrupt.matches, counts, first, programming, interrupt));
  }

  lemma {:induction false} ChannelsPartition(items: seq<Item>)
    ensures |OnChannel(items, Programming)| + |OnChannel(items, Interrupt)| == |items|
  {
    if items != [] {
      ChannelsPartition(items[1..]);
    }
  }

  type Compared = Result<TraceReport, string>

  /** Swapping the traces keeps errors, verdict and divergence, and mirrors the counts. */
  lemma ReportsAreSymmetric(a: seq<Item>, b: seq<Item>, forth: Compared, back: Compared)
    requires IsTraceReport(a, b, forth) && IsTraceReport(b, a, back)
    ensures forth.Err? <==> back.Err?
    ensures forth.Ok? ==>
              && back.value.matches == forth.value.matches
              && back.value.firstMismatch == forth.value.firstMismatch
              && back.value.counts == Mirrored(forth.value.counts)
  {
    if forth.Ok? {
      var x, y := forth.value, back.value;
      ReportsMirror(Signatures(OnChannel(a, Programming)), Signatures(OnChannel(b, Programming)),
                    x.programming, y.programming);
    }
  }

  /** Reports that match compose. */
  lemma MatchesCompose(a: seq<Item>, b: seq<Item>, c: seq<Item>, ab: Compared, bc: Compared, ac: Compared)
    requires IsTraceReport(a, b, ab) && IsTraceReport(b, c, bc) && IsTraceReport(a, c, ac)
    ensures ab.Ok? && bc.Ok? ==> ac.Ok?
    ensures ab.Ok? && bc.Ok? && ab.value.matches && bc.value.matches
            ==> ac.Ok? && ac.value.matches && ac.value.firstMismatch == None
  {
    var p, q, r := OnChannel(a, Interrupt), OnChannel(b, Interrupt), OnChannel(c, Interrupt);
    assert InterruptMatch(p, q) && InterruptMatch(q, r) ==> InterruptMatch(p, r);
  }

  lemma RaisesIff(items: seq<Item>)
    ensures Raises(items) <==> DataWithoutValue(items)
  {
    ScanRaisesIff(items, |items|);
  }

  /** A trace held against itself raises exactly on data without a value, and matches exactly on accepted service. */
  lemma ReportOnItself(a: seq<Item>, report: Compared)
    requires IsTraceReport(a, a, report)
    ensures report.Err? <==> DataWithoutValue(OnChannel(a, Interrupt))
    ensures report.Ok? ==>
              && (report.value.matches <==> Accepted(OnChannel(a, Interrupt)))
              && report.value.counts == Counts(|a|, |a|, 0, 0, 0, 0)
  {
    var interrupts, programming := OnChannel(a, Interrupt), Signatures(OnChannel(a, Programming));
    RaisesIff(interrupts);
    if report.Ok? {
      NothingMoved(programming, report.value.programming);
      NoneMissing(interrupts, report.value.interrupt);
    }
  }

  lemma NoneMissing(interrupts: seq<Item>, report: SequenceDiff.Report)
    requires !Raises(interrupts) && IsInterruptReport(interrupts, interrupts, report)
    ensures report.counts == Counts(|interrupts|, |interrupts|, 0, 0, 0, 0)
  {
    var bits := BitCounts(ScanAll(interrupts).value.acknowledged);
    assert bits - bits == multiset{};
  }

  lemma NothingMoved(signatures: seq<Signature>, report: SequenceDiff.Report)
    requires IsSequenceReport(signatures, signatures, report)
    ensures report.counts == Counts(|signatures|, |signatures|, 0, 0, 0, 0)
  {
    var n := Shorter(|signatures|, |signatures|);
    assert Positions(signatures, signatures, n, IsValueMismatch) == {};
    assert Positions(signatures, signatures, n, Reordered(signatures, signatures)) == {};
    assert multiset(signatures) - multiset(signatures) == multiset{};
  }

  function RawInterrupts(events: seq<Event>): seq<Item> {
    OnChannel(RawItems(events), Interrupt)
  }

  /**
  If the raw interrupt channel of a trace is correct service, so is the channel after duplicate
  reads are dropped, with the same acknowledged values in the same order.
   */
  lemma NormalizingKeepsService(events: seq<Event>)
    requires Accepted(RawInterrupts(events))
    ensures Accepted(OnChannel(Normalize(events), Interrupt))
    ensures Acks(OnChannel(Normalize(events), Interrupt)) == Acks(RawInterrupts(events))
  {
    var raw := RawInterrupts(events);
    var units := Decompose(raw, |raw|);
    OnChannelIsOn(RawItems(events));
    CollapseUnits(units, map[]);
    NormalizeProjection(events, Interrupt);
    UnitsAccepted(units);
    UnitsAccepted(KeptUnits(units, None));
  }

  /**
  The interrupt channel of a normalised trace is accepted exactly when the raw channel is polled
  service: idle polls, and cycles in which the status may be read again before and after its
  acknowledge. What is acknowledged are the units' values; the raw channel itself is correct service
  exactly when no read in it repeats.
   */
  lemma AcceptedIffPolledService(events: seq<Event>)
    ensures Accepted(OnChannel(Normalize(events), Interrupt))
       <==> exists units :: IsPolled(RawInterrupts(events), units)
    ensures forall units | IsPolled(RawInterrupts(events), units) ::
              && Acks(OnChannel(Normalize(events), Interrupt)) == PolledValues(units)
              && (Accepted(RawInterrupts(events)) <==> AllPlain(units))
  {
    OnChannelIsOn(RawItems(events));
    NormalizeProjection(events, Interrupt);
    AcceptedIffPolled(RawInterrupts(events), map[]);
    forall units | IsPolled(RawInterrupts(events), units)
      ensures Accepted(RawInterrupts(events)) <==> AllPlain(units)
    {
      PlainIffAccepted(units);
    }
  }

  lemma OneUnit(events: seq<Event>, unit: Polled)
    requires unit.WellFormed() && RawInterrupts(events) == unit.Items()
    ensures IsPolled(RawInterrupts(events), [unit])
  {
    assert Flat([unit]) == unit.Items();
  }

  /** The converse of NormalizingKeepsService fails on purpose: a repeated status is absorbed. */
  lemma RepeatedPollIsAbsorbed(events: seq<Event>, cycle: Unit)
    requires cycle.Cycle? && cycle.WellFormed() && RawInterrupts(events) == [cycle.status] + cycle.Items()
    ensures !Accepted(RawInterrupts(events)) && Accepted(OnChannel(Normalize(events), Interrupt))
  {
    var unit := Served([cycle.status, cycle.status], cycle.acknowledge, [], cycle.confirmation);
    assert unit.Items() == [cycle.status] + cycle.Items();
    OneUnit(events, unit);
    AcceptedIffPolledService(events);
  }

  /**
  So is a status that is still set when it is read after its acknowledge: the scanner reports it as
  not cleared in the raw channel, and the normalised channel is accepted.
   */
  lemma UnclearedIsAbsorbed(events: seq<Event>, cycle: Unit, stale: Item)
    requires cycle.Cycle? && cycle.WellFormed() && stale.operation == Read && stale.data == cycle.status.data
    requires RawInterrupts(events) == [cycle.status, cycle.acknowledge, stale, cycle.confirmation]
    ensures Scan(RawInterrupts(events), 4).Ok?
    ensures ServiceError(2, NotCleared) in Scan(RawInterrupts(events), 4).value.errors
    ensures !Accepted(RawInterrupts(events)) && Accepted(OnChannel(Normalize(events), Interrupt))
  {
    var raw := RawInterrupts(events);
    assert raw[2..] == [stale, cycle.confirmation] && raw[2..][1..] == [cycle.confirmation];
    assert Scan([cycle.confirmation], 4).Ok?;
    assert Scan(raw[2..], 4).Ok?;
    var unit := Served([cycle.status], cycle.acknowledge, [stale], cycle.confirmation);
    assert unit.Items() == raw;
    OneUnit(events, unit);
    AcceptedIffPolledService(events);
  }

  // ----- the verdict in terms of the raw traces -----

  predicate NormalizedMatch(a: seq<Event>, b: seq<Event>) {
    TraceMatch(Normalize(a), Normalize(b))
  }

  /** The programming stream a trace is held to: its raw programming channel without repeated state reads. */
  function ProgrammingOf(events: seq<Event>): seq<Signature> {
    Signatures(Collapse(OnChannel(RawItems(events), Programming), map[]))
  }

  /** Both raw channels are polled service, and the same bits are acknowledged equally often. */
  ghost predicate SameService(a: seq<Item>, b: seq<Item>) {
    exists units, units' ::
      && IsPolled(a, units) && IsPolled(b, units')
      && BitCounts(PolledValues(units)) == BitCounts(PolledValues(units'))
  }

  /** The verdict on any two traces is decided by their raw channels. */
  lemma VerdictFromRawChannels(a: seq<Event>, b: seq<Event>)
    ensures NormalizedMatch(a, b)
       <==> ProgrammingOf(a) == ProgrammingOf(b) && SameService(RawInterrupts(a), RawInterrupts(b))
  {
    NormalizeProjection(a, Programming);
    NormalizeProjection(b, Programming);
    AcceptedIffPolledService(a);
    AcceptedIffPolledService(b);
  }

  predicate SameChannels(a: seq<Event>, b: seq<Event>) {
    && OnChannel(RawItems(a), Programming) == OnChannel(RawItems(b), Programming)
    && RawInterrupts(a) == RawInterrupts(b)
  }

  /** However the two channels of a trace are shuffled together, no verdict changes. */
  lemma InterleavingInvariant(a: seq<Event>, a': seq<Event>, b: seq<Event>)
    requires SameChannels(a, a')
    ensures NormalizedMatch(a, b) == NormalizedMatch(a', b)
    ensures NormalizedMatch(b, a) == NormalizedMatch(b, a')
    ensures NormalizedMatch(a, a') <==> exists units :: IsPolled(RawInterrupts(a), units)
  {
    NormalizeProjection(a, Programming);
    NormalizeProjection(a', Programming);
    NormalizeProjection(a, Interrupt);
    NormalizeProjection(a', Interrupt);
    AcceptedIffPolledService(a);
  }

  // ----- coalescing -----

  /** What was read last, as long as it was zero, does not matter to the service that follows. */
  lemma RestIsTheSame(items: seq<Item>, last: LastState, last': LastState)
    requires AllInterrupt(items) && AtRest(last) && AtRest(last')
    ensures Accepted(Collapse(items, last)) == Accepted(Collapse(items, last'))
    ensures Accepted(Collapse(items, last)) ==> Acks(Collapse(items, last)) == Acks(Collapse(items, last'))
  {
    AcceptedIffPolled(items, last);
    AcceptedIffPolled(items, last');
  }

  /** A channel that starts with polled service, from a first read on. */
  lemma ServiceFirst(events: seq<Event>, units: seq<Polled>, after: seq<Item>)
    requires AllPolled(units) && RawInterrupts(events) == Flat(units) + after
    ensures AllInterrupt(after)
    ensures var service := OnChannel(Normalize(events), Interrupt);
            && (Accepted(service) <==> Accepted(Collapse(after, map[])))
            && (Accepted(service) ==> Acks(service) == PolledValues(units) + Acks(Collapse(after, map[])))
  {
    OnChannelIsOn(RawItems(events));
    AllOfBoth(Flat(units), after);
    NormalizeProjection(events, Interrupt);
    PolledThen(units, after, map[]);
    RestIsTheSame(after, LastAfter(Flat(units), map[]), map[]);
  }

  lemma ConsPolled(unit: Polled, units: seq<Polled>)
    requires unit.WellFormed() && AllPolled(units)
    ensures AllPolled([unit] + units) && Flat([unit] + units) == unit.Items() + Flat(units)
    ensures PolledValues([unit] + units) == unit.Plain().Values() + PolledValues(units)
  {
    assert ([unit] + units)[1..] == units;
    ConsUnit(unit.Plain(), PlainUnits(units));
  }

  lemma {:induction false} PolledConcat(a: seq<Polled>, b: seq<Polled>)
    requires AllPolled(a) && AllPolled(b)
    ensures AllPolled(a + b) && PolledValues(a + b) == PolledValues(a) + PolledValues(b)
  {
    if a == [] {
      assert a + b == b;
    } else {
      PolledConcat(a[1..], b);
      ConsPolled(a[0], a[1..] + b);
      ConsPolled(a[0], a[1..]);
      FirstAndRest(a);
      Regroup([a[0]], a[1..], b);
      Regroup(a[0].Plain().Values(), PolledValues(a[1..]), PolledValues(b));
    }
  }

  /** The value of a served unit. */
  function ServedValue(unit: Polled): nat
    requires unit.WellFormed() && unit.Served?
  {
    CycleValue(unit.Plain())
  }

  lemma OneServed(before: seq<Polled>, unit: Polled)
    requires AllPolled(before) && unit.WellFormed() && unit.Served?
    ensures AllPolled(before + [unit])
    ensures PolledValues(before + [unit]) == PolledValues(before) + [ServedValue(unit)]
  {
    ConsPolled(unit, []);
    NothingMore([unit]);
    NothingMore(unit.Plain().Values());
    PolledConcat(before, [unit]);
  }

  lemma TwoServed(before: seq<Polled>, first: Polled, second: Polled)
    requires AllPolled(before) && first.WellFormed() && first.Served? && second.WellFormed() && second.Served?
    ensures AllPolled(before + [first, second])
    ensures PolledValues(before + [first, second]) == PolledValues(before) + [ServedValue(first), ServedValue(second)]
  {
    OneServed(before, first);
    OneServed(before + [first], second);
    TwoMore(before, [], first, second);
    TwoMore(PolledValues(before), [], ServedValue(first), ServedValue(second));
    NothingMore(before);
    NothingMore(PolledValues(before));
    assert [] + [first, second] == [first, second];
    assert [] + [ServedValue(first), ServedValue(second)] == [ServedValue(first), ServedValue(second)];
  }

  /**
  Servicing two disjoint sets of interrupt bits in one cycle or in two never changes a verdict on raw
  traces with the same programming, wherever it happens after polled service and whatever follows.
   */
  lemma CoalescingInvariant(together: seq<Event>, apart: seq<Event>, other: seq<Event>, before: seq<Polled>,
                            both: Polled, first: Polled, second: Polled, after: seq<Item>)
    requires OnChannel(RawItems(together), Programming) == OnChannel(RawItems(apart), Programming)
    requires AllPolled(before) && both.WellFormed() && first.WellFormed() && second.WellFormed()
    requires both.Served? && first.Served? && second.Served?
    requires RawInterrupts(together) == Flat(before + [both]) + after
    requires RawInterrupts(apart) == Flat(before + [first, second]) + after
    requires BitAnd(ServedValue(first), ServedValue(second)) == 0
    requires ServedValue(both) == BitOr(ServedValue(first), ServedValue(second))
    ensures NormalizedMatch(together, other) == NormalizedMatch(apart, other)
    ensures NormalizedMatch(other, together) == NormalizedMatch(other, apart)
  {
    NormalizeProjection(together, Programming);
    NormalizeProjection(apart, Programming);
    OneServed(before, both);
    TwoServed(before, first, second);
    ServiceFirst(together, before + [both], after);
    ServiceFirst(apart, before + [first, second], after);
    var s, t := OnChannel(Normalize(together), Interrupt), OnChannel(Normalize(apart), Interrupt);
    if Accepted(Collapse(after, map[])) {
      SameBits(PolledValues(before), ServedValue(first), ServedValue(second), Acks(Collapse(after, map[])));
    }
    SameVerdicts(s, t, OnChannel(Normalize(other), Interrupt));
  }

  lemma SameVerdicts(s: seq<Item>, t: seq<Item>, other: seq<Item>)
    requires Accepted(s) == Accepted(t) && (Accepted(s) ==> BitCounts(Acks(s)) == BitCounts(Acks(t)))
    ensures InterruptMatch(s, other) == InterruptMatch(t, other)
    ensures InterruptMatch(other, s) == InterruptMatch(other, t)
  {
  }

  lemma SameBits(before: seq<nat>, a: nat, b: nat, after: seq<nat>)
    requires BitAnd(a, b) == 0
    ensures BitCounts(before + [BitOr(a, b)] + after) == BitCounts(before + [a, b] + after)
  {
    OneOrTwoValues(before, a, b, after);
    assert before + [BitOr(a, b)] + after == before + ([BitOr(a, b)] + after);
    assert before + [a, b] + after == before + ([a] + ([b] + after));
  }

  /**
  Servicing two disjoint sets of interrupt bits in one cycle or in two never changes the verdict
  on a channel, wherever it happens after correct service and whatever follows.
   */
  lemma ChannelCoalescing(before: seq<Unit>, both: Unit, first: Unit, second: Unit, after: seq<Item>,
                          candidate: seq<Item>)
    requires AllWellFormed(before) && both.WellFormed() && first.WellFormed() && second.WellFormed()
    requires both.Cycle? && first.Cycle? && second.Cycle?
    requires BitAnd(CycleValue(first), CycleValue(second)) == 0
    requires CycleValue(both) == BitOr(CycleValue(first), CycleValue(second))
    ensures var together := Flatten(before) + (both.Items() + after);
            var apart := Flatten(before) + (first.Items() + (second.Items() + after));
            && InterruptMatch(together, candidate) == InterruptMatch(apart, candidate)
            && InterruptMatch(candidate, together) == InterruptMatch(candidate, apart)
  {
    ServiceThen(before, both.Items() + after);
    ServiceThen(before, first.Items() + (second.Items() + after));
    CycleThen(both, after);
    CycleThen(second, after);
    CycleThen(first, second.Items() + after);
    if Accepted(after) {
      OneOrTwoValues(Acknowledged(before), CycleValue(first), CycleValue(second), Acks(after));
    }
  }

  lemma OneOrTwoValues(before: seq<nat>, a: nat, b: nat, after: seq<nat>)
    requires BitAnd(a, b) == 0
    ensures BitCounts(before + ([BitOr(a, b)] + after)) == BitCounts(before + ([a] + ([b] + after)))
  {
    CoalescedBits(a, b);
    BitCountsConcat(before, [BitOr(a, b)] + after);
    BitCountsConcat([BitOr(a, b)], after);
    BitCountsConcat(before, [a] + ([b] + after));
    BitCountsConcat([a], [b] + after);
    BitCountsConcat([b], after);
  }

  /** Accepted streams match exactly when, split into single-bit cycles, one is a permutation of the other. */
  lemma MatchIffPermutedSplits(reference: seq<Item>, candidate: seq<Item>)
    requires Accepted(reference) && Accepted(candidate)
    ensures InterruptMatch(reference, candidate)
       <==> multiset(SplitValues(Acks(reference))) == multiset(SplitValues(Acks(candidate)))
  {
    SameBitsIffPermutedSplits(Acks(reference), Acks(candidate));
  }
}
