/**
Interrupt service as a driver polls it: status reads may repeat while nothing changes. What the
normaliser makes of such a channel, and exactly which raw channels become correct service.
 */
module PolledService {
  import opened Outcomes
  import opened Lists
  import opened TraceEvents
  import opened TraceNormalize
  import opened InterruptService

  // ----- dropping repeated reads of correct service -----

  /** The text of the last read of a unit. */
  function LastText(unit: Unit): string {
    if unit.Idle? then unit.poll.data else unit.confirmation.data
  }

  predicate IsRepeat(unit: Unit, previous: Option<string>) {
    unit.Idle? && previous == Some(unit.poll.data)
  }

  /** The units that survive: an idle poll that repeats the previous text is dropped. */
  function KeptUnits(units: seq<Unit>, previous: Option<string>): seq<Unit> {
    if units == [] then []
    else if IsRepeat(units[0], previous) then KeptUnits(units[1..], Some(LastText(units[0])))
    else [units[0]] + KeptUnits(units[1..], Some(LastText(units[0])))
  }

  predicate AllInterrupt(items: seq<Item>) {
    forall i | 0 <= i < |items| :: ChannelOf(items[i]) == Interrupt
  }

  lemma InterruptStep(item: Item, rest: seq<Item>, last: LastState)
    requires ChannelOf(item) == Interrupt
    ensures var repeated := item.operation == Read && Lookup(last, INTERRUPT_STATUS) == Some(item.data);
            var seen := if item.operation == Read then last[INTERRUPT_STATUS := item.data] else last;
            && Collapse([item] + rest, last) == (if repeated then [] else [item]) + Collapse(rest, seen)
            && LastAfter([item] + rest, last) == LastAfter(rest, seen)
  {
    InterruptRegisterIsState(item);
    assert ([item] + rest)[1..] == rest;
    if Collapses(item, last) {
      assert Remember(item, last) == last;
    }
  }

  lemma CollapseCycle(cycle: Unit, last: LastState)
    requires cycle.WellFormed() && cycle.Cycle? && AllInterrupt(cycle.Items())
    requires INTERRUPT_STATUS in last ==> ParseHex(last[INTERRUPT_STATUS]) == Some(0)
    ensures Collapse(cycle.Items(), last) == cycle.Items()
    ensures LastAfter(cycle.Items(), last) == last[INTERRUPT_STATUS := cycle.confirmation.data]
  {
    var items := cycle.Items();
    var s, a, c := items[0], items[1], items[2];
    var seen := last[INTERRUPT_STATUS := s.data];
    InterruptStep(s, items[1..], last);
    InterruptStep(a, items[2..], seen);
    InterruptStep(c, [], seen);
    assert items == [s] + items[1..] && items[1..] == [a] + items[2..] && items[2..] == [c] + [];
    assert seen[INTERRUPT_STATUS := c.data] == last[INTERRUPT_STATUS := c.data];
  }

  lemma CollapseUnit(unit: Unit, last: LastState)
    requires unit.WellFormed() && AllInterrupt(unit.Items())
    requires INTERRUPT_STATUS in last ==> ParseHex(last[INTERRUPT_STATUS]) == Some(0)
    ensures Collapse(unit.Items(), last) == if IsRepeat(unit, Lookup(last, INTERRUPT_STATUS)) then [] else unit.Items()
    ensures LastAfter(unit.Items(), last) == last[INTERRUPT_STATUS := LastText(unit)]
    ensures ParseHex(LastText(unit)) == Some(0)
  {
    if unit.Idle? {
      assert ChannelOf(unit.Items()[0]) == Interrupt;
      InterruptStep(unit.poll, [], last);
      assert unit.Items() == [unit.poll] + [];
    } else {
      CollapseCycle(unit, last);
    }
  }

  lemma FlattenSplit(units: seq<Unit>)
    requires units != [] && AllInterrupt(Flatten(units))
    ensures AllInterrupt(units[0].Items()) && AllInterrupt(Flatten(units[1..]))
  {
    var n := |units[0].Items()|;
    assert Flatten(units)[..n] == units[0].Items() && Flatten(units)[n..] == Flatten(units[1..]);
  }

  lemma {:induction false} CollapseUnits(units: seq<Unit>, last: LastState)
    requires AllWellFormed(units) && AllInterrupt(Flatten(units))
    requires INTERRUPT_STATUS in last ==> ParseHex(last[INTERRUPT_STATUS]) == Some(0)
    ensures var kept := KeptUnits(units, Lookup(last, INTERRUPT_STATUS));
            && Collapse(Flatten(units), last) == Flatten(kept)
            && AllWellFormed(kept)
            && Acknowledged(kept) == Acknowledged(units)
  {
    if units != [] {
      var unit, rest, previous := units[0], units[1..], Lookup(last, INTERRUPT_STATUS);
      var last' := last[INTERRUPT_STATUS := LastText(unit)];
      FlattenSplit(units);
      CollapseUnit(unit, last);
      CollapseConcat(unit.Items(), Flatten(rest), last);
      CollapseUnits(rest, last');
      if !IsRepeat(unit, previous) {
        ConsUnit(unit, KeptUnits(rest, Some(LastText(unit))));
      }
    }
  }

  lemma {:induction false} OnChannelIsOn(items: seq<Item>)
    ensures AllInterrupt(OnChannel(items, Interrupt))
  {
    if items != [] {
      OnChannelIsOn(items[1..]);
    }
  }

  // ----- service with repeated reads -----

  /**
  One unit of polled service: an idle poll, or reads of one nonzero text, its acknowledge, further
  reads of that text, and a read of zero.
   */
  datatype Polled =
    | Quiet(poll: Item)
    | Served(statuses: seq<Item>, acknowledge: Item, stale: seq<Item>, confirmation: Item)
  {
    predicate WellFormed() {
      match this
      case Quiet(poll) => Idle(poll).WellFormed()
      case Served(statuses, acknowledge, stale, confirmation) =>
        && statuses != [] && Cycle(statuses[0], acknowledge, confirmation).WellFormed()
        && AllReadsOf(statuses, statuses[0].data) && AllReadsOf(stale, statuses[0].data)
    }

    function Items(): seq<Item> {
      match this
      case Quiet(poll) => [poll]
      case Served(statuses, acknowledge, stale, confirmation) => statuses + ([acknowledge] + (stale + [confirmation]))
    }

    /** The unit without its repeated reads. */
    function Plain(): Unit
      requires WellFormed()
    {
      match this
      case Quiet(poll) => Idle(poll)
      case Served(statuses, acknowledge, _, confirmation) => Cycle(statuses[0], acknowledge, confirmation)
    }

    predicate IsPlain() {
      Quiet? || (|statuses| == 1 && stale == [])
    }
  }

  predicate AllReadsOf(items: seq<Item>, text: string) {
    forall i | 0 <= i < |items| :: items[i].operation == Read && items[i].data == text
  }

  predicate AllPolled(units: seq<Polled>) {
    forall i | 0 <= i < |units| :: units[i].WellFormed()
  }

  function Flat(units: seq<Polled>): seq<Item> {
    if units == [] then [] else units[0].Items() + Flat(units[1..])
  }

  function PlainUnits(units: seq<Polled>): (plain: seq<Unit>)
    requires AllPolled(units)
    ensures |plain| == |units| && AllWellFormed(plain)
  {
    if units == [] then [] else [units[0].Plain()] + PlainUnits(units[1..])
  }

  /** The values a polled service acknowledges. */
  function PolledValues(units: seq<Polled>): seq<nat>
    requires AllPolled(units)
  {
    Acknowledged(PlainUnits(units))
  }

  ghost predicate IsPolled(items: seq<Item>, units: seq<Polled>) {
    AllPolled(units) && Flat(units) == items
  }

  /** Nothing has been read yet, or the last read was zero. */
  predicate AtRest(last: LastState) {
    INTERRUPT_STATUS in last ==> ParseHex(last[INTERRUPT_STATUS]) == Some(0)
  }

  // ----- polled service collapses to plain service -----

  lemma {:induction false} RepeatsGo(repeats: seq<Item>, text: string, rest: seq<Item>, last: LastState)
    requires AllInterrupt(repeats) && AllReadsOf(repeats, text) && Lookup(last, INTERRUPT_STATUS) == Some(text)
    ensures Collapse(repeats + rest, last) == Collapse(rest, last)
    ensures LastAfter(repeats + rest, last) == LastAfter(rest, last)
  {
    if repeats == [] {
      assert repeats + rest == rest;
    } else {
      assert repeats + rest == [repeats[0]] + (repeats[1..] + rest);
      InterruptStep(repeats[0], repeats[1..] + rest, last);
      assert last[INTERRUPT_STATUS := text] == last;
      RepeatsGo(repeats[1..], text, rest, last);
    }
  }

  lemma ServedCollapses(unit: Polled, last: LastState)
    requires unit.WellFormed() && unit.Served? && AllInterrupt(unit.Items())
    ensures Collapse(unit.Items(), last) == Collapse(unit.Plain().Items(), last)
    ensures LastAfter(unit.Items(), last) == LastAfter(unit.Plain().Items(), last)
    ensures AllInterrupt(unit.Plain().Items())
  {
    var status, acknowledge, confirmation := unit.statuses[0], unit.acknowledge, unit.confirmation;
    var seen := last[INTERRUPT_STATUS := status.data];
    PartsAreInterrupt(unit);
    var tail := [acknowledge] + (unit.stale + [confirmation]);
    FirstAndRest(unit.statuses);
    Regroup([status], unit.statuses[1..], tail);
    InterruptStep(status, unit.statuses[1..] + tail, last);
    RepeatsGo(unit.statuses[1..], status.data, tail, seen);
    InterruptStep(acknowledge, unit.stale + [confirmation], seen);
    RepeatsGo(unit.stale, status.data, [confirmation], seen);
    assert unit.Plain().Items() == [status] + ([acknowledge] + [confirmation]);
    InterruptStep(status, [acknowledge] + [confirmation], last);
    InterruptStep(acknowledge, [confirmation], seen);
  }

  lemma AllOfBoth(a: seq<Item>, b: seq<Item>)
    requires AllInterrupt(a + b)
    ensures AllInterrupt(a) && AllInterrupt(b)
  {
    assert forall i | 0 <= i < |a| :: a[i] == (a + b)[i];
    assert forall i | 0 <= i < |b| :: b[i] == (a + b)[|a| + i];
  }

  lemma PartsAreInterrupt(unit: Polled)
    requires unit.Served? && unit.statuses != [] && AllInterrupt(unit.Items())
    ensures ChannelOf(unit.statuses[0]) == ChannelOf(unit.acknowledge) == ChannelOf(unit.confirmation) == Interrupt
    ensures AllInterrupt(unit.statuses[1..]) && AllInterrupt(unit.stale)
  {
    AllOfBoth(unit.statuses, [unit.acknowledge] + (unit.stale + [unit.confirmation]));
    AllOfBoth([unit.acknowledge], unit.stale + [unit.confirmation]);
    AllOfBoth(unit.stale, [unit.confirmation]);
    assert [unit.acknowledge][0] == unit.acknowledge && [unit.confirmation][0] == unit.confirmation;
  }

  lemma UnitCollapses(unit: Polled, last: LastState)
    requires unit.WellFormed() && AllInterrupt(unit.Items())
    ensures Collapse(unit.Items(), last) == Collapse(unit.Plain().Items(), last)
    ensures LastAfter(unit.Items(), last) == LastAfter(unit.Plain().Items(), last)
    ensures AllInterrupt(unit.Plain().Items())
  {
    if unit.Served? {
      ServedCollapses(unit, last);
    }
  }

  /** Lists that collapse alike followed by lists that collapse alike. */
  lemma CollapseAlike(a: seq<Item>, b: seq<Item>, c: seq<Item>, d: seq<Item>, last: LastState)
    requires Collapse(a, last) == Collapse(b, last) && LastAfter(a, last) == LastAfter(b, last)
    requires Collapse(c, LastAfter(a, last)) == Collapse(d, LastAfter(a, last))
    requires LastAfter(c, LastAfter(a, last)) == LastAfter(d, LastAfter(a, last))
    ensures Collapse(a + c, last) == Collapse(b + d, last) && LastAfter(a + c, last) == LastAfter(b + d, last)
  {
    CollapseConcat(a, c, last);
    CollapseConcat(b, d, last);
  }

  /** Collapsing polled service is collapsing the same service without its repeated reads. */
  lemma {:induction false} PolledCollapses(units: seq<Polled>, last: LastState)
    requires AllPolled(units) && AllInterrupt(Flat(units))
    ensures Collapse(Flat(units), last) == Collapse(Flatten(PlainUnits(units)), last)
    ensures LastAfter(Flat(units), last) == LastAfter(Flatten(PlainUnits(units)), last)
    ensures AllInterrupt(Flatten(PlainUnits(units)))
  {
    if units != [] {
      var unit, rest := units[0], units[1..];
      FlatSplit(units);
      UnitCollapses(unit, last);
      PolledCollapses(rest, LastAfter(unit.Items(), last));
      CollapseAlike(unit.Items(), unit.Plain().Items(), Flat(rest), Flatten(PlainUnits(rest)), last);
      assert PlainUnits(units)[1..] == PlainUnits(rest);
    }
  }

  lemma FlatSplit(units: seq<Polled>)
    requires units != [] && AllInterrupt(Flat(units))
    ensures AllInterrupt(units[0].Items()) && AllInterrupt(Flat(units[1..]))
  {
    var n := |units[0].Items()|;
    assert Flat(units)[..n] == units[0].Items() && Flat(units)[n..] == Flat(units[1..]);
  }

  /** After units of service the next text is at rest again. */
  lemma {:induction false} UnitsEndAtRest(units: seq<Unit>, last: LastState)
    requires AllWellFormed(units) && AllInterrupt(Flatten(units)) && AtRest(last)
    ensures AtRest(LastAfter(Flatten(units), last))
  {
    if units != [] {
      FlattenSplit(units);
      CollapseUnit(units[0], last);
      CollapseConcat(units[0].Items(), Flatten(units[1..]), last);
      UnitsEndAtRest(units[1..], LastAfter(units[0].Items(), last));
    }
  }

  /** What follows polled service decides whether the whole is accepted, and its values are appended. */
  lemma PolledThen(units: seq<Polled>, after: seq<Item>, last: LastState)
    requires AllPolled(units) && AllInterrupt(Flat(units)) && AtRest(last)
    ensures var later := LastAfter(Flat(units), last);
            && AtRest(later)
            && (Accepted(Collapse(Flat(units) + after, last)) <==> Accepted(Collapse(after, later)))
            && (Accepted(Collapse(after, later)) ==>
                  Acks(Collapse(Flat(units) + after, last)) == PolledValues(units) + Acks(Collapse(after, later)))
  {
    var plain := PlainUnits(units);
    PolledCollapses(units, last);
    CollapseConcat(Flat(units), after, last);
    CollapseUnits(plain, last);
    UnitsEndAtRest(plain, last);
    ServiceThen(KeptUnits(plain, Lookup(last, INTERRUPT_STATUS)), Collapse(after, LastAfter(Flat(units), last)));
  }

  /** Polled service is accepted after collapsing, with the values it acknowledges. */
  lemma PolledIsAccepted(units: seq<Polled>, last: LastState)
    requires AllPolled(units) && AllInterrupt(Flat(units)) && AtRest(last)
    ensures Accepted(Collapse(Flat(units), last))
    ensures Acks(Collapse(Flat(units), last)) == PolledValues(units)
  {
    PolledThen(units, [], last);
    NothingMore(Flat(units));
    NothingMore(PolledValues(units));
  }

  // ----- and nothing else does -----

  /** The reads of one text at the head of a list. */
  function LeadingReads(items: seq<Item>, text: string): (n: nat)
    ensures n <= |items| && AllReadsOf(items[..n], text)
    ensures n < |items| ==> items[n].operation != Read || items[n].data != text
  {
    if items == [] || items[0].operation != Read || items[0].data != text then 0
    else
      var n := 1 + LeadingReads(items[1..], text);
      assert forall i | 0 < i < n :: items[..n][i] == items[1..][..n - 1][i - 1];
      n
  }

  lemma AfterRepeats(items: seq<Item>, text: string, last: LastState) returns (n: nat)
    requires AllInterrupt(items) && Lookup(last, INTERRUPT_STATUS) == Some(text)
    ensures n <= |items| && AllReadsOf(items[..n], text)
    ensures n == |items| ==> Collapse(items, last) == []
    ensures n < |items| ==>
              var seen := if items[n].operation == Read then last[INTERRUPT_STATUS := items[n].data] else last;
              Collapse(items, last) == [items[n]] + Collapse(items[n + 1..], seen)
  {
    n := LeadingReads(items, text);
    assert items == items[..n] + items[n..];
    assert AllInterrupt(items[..n]);
    RepeatsGo(items[..n], text, items[n..], last);
    if n < |items| {
      FirstAndRest(items[n..]);
      assert items[n..][1..] == items[n + 1..];
      InterruptStep(items[n], items[n + 1..], last);
    }
  }

  /** An accepted list that starts with a nonzero status starts with a whole cycle. */
  lemma StartsWithCycle(items: seq<Item>)
    requires Accepted(items) && items != [] && ParseHex(items[0].data) != Some(0)
    ensures |items| >= 3 && Cycle(items[0], items[1], items[2]).WellFormed()
    ensures Accepted(items[3..])
  {
    var units := Decompose(items, |items|);
    assert units[0].Items() == items[..|units[0].Items()|];
    assert units[0].Cycle?;
    assert items[0] == units[0].status && items[1] == units[0].acknowledge && items[2] == units[0].confirmation;
    assert items == units[0].Items() + items[3..];
    CycleThen(units[0], items[3..]);
  }

  lemma ThreeFirst(kept: seq<Item>, a: Item, b: Item, c: Item, rest: seq<Item>)
    requires kept == [a] + ([b] + ([c] + rest))
    ensures kept[0] == a && kept[1] == b && kept[2] == c && kept[3..] == rest
  {
  }

  lemma ServedItems(unit: Polled, tail: seq<Item>, n: nat, behind: seq<Item>, m: nat, status: Item)
    requires n < |tail| && behind == tail[n + 1..] && m < |behind|
    requires unit == Served([status] + tail[..n], tail[n], behind[..m], behind[m])
    ensures unit.Items() + behind[m + 1..] == [status] + tail
  {
    assert behind == behind[..m] + [behind[m]] + behind[m + 1..];
    assert tail == tail[..n] + [tail[n]] + behind;
  }

  lemma ServedIsWellFormed(unit: Polled, status: Item, repeats: seq<Item>)
    requires unit.Served? && unit.statuses == [status] + repeats
    requires Cycle(status, unit.acknowledge, unit.confirmation).WellFormed()
    requires AllReadsOf(repeats, status.data) && AllReadsOf(unit.stale, status.data)
    ensures unit.WellFormed()
  {
  }

  lemma AllAfter(items: seq<Item>, k: nat)
    requires AllInterrupt(items) && k <= |items|
    ensures AllInterrupt(items[k..])
  {
  }

  /** The first unit of a channel that collapses to accepted service, and what is left. */
  lemma FirstServed(items: seq<Item>, last: LastState) returns (unit: Polled, rest: seq<Item>, later: LastState)
    requires AllInterrupt(items) && AtRest(last) && Accepted(Collapse(items, last))
    requires items != [] && !(items[0].operation == Read && ParseHex(items[0].data) == Some(0))
    ensures unit.WellFormed() && items == unit.Items() + rest && AllInterrupt(rest) && |rest| < |items|
    ensures AtRest(later) && Accepted(Collapse(rest, later))
  {
    var status, tail, kept := items[0], items[1..], Collapse(items, last);
    AllAfter(items, 1);
    FirstAndRest(items);
    FirstIsKept(items, last);
    var seen := last[INTERRUPT_STATUS := status.data];
    StartsWithCycle(kept);
    var n, m := RestOfCycle(tail, status.data, seen);
    var behind := tail[n + 1..];
    var confirmation := behind[m];
    rest, later := behind[m + 1..], seen[INTERRUPT_STATUS := confirmation.data];
    ThreeFirst(kept, status, tail[n], confirmation, Collapse(rest, later));
    unit := Served([status] + tail[..n], tail[n], behind[..m], confirmation);
    ServedIsWellFormed(unit, status, tail[..n]);
    ServedItems(unit, tail, n, behind, m, status);
    AllAfter(tail, n + 1);
    AllAfter(behind, m + 1);
  }

  /** Where the acknowledge and the confirmation stand behind a first status. */
  lemma RestOfCycle(tail: seq<Item>, text: string, seen: LastState) returns (n: nat, m: nat)
    requires AllInterrupt(tail) && Lookup(seen, INTERRUPT_STATUS) == Some(text)
    requires |Collapse(tail, seen)| >= 2 && Collapse(tail, seen)[0].operation == Write
    requires Collapse(tail, seen)[1].operation == Read
    ensures n < |tail| && m < |tail[n + 1..]|
    ensures AllReadsOf(tail[..n], text) && AllReadsOf(tail[n + 1..][..m], text)
    ensures var behind := tail[n + 1..];
            Collapse(tail, seen)
            == [tail[n]] + ([behind[m]] + Collapse(behind[m + 1..], seen[INTERRUPT_STATUS := behind[m].data]))
  {
    n := AfterRepeats(tail, text, seen);
    AllAfter(tail, n + 1);
    assert Collapse(tail, seen)[0] == tail[n];
    m := AfterRepeats(tail[n + 1..], text, seen);
    assert Collapse(tail, seen)[1] == tail[n + 1..][m];
  }

  /** A first item that is no idle poll is kept; if the rest is accepted too, it is a nonzero status. */
  lemma FirstIsKept(items: seq<Item>, last: LastState)
    requires AllInterrupt(items) && AtRest(last) && Accepted(Collapse(items, last))
    requires items != [] && !(items[0].operation == Read && ParseHex(items[0].data) == Some(0))
    ensures Collapse(items, last) == [items[0]] + Collapse(items[1..], last[INTERRUPT_STATUS := items[0].data])
    ensures items[0].operation == Read && ParseHex(items[0].data) != Some(0)
  {
    FirstAndRest(items);
    InterruptStep(items[0], items[1..], last);
    assert Collapse(items, last)[0] == items[0];
    StartsOnStatus(items, last);
  }

  lemma StartsOnStatus(items: seq<Item>, last: LastState)
    requires items != [] && AtRest(last) && Accepted(Collapse(items, last))
    requires Collapse(items, last) != [] && Collapse(items, last)[0] == items[0]
    requires !(items[0].operation == Read && ParseHex(items[0].data) == Some(0))
    ensures items[0].operation == Read && ParseHex(items[0].data) != Some(0)
  {
  }

  lemma FlatCons(unit: Polled, units: seq<Polled>, rest: seq<Item>)
    requires unit.WellFormed() && IsPolled(rest, units)
    ensures IsPolled(unit.Items() + rest, [unit] + units)
  {
    assert ([unit] + units)[1..] == units;
  }

  /** Any channel that collapses to accepted service is polled service. */
  lemma {:induction false} TakeApart(items: seq<Item>, last: LastState) returns (units: seq<Polled>)
    requires AllInterrupt(items) && AtRest(last) && Accepted(Collapse(items, last))
    ensures IsPolled(items, units)
    decreases |items|
  {
    if items == [] {
      units := [];
    } else if items[0].operation == Read && ParseHex(items[0].data) == Some(0) {
      var later := last[INTERRUPT_STATUS := items[0].data];
      IdleThen(items, last);
      AllAfter(items, 1);
      units := TakeApart(items[1..], later);
      FlatCons(Quiet(items[0]), units, items[1..]);
      FirstAndRest(items);
      units := [Quiet(items[0])] + units;
    } else {
      var unit, rest, later := FirstServed(items, last);
      units := TakeApart(rest, later);
      FlatCons(unit, units, rest);
      units := [unit] + units;
    }
  }

  lemma IdleThen(items: seq<Item>, last: LastState)
    requires AllInterrupt(items) && AtRest(last) && Accepted(Collapse(items, last)) && items != []
    requires items[0].operation == Read && ParseHex(items[0].data) == Some(0)
    ensures AtRest(last[INTERRUPT_STATUS := items[0].data])
    ensures Accepted(Collapse(items[1..], last[INTERRUPT_STATUS := items[0].data]))
  {
    var rest := Collapse(items[1..], last[INTERRUPT_STATUS := items[0].data]);
    FirstAndRest(items);
    InterruptStep(items[0], items[1..], last);
    if Lookup(last, INTERRUPT_STATUS) == Some(items[0].data) {
      assert [] + rest == rest;
    } else {
      ServiceThen([Idle(items[0])], rest);
      assert Flatten([Idle(items[0])]) == [items[0]];
    }
  }

  /**
  Exactly the channels of polled service are accepted after repeated reads are dropped, and what is
  acknowledged are the values of the units, however the channel is taken apart.
   */
  lemma AcceptedIffPolled(items: seq<Item>, last: LastState)
    requires AllInterrupt(items) && AtRest(last)
    ensures Accepted(Collapse(items, last)) <==> exists units :: IsPolled(items, units)
    ensures forall units | IsPolled(items, units) :: Acks(Collapse(items, last)) == PolledValues(units)
  {
    if Accepted(Collapse(items, last)) {
      var units := TakeApart(items, last);
      assert IsPolled(items, units);
    }
    forall units | IsPolled(items, units)
      ensures Accepted(Collapse(items, last)) && Acks(Collapse(items, last)) == PolledValues(units)
    {
      PolledIsAccepted(units, last);
    }
  }

  // ----- which of them the scanner rejects as they are -----

  predicate AllPlain(units: seq<Polled>) {
    units == [] || (units[0].IsPlain() && AllPlain(units[1..]))
  }

  /** Polled service is correct service as it stands exactly when no read in it repeats. */
  lemma {:induction false} PlainIffAccepted(units: seq<Polled>)
    requires AllPolled(units)
    ensures Accepted(Flat(units)) <==> AllPlain(units)
  {
    if units != [] {
      PlainIffAccepted(units[1..]);
      if units[0].IsPlain() {
        PlainThen(units[0], Flat(units[1..]));
      } else {
        RepeatedReadIsAnError(units[0], Flat(units[1..]));
      }
    }
  }

  lemma PlainThen(unit: Polled, after: seq<Item>)
    requires unit.WellFormed() && unit.IsPlain()
    ensures Accepted(unit.Items() + after) <==> Accepted(after)
  {
    PlainItems(unit);
    ServiceThen([unit.Plain()], after);
    assert Flatten([unit.Plain()]) == unit.Items();
  }

  lemma PlainItems(unit: Polled)
    requires unit.WellFormed() && unit.IsPlain()
    ensures unit.Items() == unit.Plain().Items()
  {
  }

  lemma RepeatedReadIsAnError(unit: Polled, after: seq<Item>)
    requires unit.WellFormed() && !unit.IsPlain()
    ensures !Accepted(unit.Items() + after)
  {
    var items := unit.Items() + after;
    assert items[0] == unit.statuses[0];
    if |unit.statuses| > 1 {
      assert items[1] == unit.statuses[1];
    } else {
      assert items[1] == unit.acknowledge && items[2] == unit.stale[0];
    }
    if Accepted(items) {
      StartsWithCycle(items);
    }
  }
}
