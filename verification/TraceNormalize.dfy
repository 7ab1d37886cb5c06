/**
The normaliser of a register trace: non-CSB traffic is dropped, DMA addresses are checked and
masked, and a state read that repeats its register's last value is dropped.
 */
module TraceNormalize {
  import opened Lists
  import opened Outcomes
  import opened TraceEvents

  type LastState = map<string, string>

  // ----- specification -----

  predicate Collapses(item: Item, last: LastState) {
    IsStateRead(item) && StateKey(item) in last && last[StateKey(item)] == item.data
  }

  function Remember(item: Item, last: LastState): LastState {
    if IsStateRead(item) then last[StateKey(item) := item.data] else last
  }

  function Collapse(items: seq<Item>, last: LastState): seq<Item> {
    if items == [] then []
    else if Collapses(items[0], last) then Collapse(items[1..], last)
    else [items[0]] + Collapse(items[1..], Remember(items[0], last))
  }

  function LastAfter(items: seq<Item>, last: LastState): LastState {
    if items == [] then last else LastAfter(items[1..], Remember(items[0], last))
  }

  function Normalize(events: seq<Event>): seq<Item> {
    Collapse(RawItems(events), map[])
  }

  // ----- policy evidence -----

  datatype DmaFault = NonZeroHigh | OutsideExtmem | Misaligned

  datatype PolicyError =
    | NonOkResponse(sequence: nat, response: string)
    | BadDmaAddress(sequence: nat, fault: DmaFault)

  datatype Policy = Policy(
    inputCount: nat,
    normalizedCount: nat,
    maskedAddressCount: nat,
    collapsedReadCount: nat,
    errors: seq<PolicyError>)

  /** The fault of a DMA address write, if any; Err where converting its data raises. */
  function ValidateDmaValue(e: Event, extmemBase: nat, extmemHigh: nat): Result<Option<DmaFault>, string> {
    var register := RegisterName(e.register);
    match ParseHex(e.data)
    case None => Err(e.data)
    case Some(value) =>
      if Contains(register, "HIGH") then
        Ok(if value != 0 then Some(NonZeroHigh) else None)
      else if value == 0 && Contains(register, "DATAOUT_ADDR") then Ok(None)
      else if !(extmemBase <= value <= extmemHigh) then Ok(Some(OutsideExtmem))
      else if value % 4 != 0 then Ok(Some(Misaligned))
      else Ok(None)
  }

  /** A DMA write whose data text has no value: the source's conversion raises on it. */
  predicate Unparsable(e: Event) {
    e.iface == Csb && IsDmaWrite(e) && ParseHex(e.data).None?
  }

  predicate AllParsable(events: seq<Event>) {
    forall i | 0 <= i < |events| :: !Unparsable(events[i])
  }

  function ResponseErrors(e: Event): seq<PolicyError> {
    if e.response != "ok" then [NonOkResponse(e.sequence, e.response)] else []
  }

  function DmaErrors(e: Event, extmemBase: nat, extmemHigh: nat): seq<PolicyError> {
    var fault := ValidateDmaValue(e, extmemBase, extmemHigh);
    if IsDmaWrite(e) && fault.Ok? && fault.value.Some? then [BadDmaAddress(e.sequence, fault.value.value)] else []
  }

  /** The errors of every CSB event, kept or collapsed, in trace order. */
  function TraceErrors(events: seq<Event>, extmemBase: nat, extmemHigh: nat): seq<PolicyError> {
    if events == [] then []
    else
      var n := |events| - 1;
      var earlier := TraceErrors(events[..n], extmemBase, extmemHigh);
      if events[n].iface != Csb then earlier
      else earlier + ResponseErrors(events[n]) + DmaErrors(events[n], extmemBase, extmemHigh)
  }

  function MaskedCount(events: seq<Event>): nat {
    if events == [] then 0
    else (if events[0].iface == Csb && IsDmaWrite(events[0]) then 1 else 0) + MaskedCount(events[1..])
  }

  // ----- the normalising loop -----

  /** How the specification functions change when the loop moves past one event. */
  lemma EventStep(events: seq<Event>, index: nat, extmemBase: nat, extmemHigh: nat)
    requires index < |events|
    ensures var e, rest := events[index], events[index + 1..];
            && RawItems(events[index..]) == (if e.iface != Csb then RawItems(rest) else [ItemOf(e)] + RawItems(rest))
            && MaskedCount(events[index..])
            == MaskedCount(rest) + (if e.iface == Csb && IsDmaWrite(e) then 1 else 0)
    ensures TraceErrors(events[..index + 1], extmemBase, extmemHigh)
         == var e, earlier := events[index], TraceErrors(events[..index], extmemBase, extmemHigh);
            if e.iface != Csb then earlier
            else if !IsDmaWrite(e) then earlier + ResponseErrors(e)
            else earlier + ResponseErrors(e) + DmaErrors(e, extmemBase, extmemHigh)
    ensures AllParsable(events[..index + 1]) <==> AllParsable(events[..index]) && !Unparsable(events[index])
    ensures Unparsable(events[index]) ==> !AllParsable(events)
  {
    assert events[..index + 1] == events[..index] + [events[index]];
    assert events[index..][1..] == events[index + 1..];
    assert events[..index + 1][..index] == events[..index];
  }

  lemma CollapseSkip(item: Item, rest: seq<Item>, last: LastState)
    requires Collapses(item, last)
    ensures Collapse([item] + rest, last) == Collapse(rest, last)
  {
    assert ([item] + rest)[1..] == rest;
  }

  lemma CollapseStep(item: Item, rest: seq<Item>, last: LastState, kept: seq<Item>)
    requires !Collapses(item, last)
    ensures kept + Collapse([item] + rest, last) == kept + [item] + Collapse(rest, Remember(item, last))
  {
    assert ([item] + rest)[1..] == rest;
  }

  // ----- what is kept, event by event -----

  /** A read of a CSB register whose name marks it as state. */
  predicate IsStatePoll(e: Event) {
    e.iface == Csb && e.operation == Read && ContainsAny(RegisterName(e.register), STATE_TOKENS)
  }

  /** What the last state poll of a register among the first n events read. */
  function LastPolled(events: seq<Event>, n: nat, register: string): Option<string>
    requires n <= |events|
  {
    if n == 0 then None
    else if IsStatePoll(events[n - 1]) && RegisterName(events[n - 1].register) == register then Some(events[n - 1].data)
    else LastPolled(events, n - 1, register)
  }

  /** Event i is kept: a CSB transaction, but no state poll that reads what the last poll of its register read. */
  predicate IsKept(events: seq<Event>, i: nat)
    requires i < |events|
  {
    var e := events[i];
    e.iface == Csb && !(IsStatePoll(e) && LastPolled(events, i, RegisterName(e.register)) == Some(e.data))
  }

  /** The record of an event: its own fields, but for the data written to a DMA address register. */
  predicate IsRecordOf(item: Item, e: Event) {
    && item.operation == e.operation && item.offset == e.offset && item.length == e.length
    && item.response == e.response && item.register == e.register
    && item.data == if e.operation == Write && IsDmaAddressRegister(e.register) then "<dma-address>" else e.data
  }

  /** The positions of all kept events from n on. */
  predicate AreKeptFrom(at: seq<nat>, events: seq<Event>, n: nat) {
    && Ordered(at)
    && (forall k | 0 <= k < |at| :: n <= at[k] < |events| && IsKept(events, at[k]))
    && (forall i: nat | n <= i < |events| && IsKept(events, i) :: i in at)
  }

  predicate AreRecordsAt(at: seq<nat>, items: seq<Item>, events: seq<Event>) {
    |at| == |items| && forall k | 0 <= k < |at| :: at[k] < |events| && IsRecordOf(items[k], events[at[k]])
  }

  /** The items are the records, in order, of exactly the kept events from n on. */
  predicate AreRecordsFrom(at: seq<nat>, items: seq<Item>, events: seq<Event>, n: nat) {
    AreKeptFrom(at, events, n) && AreRecordsAt(at, items, events)
  }

  /** The items are the records of exactly the kept events. */
  ghost predicate IsNormalForm(items: seq<Item>, events: seq<Event>) {
    exists at :: AreRecordsFrom(at, items, events, 0)
  }

  ghost predicate Remembers(last: LastState, events: seq<Event>, n: nat)
    requires n <= |events|
  {
    forall register :: Lookup(last, register) == LastPolled(events, n, register)
  }

  lemma {:induction false} RecordOfEvent(e: Event)
    ensures IsRecordOf(ItemOf(e), e)
    ensures e.iface == Csb ==> (IsStateRead(ItemOf(e)) <==> IsStatePoll(e))
    ensures IsStatePoll(e) ==> StateKey(ItemOf(e)) == RegisterName(e.register) && ItemOf(e).data == e.data
  {
    if IsStatePoll(e) {
      StateKeyIsRegister(ItemOf(e));
    }
  }

  lemma {:induction false} OneMoreKept(at: seq<nat>, events: seq<Event>, n: nat)
    requires n < |events| && IsKept(events, n) && AreKeptFrom(at, events, n + 1)
    ensures AreKeptFrom([n] + at, events, n)
  {
    forall i: nat | n <= i < |events| && IsKept(events, i)
      ensures i in [n] + at
    {
      assert i > n ==> i in at;
    }
  }

  lemma {:induction false} OneMoreRecord(at: seq<nat>, items: seq<Item>, events: seq<Event>, n: nat, item: Item)
    requires n < |events| && IsRecordOf(item, events[n]) && AreRecordsAt(at, items, events)
    ensures AreRecordsAt([n] + at, [item] + items, events)
  {
  }

  lemma {:induction false} NoMoreRecord(at: seq<nat>, items: seq<Item>, events: seq<Event>, n: nat)
    requires n < |events| && !IsKept(events, n) && AreRecordsFrom(at, items, events, n + 1)
    ensures AreRecordsFrom(at, items, events, n)
  {
  }

  lemma {:induction false} RemembersNext(last: LastState, events: seq<Event>, n: nat)
    requires n < |events| && Remembers(last, events, n)
    ensures Remembers(if events[n].iface == Csb then Remember(ItemOf(events[n]), last) else last, events, n + 1)
    ensures events[n].iface == Csb ==> (Collapses(ItemOf(events[n]), last) <==> !IsKept(events, n))
    ensures Collapses(ItemOf(events[n]), last) ==> Remember(ItemOf(events[n]), last) == last
  {
    var e := events[n];
    var after := if e.iface == Csb then Remember(ItemOf(e), last) else last;
    RecordOfEvent(e);
    assert Lookup(last, RegisterName(e.register)) == LastPolled(events, n, RegisterName(e.register));
    forall register
      ensures Lookup(after, register) == LastPolled(events, n + 1, register)
    {
      assert Lookup(last, register) == LastPolled(events, n, register);
    }
  }

  lemma {:induction false} RawItemsFrom(events: seq<Event>, n: nat)
    requires n < |events|
    ensures RawItems(events[n..])
         == (if events[n].iface == Csb then [ItemOf(events[n])] else []) + RawItems(events[n + 1..])
  {
    assert events[n..][1..] == events[n + 1..];
  }

  lemma {:induction false} RecordsFrom(events: seq<Event>, n: nat, last: LastState) returns (at: seq<nat>)
    requires n <= |events| && Remembers(last, events, n)
    ensures AreRecordsFrom(at, Collapse(RawItems(events[n..]), last), events, n)
    decreases |events| - n
  {
    if n == |events| {
      at := [];
    } else {
      var e, item, rest := events[n], ItemOf(events[n]), RawItems(events[n + 1..]);
      RawItemsFrom(events, n);
      RemembersNext(last, events, n);
      RecordOfEvent(e);
      if e.iface != Csb {
        NothingBefore(rest);
        at := RecordsFrom(events, n + 1, last);
        NoMoreRecord(at, Collapse(rest, last), events, n);
      } else if Collapses(item, last) {
        CollapseSkip(item, rest, last);
        at := RecordsFrom(events, n + 1, last);
        NoMoreRecord(at, Collapse(rest, last), events, n);
      } else {
        CollapseStep(item, rest, last, []);
        NothingBefore(Collapse([item] + rest, last));
        NothingBefore([item]);
        at := RecordsFrom(events, n + 1, Remember(item, last));
        OneMoreKept(at, events, n);
        OneMoreRecord(at, Collapse(rest, Remember(item, last)), events, n, item);
        at := [n] + at;
      }
    }
  }

  /** The normal form of a trace is the records of exactly its kept events, in order. */
  lemma {:induction false} NormalFormIsRecords(events: seq<Event>)
    ensures IsNormalForm(Normalize(events), events)
  {
    assert events[0..] == events;
    var at := RecordsFrom(events, 0, map[]);
  }

  predicate IsMasked(e: Event) {
    e.iface == Csb && e.operation == Write && IsDmaAddressRegister(e.register)
  }

  ghost function MaskedPositions(events: seq<Event>, n: nat): set<nat>
    requires n <= |events|
  {
    set i: nat | n <= i < |events| && IsMasked(events[i])
  }

  lemma {:induction false} OneMoreIn(all: set<nat>, later: set<nat>, n: nat, has: bool)
    requires n !in later && forall i :: i in all <==> i in later || (has && i == n)
    ensures |all| == (if has then 1 else 0) + |later|
  {
    if has {
      assert all == later + {n};
    } else {
      assert all == later;
    }
  }

  lemma {:induction false} MaskedCountIs(events: seq<Event>, n: nat)
    requires n <= |events|
    ensures MaskedCount(events[n..]) == |MaskedPositions(events, n)|
    decreases |events| - n
  {
    if n == |events| {
      assert MaskedPositions(events, n) == {};
    } else {
      assert events[n..][1..] == events[n + 1..];
      MaskedCountIs(events, n + 1);
      OneMoreIn(MaskedPositions(events, n), MaskedPositions(events, n + 1), n, IsMasked(events[n]));
    }
  }

  lemma {:induction false} NormalFormFacts(events: seq<Event>)
    ensures IsNormalForm(Normalize(events), events)
    ensures MaskedCount(events) == |MaskedPositions(events, 0)|
  {
    assert events[0..] == events;
    NormalFormIsRecords(events);
    MaskedCountIs(events, 0);
  }

  method NormalizeCsbEvents(events: seq<Event>, extmemBase: nat, extmemHigh: nat)
    returns (r: Result<(seq<Item>, Policy), nat>)
    ensures r.Ok? <==> AllParsable(events)
    ensures r.Err? ==> r.error < |events| && AllParsable(events[..r.error]) && Unparsable(events[r.error])
    ensures r.Ok? ==>
              var (items, policy) := r.value;
              && items == Normalize(events)
              && IsNormalForm(items, events)
              && policy.inputCount == |events|
              && policy.normalizedCount == |items|
              && policy.normalizedCount + policy.collapsedReadCount == |RawItems(events)|
              && policy.maskedAddressCount == MaskedCount(events) == |MaskedPositions(events, 0)|
              && policy.errors == TraceErrors(events, extmemBase, extmemHigh)
  {
    var normalized: seq<Item> := [];
    var lastState: LastState := map[];
    var maskedAddresses, collapsedReads := 0, 0;
    var errors: seq<PolicyError> := [];
    for index := 0 to |events|
      invariant AllParsable(events[..index])
      invariant normalized + Collapse(RawItems(events[index..]), lastState) == Normalize(events)
      invariant |normalized| + collapsedReads + |RawItems(events[index..])| == |RawItems(events)|
      invariant maskedAddresses + MaskedCount(events[index..]) == MaskedCount(events)
      invariant errors == TraceErrors(events[..index], extmemBase, extmemHigh)
    {
      var event := events[index];
      ghost var later := events[index + 1..];
      EventStep(events, index, extmemBase, extmemHigh);
      if event.iface != Csb {
        continue;
      }
      errors := errors + ResponseErrors(event);
      var item := Item(event.operation, event.offset, event.length, event.data, event.response, event.register);
      ghost var before := lastState;
      if IsStateRead(item) {
        var key := StateKey(item);
        if key in lastState && lastState[key] == event.data {
          CollapseSkip(item, RawItems(later), lastState);
          collapsedReads := collapsedReads + 1;
          continue;
        }
        lastState := lastState[key := event.data];
      }
      if IsDmaWrite(event) {
        var fault := ValidateDmaValue(event, extmemBase, extmemHigh);
        if fault.Err? {
          return Err(index);
        }
        errors := errors + DmaErrors(event, extmemBase, extmemHigh);
        item := item.(data := MASKED_ADDRESS);
        maskedAddresses := maskedAddresses + 1;
      }
      CollapseStep(item, RawItems(later), before, normalized);
      normalized := normalized + [item];
    }
    assert events[..|events|] == events;
    NormalFormFacts(events);
    r := Ok((normalized, Policy(|events|, |normalized|, maskedAddresses, collapsedReads, errors)));
  }

  /** What a CSB event must satisfy for the policy to be clean. */
  ghost predicate Compliant(e: Event, extmemBase: nat, extmemHigh: nat) {
    e.iface == Csb ==>
      && e.response == "ok"
      && (IsDmaWrite(e) && ParseHex(e.data).Some? ==>
            var name, value := RegisterName(e.register), ParseHex(e.data).value;
            || (value == 0 && (Contains(name, "HIGH") || Contains(name, "DATAOUT_ADDR")))
            || (!Contains(name, "HIGH") && extmemBase <= value <= extmemHigh && exists word: nat :: value == 4 * word))
  }

  lemma {:induction false} WholeWords(value: nat)
    ensures value % 4 == 0 <==> exists word: nat :: value == 4 * word
  {
    assert value % 4 == 0 ==> value == 4 * (value / 4);
  }

  lemma {:induction false} NoFaultIffCompliant(e: Event, extmemBase: nat, extmemHigh: nat)
    requires e.iface == Csb && e.response == "ok"
    ensures DmaErrors(e, extmemBase, extmemHigh) == [] <==> Compliant(e, extmemBase, extmemHigh)
  {
    if IsDmaWrite(e) && ParseHex(e.data).Some? {
      WholeWords(ParseHex(e.data).value);
    }
  }

  lemma {:induction false} NoErrorIffCompliant(e: Event, extmemBase: nat, extmemHigh: nat)
    requires e.iface == Csb
    ensures ResponseErrors(e) + DmaErrors(e, extmemBase, extmemHigh) == [] <==> Compliant(e, extmemBase, extmemHigh)
  {
    if e.response == "ok" {
      NoFaultIffCompliant(e, extmemBase, extmemHigh);
    }
  }

  /** The policy is clean exactly when every event complies: dropping a repeated read hides no error. */
  lemma {:induction false} CleanIffCompliant(events: seq<Event>, extmemBase: nat, extmemHigh: nat)
    ensures TraceErrors(events, extmemBase, extmemHigh) == []
       <==> forall i | 0 <= i < |events| :: Compliant(events[i], extmemBase, extmemHigh)
  {
    if events != [] {
      var n := |events| - 1;
      CleanIffCompliant(events[..n], extmemBase, extmemHigh);
      if events[n].iface == Csb {
        NoErrorIffCompliant(events[n], extmemBase, extmemHigh);
      }
    }
  }

  /** The conditions on the register and the value of a DMA address write, one for each fault. */
  predicate HasFault(e: Event, fault: DmaFault, extmemBase: nat, extmemHigh: nat) {
    && e.operation == Write && IsDmaAddressRegister(e.register) && ParseHex(e.data).Some?
    && var name, value := RegisterName(e.register), ParseHex(e.data).value;
       var high, unused := Contains(name, "HIGH"), value == 0 && Contains(name, "DATAOUT_ADDR");
       match fault
       case NonZeroHigh => high && value > 0
       case OutsideExtmem => !high && !unused && (value < extmemBase || extmemHigh < value)
       case Misaligned => !high && !unused && extmemBase <= value <= extmemHigh && value % 4 > 0
  }

  predicate IsErrorOf(error: PolicyError, e: Event, extmemBase: nat, extmemHigh: nat) {
    && e.iface == Csb
    && match error
       case NonOkResponse(sequence, response) =>
         sequence == e.sequence && response == e.response && response != "ok"
       case BadDmaAddress(sequence, fault) => sequence == e.sequence && HasFault(e, fault, extmemBase, extmemHigh)
  }

  lemma {:induction false} EventErrors(error: PolicyError, e: Event, extmemBase: nat, extmemHigh: nat)
    requires e.iface == Csb
    ensures error in ResponseErrors(e) + DmaErrors(e, extmemBase, extmemHigh)
       <==> IsErrorOf(error, e, extmemBase, extmemHigh)
  {
  }

  /** Exactly the non-OK responses and the faults of DMA address writes of CSB events are listed. */
  lemma {:induction false} ErrorsAreFaults(events: seq<Event>, extmemBase: nat, extmemHigh: nat, error: PolicyError)
    ensures error in TraceErrors(events, extmemBase, extmemHigh)
       <==> exists i | 0 <= i < |events| :: IsErrorOf(error, events[i], extmemBase, extmemHigh)
  {
    if events != [] {
      var n := |events| - 1;
      ErrorsAreFaults(events[..n], extmemBase, extmemHigh, error);
      if events[n].iface == Csb {
        EventErrors(error, events[n], extmemBase, extmemHigh);
      }
      assert forall i | 0 <= i < n :: events[..n][i] == events[i];
    }
  }

  // ----- what is kept and what is dropped -----

  lemma {:induction false} CollapseConcat(a: seq<Item>, b: seq<Item>, last: LastState)
    ensures Collapse(a + b, last) == Collapse(a, last) + Collapse(b, LastAfter(a, last))
    ensures LastAfter(a + b, last) == LastAfter(b, LastAfter(a, last))
  {
    if a == [] {
      assert a + b == b;
    } else {
      assert (a + b)[1..] == a[1..] + b;
      CollapseConcat(a[1..], b, Remember(a[0], last));
      if Collapses(a[0], last) {
        assert Remember(a[0], last) == last;
      }
    }
  }

  predicate IsReadOf(item: Item, key: string) {
    IsStateRead(item) && StateKey(item) == key
  }

  /** The data text of every state read of one register, in order. */
  function ReadsOf(items: seq<Item>, key: string): seq<string> {
    if items == [] then []
    else (if IsReadOf(items[0], key) then [items[0].data] else [])
         + ReadsOf(items[1..], key)
  }

  function Destutter(texts: seq<string>, previous: Option<string>): seq<string> {
    if texts == [] then []
    else if previous == Some(texts[0]) then Destutter(texts[1..], previous)
    else [texts[0]] + Destutter(texts[1..], Some(texts[0]))
  }

  function Lookup(last: LastState, key: string): Option<string> {
    if key in last then Some(last[key]) else None
  }

  /** Everything but state reads, in order. */
  function NonState(items: seq<Item>): seq<Item> {
    if items == [] then []
    else (if IsStateRead(items[0]) then [] else [items[0]]) + NonState(items[1..])
  }

  /** Per register, exactly the repeated reads go; everything that is not a state read stays in order. */
  lemma {:induction false} CollapseKeepsTransitions(items: seq<Item>, last: LastState, key: string)
    ensures ReadsOf(Collapse(items, last), key) == Destutter(ReadsOf(items, key), Lookup(last, key))
    ensures NonState(Collapse(items, last)) == NonState(items)
  {
    if items != [] {
      var item, rest, last' := items[0], items[1..], Remember(items[0], last);
      CollapseKeepsTransitions(rest, last', key);
      if Collapses(item, last) {
        assert last' == last;
      }
      if IsReadOf(item, key) {
        assert ReadsOf(items, key) == [item.data] + ReadsOf(rest, key);
        assert Lookup(last', key) == Some(item.data);
        if !Collapses(item, last) {
          assert ReadsOf(Collapse(items, last), key) == [item.data] + ReadsOf(Collapse(rest, last'), key);
        }
      } else {
        assert ReadsOf(items, key) == ReadsOf(rest, key);
        assert Lookup(last', key) == Lookup(last, key);
      }
    }
  }

  lemma {:induction false} DestutterHasNoRepeats(texts: seq<string>, previous: Option<string>)
    ensures var kept := Destutter(texts, previous);
            && (kept != [] ==> previous != Some(kept[0]))
            && (forall i | 0 < i < |kept| :: kept[i - 1] != kept[i])
            && Destutter(kept, previous) == kept
            && (forall text :: text in texts ==> text in kept || previous == Some(text))
  {
    if texts != [] {
      DestutterHasNoRepeats(texts[1..], Some(texts[0]));
    }
  }

  /**
  The kept trace in full: per register it has one entry per change of state and misses no value;
  non-state transactions keep their order; normalising again changes nothing.
   */
  lemma NormalizeKeepsTransitions(events: seq<Event>, key: string)
    ensures var kept := ReadsOf(Normalize(events), key);
            && kept == Destutter(ReadsOf(RawItems(events), key), None)
            && (forall i | 0 < i < |kept| :: kept[i - 1] != kept[i])
            && (forall text :: text in ReadsOf(RawItems(events), key) <==> text in kept)
    ensures NonState(Normalize(events)) == NonState(RawItems(events))
    ensures Collapse(Normalize(events), map[]) == Normalize(events)
  {
    CollapseKeepsTransitions(RawItems(events), map[], key);
    DestutterHasNoRepeats(ReadsOf(RawItems(events), key), None);
    DestutterAddsNothing(ReadsOf(RawItems(events), key), None);
    CollapseIdempotent(RawItems(events), map[]);
  }

  lemma {:induction false} DestutterAddsNothing(texts: seq<string>, previous: Option<string>)
    ensures forall text :: text in Destutter(texts, previous) ==> text in texts
  {
    if texts != [] {
      DestutterAddsNothing(texts[1..], Some(texts[0]));
    }
  }

  lemma {:induction false} CollapseIdempotent(items: seq<Item>, last: LastState)
    ensures Collapse(Collapse(items, last), last) == Collapse(items, last)
  {
    if items != [] {
      CollapseIdempotent(items[1..], Remember(items[0], last));
      if Collapses(items[0], last) {
        assert Remember(items[0], last) == last;
      }
    }
  }

  // ----- polling and relocation -----

  /** In `items`, the most recent read of `key` returned `text`. */
  ghost predicate LastReadReturned(items: seq<Item>, key: string, text: string) {
    exists j | 0 <= j < |items| ::
      && IsReadOf(items[j], key) && items[j].data == text
      && forall k | j < k < |items| :: !IsReadOf(items[k], key)
  }

  /** The normaliser remembers what the most recent read returned. */
  lemma {:induction false} LastAfterRemembers(items: seq<Item>, last: LastState, key: string, j: nat)
    requires j < |items| && IsReadOf(items[j], key)
    requires forall k | j < k < |items| :: !IsReadOf(items[k], key)
    ensures Lookup(LastAfter(items, last), key) == Some(items[j].data)
  {
    if j > 0 {
      LastAfterRemembers(items[1..], Remember(items[0], last), key, j - 1);
    } else {
      LastAfterUnread(items[1..], Remember(items[0], last), key);
    }
  }

  lemma {:induction false} LastAfterUnread(items: seq<Item>, last: LastState, key: string)
    requires forall k | 0 <= k < |items| :: !IsReadOf(items[k], key)
    ensures Lookup(LastAfter(items, last), key) == Lookup(last, key)
  {
    if items != [] {
      assert !IsReadOf(items[0], key);
      LastAfterUnread(items[1..], Remember(items[0], last), key);
    }
  }

  lemma DropRepeat(before: seq<Item>, item: Item, after: seq<Item>, last: LastState)
    requires Collapses(item, LastAfter(before, last))
    ensures Collapse(before + ([item] + after), last) == Collapse(before + after, last)
  {
    CollapseConcat(before, [item] + after, last);
    CollapseConcat(before, after, last);
    assert ([item] + after)[1..] == after;
  }

  lemma {:induction false} RawItemsConcat(a: seq<Event>, b: seq<Event>)
    ensures RawItems(a + b) == RawItems(a) + RawItems(b)
  {
    if a == [] {
      assert a + b == b;
    } else {
      assert (a + b)[1..] == a[1..] + b;
      RawItemsConcat(a[1..], b);
    }
  }

  /** An extra poll that returns what the register's previous read returned changes nothing, anywhere. */
  lemma PollingInvariant(before: seq<Event>, poll: Event, after: seq<Event>)
    requires poll.iface == Csb && IsStateRead(ItemOf(poll))
    requires LastReadReturned(RawItems(before), StateKey(ItemOf(poll)), poll.data)
    ensures Normalize(before + ([poll] + after)) == Normalize(before + after)
  {
    var items, item, key := RawItems(before), ItemOf(poll), StateKey(ItemOf(poll));
    RawItemsConcat(before, [poll] + after);
    RawItemsConcat(before, after);
    assert ([poll] + after)[1..] == after;
    var j :| 0 <= j < |items| && IsReadOf(items[j], key) && items[j].data == poll.data
             && forall k | j < k < |items| :: !IsReadOf(items[k], key);
    LastAfterRemembers(items, map[], key, j);
    DropRepeat(items, item, RawItems(after), map[]);
  }

  /** The same trace with DMA buffers placed elsewhere. */
  predicate Relocated(a: seq<Event>, b: seq<Event>) {
    |a| == |b| && forall i | 0 <= i < |a| ::
      a[i] == b[i] || (IsDmaWrite(a[i]) && b[i] == a[i].(data := b[i].data))
  }

  lemma {:induction false} RelocationInvariant(a: seq<Event>, b: seq<Event>)
    requires Relocated(a, b)
    ensures RawItems(a) == RawItems(b) && Normalize(a) == Normalize(b)
  {
    if a != [] {
      RelocationInvariant(a[1..], b[1..]);
      assert ItemOf(a[0]) == ItemOf(b[0]);
    }
  }

  // ----- projection onto a channel -----

  ghost predicate AgreeOn(channel: Channel, a: LastState, b: LastState) {
    forall key :: KeyChannel(key) == channel ==> Lookup(a, key) == Lookup(b, key)
  }

  /** Dropping repeated reads and projecting onto a channel commute, because state is kept per register. */
  lemma {:induction false} ProjectionCommutes(items: seq<Item>, channel: Channel, last: LastState, projected: LastState)
    requires AgreeOn(channel, last, projected)
    ensures OnChannel(Collapse(items, last), channel) == Collapse(OnChannel(items, channel), projected)
  {
    if items != [] {
      var item := items[0];
      if IsStateRead(item) {
        StateKeyIsRegister(item);
        assert KeyChannel(StateKey(item)) == channel
               ==> Lookup(last, StateKey(item)) == Lookup(projected, StateKey(item));
      }
      var last' := Remember(item, last);
      var projected' := if ChannelOf(item) == channel then Remember(item, projected) else projected;
      assert AgreeOn(channel, last', projected');
      ProjectionCommutes(items[1..], channel, last', projected');
      if Collapses(item, last) {
        assert last' == last;
      }
      if ChannelOf(item) == channel {
        assert OnChannel(items, channel) == [item] + OnChannel(items[1..], channel);
        if Collapses(item, projected) {
          assert projected' == projected;
        }
      }
    }
  }

  lemma NormalizeProjection(events: seq<Event>, channel: Channel)
    ensures OnChannel(Normalize(events), channel) == Collapse(OnChannel(RawItems(events), channel), map[])
  {
    ProjectionCommutes(RawItems(events), channel, map[], map[]);
  }
}
