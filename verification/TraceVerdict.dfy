/**
The verdict on two traces in terms of their events: which transactions of each are held against each
other, and which of their fields.
 */
module TraceVerdict {
  import opened Lists
  import opened Outcomes
  import opened TraceEvents
  import opened TraceNormalize
  import opened InterruptService
  import opened PolledService
  import opened SequenceDiff
  import opened TraceCompare

  predicate IsInterruptStatus(e: Event) {
    RegisterName(e.register) == "GLB_S_INTR_STATUS_0"
  }

  /** The positions of all kept events of the programming channel. */
  predicate AreProgramming(at: seq<nat>, events: seq<Event>) {
    && Ordered(at)
    && (forall k | 0 <= k < |at| :: at[k] < |events| && IsKept(events, at[k]) && !IsInterruptStatus(events[at[k]]))
    && (forall i: nat | i < |events| && IsKept(events, i) && !IsInterruptStatus(events[i]) :: i in at)
  }

  /** The positions of all transactions with the interrupt status register from n on. */
  predicate AreInterruptsFrom(at: seq<nat>, events: seq<Event>, n: nat) {
    && Ordered(at)
    && (forall k | 0 <= k < |at| ::
          n <= at[k] < |events| && events[at[k]].iface == Csb && IsInterruptStatus(events[at[k]]))
    && (forall i: nat | n <= i < |events| && events[i].iface == Csb && IsInterruptStatus(events[i]) :: i in at)
  }

  // ----- the raw interrupt channel -----

  lemma {:induction false} InterruptIsNoDma(e: Event)
    requires IsInterruptStatus(e)
    ensures ChannelOf(ItemOf(e)) == Interrupt && ItemOf(e).data == e.data && ItemOf(e).operation == e.operation
  {
    InterruptRegisterIsState(ItemOf(e));
  }

  predicate AreDataAt(at: seq<nat>, items: seq<Item>, events: seq<Event>) {
    && |at| == |items|
    && forall k | 0 <= k < |at| ::
         at[k] < |events| && items[k].operation == events[at[k]].operation && items[k].data == events[at[k]].data
  }

  lemma {:induction false} OneMoreInterrupt(at: seq<nat>, events: seq<Event>, n: nat)
    requires n < |events| && events[n].iface == Csb && IsInterruptStatus(events[n])
    requires AreInterruptsFrom(at, events, n + 1)
    ensures AreInterruptsFrom([n] + at, events, n)
  {
    LeastFirst(n, at);
    forall i: nat | n <= i < |events| && events[i].iface == Csb && IsInterruptStatus(events[i])
      ensures i in [n] + at
    {
      assert i > n ==> i in at;
    }
  }

  lemma {:induction false} OneMoreData(at: seq<nat>, items: seq<Item>, events: seq<Event>, n: nat, item: Item)
    requires n < |events| && item.operation == events[n].operation && item.data == events[n].data
    requires AreDataAt(at, items, events)
    ensures AreDataAt([n] + at, [item] + items, events)
  {
  }

  lemma {:induction false} ChannelFrom(events: seq<Event>, n: nat)
    requires n < |events|
    ensures OnChannel(RawItems(events[n..]), Interrupt)
         == (if events[n].iface == Csb && IsInterruptStatus(events[n]) then [ItemOf(events[n])] else [])
            + OnChannel(RawItems(events[n + 1..]), Interrupt)
  {
    RawItemsFrom(events, n);
    NothingBefore(RawItems(events[n + 1..]));
    NothingBefore(OnChannel(RawItems(events[n + 1..]), Interrupt));
    if events[n].iface == Csb {
      assert ([ItemOf(events[n])] + RawItems(events[n + 1..]))[1..] == RawItems(events[n + 1..]);
    }
  }

  lemma {:induction false} InterruptsFrom(events: seq<Event>, n: nat) returns (at: seq<nat>)
    requires n <= |events|
    ensures AreInterruptsFrom(at, events, n) && AreDataAt(at, OnChannel(RawItems(events[n..]), Interrupt), events)
    decreases |events| - n
  {
    if n == |events| {
      at := [];
    } else {
      at := InterruptsFrom(events, n + 1);
      ChannelFrom(events, n);
      NothingBefore(OnChannel(RawItems(events[n + 1..]), Interrupt));
      if events[n].iface == Csb && IsInterruptStatus(events[n]) {
        OneMoreInterrupt(at, events, n);
        InterruptIsNoDma(events[n]);
        OneMoreData(at, OnChannel(RawItems(events[n + 1..]), Interrupt), events, n, ItemOf(events[n]));
        at := [n] + at;
      }
    }
  }

  /** The raw interrupt channel is all transactions with the status register, in order, with their own data. */
  lemma {:induction false} RawInterruptsAre(events: seq<Event>) returns (at: seq<nat>)
    ensures AreInterruptsFrom(at, events, 0) && AreDataAt(at, RawInterrupts(events), events)
  {
    assert events[0..] == events;
    at := InterruptsFrom(events, 0);
  }

  // ----- the programming channel -----

  /** The positions whose events are on the programming channel. */
  function ProgrammingOnly(at: seq<nat>, events: seq<Event>): seq<nat>
    requires forall k | 0 <= k < |at| :: at[k] < |events|
  {
    if at == [] then []
    else (if IsInterruptStatus(events[at[0]]) then [] else [at[0]]) + ProgrammingOnly(at[1..], events)
  }

  lemma {:induction false} ProgrammingMembers(at: seq<nat>, events: seq<Event>, i: nat)
    requires forall k | 0 <= k < |at| :: at[k] < |events|
    ensures i in ProgrammingOnly(at, events) <==> i in at && i < |events| && !IsInterruptStatus(events[i])
  {
    if at != [] {
      ProgrammingMembers(at[1..], events, i);
      FirstAndRest(at);
    }
  }

  lemma {:induction false} OnlyLater(at: seq<nat>, events: seq<Event>, low: nat)
    requires forall k | 0 <= k < |at| :: low < at[k] < |events|
    ensures forall k | 0 <= k < |ProgrammingOnly(at, events)| :: low < ProgrammingOnly(at, events)[k]
  {
    if at != [] {
      OnlyLater(at[1..], events, low);
    }
  }

  lemma {:induction false} ProgrammingOrdered(at: seq<nat>, events: seq<Event>)
    requires Ordered(at) && forall k | 0 <= k < |at| :: at[k] < |events|
    ensures Ordered(ProgrammingOnly(at, events))
  {
    if at != [] {
      ProgrammingOrdered(at[1..], events);
      OnlyLater(at[1..], events, at[0]);
      LeastFirst(at[0], ProgrammingOnly(at[1..], events));
      NothingBefore(ProgrammingOnly(at[1..], events));
    }
  }

  lemma {:induction false} ProgrammingRecords(at: seq<nat>, items: seq<Item>, events: seq<Event>)
    requires AreRecordsAt(at, items, events)
    ensures AreRecordsAt(ProgrammingOnly(at, events), OnChannel(items, Programming), events)
  {
    if at != [] {
      var first, rest := items[0], OnChannel(items[1..], Programming);
      ProgrammingRecords(at[1..], items[1..], events);
      NothingBefore(ProgrammingOnly(at[1..], events));
      assert IsRecordOf(first, events[at[0]]);
      if !IsInterruptStatus(events[at[0]]) {
        OneMoreRecord(ProgrammingOnly(at[1..], events), rest, events, at[0], first);
      }
    }
  }

  lemma {:induction false} ArePositions(at: seq<nat>, events: seq<Event>)
    requires AreKeptFrom(at, events, 0)
    ensures AreProgramming(ProgrammingOnly(at, events), events)
  {
    var only := ProgrammingOnly(at, events);
    ProgrammingOrdered(at, events);
    forall i: nat
      ensures i in only <==> i in at && i < |events| && !IsInterruptStatus(events[i])
    {
      ProgrammingMembers(at, events, i);
    }
    assert forall k | 0 <= k < |only| :: only[k] in only;
  }

  lemma {:induction false} PositionsAreUnique(at: seq<nat>, bt: seq<nat>, events: seq<Event>)
    requires AreProgramming(at, events) && AreProgramming(bt, events)
    ensures at == bt
  {
    OrderIsUnique(at, bt);
  }

  /** The programming channel of the normal form is the records of exactly the kept programming events. */
  lemma {:induction false} ProgrammingIs(events: seq<Event>, at: seq<nat>)
    requires AreProgramming(at, events)
    ensures AreRecordsAt(at, OnChannel(Normalize(events), Programming), events)
  {
    NormalFormIsRecords(events);
    var all :| AreRecordsFrom(all, Normalize(events), events, 0);
    ArePositions(all, events);
    ProgrammingRecords(all, Normalize(events), events);
    PositionsAreUnique(at, ProgrammingOnly(all, events), events);
  }

  /** What is held against each other of two transactions: all but the register name and DMA addresses. */
  predicate SameTransaction(e: Event, f: Event) {
    && e.operation == f.operation && e.offset == f.offset && e.length == f.length && e.response == f.response
    && ShownData(e) == ShownData(f)
  }

  function ShownData(e: Event): string {
    if e.operation == Write && IsDmaAddressRegister(e.register) then "<dma-address>" else e.data
  }

  predicate SameTransactions(a: seq<Event>, at: seq<nat>, b: seq<Event>, bt: seq<nat>)
    requires AreProgramming(at, a) && AreProgramming(bt, b)
  {
    |at| == |bt| && forall k | 0 <= k < |at| :: SameTransaction(a[at[k]], b[bt[k]])
  }

  lemma {:induction false} SignatureOfRecord(item: Item, e: Event, item': Item, f: Event)
    requires IsRecordOf(item, e) && IsRecordOf(item', f)
    ensures SignatureOf(item) == SignatureOf(item') <==> SameTransaction(e, f)
  {
  }

  lemma {:induction false} SignaturesOfRecords(a: seq<Event>, at: seq<nat>, x: seq<Item>, b: seq<Event>, bt: seq<nat>,
                                               y: seq<Item>)
    requires AreProgramming(at, a) && AreProgramming(bt, b) && AreRecordsAt(at, x, a) && AreRecordsAt(bt, y, b)
    ensures Signatures(x) == Signatures(y) <==> SameTransactions(a, at, b, bt)
  {
    if |x| == |y| {
      forall k | 0 <= k < |x|
        ensures Signatures(x)[k] == Signatures(y)[k] <==> SameTransaction(a[at[k]], b[bt[k]])
      {
        SignatureOfRecord(x[k], a[at[k]], y[k], b[bt[k]]);
      }
    }
  }

  /**
  Two traces match exactly when their kept programming events are the same transactions, one by one,
  and their raw interrupts are polled service with equal bit counts.
   */
  lemma {:induction false} VerdictFromEvents(a: seq<Event>, at: seq<nat>, b: seq<Event>, bt: seq<nat>)
    requires AreProgramming(at, a) && AreProgramming(bt, b)
    ensures NormalizedMatch(a, b)
       <==> SameTransactions(a, at, b, bt) && SameService(RawInterrupts(a), RawInterrupts(b))
  {
    VerdictFromRawChannels(a, b);
    ProgrammingIs(a, at);
    ProgrammingIs(b, bt);
    NormalizeProjection(a, Programming);
    NormalizeProjection(b, Programming);
    SignaturesOfRecords(a, at, OnChannel(Normalize(a), Programming), b, bt, OnChannel(Normalize(b), Programming));
  }

  /** Traces that program different values at the same place never match, unless both are DMA addresses. */
  lemma {:induction false} ProgrammedValuesMatter(a: seq<Event>, at: seq<nat>, b: seq<Event>, bt: seq<nat>, k: nat)
    requires AreProgramming(at, a) && AreProgramming(bt, b) && k < |at| && k < |bt|
    requires !IsDmaAddressRegister(a[at[k]].register) && !IsDmaAddressRegister(b[bt[k]].register)
    requires a[at[k]].data != b[bt[k]].data
    ensures !NormalizedMatch(a, b)
  {
    VerdictFromEvents(a, at, b, bt);
  }
}
