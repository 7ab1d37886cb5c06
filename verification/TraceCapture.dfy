/**
Canonical capture of a virtual-platform log: the streaming pass that writes the CSB event file, the
raw logs and the summary, against parsing the whole log and summarising the events.
 */
module TraceCapture {
  import opened Lists
  import opened Outcomes
  import opened TraceEvents
  import TraceNormalize

  /** A line of the log: without a transaction, with one that does not parse, or with its parts. */
  datatype Line =
    | Other
    | Malformed
    | Transaction(
        iface: Interface,
        operation: Operation,
        offset: string,
        length: nat,
        data: string,
        response: string,
        register: Option<string>,
        text: string)

  /** The event of a transaction; only CSB offsets are named. */
  function EventOf(line: Line, sequence: nat): Event
    requires line.Transaction?
  {
    Event(sequence, line.iface, line.operation, line.offset, line.length, line.data, line.response,
          if line.iface == Csb then line.register else None)
  }

  // ----- the whole log at once -----

  /** The events of the first n lines, or the number of the first line that does not parse. */
  function Parsed(lines: seq<Line>, n: nat): Result<seq<Event>, nat>
    requires n <= |lines|
  {
    if n == 0 then Ok([])
    else
      var events :- Parsed(lines, n - 1);
      match lines[n - 1]
      case Other => Ok(events)
      case Malformed => Err(n)
      case Transaction(_, _, _, _, _, _, _, _) => Ok(events + [EventOf(lines[n - 1], |events|)])
  }

  lemma {:induction false} FailedStaysFailed(lines: seq<Line>, k: nat, n: nat)
    requires k <= n <= |lines| && Parsed(lines, k).Err?
    ensures Parsed(lines, n) == Parsed(lines, k)
  {
    if k < n {
      FailedStaysFailed(lines, k, n - 1);
    }
  }

  /** The event has the number and the parts of the line; only a CSB event keeps the register name. */
  predicate IsEventOf(event: Event, line: Line, number: nat)
    requires line.Transaction?
  {
    && event.sequence == number && event.iface == line.iface && event.operation == line.operation
    && event.offset == line.offset && event.length == line.length && event.data == line.data
    && event.response == line.response
    && (line.iface == Csb ==> event.register == line.register) && (line.iface == Dbb ==> event.register == None)
  }

  /** The positions of all transactions among the first n lines, in order, and their events, numbered from 0. */
  predicate AreEventsAt(at: seq<nat>, lines: seq<Line>, n: nat, events: seq<Event>)
    requires n <= |lines|
  {
    && Ordered(at) && (forall k | 0 <= k < |at| :: at[k] < n && lines[at[k]].Transaction?)
    && (forall i: nat | i < n && lines[i].Transaction? :: i in at)
    && |events| == |at| && forall k | 0 <= k < |at| :: IsEventOf(events[k], lines[at[k]], k)
  }

  /** What parsing n lines must return: an event for each transaction, or the first line that does not parse. */
  ghost predicate IsParse(lines: seq<Line>, n: nat, r: Result<seq<Event>, nat>)
    requires n <= |lines|
  {
    && (r.Ok? <==> forall i | 0 <= i < n :: !lines[i].Malformed?)
    && (r.Ok? ==> exists at :: AreEventsAt(at, lines, n, r.value))
    && (r.Err? ==>
          && 1 <= r.error <= n && lines[r.error - 1].Malformed?
          && forall i | 0 <= i < r.error - 1 :: !lines[i].Malformed?)
  }

  lemma {:induction false} OneMoreEvent(at: seq<nat>, lines: seq<Line>, n: nat, events: seq<Event>)
    requires n < |lines| && lines[n].Transaction? && AreEventsAt(at, lines, n, events)
    ensures AreEventsAt(at + [n], lines, n + 1, events + [EventOf(lines[n], |events|)])
  {
  }

  lemma {:induction false} NoMoreEvents(at: seq<nat>, lines: seq<Line>, n: nat, events: seq<Event>)
    requires n < |lines| && !lines[n].Transaction? && AreEventsAt(at, lines, n, events)
    ensures AreEventsAt(at, lines, n + 1, events)
  {
  }

  lemma {:induction false} ParsedEvents(lines: seq<Line>, n: nat) returns (at: seq<nat>)
    requires n <= |lines| && Parsed(lines, n).Ok?
    ensures AreEventsAt(at, lines, n, Parsed(lines, n).value)
  {
    if n == 0 {
      at := [];
    } else {
      at := ParsedEvents(lines, n - 1);
      if lines[n - 1].Transaction? {
        OneMoreEvent(at, lines, n - 1, Parsed(lines, n - 1).value);
        at := at + [n - 1];
      } else {
        NoMoreEvents(at, lines, n - 1, Parsed(lines, n - 1).value);
      }
    }
  }

  lemma {:induction false} FirstMalformed(lines: seq<Line>, n: nat)
    requires n <= |lines|
    ensures Parsed(lines, n).Ok? <==> forall i | 0 <= i < n :: !lines[i].Malformed?
    ensures var r := Parsed(lines, n);
            r.Err? ==> && 1 <= r.error <= n && lines[r.error - 1].Malformed?
                       && forall i | 0 <= i < r.error - 1 :: !lines[i].Malformed?
  {
    if n > 0 {
      FirstMalformed(lines, n - 1);
    }
  }

  lemma ParsedIsParse(lines: seq<Line>, n: nat)
    requires n <= |lines|
    ensures IsParse(lines, n, Parsed(lines, n))
  {
    FirstMalformed(lines, n);
    if Parsed(lines, n).Ok? {
      var at := ParsedEvents(lines, n);
    }
  }

  method ParseVpTransactions(lines: seq<Line>) returns (r: Result<seq<Event>, nat>)
    ensures r == Parsed(lines, |lines|) && IsParse(lines, |lines|, r)
  {
    var events: seq<Event> := [];
    ParsedIsParse(lines, |lines|);
    for i := 0 to |lines|
      invariant Parsed(lines, i) == Ok(events)
    {
      if lines[i].Other? {
        continue;
      }
      if lines[i].Malformed? {
        FailedStaysFailed(lines, i + 1, |lines|);
        return Err(i + 1);
      }
      events := events + [EventOf(lines[i], |events|)];
    }
    r := Ok(events);
  }

  // ----- summaries -----

  /** How many events there were, and how often each interface, operation, response and CSB register occurred. */
  datatype Summary = Summary(
    eventCount: nat,
    byInterface: multiset<Interface>,
    byOperation: multiset<(Interface, Operation)>,
    responses: multiset<string>,
    registers: multiset<string>)
  {
    function NonOk(): nat {
      |responses["ok" := 0]|
    }
  }

  const NO_EVENTS := Summary(0, multiset{}, multiset{}, multiset{}, multiset{})

  function RegisterKey(event: Event): string {
    if event.register.Some? && event.register.value != "" then event.register.value else event.offset
  }

  function Tally(summary: Summary, event: Event): Summary {
    Summary(
      summary.eventCount + 1,
      summary.byInterface + multiset{event.iface},
      summary.byOperation + multiset{(event.iface, event.operation)},
      summary.responses + multiset{event.response},
      if event.iface == Csb then summary.registers + multiset{RegisterKey(event)} else summary.registers)
  }

  function SummaryOf(events: seq<Event>): Summary {
    if events == [] then NO_EVENTS else Tally(SummaryOf(events[..|events| - 1]), events[|events| - 1])
  }

  /** The summary of a list of events, counter by counter. */
  method SummarizeTrace(events: seq<Event>) returns (summary: Summary)
    ensures summary == SummaryOf(events)
  {
    summary := NO_EVENTS;
    for i := 0 to |events|
      invariant summary == SummaryOf(events[..i])
    {
      assert events[..i + 1][..i] == events[..i];
      summary := Tally(summary, events[i]);
    }
    assert events[..|events|] == events;
  }

  function CsbOf(events: seq<Event>): seq<Event> {
    if events == [] then []
    else CsbOf(events[..|events| - 1]) + if events[|events| - 1].iface == Csb then [events[|events| - 1]] else []
  }

  function NotOk(events: seq<Event>): nat {
    if events == [] then 0
    else NotOk(events[..|events| - 1]) + if events[|events| - 1].response == "ok" then 0 else 1
  }

  /** Every counter accounts for every event once. */
  lemma {:induction false} SummaryCounts(events: seq<Event>)
    ensures var s := SummaryOf(events);
            && s.eventCount == |s.byInterface| == |s.byOperation| == |s.responses| == |events|
            && |s.registers| == |CsbOf(events)| == s.byInterface[Csb]
            && s.NonOk() == NotOk(events)
  {
    if events != [] {
      var before, event := events[..|events| - 1], events[|events| - 1];
      SummaryCounts(before);
      NonOkNext(SummaryOf(before).responses, event.response);
    }
  }

  function Interfaces(events: seq<Event>): seq<Interface> {
    seq(|events|, i requires 0 <= i < |events| => events[i].iface)
  }

  function Operations(events: seq<Event>): seq<(Interface, Operation)> {
    seq(|events|, i requires 0 <= i < |events| => (events[i].iface, events[i].operation))
  }

  function Responses(events: seq<Event>): seq<string> {
    seq(|events|, i requires 0 <= i < |events| => events[i].response)
  }

  /** The register name of each event, or its offset where it has none. */
  function Registers(events: seq<Event>): seq<string> {
    seq(|events|, i requires 0 <= i < |events| =>
      var name := events[i].register;
      if name == None || name == Some("") then events[i].offset else name.value)
  }

  lemma {:induction false} LastOfEach(before: seq<Event>, event: Event)
    ensures Interfaces(before + [event]) == Interfaces(before) + [event.iface]
    ensures Operations(before + [event]) == Operations(before) + [(event.iface, event.operation)]
    ensures Responses(before + [event]) == Responses(before) + [event.response]
    ensures Registers(before + [event]) == Registers(before) + [RegisterKey(event)]
  {
  }

  /** The counters are the multisets of what the events hold. */
  lemma {:induction false} SummaryTallies(events: seq<Event>)
    ensures SummaryOf(events).byInterface == multiset(Interfaces(events))
    ensures SummaryOf(events).byOperation == multiset(Operations(events))
    ensures SummaryOf(events).responses == multiset(Responses(events))
    ensures SummaryOf(events).registers == multiset(Registers(CsbOf(events)))
  {
    if events != [] {
      var before, event := events[..|events| - 1], events[|events| - 1];
      SummaryTallies(before);
      AllButLast(events);
      LastOfEach(before, event);
      LastOfEach(CsbOf(before), event);
      NothingMore(CsbOf(before));
    }
  }

  lemma NonOkNext(responses: multiset<string>, response: string)
    ensures |(responses + multiset{response})["ok" := 0]|
         == |responses["ok" := 0]| + if response == "ok" then 0 else 1
  {
    if response == "ok" {
      assert (responses + multiset{response})["ok" := 0] == responses["ok" := 0];
    } else {
      assert (responses + multiset{response})["ok" := 0] == responses["ok" := 0] + multiset{response};
    }
  }

  // ----- the streaming pass -----

  /** The events numbered from 0. */
  function Renumbered(events: seq<Event>): seq<Event> {
    seq(|events|, i requires 0 <= i < |events| => events[i].(sequence := i))
  }

  /** The texts of the transactions of one interface. */
  function RawTexts(lines: seq<Line>, iface: Interface): seq<string> {
    if lines == [] then []
    else
      var last := lines[|lines| - 1];
      RawTexts(lines[..|lines| - 1], iface) + if last.Transaction? && last.iface == iface then [last.text] else []
  }

  predicate IsOn(line: Line, iface: Interface) {
    line.Transaction? && line.iface == iface
  }

  /** The texts at all positions of transactions of one interface. */
  predicate AreTextsAt(at: seq<nat>, lines: seq<Line>, iface: Interface, texts: seq<string>) {
    && Ordered(at)
    && (forall k | 0 <= k < |at| :: at[k] < |lines| && IsOn(lines[at[k]], iface))
    && (forall i: nat | i < |lines| && IsOn(lines[i], iface) :: i in at)
    && |texts| == |at| && forall k | 0 <= k < |at| :: texts[k] == lines[at[k]].text
  }

  lemma {:induction false} OneMoreText(at: seq<nat>, lines: seq<Line>, iface: Interface, texts: seq<string>, line: Line)
    requires AreTextsAt(at, lines, iface, texts) && IsOn(line, iface)
    ensures AreTextsAt(at + [|lines|], lines + [line], iface, texts + [line.text])
  {
  }

  lemma {:induction false} NoMoreText(at: seq<nat>, lines: seq<Line>, iface: Interface, texts: seq<string>, line: Line)
    requires AreTextsAt(at, lines, iface, texts) && !IsOn(line, iface)
    ensures AreTextsAt(at, lines + [line], iface, texts)
  {
  }

  /** A raw log is the texts of exactly the transactions of its interface, in order. */
  lemma {:induction false} RawTextsAre(lines: seq<Line>, iface: Interface) returns (at: seq<nat>)
    ensures AreTextsAt(at, lines, iface, RawTexts(lines, iface))
  {
    if lines == [] {
      at := [];
    } else {
      var before, line := lines[..|lines| - 1], lines[|lines| - 1];
      at := RawTextsAre(before, iface);
      AllButLast(lines);
      NothingMore(RawTexts(before, iface));
      if IsOn(line, iface) {
        OneMoreText(at, before, iface, RawTexts(before, iface), line);
        at := at + [|before|];
      } else {
        NoMoreText(at, before, iface, RawTexts(before, iface), line);
      }
    }
  }

  datatype Capture = Capture(
    csb: seq<Event>,
    rawCsb: seq<string>,
    rawDbb: seq<string>,
    summary: Summary,
    csbCount: nat,
    dbbCount: nat)

  /** The capture of the first n lines, whose events are `events`. */
  predicate Captured(capture: Capture, lines: seq<Line>, n: nat, events: seq<Event>)
    requires n <= |lines|
  {
    && capture.csb == Renumbered(CsbOf(events)) && capture.csbCount == |CsbOf(events)|
    && capture.rawCsb == RawTexts(lines[..n], Csb) && capture.rawDbb == RawTexts(lines[..n], Dbb)
    && capture.summary == SummaryOf(events) && capture.dbbCount == |events| - |CsbOf(events)|
  }

  function AddTransaction(capture: Capture, line: Line): Capture
    requires line.Transaction?
  {
    var event := EventOf(line, 0);
    var summary := Tally(capture.summary, event);
    if line.iface == Csb then
      capture.(csb := capture.csb + [event.(sequence := capture.csbCount)],
               rawCsb := capture.rawCsb + [line.text], summary := summary, csbCount := capture.csbCount + 1)
    else
      capture.(rawDbb := capture.rawDbb + [line.text], summary := summary, dbbCount := capture.dbbCount + 1)
  }

  lemma RawTextsNext(lines: seq<Line>, n: nat, iface: Interface)
    requires n < |lines|
    ensures RawTexts(lines[..n + 1], iface)
         == RawTexts(lines[..n], iface)
            + if lines[n].Transaction? && lines[n].iface == iface then [lines[n].text] else []
  {
    assert lines[..n + 1][..n] == lines[..n];
  }

  lemma RenumberedNext(events: seq<Event>, event: Event)
    ensures Renumbered(events + [event]) == Renumbered(events) + [event.(sequence := |events|)]
  {
  }

  lemma CapturedNext(capture: Capture, lines: seq<Line>, n: nat, events: seq<Event>)
    requires n < |lines| && lines[n].Transaction? && Captured(capture, lines, n, events)
    ensures Captured(AddTransaction(capture, lines[n]), lines, n + 1, events + [EventOf(lines[n], |events|)])
  {
    var event := EventOf(lines[n], |events|);
    var after := events + [event];
    assert after[..|after| - 1] == events;
    RawTextsNext(lines, n, Csb);
    RawTextsNext(lines, n, Dbb);
    RenumberedNext(CsbOf(events), event);
  }

  /** The streaming pass; its first error is the parser's, and its summary that of all the events. */
  method CanonicalizeVpTrace(lines: seq<Line>) returns (r: Result<Capture, nat>)
    ensures match Parsed(lines, |lines|)
            case Err(line) => r == Err(line)
            case Ok(events) => r.Ok? && Captured(r.value, lines, |lines|, events)
  {
    var capture := Capture([], [], [], NO_EVENTS, 0, 0);
    ghost var events: seq<Event> := [];
    assert lines[..0] == [];
    for i := 0 to |lines|
      invariant Parsed(lines, i) == Ok(events) && Captured(capture, lines, i, events)
    {
      if lines[i].Other? {
        RawTextsNext(lines, i, Csb);
        RawTextsNext(lines, i, Dbb);
        continue;
      }
      if lines[i].Malformed? {
        FailedStaysFailed(lines, i + 1, |lines|);
        return Err(i + 1);
      }
      CapturedNext(capture, lines, i, events);
      capture := AddTransaction(capture, lines[i]);
      events := events + [EventOf(lines[i], |events|)];
    }
    r := Ok(capture);
  }

  // ----- nothing the comparison reads is lost -----

  lemma {:induction false} RawItemsOfCsb(events: seq<Event>)
    ensures RawItems(CsbOf(events)) == RawItems(events)
  {
    if events != [] {
      var last := |events| - 1;
      RawItemsOfCsb(events[..last]);
      assert events == events[..last] + [events[last]];
      TraceNormalize.RawItemsConcat(events[..last], [events[last]]);
      TraceNormalize.RawItemsConcat(CsbOf(events[..last]), if events[last].iface == Csb then [events[last]] else []);
    }
  }

  lemma {:induction false} RawItemsIgnoreSequence(a: seq<Event>, b: seq<Event>)
    requires |a| == |b| && forall i | 0 <= i < |a| :: a[i] == b[i].(sequence := a[i].sequence)
    ensures RawItems(a) == RawItems(b)
  {
    if a != [] {
      assert a[0] == b[0].(sequence := a[0].sequence);
      RawItemsIgnoreSequence(a[1..], b[1..]);
    }
  }

  /** The canonical CSB file normalises as the whole log does. */
  lemma CanonicalFileNormalizesAlike(events: seq<Event>)
    ensures TraceNormalize.Normalize(Renumbered(CsbOf(events))) == TraceNormalize.Normalize(events)
  {
    RawItemsOfCsb(events);
    RawItemsIgnoreSequence(Renumbered(CsbOf(events)), CsbOf(events));
  }
}
