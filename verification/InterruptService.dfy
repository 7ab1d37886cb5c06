/**
The interrupt-service scanner: it walks the interrupt channel looking for read / acknowledge /
clear-confirm cycles, resynchronising after an error, and counts the acknowledged bits.
 */
module InterruptService {
  import opened Lists
  import opened Outcomes
  import opened TraceEvents

  datatype Reason =
    | ExpectedNonzeroStatusRead
    | MissingAcknowledge
    | AcknowledgeMismatch
    | MissingClearConfirmation
    | NotCleared

  datatype ServiceError = ServiceError(index: nat, reason: Reason)

  datatype Service = Service(acknowledged: seq<nat>, errors: seq<ServiceError>)

  type Scanned = Result<Service, string>

  function Report(error: ServiceError, rest: Scanned): Scanned {
    match rest
    case Ok(service) => Ok(Service(service.acknowledged, [error] + service.errors))
    case Err(_) => rest
  }

  function Acknowledge(value: nat, rest: Scanned): Scanned {
    match rest
    case Ok(service) => Ok(Service([value] + service.acknowledged, service.errors))
    case Err(_) => rest
  }

  /** What the scanner finds in the last |items| of `total` items; Err where it raises. */
  function Scan(items: seq<Item>, total: nat): Scanned
    requires |items| <= total
  {
    var at := total - |items|;
    if items == [] then Ok(Service([], []))
    else match ParseHex(items[0].data)
      case None => Err(items[0].data)
      case Some(value) =>
        if items[0].operation == Read && value == 0 then
          Scan(items[1..], total)
        else if items[0].operation != Read then
          Report(ServiceError(at, ExpectedNonzeroStatusRead), Scan(items[1..], total))
        else if |items| == 1 then
          Ok(Service([], [ServiceError(at, MissingAcknowledge)]))
        else if items[1].operation != Write || items[1].data != items[0].data then
          Report(ServiceError(at + 1, AcknowledgeMismatch), Scan(items[1..], total))
        else if |items| == 2 then
          Ok(Service([], [ServiceError(at + 1, MissingClearConfirmation)]))
        else if items[2].operation == Read && ParseHex(items[2].data).None? then
          Err(items[2].data)
        else if items[2].operation != Read || ParseHex(items[2].data).value != 0 then
          Report(ServiceError(at + 2, NotCleared), Scan(items[2..], total))
        else
          Acknowledge(value, Scan(items[3..], total))
  }

  function ScanAll(items: seq<Item>): Scanned {
    Scan(items, |items|)
  }

  function Prepend(acknowledged: seq<nat>, errors: seq<ServiceError>, rest: Scanned): (r: Scanned)
    ensures acknowledged == [] && errors == [] ==> r == rest
  {
    match rest
    case Ok(service) =>
      assert [] + service.acknowledged == service.acknowledged && [] + service.errors == service.errors;
      Ok(Service(acknowledged + service.acknowledged, errors + service.errors))
    case Err(_) => rest
  }

  lemma PrependStep(acknowledged: seq<nat>, errors: seq<ServiceError>, value: nat, error: ServiceError, rest: Scanned)
    ensures Prepend(acknowledged, errors, Acknowledge(value, rest)) == Prepend(acknowledged + [value], errors, rest)
    ensures Prepend(acknowledged, errors, Report(error, rest)) == Prepend(acknowledged, errors + [error], rest)
  {
    if rest.Ok? {
      var s := rest.value;
      assert acknowledged + ([value] + s.acknowledged) == acknowledged + [value] + s.acknowledged;
      assert errors + ([error] + s.errors) == errors + [error] + s.errors;
    }
  }

  predicate DataWithoutValue(items: seq<Item>) {
    exists i | 0 <= i < |items| :: ParseHex(items[i].data).None?
  }

  /** Raises exactly on data without a value; otherwise all full cycles are acknowledged and all faults reported. */
  method SummarizeInterruptService(events: seq<Item>) returns (r: Scanned)
    ensures r == ScanAll(events)
    ensures r.Err? <==> DataWithoutValue(events)
    ensures r.Ok? ==> IsServiceSummary(events, r.value)
  {
    ScanRaisesIff(events, |events|);
    if ScanAll(events).Ok? {
      ScanIsServiceSummary(events, ScanAll(events).value);
    }
    var acknowledgements: seq<nat> := [];
    var errors: seq<ServiceError> := [];
    var index := 0;
    assert events[0..] == events;
    while index < |events|
      invariant index <= |events|
      invariant Prepend(acknowledgements, errors, Scan(events[index..], |events|)) == ScanAll(events)
    {
      var event := events[index];
      ghost var rest := events[index..];
      assert rest[1..] == events[index + 1..];
      assert index + 2 <= |events| ==> rest[1] == events[index + 1] && rest[2..] == events[index + 2..];
      assert index + 3 <= |events| ==> rest[2] == events[index + 2] && rest[3..] == events[index + 3..];
      if ParseHex(event.data).None? {
        return Err(event.data);
      }
      var value := ParseHex(event.data).value;
      if event.operation == Read && value == 0 {
        index := index + 1;
        continue;
      }
      if event.operation != Read {
        PrependStep(acknowledgements, errors, 0, ServiceError(index, ExpectedNonzeroStatusRead),
                    Scan(events[index + 1..], |events|));
        errors := errors + [ServiceError(index, ExpectedNonzeroStatusRead)];
        index := index + 1;
        continue;
      }
      if index + 1 >= |events| {
        errors := errors + [ServiceError(index, MissingAcknowledge)];
        assert acknowledgements + [] == acknowledgements;
        return Ok(Service(acknowledgements, errors));
      }
      var acknowledge := events[index + 1];
      if acknowledge.operation != Write || acknowledge.data != event.data {
        PrependStep(acknowledgements, errors, 0, ServiceError(index + 1, AcknowledgeMismatch),
                    Scan(events[index + 1..], |events|));
        errors := errors + [ServiceError(index + 1, AcknowledgeMismatch)];
        index := index + 1;
        continue;
      }
      if index + 2 >= |events| {
        errors := errors + [ServiceError(index + 1, MissingClearConfirmation)];
        assert acknowledgements + [] == acknowledgements;
        return Ok(Service(acknowledgements, errors));
      }
      var confirmation := events[index + 2];
      if confirmation.operation == Read && ParseHex(confirmation.data).None? {
        return Err(confirmation.data);
      }
      if confirmation.operation != Read || ParseHex(confirmation.data).value != 0 {
        PrependStep(acknowledgements, errors, 0, ServiceError(index + 2, NotCleared),
                    Scan(events[index + 2..], |events|));
        errors := errors + [ServiceError(index + 2, NotCleared)];
        index := index + 2;
        continue;
      }
      PrependStep(acknowledgements, errors, value, ServiceError(0, NotCleared), Scan(events[index + 3..], |events|));
      acknowledgements := acknowledgements + [value];
      index := index + 3;
    }
    assert events[index..] == [] && acknowledgements + [] == acknowledgements && errors + [] == errors;
    r := Ok(Service(acknowledgements, errors));
  }

  // ----- what is acknowledged, and which errors there are, in any list -----

  predicate IsZeroRead(item: Item) {
    item.operation == Read && ParseHex(item.data) == Some(0)
  }

  /** Item i is a status read that is not zero. */
  predicate IsStatus(items: seq<Item>, i: int) {
    && 0 <= i < |items| && items[i].operation == Read
    && ParseHex(items[i].data).Some? && ParseHex(items[i].data).value != 0
  }

  /** Item i writes the text of the status read right before it. */
  predicate IsAcknowledge(items: seq<Item>, i: int) {
    IsStatus(items, i - 1) && i < |items| && items[i].operation == Write && items[i].data == items[i - 1].data
  }

  /** A status read, its acknowledge and a read of zero stand at i, i + 1 and i + 2. */
  predicate IsServed(items: seq<Item>, i: int) {
    IsStatus(items, i) && IsAcknowledge(items, i + 1) && i + 2 < |items| && IsZeroRead(items[i + 2])
  }

  /** What is wrong with item i as the answer to the items before it. */
  function AnswerFault(items: seq<Item>, i: nat): seq<ServiceError>
    requires i < |items|
  {
    if IsStatus(items, i - 1) && !IsAcknowledge(items, i) then [ServiceError(i, AcknowledgeMismatch)]
    else if IsAcknowledge(items, i - 1) && !IsZeroRead(items[i]) then [ServiceError(i, NotCleared)]
    else []
  }

  /** What is wrong with item i as the start of a cycle, or as the last item. */
  function OwnFault(items: seq<Item>, i: nat): seq<ServiceError>
    requires i < |items|
  {
    if IsAcknowledge(items, i) then (if i == |items| - 1 then [ServiceError(i, MissingClearConfirmation)] else [])
    else if items[i].operation != Read then [ServiceError(i, ExpectedNonzeroStatusRead)]
    else if IsStatus(items, i) && i == |items| - 1 then [ServiceError(i, MissingAcknowledge)]
    else []
  }

  /** The faults of the items from i on, in order. */
  function FaultsFrom(items: seq<Item>, i: nat): seq<ServiceError>
    requires i <= |items|
    decreases |items| - i
  {
    if i == |items| then [] else AnswerFault(items, i) + (OwnFault(items, i) + FaultsFrom(items, i + 1))
  }

  /** The positions of all full cycles from i on. */
  predicate AreServedFrom(at: seq<nat>, items: seq<Item>, i: nat) {
    && (forall k | 0 <= k < |at| :: i <= at[k] && IsServed(items, at[k]))
    && Ordered(at)
    && (forall j: nat | i <= j < |items| && IsServed(items, j) :: j in at)
  }

  predicate AreValuesAt(values: seq<nat>, at: seq<nat>, items: seq<Item>) {
    |values| == |at| && forall k | 0 <= k < |at| :: at[k] < |items| && ParseHex(items[at[k]].data) == Some(values[k])
  }

  /** What a summary of a list must say: the values of all its full cycles, and all its faults. */
  ghost predicate IsServiceSummary(items: seq<Item>, service: Service) {
    && (exists at :: AreServedFrom(at, items, 0) && AreValuesAt(service.acknowledged, at, items))
    && service.errors == FaultsFrom(items, 0)
  }

  /** Where the scanner goes on from position i. */
  function NextOf(items: seq<Item>, i: nat): nat {
    if IsServed(items, i) then i + 3 else if IsAcknowledge(items, i + 1) then i + 2 else i + 1
  }

  function ValueOf(items: seq<Item>, i: nat): seq<nat> {
    if IsServed(items, i) then [ParseHex(items[i].data).value] else []
  }

  /** What the scanner reports at position i. */
  function ErrorOf(items: seq<Item>, i: nat): seq<ServiceError>
    requires i < |items|
  {
    if items[i].operation != Read then [ServiceError(i, ExpectedNonzeroStatusRead)]
    else if !IsStatus(items, i) then []
    else if i + 1 == |items| then [ServiceError(i, MissingAcknowledge)]
    else if !IsAcknowledge(items, i + 1) then [ServiceError(i + 1, AcknowledgeMismatch)]
    else if i + 2 == |items| then [ServiceError(i + 1, MissingClearConfirmation)]
    else if !IsZeroRead(items[i + 2]) then [ServiceError(i + 2, NotCleared)]
    else []
  }

  lemma {:induction false} Behind(items: seq<Item>, i: nat)
    requires i < |items|
    ensures items[i..][0] == items[i] && items[i..][1..] == items[i + 1..]
    ensures i + 1 < |items| ==> items[i..][1] == items[i + 1] && items[i..][2..] == items[i + 2..]
    ensures i + 2 < |items| ==> items[i..][2] == items[i + 2] && items[i..][3..] == items[i + 3..]
  {
  }

  /** What scanning from position i comes to, in terms of scanning from a later position. */
  ghost predicate Continues(items: seq<Item>, i: nat, values: seq<nat>, errors: seq<ServiceError>, next: nat)
    requires i <= |items|
  {
    && i < next <= |items| && Scan(items[i..], |items|).Ok? && Scan(items[next..], |items|).Ok?
    && Scan(items[i..], |items|).value.acknowledged == values + Scan(items[next..], |items|).value.acknowledged
    && Scan(items[i..], |items|).value.errors == errors + Scan(items[next..], |items|).value.errors
  }

  lemma {:induction false} ScanPastOne(items: seq<Item>, i: nat)
    requires i < |items| && Scan(items[i..], |items|).Ok? && !IsAcknowledge(items, i + 1)
    ensures Continues(items, i, [], ErrorOf(items, i), i + 1)
  {
    Behind(items, i);
  }

  lemma {:induction false} ScanPastTwo(items: seq<Item>, i: nat)
    requires i < |items| && Scan(items[i..], |items|).Ok? && IsAcknowledge(items, i + 1) && !IsServed(items, i)
    ensures Continues(items, i, [], ErrorOf(items, i), i + 2)
  {
    Behind(items, i);
  }

  lemma {:induction false} ScanPastThree(items: seq<Item>, i: nat)
    requires i < |items| && Scan(items[i..], |items|).Ok? && IsServed(items, i)
    ensures Continues(items, i, ValueOf(items, i), [], i + 3)
  {
    Behind(items, i);
  }

  /** One step of the scanner. */
  lemma {:induction false} ScanNext(items: seq<Item>, i: nat)
    requires i < |items| && Scan(items[i..], |items|).Ok?
    ensures Continues(items, i, ValueOf(items, i), ErrorOf(items, i), NextOf(items, i))
    ensures !IsAcknowledge(items, NextOf(items, i))
  {
    if IsServed(items, i) {
      ScanPastThree(items, i);
    } else if IsAcknowledge(items, i + 1) {
      ScanPastTwo(items, i);
    } else {
      ScanPastOne(items, i);
    }
  }

  lemma {:induction false} ScanNothing(items: seq<Item>)
    ensures Scan(items[|items|..], |items|) == Ok(Service([], []))
  {
  }

  lemma {:induction false} OneMoreValue(values: seq<nat>, at: seq<nat>, items: seq<Item>, i: nat)
    requires IsServed(items, i) && AreValuesAt(values, at, items)
    ensures AreValuesAt(ValueOf(items, i) + values, [i] + at, items)
  {
  }

  lemma {:induction false} AcknowledgedFrom(items: seq<Item>, i: nat) returns (at: seq<nat>)
    requires i <= |items| && Scan(items[i..], |items|).Ok?
    ensures AreServedFrom(at, items, i) && AreValuesAt(Scan(items[i..], |items|).value.acknowledged, at, items)
    decreases |items| - i
  {
    if i == |items| {
      ScanNothing(items);
      at := [];
    } else {
      var next := NextOf(items, i);
      ScanNext(items, i);
      at := AcknowledgedFrom(items, next);
      ServedBefore(at, items, i);
      if IsServed(items, i) {
        OneMoreValue(Scan(items[next..], |items|).value.acknowledged, at, items, i);
        at := [i] + at;
      } else {
        NothingBefore(Scan(items[next..], |items|).value.acknowledged);
      }
    }
  }

  lemma {:induction false} NotServedBetween(items: seq<Item>, i: nat, j: nat)
    requires i < j < NextOf(items, i)
    ensures !IsServed(items, j)
  {
    assert IsAcknowledge(items, i + 1) && !IsStatus(items, i + 1);
  }

  lemma {:induction false} ServedBefore(at: seq<nat>, items: seq<Item>, i: nat)
    requires i < |items| && AreServedFrom(at, items, NextOf(items, i))
    ensures AreServedFrom(if IsServed(items, i) then [i] + at else at, items, i)
  {
    forall j | i < j < NextOf(items, i)
      ensures !IsServed(items, j)
    {
      NotServedBetween(items, i, j);
    }
    if IsServed(items, i) {
      OneServedBefore(at, items, i, NextOf(items, i));
    }
  }

  lemma {:induction false} OneServedBefore(at: seq<nat>, items: seq<Item>, i: nat, next: nat)
    requires i < next && IsServed(items, i) && AreServedFrom(at, items, next)
    requires forall j | i < j < next :: !IsServed(items, j)
    ensures AreServedFrom([i] + at, items, i)
  {
    var all := [i] + at;
    forall j: nat | i <= j < |items| && IsServed(items, j)
      ensures j in all
    {
      assert j != i ==> j in at;
    }
  }

  /** What is wrong from i on, but for item i as an answer. */
  function OwnFrom(items: seq<Item>, i: nat): seq<ServiceError>
    requires i <= |items|
  {
    if i == |items| then [] else OwnFault(items, i) + FaultsFrom(items, i + 1)
  }

  lemma {:induction false} FaultsAre(items: seq<Item>, i: nat)
    requires i < |items|
    ensures FaultsFrom(items, i) == AnswerFault(items, i) + OwnFrom(items, i)
  {
  }

  lemma {:induction false} FaultsPastOne(items: seq<Item>, i: nat)
    requires i < |items| && !IsAcknowledge(items, i) && !IsAcknowledge(items, i + 1)
    ensures OwnFrom(items, i) == ErrorOf(items, i) + OwnFrom(items, i + 1)
  {
    if i + 1 < |items| {
      FaultsAre(items, i + 1);
    }
  }

  lemma {:induction false} FaultsPastTwo(items: seq<Item>, i: nat)
    requires i < |items| && IsAcknowledge(items, i + 1) && !IsServed(items, i)
    ensures OwnFrom(items, i) == ErrorOf(items, i) + OwnFrom(items, i + 2)
  {
    FaultsAre(items, i + 1);
    if i + 2 < |items| {
      FaultsAre(items, i + 2);
    }
  }

  /** Nothing is wrong with the acknowledge and the confirmation of a full cycle. */
  lemma {:induction false} ServedHasNoFault(items: seq<Item>, i: nat)
    requires IsServed(items, i)
    ensures OwnFault(items, i) == [] && ErrorOf(items, i) == []
    ensures AnswerFault(items, i + 1) == [] && OwnFault(items, i + 1) == []
    ensures AnswerFault(items, i + 2) == [] && OwnFault(items, i + 2) == []
    ensures i + 3 < |items| ==> AnswerFault(items, i + 3) == []
  {
  }

  lemma {:induction false} FaultsPastThree(items: seq<Item>, i: nat)
    requires IsServed(items, i)
    ensures OwnFrom(items, i) == OwnFrom(items, i + 3) && ErrorOf(items, i) == []
  {
    ServedHasNoFault(items, i);
    FaultsAre(items, i + 1);
    FaultsAre(items, i + 2);
    if i + 3 < |items| {
      FaultsAre(items, i + 3);
      NothingBefore(OwnFrom(items, i + 3));
    }
  }

  /** What is wrong from i on is what is reported there, and what is wrong from the next position on. */
  lemma {:induction false} FaultsNext(items: seq<Item>, i: nat)
    requires i < |items| && !IsAcknowledge(items, i) && NextOf(items, i) <= |items|
    ensures OwnFrom(items, i) == ErrorOf(items, i) + OwnFrom(items, NextOf(items, i))
  {
    if IsServed(items, i) {
      FaultsPastThree(items, i);
    } else if IsAcknowledge(items, i + 1) {
      FaultsPastTwo(items, i);
    } else {
      FaultsPastOne(items, i);
    }
  }

  /** From a position that is no acknowledge, the scanner reports what is wrong from there on. */
  lemma {:induction false} ErrorsFrom(items: seq<Item>, i: nat)
    requires i <= |items| && !IsAcknowledge(items, i) && Scan(items[i..], |items|).Ok?
    ensures Scan(items[i..], |items|).value.errors == OwnFrom(items, i)
    decreases |items| - i
  {
    if i == |items| {
      ScanNothing(items);
    } else {
      ScanNext(items, i);
      FaultsNext(items, i);
      ErrorsFrom(items, NextOf(items, i));
    }
  }

  lemma {:induction false} AllErrors(items: seq<Item>, service: Service)
    requires ScanAll(items) == Ok(service)
    ensures service.errors == FaultsFrom(items, 0)
  {
    assert items[0..] == items;
    ErrorsFrom(items, 0);
    if items != [] {
      FaultsAre(items, 0);
    }
  }

  lemma {:induction false} AllAcknowledged(items: seq<Item>, service: Service) returns (at: seq<nat>)
    requires ScanAll(items) == Ok(service)
    ensures AreServedFrom(at, items, 0) && AreValuesAt(service.acknowledged, at, items)
  {
    assert items[0..] == items;
    at := AcknowledgedFrom(items, 0);
  }

  /** The summary of any list without a missing value is that of its full cycles and its faults. */
  lemma {:induction false} ScanIsServiceSummary(items: seq<Item>, service: Service)
    requires ScanAll(items) == Ok(service)
    ensures IsServiceSummary(items, service)
  {
    var at := AllAcknowledged(items, service);
    AllErrors(items, service);
  }

  // ----- the language the scanner accepts -----

  /** One unit of correct service: an idle poll, or a full read / acknowledge / clear-confirm cycle. */
  datatype Unit =
    | Idle(poll: Item)
    | Cycle(status: Item, acknowledge: Item, confirmation: Item)
  {
    predicate WellFormed() {
      match this
      case Idle(poll) => poll.operation == Read && ParseHex(poll.data) == Some(0)
      case Cycle(status, acknowledge, confirmation) =>
        && status.operation == Read && ParseHex(status.data).Some? && ParseHex(status.data) != Some(0)
        && acknowledge.operation == Write && acknowledge.data == status.data
        && confirmation.operation == Read && ParseHex(confirmation.data) == Some(0)
    }

    function Items(): seq<Item> {
      match this
      case Idle(poll) => [poll]
      case Cycle(status, acknowledge, confirmation) => [status, acknowledge, confirmation]
    }

    function Values(): seq<nat>
      requires WellFormed()
    {
      if Idle? then [] else [ParseHex(status.data).value]
    }
  }

  predicate AllWellFormed(units: seq<Unit>) {
    forall i | 0 <= i < |units| :: units[i].WellFormed()
  }

  function Flatten(units: seq<Unit>): seq<Item> {
    if units == [] then [] else units[0].Items() + Flatten(units[1..])
  }

  function Acknowledged(units: seq<Unit>): (values: seq<nat>)
    requires AllWellFormed(units)
    ensures forall i | 0 <= i < |values| :: values[i] != 0
  {
    if units == [] then [] else units[0].Values() + Acknowledged(units[1..])
  }

  function IdleCount(units: seq<Unit>): nat {
    if units == [] then 0 else (if units[0].Idle? then 1 else 0) + IdleCount(units[1..])
  }

  ghost predicate Decomposes(items: seq<Item>, units: seq<Unit>) {
    AllWellFormed(units) && Flatten(units) == items
  }

  predicate Accepted(items: seq<Item>) {
    var scanned := ScanAll(items);
    scanned.Ok? && scanned.value.errors == []
  }

  function Acks(items: seq<Item>): seq<nat>
    requires Accepted(items)
  {
    ScanAll(items).value.acknowledged
  }

  lemma ScanUnit(unit: Unit, after: seq<Item>, total: nat)
    requires unit.WellFormed() && |unit.Items()| + |after| <= total
    ensures Scan(unit.Items() + after, total) == Prepend(unit.Values(), [], Scan(after, total))
  {
    var all := unit.Items() + after;
    assert all[|unit.Items()|..] == after;
    var scanned := Scan(after, total);
    assert scanned.Ok? ==> [] + scanned.value.errors == scanned.value.errors;
  }

  lemma PrependTwice(first: seq<nat>, second: seq<nat>, rest: Scanned)
    ensures Prepend(first, [], Prepend(second, [], rest)) == Prepend(first + second, [], rest)
  {
    if rest.Ok? {
      assert first + (second + rest.value.acknowledged) == first + second + rest.value.acknowledged;
      assert [] + ([] + rest.value.errors) == [] + rest.value.errors;
    }
  }

  /** Scanning past correct service adds its acknowledged values, and no error, to what follows. */
  lemma {:induction false} ScanUnits(units: seq<Unit>, after: seq<Item>, total: nat)
    requires AllWellFormed(units) && |Flatten(units)| + |after| <= total
    ensures Scan(Flatten(units) + after, total) == Prepend(Acknowledged(units), [], Scan(after, total))
  {
    if units == [] {
      assert Flatten(units) + after == after;
    } else {
      var unit, rest := units[0], units[1..];
      assert Flatten(units) + after == unit.Items() + (Flatten(rest) + after);
      ScanUnit(unit, Flatten(rest) + after, total);
      ScanUnits(rest, after, total);
      PrependTwice(unit.Values(), Acknowledged(rest), Scan(after, total));
    }
  }

  /** Where `items` stand in the list does not matter to what is acknowledged or how many errors there are. */
  lemma {:induction false} ScanShift(items: seq<Item>, total: nat, total': nat)
    requires |items| <= total && |items| <= total'
    ensures Scan(items, total).Ok? == Scan(items, total').Ok?
    ensures Scan(items, total).Ok? ==>
              && Scan(items, total).value.acknowledged == Scan(items, total').value.acknowledged
              && |Scan(items, total).value.errors| == |Scan(items, total').value.errors|
    decreases |items|
  {
    if items != [] {
      ScanShift(items[1..], total, total');
      if |items| > 1 { ScanShift(items[2..], total, total'); }
      if |items| > 2 { ScanShift(items[3..], total, total'); }
    }
  }

  /** Scanning past correct service: what follows decides acceptance, and its values are appended. */
  lemma ServiceThen(units: seq<Unit>, after: seq<Item>)
    requires AllWellFormed(units)
    ensures Accepted(Flatten(units) + after) <==> Accepted(after)
    ensures Accepted(after) ==> Acks(Flatten(units) + after) == Acknowledged(units) + Acks(after)
  {
    var all := Flatten(units) + after;
    ScanUnits(units, after, |all|);
    ScanShift(after, |all|, |after|);
  }

  /** The value of a cycle. */
  function CycleValue(cycle: Unit): nat
    requires cycle.WellFormed() && cycle.Cycle?
  {
    ParseHex(cycle.status.data).value
  }

  lemma CycleThen(cycle: Unit, after: seq<Item>)
    requires cycle.WellFormed() && cycle.Cycle?
    ensures Accepted(cycle.Items() + after) <==> Accepted(after)
    ensures Accepted(after) ==> Acks(cycle.Items() + after) == [CycleValue(cycle)] + Acks(after)
  {
    var total := |cycle.Items() + after|;
    ScanUnit(cycle, after, total);
    ScanShift(after, total, |after|);
  }

  /** The decomposition of an accepted list. */
  ghost function Decompose(items: seq<Item>, total: nat): (units: seq<Unit>)
    requires |items| <= total && Scan(items, total).Ok? && Scan(items, total).value.errors == []
    ensures Decomposes(items, units)
    decreases |items|
  {
    if items == [] then []
    else if ParseHex(items[0].data) == Some(0) then
      var units := Decompose(items[1..], total);
      Decomposed(Idle(items[0]), units, items[1..], items);
      [Idle(items[0])] + units
    else
      var units := Decompose(items[3..], total);
      Decomposed(Cycle(items[0], items[1], items[2]), units, items[3..], items);
      [Cycle(items[0], items[1], items[2])] + units
  }

  lemma ConsUnit(unit: Unit, units: seq<Unit>)
    requires unit.WellFormed() && AllWellFormed(units)
    ensures AllWellFormed([unit] + units)
    ensures Flatten([unit] + units) == unit.Items() + Flatten(units)
    ensures Acknowledged([unit] + units) == unit.Values() + Acknowledged(units)
  {
    assert ([unit] + units)[1..] == units;
  }

  lemma Decomposed(unit: Unit, units: seq<Unit>, rest: seq<Item>, items: seq<Item>)
    requires unit.WellFormed() && Decomposes(rest, units) && items == unit.Items() + rest
    ensures Decomposes(items, [unit] + units)
  {
    ConsUnit(unit, units);
  }

  /** A list has at most one decomposition into units. */
  lemma {:induction false} DecompositionUnique(a: seq<Unit>, b: seq<Unit>)
    requires AllWellFormed(a) && AllWellFormed(b) && Flatten(a) == Flatten(b)
    ensures a == b
  {
    assert a != [] ==> Flatten(a)[0] == a[0].Items()[0];
    assert b != [] ==> Flatten(b)[0] == b[0].Items()[0];
    if a != [] {
      assert a[0].Idle? <==> b[0].Idle?;
      var n := |a[0].Items()|;
      assert Flatten(a)[..n] == a[0].Items() && Flatten(b)[..n] == b[0].Items();
      assert a[0] == b[0] by {
        if a[0].Cycle? {
          assert a[0].Items()[0] == b[0].Items()[0] && a[0].Items()[1] == b[0].Items()[1]
                 && a[0].Items()[2] == b[0].Items()[2];
        } else {
          assert a[0].Items()[0] == b[0].Items()[0];
        }
      }
      assert Flatten(a)[n..] == Flatten(a[1..]) && Flatten(b)[n..] == Flatten(b[1..]);
      DecompositionUnique(a[1..], b[1..]);
      assert a == [a[0]] + a[1..] && b == [b[0]] + b[1..];
    }
  }

  /**
  The scanner reports no error exactly on (zero-read | nonzero-read v, write v, zero-read)*. The
  decomposition is then unique, its values are the acknowledged ones, and every item is accounted for.
   */
  lemma ScannerRecognises(items: seq<Item>)
    ensures Accepted(items) <==> exists units :: Decomposes(items, units)
    ensures forall units | Decomposes(items, units) ::
              && Acks(items) == Acknowledged(units)
              && 3 * |Acks(items)| + IdleCount(units) == |items|
    ensures forall units, units' | Decomposes(items, units) && Decomposes(items, units') :: units == units'
  {
    if Accepted(items) {
      var units := Decompose(items, |items|);
      assert Decomposes(items, units);
    }
    forall units | Decomposes(items, units)
      ensures Accepted(items) && Acks(items) == Acknowledged(units) && 3 * |Acks(items)| + IdleCount(units) == |items|
    {
      UnitsAccepted(units);
    }
    forall units, units' | Decomposes(items, units) && Decomposes(items, units')
      ensures units == units'
    {
      DecompositionUnique(units, units');
    }
  }

  lemma UnitsAccepted(units: seq<Unit>)
    requires AllWellFormed(units)
    ensures Accepted(Flatten(units)) && Acks(Flatten(units)) == Acknowledged(units)
    ensures 3 * |Acknowledged(units)| + IdleCount(units) == |Flatten(units)|
  {
    ScanUnits(units, [], |Flatten(units)|);
    assert Flatten(units) + [] == Flatten(units);
    FlattenLength(units);
  }

  lemma {:induction false} FlattenLength(units: seq<Unit>)
    requires AllWellFormed(units)
    ensures 3 * |Acknowledged(units)| + IdleCount(units) == |Flatten(units)|
  {
    if units != [] {
      FlattenLength(units[1..]);
    }
  }

  /** The scanner raises exactly when some item's data has no value, wherever it stands. */
  lemma {:induction false} ScanRaisesIff(items: seq<Item>, total: nat)
    requires |items| <= total
    ensures Scan(items, total).Err? <==> exists i | 0 <= i < |items| :: ParseHex(items[i].data).None?
    decreases |items|
  {
    if items != [] {
      assert forall i | 1 <= i < |items| :: items[i] == items[1..][i - 1];
      ScanRaisesIff(items[1..], total);
      if |items| > 1 {
        assert forall i | 2 <= i < |items| :: items[i] == items[2..][i - 2];
        ScanRaisesIff(items[2..], total);
      }
      if |items| > 2 {
        assert forall i | 3 <= i < |items| :: items[i] == items[3..][i - 3];
        ScanRaisesIff(items[3..], total);
      }
    }
  }
}
