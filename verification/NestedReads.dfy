/**
The read that never returned: begin and end events of CSB reads on a stack.
 */
module NestedReads {
  import opened Outcomes
  import opened Lists

  datatype Event = Begin(offset: int) | End(offset: int)

  // ----- the stack -----

  function Push(pending: seq<int>, event: Event): seq<int> {
    match event
    case Begin(offset) => pending + [offset]
    case End(offset) =>
      if pending != [] && pending[|pending| - 1] == offset then pending[..|pending| - 1] else pending
  }

  /** The offsets still pending after all events. */
  function Pending(events: seq<Event>): seq<int> {
    if events == [] then [] else Push(Pending(events[..|events| - 1]), events[|events| - 1])
  }

  method ParseUnreturnedCsbRead(events: seq<Event>) returns (offset: Option<int>)
    ensures offset == var pending := Pending(events);
                      if pending == [] then None else Some(pending[|pending| - 1])
  {
    var pending: seq<int> := [];
    for i := 0 to |events|
      invariant pending == Pending(events[..i])
    {
      assert events[..i + 1][..i] == events[..i];
      var event := events[i];
      if event.Begin? {
        pending := pending + [event.offset];
      } else if pending != [] && pending[|pending| - 1] == event.offset {
        pending := pending[..|pending| - 1];
      }
    }
    assert events[..|events|] == events;
    if pending == [] {
      return None;
    }
    offset := Some(pending[|pending| - 1]);
  }

  // ----- traces as nested reads -----

  /** A read that returned, with what happened inside it, or an end that matches no read. */
  datatype Node = Returned(offset: int, inside: Forest) | Stray(offset: int)

  datatype Forest = Empty | Then(before: Forest, last: Node)

  /** A read that did not return, and what happened before it began. */
  datatype Frame = Frame(before: Forest, offset: int)

  function Flat(forest: Forest): seq<Event> {
    match forest
    case Empty => []
    case Then(before, last) => Flat(before) + FlatNode(last)
  }

  function FlatNode(node: Node): seq<Event> {
    match node
    case Returned(offset, inside) => [Begin(offset)] + Flat(inside) + [End(offset)]
    case Stray(offset) => [End(offset)]
  }

  /** No stray end names the read it happens in. */
  predicate Proper(forest: Forest, enclosing: Option<int>) {
    match forest
    case Empty => true
    case Then(before, last) =>
      && Proper(before, enclosing)
      && match last {
         case Returned(offset, inside) => Proper(inside, Some(offset))
         case Stray(offset) => enclosing != Some(offset)
         }
  }

  function Top(frames: seq<Frame>): Option<int> {
    if frames == [] then None else Some(frames[|frames| - 1].offset)
  }

  /** The unreturned reads from the outermost, then what happened in the innermost. */
  function FlatOpen(frames: seq<Frame>): seq<Event> {
    if frames == [] then []
    else
      var n := |frames| - 1;
      FlatOpen(frames[..n]) + Flat(frames[n].before) + [Begin(frames[n].offset)]
  }

  predicate ProperOpen(frames: seq<Frame>) {
    frames == [] ||
    var n := |frames| - 1;
    ProperOpen(frames[..n]) && Proper(frames[n].before, Top(frames[..n]))
  }

  function Offsets(frames: seq<Frame>): seq<int> {
    seq(|frames|, i requires 0 <= i < |frames| => frames[i].offset)
  }

  /** The trace is these unreturned reads, and `inside` happened in the innermost. */
  predicate IsTrace(events: seq<Event>, frames: seq<Frame>, inside: Forest) {
    events == FlatOpen(frames) + Flat(inside) && ProperOpen(frames) && Proper(inside, Top(frames))
  }

  // ----- what is pending is what is open -----

  function Enclosing(pending: seq<int>): Option<int> {
    if pending == [] then None else Some(pending[|pending| - 1])
  }

  lemma PendingNext(events: seq<Event>, event: Event)
    ensures Pending(events + [event]) == Push(Pending(events), event)
  {
    assert (events + [event])[..|events|] == events;
  }

  /** Returned reads and stray ends leave the stack as it was. */
  lemma {:induction false} ForestKeepsPending(before: seq<Event>, forest: Forest)
    requires Proper(forest, Enclosing(Pending(before)))
    ensures Pending(before + Flat(forest)) == Pending(before)
    decreases forest
  {
    match forest
    case Empty =>
      assert before + [] == before;
    case Then(earlier, last) =>
      ForestKeepsPending(before, earlier);
      NodeKeepsPending(before + Flat(earlier), last);
      Regroup(before, Flat(earlier), FlatNode(last));
  }

  lemma {:induction false} NodeKeepsPending(before: seq<Event>, node: Node)
    requires node.Returned? ==> Proper(node.inside, Some(node.offset))
    requires node.Stray? ==> Enclosing(Pending(before)) != Some(node.offset)
    ensures Pending(before + FlatNode(node)) == Pending(before)
    decreases node
  {
    match node
    case Stray(offset) =>
      PendingNext(before, End(offset));
    case Returned(offset, inside) =>
      var begun, body := before + [Begin(offset)], before + [Begin(offset)] + Flat(inside);
      PendingNext(before, Begin(offset));
      ForestKeepsPending(begun, inside);
      PendingNext(body, End(offset));
      RegroupFour(before, [Begin(offset)], Flat(inside), [End(offset)]);
  }

  lemma {:induction false} FramesArePending(frames: seq<Frame>)
    requires ProperOpen(frames)
    ensures Pending(FlatOpen(frames)) == Offsets(frames)
  {
    if frames != [] {
      var n := |frames| - 1;
      FramesArePending(frames[..n]);
      EnclosingIsTop(frames[..n]);
      ForestKeepsPending(FlatOpen(frames[..n]), frames[n].before);
      PendingNext(FlatOpen(frames[..n]) + Flat(frames[n].before), Begin(frames[n].offset));
      assert Offsets(frames) == Offsets(frames[..n]) + [frames[n].offset];
    }
  }

  lemma EnclosingIsTop(frames: seq<Frame>)
    ensures Enclosing(Offsets(frames)) == Top(frames)
  {
  }

  /** The offsets still pending are those of the reads that did not return, however the trace is taken apart. */
  lemma PendingIsUnreturned(events: seq<Event>, frames: seq<Frame>, inside: Forest)
    requires IsTrace(events, frames, inside)
    ensures Pending(events) == Offsets(frames)
  {
    FramesArePending(frames);
    EnclosingIsTop(frames);
    ForestKeepsPending(FlatOpen(frames), inside);
  }

  /** Every trace can be taken apart. */
  lemma {:induction false} TakeApart(events: seq<Event>) returns (frames: seq<Frame>, inside: Forest)
    ensures IsTrace(events, frames, inside)
  {
    if events == [] {
      return [], Empty;
    }
    var last := |events| - 1;
    var earlier := events[..last];
    assert events == earlier + [events[last]];
    frames, inside := TakeApart(earlier);
    match events[last]
    case Begin(offset) =>
      frames, inside := Opened(earlier, frames, inside, offset);
    case End(offset) =>
      if Top(frames) == Some(offset) {
        frames, inside := Closed(earlier, frames, inside);
      } else {
        inside := Then(inside, Stray(offset));
        assert events == FlatOpen(frames) + Flat(inside);
      }
  }

  lemma Opened(events: seq<Event>, frames: seq<Frame>, inside: Forest, offset: int)
    returns (more: seq<Frame>, empty: Forest)
    requires IsTrace(events, frames, inside)
    ensures IsTrace(events + [Begin(offset)], more, empty)
  {
    more, empty := frames + [Frame(inside, offset)], Empty;
    assert more[..|frames|] == frames;
    assert FlatOpen(more) == events + [Begin(offset)];
  }

  lemma Closed(events: seq<Event>, frames: seq<Frame>, inside: Forest) returns (fewer: seq<Frame>, outside: Forest)
    requires IsTrace(events, frames, inside) && frames != []
    ensures IsTrace(events + [End(frames[|frames| - 1].offset)], fewer, outside)
  {
    var last := frames[|frames| - 1];
    fewer := frames[..|frames| - 1];
    outside := Then(last.before, Returned(last.offset, inside));
    var begun := FlatOpen(fewer) + Flat(last.before);
    assert events == begun + [Begin(last.offset)] + Flat(inside);
    assert Flat(outside) == Flat(last.before) + ([Begin(last.offset)] + Flat(inside) + [End(last.offset)]);
    assert FlatOpen(fewer) + Flat(outside) == events + [End(last.offset)];
  }

  /** Nothing is reported exactly when the trace is returned reads and stray ends only. */
  lemma NothingUnreturnedIff(events: seq<Event>)
    ensures Pending(events) == [] <==> exists inside :: IsTrace(events, [], inside)
  {
    var frames, inside := TakeApart(events);
    PendingIsUnreturned(events, frames, inside);
    if Pending(events) == [] {
      assert frames == [];
    }
    forall other | IsTrace(events, [], other)
      ensures Pending(events) == []
    {
      PendingIsUnreturned(events, [], other);
    }
  }
}
