/**
A runtime that answers each command it is sent, and the session the two clients have with it: what a
client asks for decides what it is given.
 */
module RuntimeSession {
  import opened Outcomes
  import opened Lists
  import opened Framing
  import opened FlatbufProtocol

  /** What a runtime answers to each command; outputs are answered by their index. */
  datatype Runtime = Runtime(welcome: Bytes, run: Bytes, outputs: seq<Bytes>, ack: Bytes)

  function OutputAt(runtime: Runtime, index: Bytes): Bytes {
    if index != [] && AllDigits(index) && Number(index) < |runtime.outputs| then runtime.outputs[Number(index)]
    else Text("ERR")
  }

  /** The answers to a list of frames; a flatbuffer and an output index follow their commands. */
  function Answers(runtime: Runtime, frames: seq<Bytes>): seq<Bytes> {
    if frames == [] then []
    else if frames[0] == Text("GET_WELCOME") then [runtime.welcome] + Answers(runtime, frames[1..])
    else if frames[0] == Text("READ_FLATBUF") then
      if |frames| == 1 then [] else Answers(runtime, frames[2..])
    else if frames[0] == Text("RUN_FLATBUF") then [runtime.run] + Answers(runtime, frames[1..])
    else if frames[0] == Text("GET_NUMOUTPUTS") then [Print(|runtime.outputs|)] + Answers(runtime, frames[1..])
    else if frames[0] == Text("GET_OUTPUT") then
      if |frames| == 1 then [] else [OutputAt(runtime, frames[1])] + Answers(runtime, frames[2..])
    else if frames[0] == Text("SHUTDOWN") then [runtime.ack] + Answers(runtime, frames[1..])
    else [Text("ERR")] + Answers(runtime, frames[1..])
  }

  /** The bytes a client receives are exactly the runtime's answers to all it sends. */
  predicate IsConversation(client: Client, flatbuf: Bytes, runtime: Runtime, stream: Bytes, shutdown: bool) {
    stream == Frames(Answers(runtime, Sent(client, flatbuf, stream, shutdown)))
  }

  /** A runtime that passes, whose answers report no error and fit what the client reads. */
  predicate Behaves(client: Client, runtime: Runtime) {
    && !Has(client, runtime.welcome, Text("ERR")) && !Has(client, runtime.run, Text("ERR"))
    && !Has(client, runtime.ack, Text("ERR")) && Has(client, runtime.run, Text("PASSED"))
    && Fits(client, runtime.welcome) && Fits(client, runtime.run) && Fits(client, runtime.ack)
    && (forall i | 0 <= i < |runtime.outputs| :: Fits(client, runtime.outputs[i]))
    && (client.C? ==> |runtime.outputs| <= MAX_OUTPUTS)
  }

  // ----- the answer to each command -----

  lemma CommandsDiffer()
    ensures Text("GET_WELCOME") != Text("RUN_FLATBUF")
    ensures |Text("GET_WELCOME")| == |Text("RUN_FLATBUF")| == 11 && |Text("READ_FLATBUF")| == 12
    ensures |Text("GET_NUMOUTPUTS")| == 14 && |Text("GET_OUTPUT")| == 10 && |Text("SHUTDOWN")| == 8
  {
    assert Text("GET_WELCOME")[0] != Text("RUN_FLATBUF")[0];
  }

  lemma {:induction false} AnswerWelcome(runtime: Runtime, rest: seq<Bytes>)
    ensures Answers(runtime, [Text("GET_WELCOME")] + rest) == [runtime.welcome] + Answers(runtime, rest)
  {
    assert ([Text("GET_WELCOME")] + rest)[1..] == rest;
  }

  lemma {:induction false} AnswerRun(runtime: Runtime, flatbuf: Bytes, rest: seq<Bytes>)
    ensures Answers(runtime, [Text("READ_FLATBUF"), flatbuf, Text("RUN_FLATBUF")] + rest)
         == [runtime.run] + Answers(runtime, rest)
  {
    CommandsDiffer();
    var frames := [Text("READ_FLATBUF"), flatbuf, Text("RUN_FLATBUF")] + rest;
    assert frames[2..] == [Text("RUN_FLATBUF")] + rest && ([Text("RUN_FLATBUF")] + rest)[1..] == rest;
  }

  lemma {:induction false} AnswerCount(runtime: Runtime, rest: seq<Bytes>)
    ensures Answers(runtime, [Text("GET_NUMOUTPUTS")] + rest)
         == [Print(|runtime.outputs|)] + Answers(runtime, rest)
  {
    CommandsDiffer();
    assert ([Text("GET_NUMOUTPUTS")] + rest)[1..] == rest;
  }

  lemma {:induction false} AnswerOutput(runtime: Runtime, k: nat, rest: seq<Bytes>)
    requires k < |runtime.outputs|
    ensures Answers(runtime, [Text("GET_OUTPUT"), Print(k)] + rest) == [runtime.outputs[k]] + Answers(runtime, rest)
  {
    CommandsDiffer();
    PrintFacts(k);
    assert ([Text("GET_OUTPUT"), Print(k)] + rest)[2..] == rest;
  }

  lemma {:induction false} AnswerShutdown(runtime: Runtime, shutdown: bool)
    ensures Answers(runtime, Closing(shutdown)) == if shutdown then [runtime.ack] else []
  {
    CommandsDiffer();
    assert [Text("SHUTDOWN")][1..] == [];
    NothingMore([runtime.ack]);
  }

  /** The frames sent for n outputs ask for each index from 0 to n - 1 once, in order. */
  lemma {:induction false} OutputRequestsAre(count: nat, k: nat)
    requires k < count
    ensures |OutputRequests(count)| == 2 * count && OutputRequests(count)[2 * k] == Text("GET_OUTPUT")
    ensures AllDigits(OutputRequests(count)[2 * k + 1]) && Number(OutputRequests(count)[2 * k + 1]) == k
  {
    if k < count - 1 {
      OutputRequestsAre(count - 1, k);
    } else {
      OutputRequestsLength(count - 1);
      PrintFacts(k);
    }
  }

  lemma {:induction false} OutputRequestsLength(count: nat)
    ensures |OutputRequests(count)| == 2 * count
  {
    if count > 0 {
      OutputRequestsLength(count - 1);
    }
  }

  /** Asked for the first n outputs, the runtime answers with them. */
  lemma {:induction false} AnswersToOutputs(runtime: Runtime, n: nat, rest: seq<Bytes>)
    requires n <= |runtime.outputs|
    ensures Answers(runtime, OutputRequests(n) + rest) == runtime.outputs[..n] + Answers(runtime, rest)
  {
    if n == 0 {
      NothingBefore(rest);
      NothingBefore(Answers(runtime, rest));
    } else {
      var last := [Text("GET_OUTPUT"), Print(n - 1)];
      Regroup(OutputRequests(n - 1), last, rest);
      AnswersToOutputs(runtime, n - 1, last + rest);
      AnswerOutput(runtime, n - 1, rest);
      assert runtime.outputs[..n] == runtime.outputs[..n - 1] + [runtime.outputs[n - 1]];
      Regroup(runtime.outputs[..n - 1], [runtime.outputs[n - 1]], Answers(runtime, rest));
    }
  }

  lemma {:induction false} FramesConcat(a: seq<Bytes>, b: seq<Bytes>)
    ensures Frames(a + b) == Frames(a) + Frames(b)
  {
    if a == [] {
      NothingBefore(b);
      NothingBefore(Frames(b));
    } else {
      FramesConcat(a[1..], b);
      assert (a + b)[1..] == a[1..] + b;
      Regroup(Frame(a[0]), Frames(a[1..]), Frames(b));
    }
  }

  lemma {:induction false} FramesOf(first: Bytes, rest: seq<Bytes>)
    ensures Frames([first] + rest) == Frame(first) + Frames(rest)
  {
    assert ([first] + rest)[1..] == rest;
  }

  // ----- a conversation is the whole session -----

  lemma {:induction false} AskedMore(client: Client, stream: Bytes, a: nat, count: nat)
    requires a < count && Arrive(client, stream, a)
    ensures Asked(client, stream, count) > a
  {
    if a < count - 1 && !Arrive(client, stream, count - 1) {
      AskedMore(client, stream, a, count - 1);
    }
  }

  lemma {:induction false} TakeAll(outputs: seq<Bytes>)
    ensures outputs[..|outputs|] == outputs
  {
  }

  /** Given the answers to what it asks for, a client asks for all outputs, and gets them. */
  lemma {:induction false} OutputsConverse(client: Client, runtime: Runtime, stream: Bytes, shutdown: bool)
    requires Behaves(client, runtime)
    requires stream == Frames(Answers(runtime, SentForOutputs(client, stream, |runtime.outputs|, shutdown)))
    ensures Outputs(client, stream, |runtime.outputs|)
         == Ok((runtime.outputs, Frames(Answers(runtime, Closing(shutdown)))))
  {
    var n := |runtime.outputs|;
    var a, closing := Asked(client, stream, n), Closing(shutdown && Outputs(client, stream, n).Ok?);
    AnswersToOutputs(runtime, a, closing);
    FramesConcat(runtime.outputs[..a], Answers(runtime, closing));
    OutputsOfFrames(client, runtime.outputs[..a], Frames(Answers(runtime, closing)));
    if a < n {
      AskedMore(client, stream, a, n);
    }
    TakeAll(runtime.outputs);
  }

  lemma {:induction false} CountConverses(client: Client, runtime: Runtime, texts: seq<Bytes>, stream: Bytes,
                                          shutdown: bool)
    requires Behaves(client, runtime)
    requires stream == Frames(Answers(runtime, SentForOutputs(client, stream, |runtime.outputs|, shutdown)))
    ensures AfterCount(client, texts, |runtime.outputs|, stream, shutdown)
         == Ok(Served(if shutdown then texts + [runtime.ack] else texts, runtime.outputs, []))
  {
    OutputsConverse(client, runtime, stream, shutdown);
    AnswerShutdown(runtime, shutdown);
    if shutdown {
      FramesOf(runtime.ack, []);
      NothingMore([runtime.ack]);
      ReplyFrame(client, runtime.ack, []);
    }
  }

  lemma {:induction false} RunConverses(client: Client, runtime: Runtime, texts: seq<Bytes>, stream: Bytes,
                                        shutdown: bool)
    requires Behaves(client, runtime)
    requires stream == Frames(Answers(runtime, SentAfterRun(client, stream, shutdown)))
    ensures var replies := texts + [Print(|runtime.outputs|)];
            AfterRun(client, texts, stream, shutdown)
            == Ok(Served(if shutdown then replies + [runtime.ack] else replies, runtime.outputs, []))
  {
    var n, number, sent := |runtime.outputs|, Print(|runtime.outputs|), SentAfterRun(client, stream, shutdown);
    var rest := Frames(Answers(runtime, sent[1..]));
    FirstAndRest(sent);
    AnswerCount(runtime, sent[1..]);
    FramesOf(number, Answers(runtime, sent[1..]));
    CountOfPrint(client, n);
    ReplyFrame(client, number, rest);
    assert sent[1..] == SentForOutputs(client, rest, n, shutdown);
    CountConverses(client, runtime, texts + [number], rest, shutdown);
  }

  lemma {:induction false} WelcomeConverses(client: Client, runtime: Runtime, stream: Bytes, shutdown: bool)
    requires Behaves(client, runtime)
    requires stream == Frames([runtime.run] + Answers(runtime, SentAfterWelcome(client, stream, shutdown)))
    ensures var replies := [runtime.welcome, runtime.run] + [Print(|runtime.outputs|)];
            AfterWelcome(client, runtime.welcome, stream, shutdown)
            == Ok(Served(if shutdown then replies + [runtime.ack] else replies, runtime.outputs, []))
  {
    var rest := Frames(Answers(runtime, SentAfterWelcome(client, stream, shutdown)));
    FramesOf(runtime.run, Answers(runtime, SentAfterWelcome(client, stream, shutdown)));
    ReplyFrame(client, runtime.run, rest);
    RunConverses(client, runtime, [runtime.welcome, runtime.run], rest, shutdown);
  }

  lemma {:induction false} UploadAnswered(runtime: Runtime, flatbuf: Bytes, rest: seq<Bytes>)
    ensures Answers(runtime, Upload(flatbuf) + rest) == [runtime.welcome] + ([runtime.run] + Answers(runtime, rest))
  {
    var upload := [Text("READ_FLATBUF"), flatbuf, Text("RUN_FLATBUF")];
    assert Upload(flatbuf) + rest == [Text("GET_WELCOME")] + (upload + rest);
    AnswerWelcome(runtime, upload + rest);
    AnswerRun(runtime, flatbuf, rest);
  }

  /** Whatever is sent, the first answer is to the first command. */
  lemma {:induction false} WelcomeFirst(client: Client, flatbuf: Bytes, runtime: Runtime, stream: Bytes, shutdown: bool)
    requires Behaves(client, runtime) && Fits(client, flatbuf)
    requires IsConversation(client, flatbuf, runtime, stream, shutdown)
    ensures Reply(client, stream).Ok? && Reply(client, stream).value.payload == runtime.welcome
  {
    var sent := Sent(client, flatbuf, stream, shutdown);
    FirstAndRest(sent);
    AnswerWelcome(runtime, sent[1..]);
    FramesOf(runtime.welcome, Answers(runtime, sent[1..]));
    ReplyFrame(client, runtime.welcome, Frames(Answers(runtime, sent[1..])));
  }

  /**
  A conversation with a runtime that passes ends well in either client, with exactly the runtime's
  outputs, each where its index says, and with nothing left unread.
   */
  lemma {:induction false} ConversationIsServed(client: Client, flatbuf: Bytes, runtime: Runtime, stream: Bytes,
                                                shutdown: bool)
    requires Behaves(client, runtime) && Fits(client, flatbuf)
    requires IsConversation(client, flatbuf, runtime, stream, shutdown)
    ensures var replies := [runtime.welcome, runtime.run] + [Print(|runtime.outputs|)];
            Session(client, flatbuf, stream, shutdown)
            == Ok(Served(if shutdown then replies + [runtime.ack] else replies, runtime.outputs, []))
  {
    WelcomeFirst(client, flatbuf, runtime, stream, shutdown);
    var rest := Reply(client, stream).value.rest;
    var later := [runtime.run] + Answers(runtime, SentAfterWelcome(client, rest, shutdown));
    UploadAnswered(runtime, flatbuf, SentAfterWelcome(client, rest, shutdown));
    FramesOf(runtime.welcome, later);
    ReplyFrame(client, runtime.welcome, Frames(later));
    assert rest == Frames(later);
    WelcomeConverses(client, runtime, rest, shutdown);
  }

  /** There is such a conversation with every runtime that passes. */
  lemma {:induction false} ConversationExists(client: Client, flatbuf: Bytes, runtime: Runtime)
    requires Behaves(client, runtime) && Fits(client, flatbuf)
    ensures IsConversation(client, flatbuf, runtime,
                           Service(runtime.welcome, runtime.run, runtime.outputs, runtime.ack, []), true)
  {
    var n := |runtime.outputs|;
    var stream := Service(runtime.welcome, runtime.run, runtime.outputs, runtime.ack, []);
    ServedWhole(client, flatbuf, runtime.welcome, runtime.run, runtime.outputs, runtime.ack, []);
    SentWhole(client, flatbuf, stream, true);
    AnswersToAll(runtime, flatbuf);
  }

  lemma {:induction false} AnswersToAll(runtime: Runtime, flatbuf: Bytes)
    ensures Frames(Answers(runtime, Requests(flatbuf, |runtime.outputs|, true)))
         == Service(runtime.welcome, runtime.run, runtime.outputs, runtime.ack, [])
  {
    var n := |runtime.outputs|;
    var fetch := OutputRequests(n) + Closing(true);
    Regroup([Text("GET_NUMOUTPUTS")], OutputRequests(n), Closing(true));
    UploadAnswered(runtime, flatbuf, [Text("GET_NUMOUTPUTS")] + fetch);
    AnswerCount(runtime, fetch);
    AnswersToOutputs(runtime, n, Closing(true));
    TakeAll(runtime.outputs);
    AnswerShutdown(runtime, true);
    var answered := runtime.outputs + [runtime.ack];
    FramesOf(runtime.welcome, [runtime.run] + ([Print(n)] + answered));
    FramesOf(runtime.run, [Print(n)] + answered);
    FramesOf(Print(n), answered);
    FramesConcat(runtime.outputs, [runtime.ack]);
    FramesOf(runtime.ack, []);
    NothingMore([runtime.ack]);
  }
}
