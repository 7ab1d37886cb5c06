/**
A session of the flatbuffer protocol: what the Python client and the C client make of the bytes a
runtime answers with, and what they send to it.
 */
module FlatbufProtocol {
  import opened Outcomes
  import opened Framing
  import opened FrameTransport
  import opened Lists

  datatype Client = Python | C

  // ----- texts -----

  function Code(c: char): Byte {
    if c < 128 as char then c as int else 63
  }

  function Text(text: string): Bytes {
    seq(|text|, i requires 0 <= i < |text| => Code(text[i]))
  }

  /** What C string functions see of a buffer: everything before the first zero byte. */
  function CString(s: Bytes): Bytes {
    if s == [] || s[0] == 0 then [] else [s[0]] + CString(s[1..])
  }

  predicate NoZero(s: Bytes) {
    0 !in s
  }

  lemma {:induction false} CStringOfPlain(s: Bytes)
    requires NoZero(s)
    ensures CString(s) == s
  {
    if s != [] {
      CStringOfPlain(s[1..]);
    }
  }

  // ----- the number of outputs -----

  /** What str.strip() removes from ASCII text. */
  predicate IsBlank(b: Byte) {
    IsSpace(b) || 28 <= b <= 31
  }

  /** strtol() on a whole string; it makes 0 of an empty one. */
  function CLong(text: Bytes): Option<int> {
    if text == [] then Some(0)
    else
      var core := StripLeft(text, IsSpace);
      var signed := core != [] && (core[0] == 43 || core[0] == 45);
      var digits := if signed then core[1..] else core;
      if digits == [] || !AllDigits(digits) then None
      else
        var number := Number(digits) as int;
        Some(if signed && core[0] == 45 then -number else number)
  }

  const MAX_OUTPUTS: nat := 1024

  function Count(client: Client, payload: Bytes): Option<nat> {
    match client
    case Python =>
      if !IsAscii(payload) then None
      else
        (match PyInt(Strip(payload, IsBlank))
         case None => None
         case Some(number) => if number < 0 then Some(0) else Some(number))
    case C =>
      match CLong(CString(payload))
      case None => None
      case Some(number) => if 0 <= number <= MAX_OUTPUTS then Some(number) else None
  }

  // ----- a session -----

  datatype SessionError = Transport | Refused | NotPassed | BadCount | FlatbufTooLarge

  /** The text replies a client reports, the outputs it keeps, and the bytes it leaves unread. */
  datatype Served = Served(texts: seq<Bytes>, outputs: seq<Bytes>, rest: Bytes)

  function Decode(client: Client, stream: Bytes): Result<Received, SessionError> {
    match client
    case Python =>
      (match PyDecode(stream)
       case Ok(received) => Ok(received)
       case Err(_) => Err(Transport))
    case C =>
      match CDecode(stream)
      case Some(received) => Ok(received)
      case None => Err(Transport)
  }

  predicate Has(client: Client, payload: Bytes, token: Bytes) {
    Contains(if client.C? then CString(payload) else payload, token)
  }

  /** One reply to a command, unless it reports an error. */
  function Reply(client: Client, stream: Bytes): Result<Received, SessionError> {
    var received :- Decode(client, stream);
    if Has(client, received.payload, Text("ERR")) then Err(Refused) else Ok(received)
  }

  function Outputs(client: Client, stream: Bytes, count: nat): (r: Result<(seq<Bytes>, Bytes), SessionError>)
    ensures r.Ok? ==> |r.value.0| == count
  {
    if count == 0 then Ok(([], stream))
    else
      var earlier :- Outputs(client, stream, count - 1);
      var output :- Decode(client, earlier.1);
      Ok((earlier.0 + [output.payload], output.rest))
  }

  function Session(client: Client, flatbuf: Bytes, stream: Bytes, shutdown: bool): Result<Served, SessionError> {
    var welcome :- Reply(client, stream);
    if client.C? && |flatbuf| > MAX_FRAME_SIZE then Err(FlatbufTooLarge)
    else AfterWelcome(client, welcome.payload, welcome.rest, shutdown)
  }

  function AfterWelcome(client: Client, welcome: Bytes, stream: Bytes, shutdown: bool): Result<Served, SessionError> {
    var run :- Reply(client, stream);
    if !Has(client, run.payload, Text("PASSED")) then Err(NotPassed)
    else AfterRun(client, [welcome, run.payload], run.rest, shutdown)
  }

  function AfterRun(client: Client, texts: seq<Bytes>, stream: Bytes, shutdown: bool): Result<Served, SessionError> {
    var number :- Reply(client, stream);
    match Count(client, number.payload)
    case None => Err(BadCount)
    case Some(count) => AfterCount(client, texts + [number.payload], count, number.rest, shutdown)
  }

  function AfterCount(client: Client, texts: seq<Bytes>, count: nat, stream: Bytes, shutdown: bool)
    : Result<Served, SessionError>
  {
    var outputs :- Outputs(client, stream, count);
    if !shutdown then Ok(Served(texts, outputs.0, outputs.1))
    else
      var ack :- Reply(client, outputs.1);
      Ok(Served(texts + [ack.payload], outputs.0, ack.rest))
  }

  function OutputRequests(count: nat): seq<Bytes> {
    if count == 0 then [] else OutputRequests(count - 1) + [Text("GET_OUTPUT"), Print(count - 1)]
  }

  function Closing(shutdown: bool): seq<Bytes> {
    if shutdown then [Text("SHUTDOWN")] else []
  }

  /** What a client sends in a session that ends well. */
  function Requests(flatbuf: Bytes, count: nat, shutdown: bool): seq<Bytes> {
    Upload(flatbuf) + ([Text("GET_NUMOUTPUTS")] + OutputRequests(count) + Closing(shutdown))
  }

  // ----- what is sent, however the session ends -----

  /** This many outputs arrive. */
  predicate Arrive(client: Client, stream: Bytes, count: nat) {
    Outputs(client, stream, count).Ok?
  }

  /** How many outputs are asked for: all, or up to the first that does not arrive. */
  function Asked(client: Client, stream: Bytes, count: nat): (n: nat)
    ensures n <= count
  {
    if count == 0 then 0
    else if Arrive(client, stream, count - 1) then count
    else Asked(client, stream, count - 1)
  }

  function SentForOutputs(client: Client, stream: Bytes, count: nat, shutdown: bool): seq<Bytes> {
    OutputRequests(Asked(client, stream, count)) + Closing(shutdown && Outputs(client, stream, count).Ok?)
  }

  function SentAfterRun(client: Client, stream: Bytes, shutdown: bool): seq<Bytes> {
    var number := Reply(client, stream);
    if number.Err? || Count(client, number.value.payload).None? then [Text("GET_NUMOUTPUTS")]
    else [Text("GET_NUMOUTPUTS")]
         + SentForOutputs(client, number.value.rest, Count(client, number.value.payload).value, shutdown)
  }

  function SentAfterWelcome(client: Client, stream: Bytes, shutdown: bool): seq<Bytes> {
    var run := Reply(client, stream);
    if run.Err? || !Has(client, run.value.payload, Text("PASSED")) then []
    else SentAfterRun(client, run.value.rest, shutdown)
  }

  function Upload(flatbuf: Bytes): seq<Bytes> {
    [Text("GET_WELCOME"), Text("READ_FLATBUF"), flatbuf, Text("RUN_FLATBUF")]
  }

  /** Everything a client sends to a runtime that answers with these bytes. */
  function Sent(client: Client, flatbuf: Bytes, stream: Bytes, shutdown: bool): seq<Bytes> {
    var welcome := Reply(client, stream);
    if welcome.Err? || (client.C? && |flatbuf| > MAX_FRAME_SIZE) then [Text("GET_WELCOME")]
    else Upload(flatbuf) + SentAfterWelcome(client, welcome.value.rest, shutdown)
  }

  lemma {:induction false} FewerRequests(n: nat, count: nat)
    requires n <= count
    ensures OutputRequests(n) <= OutputRequests(count)
  {
    if n < count {
      FewerRequests(n, count - 1);
    }
  }

  lemma AllAsked(client: Client, stream: Bytes, count: nat)
    requires Outputs(client, stream, count).Ok?
    ensures Asked(client, stream, count) == count
  {
  }

  /** In a session that ends well exactly the requests of the protocol are sent. */
  lemma SentWhole(client: Client, flatbuf: Bytes, stream: Bytes, shutdown: bool)
    requires Session(client, flatbuf, stream, shutdown).Ok?
    ensures Sent(client, flatbuf, stream, shutdown)
         == Requests(flatbuf, |Session(client, flatbuf, stream, shutdown).value.outputs|, shutdown)
  {
    var welcome := Reply(client, stream).value;
    var run := Reply(client, welcome.rest).value;
    SentWholeAfterRun(client, [welcome.payload, run.payload], run.rest, shutdown);
  }

  lemma SentWholeAfterRun(client: Client, texts: seq<Bytes>, stream: Bytes, shutdown: bool)
    requires AfterRun(client, texts, stream, shutdown).Ok?
    ensures SentAfterRun(client, stream, shutdown)
         == [Text("GET_NUMOUTPUTS")] + OutputRequests(|AfterRun(client, texts, stream, shutdown).value.outputs|)
            + Closing(shutdown)
  {
    var number := Reply(client, stream).value;
    var count := Count(client, number.payload).value;
    AllAsked(client, number.rest, count);
    Regroup([Text("GET_NUMOUTPUTS")], OutputRequests(count), Closing(shutdown));
  }

  /** Whatever the runtime answers, a client stays within the protocol: it sends a first part of some whole session. */
  lemma SentIsPrefix(client: Client, flatbuf: Bytes, stream: Bytes, shutdown: bool) returns (count: nat)
    ensures Sent(client, flatbuf, stream, shutdown) <= Requests(flatbuf, count, shutdown)
  {
    count := 0;
    var welcome := Reply(client, stream);
    if welcome.Ok? {
      count := SentAfterWelcomeIsPrefix(client, welcome.value.rest, shutdown);
      LongerPrefix(Upload(flatbuf), SentAfterWelcome(client, welcome.value.rest, shutdown),
                   [Text("GET_NUMOUTPUTS")] + OutputRequests(count) + Closing(shutdown));
    }
  }

  lemma LongerPrefix(first: seq<Bytes>, a: seq<Bytes>, b: seq<Bytes>)
    requires a <= b
    ensures first + a <= first + b
  {
  }

  lemma SentAfterWelcomeIsPrefix(client: Client, stream: Bytes, shutdown: bool) returns (count: nat)
    ensures SentAfterWelcome(client, stream, shutdown)
         <= [Text("GET_NUMOUTPUTS")] + OutputRequests(count) + Closing(shutdown)
  {
    count := 0;
    var run := Reply(client, stream);
    if run.Ok? {
      var number := Reply(client, run.value.rest);
      if number.Ok? && Count(client, number.value.payload).Some? {
        count := Count(client, number.value.payload).value;
        OutputsPrefix(client, number.value.rest, count, shutdown);
        LongerPrefix([Text("GET_NUMOUTPUTS")], SentForOutputs(client, number.value.rest, count, shutdown),
                     OutputRequests(count) + Closing(shutdown));
        Regroup([Text("GET_NUMOUTPUTS")], OutputRequests(count), Closing(shutdown));
      }
    }
  }

  lemma OutputsPrefix(client: Client, stream: Bytes, count: nat, shutdown: bool)
    ensures SentForOutputs(client, stream, count, shutdown) <= OutputRequests(count) + Closing(shutdown)
  {
    if Outputs(client, stream, count).Ok? {
      AllAsked(client, stream, count);
    } else {
      FewerRequests(Asked(client, stream, count), count);
      NothingMore(OutputRequests(Asked(client, stream, count)));
    }
  }

  // ----- the two clients agree -----

  /** What the C client finds before the first zero byte is in the whole reply. */
  lemma {:induction false} ContainsInPrefix(s: Bytes, token: Bytes)
    requires Contains(CString(s), token)
    ensures Contains(s, token)
  {
    CStringIsPrefix(s);
    if !(token <= CString(s)) {
      ContainsInPrefix(s[1..], token);
    }
  }

  lemma {:induction false} CStringIsPrefix(s: Bytes)
    ensures CString(s) <= s
  {
    if s != [] && s[0] != 0 {
      CStringIsPrefix(s[1..]);
    }
  }

  lemma {:induction false} LeftOfCore(text: Bytes)
    ensures IsAscii(StripLeft(text, IsSpace)) ==> IsAscii(text)
    ensures var core := StripLeft(text, IsSpace);
            core != [] && !IsBlank(core[0]) ==> StripLeft(text, IsBlank) == core
  {
    if text != [] && IsSpace(text[0]) {
      LeftOfCore(text[1..]);
      assert text == [text[0]] + text[1..];
    }
  }

  lemma CoreIsNumber(core: Bytes, digits: Bytes, signed: bool)
    requires signed == (core != [] && (core[0] == 43 || core[0] == 45))
    requires digits == (if signed then core[1..] else core) && digits != [] && AllDigits(digits)
    ensures IsAscii(core) && !IsBlank(core[0]) && StripRight(core, IsBlank) == core
    ensures PyInt(core) == Some(if signed && core[0] == 45 then -(Number(digits) as int) else Number(digits))
  {
    assert core[|core| - 1] == digits[|digits| - 1] && IsDigit(digits[|digits| - 1]);
    assert !signed ==> IsDigit(core[0]);
    assert signed ==> core == [core[0]] + digits;
    DigitsOfDigits(digits);
    assert Strip(core, IsSpace) == core;
  }

  /** A count the C client accepts from plain, nonempty text is the Python client's count too. */
  lemma CountsAgree(payload: Bytes)
    requires NoZero(payload) && payload != [] && Count(C, payload).Some?
    ensures Count(Python, payload) == Count(C, payload)
  {
    CStringOfPlain(payload);
    var core := StripLeft(payload, IsSpace);
    var signed := core != [] && (core[0] == 43 || core[0] == 45);
    var digits := if signed then core[1..] else core;
    CoreIsNumber(core, digits, signed);
    LeftOfCore(payload);
  }

  lemma DecodesAgree(stream: Bytes)
    requires Decode(C, stream).Ok?
    ensures Decode(Python, stream) == Decode(C, stream)
  {
    CFramesArePyFrames(stream);
  }

  /** A reply the C client takes is taken alike by the Python client exactly when no error stands in it anywhere. */
  lemma RepliesAgreeIff(stream: Bytes)
    requires Reply(C, stream).Ok?
    ensures Reply(Python, stream)
         == if Contains(Reply(C, stream).value.payload, Text("ERR")) then Err(Refused) else Reply(C, stream)
  {
    DecodesAgree(stream);
  }

  lemma {:induction false} NumbersHaveNoZero(s: Bytes)
    requires Digits(s).Some?
    ensures NoZero(s)
  {
    if |s| > 1 {
      var rest := s[..|s| - 1];
      var more := if rest[|rest| - 1] == 95 then rest[..|rest| - 1] else rest;
      NumbersHaveNoZero(more);
      assert s == rest + [s[|s| - 1]];
      assert more == rest || rest == more + [95];
    }
  }

  lemma ZeroIsNoNumber(payload: Bytes)
    requires !NoZero(payload)
    ensures Count(Python, payload) == None
  {
    StripKeeps(payload, IsBlank, 0);
    var text := Strip(payload, IsBlank);
    StripKeeps(text, IsSpace, 0);
    var core := Strip(text, IsSpace);
    var signed := core != [] && (core[0] == 43 || core[0] == 45);
    var digits := if signed then core[1..] else core;
    assert 0 in digits;
    if Digits(digits).Some? {
      NumbersHaveNoZero(digits);
    }
  }

  /** A count the C client takes is the Python client's count exactly when it is not empty and has no zero byte. */
  lemma CountsAgreeIff(payload: Bytes)
    requires Count(C, payload).Some?
    ensures Count(Python, payload) == if payload != [] && NoZero(payload) then Count(C, payload) else None
  {
    if !NoZero(payload) {
      ZeroIsNoNumber(payload);
    } else if payload != [] {
      CountsAgree(payload);
    }
  }

  lemma {:induction false} OutputsAgree(stream: Bytes, count: nat)
    requires Outputs(C, stream, count).Ok?
    ensures Outputs(Python, stream, count) == Outputs(C, stream, count)
  {
    if count > 0 {
      OutputsAgree(stream, count - 1);
      DecodesAgree(Outputs(C, stream, count - 1).value.1);
    }
  }

  predicate HasError(text: Bytes) {
    Contains(text, Text("ERR"))
  }

  predicate IsPlainCount(text: Bytes) {
    text != [] && NoZero(text)
  }

  /** How the Python client ends on a session that ended well for the C client: in the error of the first bad text. */
  function PythonEnd(served: Served): Result<Served, SessionError>
    requires |served.texts| == 4
  {
    if HasError(served.texts[0]) then Err(Refused) else EndAfterWelcome(served)
  }

  function EndAfterWelcome(served: Served): Result<Served, SessionError>
    requires |served.texts| == 4
  {
    if HasError(served.texts[1]) || HasError(served.texts[2]) then Err(Refused)
    else if !IsPlainCount(served.texts[2]) then Err(BadCount)
    else if HasError(served.texts[3]) then Err(Refused)
    else Ok(served)
  }

  lemma AfterCountAgrees(texts: seq<Bytes>, count: nat, stream: Bytes)
    requires AfterCount(C, texts, count, stream, true).Ok?
    ensures var end := AfterCount(C, texts, count, stream, true);
            && |end.value.texts| == |texts| + 1 && texts <= end.value.texts
            && AfterCount(Python, texts, count, stream, true)
            == if HasError(end.value.texts[|texts|]) then Err(Refused) else end
  {
    OutputsAgree(stream, count);
    RepliesAgreeIff(Outputs(C, stream, count).value.1);
  }

  lemma AfterRunAgrees(texts: seq<Bytes>, stream: Bytes)
    requires AfterRun(C, texts, stream, true).Ok?
    ensures var end := AfterRun(C, texts, stream, true);
            && |end.value.texts| == |texts| + 2 && texts <= end.value.texts
            && var number, ack := end.value.texts[|texts|], end.value.texts[|texts| + 1];
            && AfterRun(Python, texts, stream, true)
            == if HasError(number) then Err(Refused)
               else if !IsPlainCount(number) then Err(BadCount)
               else if HasError(ack) then Err(Refused) else end
  {
    RepliesAgreeIff(stream);
    var number := Reply(C, stream).value;
    CountsAgreeIff(number.payload);
    AfterCountAgrees(texts + [number.payload], Count(C, number.payload).value, number.rest);
  }

  lemma AfterWelcomeAgrees(welcome: Bytes, stream: Bytes)
    requires AfterWelcome(C, welcome, stream, true).Ok?
    ensures var end := AfterWelcome(C, welcome, stream, true);
            && |end.value.texts| == 4 && end.value.texts[0] == welcome
            && AfterWelcome(Python, welcome, stream, true) == EndAfterWelcome(end.value)
  {
    RepliesAgreeIff(stream);
    var run := Reply(C, stream).value;
    ContainsInPrefix(run.payload, Text("PASSED"));
    AfterRunAgrees([welcome, run.payload], run.rest);
  }

  lemma SessionEnds(flatbuf: Bytes, stream: Bytes)
    requires Session(C, flatbuf, stream, true).Ok?
    ensures var end := Session(C, flatbuf, stream, true);
            |end.value.texts| == 4 && Session(Python, flatbuf, stream, true) == PythonEnd(end.value)
  {
    RepliesAgreeIff(stream);
    var welcome := Reply(C, stream).value;
    AfterWelcomeAgrees(welcome.payload, welcome.rest);
  }

  /** The four text replies of a session hold no error anywhere, and the count is plain. */
  predicate ReadAlike(texts: seq<Bytes>) {
    && |texts| == 4 && IsPlainCount(texts[2])
    && !HasError(texts[0]) && !HasError(texts[1]) && !HasError(texts[2]) && !HasError(texts[3])
  }

  /**
  A session that ends well for the C client ends alike for the Python client exactly when no text
  reply holds "ERR" anywhere and the count is neither empty nor holds a zero byte; otherwise it is
  refused or fails on the count.
   */
  lemma SessionsAgreeIff(flatbuf: Bytes, stream: Bytes, served: Served)
    requires Session(C, flatbuf, stream, true) == Ok(served)
    ensures Session(Python, flatbuf, stream, true) == Ok(served) <==> ReadAlike(served.texts)
    ensures !ReadAlike(served.texts) ==> Session(Python, flatbuf, stream, true) in {Err(Refused), Err(BadCount)}
  {
    SessionEnds(flatbuf, stream);
  }

  // ----- a runtime that follows the protocol is served whole -----

  predicate Fits(client: Client, payload: Bytes) {
    client.C? ==> |payload| <= MAX_FRAME_SIZE
  }

  lemma DecodeFrame(client: Client, payload: Bytes, rest: Bytes)
    requires Fits(client, payload)
    ensures Decode(client, Frame(payload) + rest) == Ok(Received(payload, rest))
  {
    RoundTrip(payload, rest);
    CRoundTrip(payload, rest);
  }

  lemma {:induction false} OutputsOfFrames(client: Client, outputs: seq<Bytes>, rest: Bytes)
    requires forall i | 0 <= i < |outputs| :: Fits(client, outputs[i])
    ensures Outputs(client, Frames(outputs) + rest, |outputs|) == Ok((outputs, rest))
  {
    if outputs == [] {
      assert Frames(outputs) + rest == rest;
    } else {
      var n := |outputs| - 1;
      LastFrame(outputs, rest);
      OutputsOfFrames(client, outputs[..n], Frame(outputs[n]) + rest);
      DecodeFrame(client, outputs[n], rest);
      AllButLast(outputs);
    }
  }

  lemma LastFrame(outputs: seq<Bytes>, rest: Bytes)
    requires outputs != []
    ensures Frames(outputs) + rest
         == Frames(outputs[..|outputs| - 1]) + (Frame(outputs[|outputs| - 1]) + rest)
  {
    AllButLast(outputs);
    FramesAppend(outputs[..|outputs| - 1], outputs[|outputs| - 1]);
  }

  lemma {:induction false} DigitsAreNoError(s: Bytes)
    requires AllDigits(s)
    ensures !Contains(s, Text("ERR")) && NoZero(s) && IsAscii(s)
  {
    var token := Text("ERR");
    assert |token| == 3 && token[0] == 69;
    if s != [] {
      assert IsDigit(s[0]);
      DigitsAreNoError(s[1..]);
    }
  }

  lemma CountOfPrint(client: Client, n: nat)
    requires client.C? ==> n <= MAX_OUTPUTS
    ensures Count(client, Print(n)) == Some(n) && !Has(client, Print(n), Text("ERR"))
    ensures Fits(client, Print(n))
  {
    var payload := Print(n);
    PrintFacts(n);
    DigitsAreNoError(payload);
    CStringOfPlain(payload);
    assert IsDigit(payload[0]);
    CoreIsNumber(payload, payload, false);
    if client.C? {
      MaxFramePrints(n);
    }
  }

  /** The bytes of a runtime that serves these outputs, and what it sends after that. */
  function Service(welcome: Bytes, run: Bytes, outputs: seq<Bytes>, ack: Bytes, rest: Bytes): Bytes {
    Frame(welcome) + (Frame(run) + (Frame(Print(|outputs|)) + (Frames(outputs) + (Frame(ack) + rest))))
  }

  lemma ReplyFrame(client: Client, payload: Bytes, rest: Bytes)
    requires Fits(client, payload) && !Has(client, payload, Text("ERR"))
    ensures Reply(client, Frame(payload) + rest) == Ok(Received(payload, rest))
  {
    DecodeFrame(client, payload, rest);
  }

  lemma CountServed(client: Client, texts: seq<Bytes>, outputs: seq<Bytes>, ack: Bytes, rest: Bytes)
    requires Fits(client, ack) && !Has(client, ack, Text("ERR"))
    requires forall i | 0 <= i < |outputs| :: Fits(client, outputs[i])
    ensures AfterCount(client, texts, |outputs|, Frames(outputs) + (Frame(ack) + rest), true)
         == Ok(Served(texts + [ack], outputs, rest))
  {
    OutputsOfFrames(client, outputs, Frame(ack) + rest);
    ReplyFrame(client, ack, rest);
  }

  lemma RunServed(client: Client, texts: seq<Bytes>, number: Bytes, outputs: seq<Bytes>, ack: Bytes, rest: Bytes)
    requires Fits(client, ack) && !Has(client, ack, Text("ERR")) && number == Print(|outputs|)
    requires client.C? ==> |outputs| <= MAX_OUTPUTS
    requires forall i | 0 <= i < |outputs| :: Fits(client, outputs[i])
    ensures AfterRun(client, texts, Frame(number) + (Frames(outputs) + (Frame(ack) + rest)), true)
         == Ok(Served(texts + [number] + [ack], outputs, rest))
  {
    var stream := Frames(outputs) + (Frame(ack) + rest);
    CountOfPrint(client, |outputs|);
    ReplyFrame(client, number, stream);
    CountServed(client, texts + [number], outputs, ack, rest);
  }

  lemma WelcomeServed(client: Client, welcome: Bytes, run: Bytes, number: Bytes, outputs: seq<Bytes>, ack: Bytes,
                      rest: Bytes)
    requires Fits(client, run) && !Has(client, run, Text("ERR")) && Has(client, run, Text("PASSED"))
    requires Fits(client, ack) && !Has(client, ack, Text("ERR")) && number == Print(|outputs|)
    requires client.C? ==> |outputs| <= MAX_OUTPUTS
    requires forall i | 0 <= i < |outputs| :: Fits(client, outputs[i])
    ensures AfterWelcome(client, welcome, Frame(run) + (Frame(number) + (Frames(outputs) + (Frame(ack) + rest))), true)
         == Ok(Served([welcome, run, number, ack], outputs, rest))
  {
    var afterRun := Frame(number) + (Frames(outputs) + (Frame(ack) + rest));
    ReplyFrame(client, run, afterRun);
    RunServed(client, [welcome, run], number, outputs, ack, rest);
    FourInOrder(welcome, run, number, ack);
  }

  lemma WelcomeThen(client: Client, flatbuf: Bytes, welcome: Bytes, stream: Bytes, shutdown: bool)
    requires Fits(client, welcome) && !Has(client, welcome, Text("ERR")) && Fits(client, flatbuf)
    ensures Session(client, flatbuf, Frame(welcome) + stream, shutdown)
         == AfterWelcome(client, welcome, stream, shutdown)
  {
    ReplyFrame(client, welcome, stream);
  }

  /** Every output of a well-behaved runtime arrives unchanged and in order, whatever the bytes after the session. */
  lemma ServedWhole(client: Client, flatbuf: Bytes, welcome: Bytes, run: Bytes, outputs: seq<Bytes>, ack: Bytes,
                    rest: Bytes)
    requires !Has(client, welcome, Text("ERR")) && !Has(client, run, Text("ERR")) && !Has(client, ack, Text("ERR"))
    requires Has(client, run, Text("PASSED"))
    requires client.C? ==> |outputs| <= MAX_OUTPUTS
    requires Fits(client, flatbuf) && Fits(client, welcome) && Fits(client, run) && Fits(client, ack)
    requires forall i | 0 <= i < |outputs| :: Fits(client, outputs[i])
    ensures Session(client, flatbuf, Service(welcome, run, outputs, ack, rest), true)
         == Ok(Served([welcome, run, Print(|outputs|), ack], outputs, rest))
  {
    var number := Print(|outputs|);
    WelcomeThen(client, flatbuf, welcome, Frame(run) + (Frame(number) + (Frames(outputs) + (Frame(ack) + rest))), true);
    WelcomeServed(client, welcome, run, number, outputs, ack, rest);
  }

  // ----- sessions that end well in C only -----

  /** A runtime without outputs that answers the count with nothing: the C client is done, the Python client fails. */
  lemma EmptyCountDiffers(flatbuf: Bytes, welcome: Bytes, run: Bytes, ack: Bytes, rest: Bytes)
    requires Fits(C, flatbuf) && Fits(C, welcome) && Fits(C, run) && Fits(C, ack)
    requires !HasError(welcome) && !HasError(run) && !HasError(ack) && NoZero(run) && Contains(run, Text("PASSED"))
    ensures var stream := Frame(welcome) + (Frame(run) + (Frame([]) + (Frame(ack) + rest)));
            && Session(C, flatbuf, stream, true) == Ok(Served([welcome, run, [], ack], [], rest))
            && Session(Python, flatbuf, stream, true) == Err(BadCount)
  {
    var stream := Frame(welcome) + (Frame(run) + (Frame([]) + (Frame(ack) + rest)));
    var served := Served([welcome, run, [], ack], [], rest);
    EmptyCountServed(flatbuf, welcome, run, ack, rest);
    SessionEnds(flatbuf, stream);
    ShorterContainsNot([], Text("ERR"));
    assert PythonEnd(served) == Err(BadCount);
  }

  lemma EmptyCountServed(flatbuf: Bytes, welcome: Bytes, run: Bytes, ack: Bytes, rest: Bytes)
    requires Fits(C, flatbuf) && Fits(C, welcome) && Fits(C, run) && Fits(C, ack)
    requires !HasError(welcome) && !HasError(run) && !HasError(ack) && NoZero(run) && Contains(run, Text("PASSED"))
    ensures Session(C, flatbuf, Frame(welcome) + (Frame(run) + (Frame([]) + (Frame(ack) + rest))), true)
         == Ok(Served([welcome, run, [], ack], [], rest))
  {
    NotInPrefix(welcome);
    NotInPrefix(run);
    NotInPrefix(ack);
    CStringOfPlain(run);
    AfterEmptyCount([welcome, run], ack, rest);
    var afterRun := Frame([]) + (Frame(ack) + rest);
    ReplyFrame(C, run, afterRun);
    WelcomeThen(C, flatbuf, welcome, Frame(run) + afterRun, true);
    FourInOrder(welcome, run, [], ack);
  }

  lemma NotInPrefix(text: Bytes)
    requires !HasError(text)
    ensures !Has(C, text, Text("ERR"))
  {
    if HasError(CString(text)) {
      ContainsInPrefix(text, Text("ERR"));
    }
  }

  lemma AfterEmptyCount(texts: seq<Bytes>, ack: Bytes, rest: Bytes)
    requires Fits(C, ack) && !Has(C, ack, Text("ERR"))
    ensures AfterRun(C, texts, Frame([]) + (Frame(ack) + rest), true)
         == Ok(Served(texts + [[]] + [ack], [], rest))
  {
    ShortIsNoError([]);
    ReplyFrame(C, [], Frame(ack) + rest);
    ReplyFrame(C, ack, rest);
  }

  /** An error text behind a zero byte: the C client is served whole, the Python client refuses the reply. */
  lemma HiddenErrorDiffers(flatbuf: Bytes, welcome: Bytes, run: Bytes, outputs: seq<Bytes>, ack: Bytes, rest: Bytes)
    requires !Has(C, welcome, Text("ERR")) && !Has(C, run, Text("ERR")) && !Has(C, ack, Text("ERR"))
    requires Has(C, run, Text("PASSED")) && |outputs| <= MAX_OUTPUTS
    requires Fits(C, flatbuf) && Fits(C, welcome) && Fits(C, run) && Fits(C, ack)
    requires forall i | 0 <= i < |outputs| :: Fits(C, outputs[i])
    requires HasError(welcome) || HasError(run) || HasError(ack)
    ensures var stream := Service(welcome, run, outputs, ack, rest);
            && Session(C, flatbuf, stream, true) == Ok(Served([welcome, run, Print(|outputs|), ack], outputs, rest))
            && Session(Python, flatbuf, stream, true) == Err(Refused)
  {
    ServedWhole(C, flatbuf, welcome, run, outputs, ack, rest);
    RefusedInPython(flatbuf, Service(welcome, run, outputs, ack, rest),
                    Served([welcome, run, Print(|outputs|), ack], outputs, rest));
  }

  lemma RefusedInPython(flatbuf: Bytes, stream: Bytes, served: Served)
    requires Session(C, flatbuf, stream, true) == Ok(served)
    requires |served.texts| == 4 && served.texts[2] == Print(|served.outputs|)
    requires HasError(served.texts[0]) || HasError(served.texts[1]) || HasError(served.texts[3])
    ensures Session(Python, flatbuf, stream, true) == Err(Refused)
  {
    SessionEnds(flatbuf, stream);
    PrintFacts(|served.outputs|);
    DigitsAreNoError(served.texts[2]);
  }

  /** Such a reply exists: one zero byte in front of the text. */
  lemma ErrorBehindZero()
    ensures !Has(C, [0] + Text("ERR"), Text("ERR")) && HasError([0] + Text("ERR"))
  {
    var text := [0] + Text("ERR");
    assert text[1..] == Text("ERR");
    assert CString(text) == [];
    assert Text("ERR") != [];
  }

  // ----- the clients -----

  /** Sends one more frame. */
  method PySend(sock: Socket, payload: Bytes, ghost before: Bytes, ghost sent: seq<Bytes>)
    requires sock.outgoing == before + Frames(sent)
    modifies sock`outgoing
    ensures sock.outgoing == before + Frames(sent + [payload])
  {
    FramesAppend(sent, payload);
    PySendFrame(sock, payload);
  }

  method PyReply(sock: Socket) returns (r: Result<Bytes, SessionError>)
    modifies sock`incoming
    ensures match Reply(Python, old(sock.incoming))
            case Ok(received) => r == Ok(received.payload) && sock.incoming == received.rest
            case Err(error) => r == Err(error)
  {
    var received := PyRecvFrame(sock);
    if received.Err? {
      return Err(Transport);
    }
    if Contains(received.value, Text("ERR")) {
      return Err(Refused);
    }
    r := Ok(received.value);
  }

  /** A whole session: the flatbuffer is sent, its outputs are fetched one by one. */
  method PyRunProtocol(sock: Socket, flatbuf: Bytes, shutdown: bool) returns (r: Result<seq<Bytes>, SessionError>)
    modifies sock
    ensures sock.outgoing == old(sock.outgoing) + Frames(Sent(Python, flatbuf, old(sock.incoming), shutdown))
    ensures match Session(Python, flatbuf, old(sock.incoming), shutdown)
            case Err(error) => r == Err(error)
            case Ok(served) => r == Ok(served.outputs) && sock.incoming == served.rest
  {
    ghost var before := sock.outgoing;
    assert before + Frames([]) == before;
    PySend(sock, Text("GET_WELCOME"), before, []);
    var welcome :- PyReply(sock);
    ghost var sent := [] + [Text("GET_WELCOME")];
    PySend(sock, Text("READ_FLATBUF"), before, sent);
    PySend(sock, flatbuf, before, sent + [Text("READ_FLATBUF")]);
    PySend(sock, Text("RUN_FLATBUF"), before, sent + [Text("READ_FLATBUF")] + [flatbuf]);
    FourInOrder(Text("GET_WELCOME"), Text("READ_FLATBUF"), flatbuf, Text("RUN_FLATBUF"));
    NothingMore(Upload(flatbuf));
    var run :- PyReply(sock);
    if !Contains(run, Text("PASSED")) {
      return Err(NotPassed);
    }
    r := PyFetch(sock, [welcome, run], shutdown, before, Upload(flatbuf));
  }

  /** The rest of a session after a run that passed. */
  method PyFetch(sock: Socket, texts: seq<Bytes>, shutdown: bool, ghost before: Bytes, ghost sent: seq<Bytes>)
    returns (r: Result<seq<Bytes>, SessionError>)
    requires sock.outgoing == before + Frames(sent)
    modifies sock
    ensures sock.outgoing == before + Frames(sent + SentAfterRun(Python, old(sock.incoming), shutdown))
    ensures match AfterRun(Python, texts, old(sock.incoming), shutdown)
            case Err(error) => r == Err(error)
            case Ok(served) => r == Ok(served.outputs) && sock.incoming == served.rest
  {
    PySend(sock, Text("GET_NUMOUTPUTS"), before, sent);
    var number :- PyReply(sock);
    var count := Count(Python, number);
    if count.None? {
      return Err(BadCount);
    }
    ghost var asked := OutputRequests(Asked(Python, sock.incoming, count.value));
    RegroupFour(sent, [Text("GET_NUMOUTPUTS")], asked, Closing(true));
    RegroupFour(sent, [Text("GET_NUMOUTPUTS")], asked, []);
    Regroup([Text("GET_NUMOUTPUTS")], asked, Closing(true));
    Regroup([Text("GET_NUMOUTPUTS")], asked, []);
    NothingMore(sent + [Text("GET_NUMOUTPUTS")] + asked);
    var outputs :- PyGetOutputs(sock, count.value, before, sent + [Text("GET_NUMOUTPUTS")]);
    if shutdown {
      PySend(sock, Text("SHUTDOWN"), before, sent + [Text("GET_NUMOUTPUTS")] + asked);
      var ack :- PyReply(sock);
    }
    r := Ok(outputs);
  }

  method PyGetOutputs(sock: Socket, count: nat, ghost before: Bytes, ghost sent: seq<Bytes>)
    returns (r: Result<seq<Bytes>, SessionError>)
    requires sock.outgoing == before + Frames(sent)
    modifies sock
    ensures sock.outgoing == before + Frames(sent + OutputRequests(Asked(Python, old(sock.incoming), count)))
    ensures match Outputs(Python, old(sock.incoming), count)
            case Err(error) => r == Err(error)
            case Ok(served) => r == Ok(served.0) && sock.incoming == served.1
  {
    var outputs: seq<Bytes> := [];
    ghost var stream := sock.incoming;
    NothingMore(sent);
    for index := 0 to count
      invariant Outputs(Python, stream, index) == Ok((outputs, sock.incoming))
      invariant sock.outgoing == before + Frames(sent + OutputRequests(index))
    {
      ghost var now := sent + OutputRequests(index);
      PySend(sock, Text("GET_OUTPUT"), before, now);
      PySend(sock, Print(index), before, now + [Text("GET_OUTPUT")]);
      TwoMore(sent, OutputRequests(index), Text("GET_OUTPUT"), Print(index));
      var output := PyRecvFrame(sock);
      if output.Err? {
        OutputsFail(Python, stream, index, count);
        return Err(Transport);
      }
      outputs := outputs + [output.value];
    }
    AllAsked(Python, stream, count);
    r := Ok(outputs);
  }

  lemma OutputFails(client: Client, stream: Bytes, index: nat)
    requires Outputs(client, stream, index).Ok?
    requires Decode(client, Outputs(client, stream, index).value.1) == Err(Transport)
    ensures Outputs(client, stream, index + 1) == Err(Transport)
  {
  }

  lemma {:induction false} OutputsFailLater(client: Client, stream: Bytes, index: nat, count: nat)
    requires index <= count && Outputs(client, stream, index) == Err(Transport)
    ensures Outputs(client, stream, count) == Err(Transport)
  {
    if index < count {
      OutputsFailLater(client, stream, index, count - 1);
    }
  }

  lemma {:induction false} AskedUntil(client: Client, stream: Bytes, index: nat, count: nat)
    requires index < count && Arrive(client, stream, index)
    requires forall k | index < k < count :: !Arrive(client, stream, k)
    ensures Asked(client, stream, count) == index + 1
  {
    if index + 1 < count {
      assert !Arrive(client, stream, count - 1);
      AskedUntil(client, stream, index, count - 1);
    }
  }

  /** The last output asked for is the first that does not arrive. */
  lemma OutputsFail(client: Client, stream: Bytes, index: nat, count: nat)
    requires index < count && Outputs(client, stream, index).Ok?
    requires Decode(client, Outputs(client, stream, index).value.1) == Err(Transport)
    ensures Outputs(client, stream, count) == Err(Transport) && Asked(client, stream, count) == index + 1
  {
    OutputFails(client, stream, index);
    OutputsFailLater(client, stream, index + 1, count);
    forall k | index < k < count
      ensures !Arrive(client, stream, k)
    {
      OutputsFailLater(client, stream, index + 1, k);
    }
    AskedUntil(client, stream, index, count);
  }

  // ----- the C client -----

  method CSend(sock: Socket, payload: Bytes, ghost before: Bytes, ghost sent: seq<Bytes>) returns (ok: bool)
    requires |payload| <= SIZE_MAX && sock.outgoing == before + Frames(sent)
    modifies sock`outgoing
    ensures ok && sock.outgoing == before + Frames(sent + [payload])
  {
    FramesAppend(sent, payload);
    ok := CSendFrame(sock, payload);
  }

  /** A command and its reply, which is left in `response`. */
  method CCommand(sock: Socket, command: Bytes, response: CFrame, ghost before: Bytes, ghost sent: seq<Bytes>)
    returns (ok: bool)
    requires |command| <= SIZE_MAX && sock.outgoing == before + Frames(sent)
    modifies sock, response
    ensures response.Valid() && (response.data != null ==> fresh(response.data))
    ensures ok <==> Reply(C, old(sock.incoming)).Ok?
    ensures ok ==> response.data != null
    ensures ok ==> response.Payload() == Reply(C, old(sock.incoming)).value.payload
                   && sock.incoming == Reply(C, old(sock.incoming)).value.rest
    ensures sock.outgoing == before + Frames(sent + [command])
  {
    ok := CSend(sock, command, before, sent);
    ok := CRecvFrame(sock, response);
    if ok && response.size >= 3 && Contains(CString(response.data[..response.size]), Text("ERR")) {
      return false;
    }
    if ok && response.size < 3 {
      ShortIsNoError(response.data[..response.size]);
    }
  }

  lemma {:induction false} ShorterContainsNot(s: Bytes, token: Bytes)
    requires |s| < |token|
    ensures !Contains(s, token)
  {
    if s != [] {
      ShorterContainsNot(s[1..], token);
    }
  }

  lemma {:induction false} CStringShorter(s: Bytes)
    ensures |CString(s)| <= |s|
  {
    if s != [] {
      CStringShorter(s[1..]);
    }
  }

  lemma ShortIsNoError(s: Bytes)
    requires |s| < 3
    ensures !Contains(CString(s), Text("ERR"))
  {
    CStringShorter(s);
    ShorterContainsNot(CString(s), Text("ERR"));
  }

  /** The C session: it succeeds exactly when the specified one does, with the same outputs. */
  method CRunProtocol(sock: Socket, flatbuf: Bytes) returns (r: Option<seq<Bytes>>)
    modifies sock
    ensures sock.outgoing == old(sock.outgoing) + Frames(Sent(C, flatbuf, old(sock.incoming), true))
    ensures match Session(C, flatbuf, old(sock.incoming), true)
            case Err(_) => r == None
            case Ok(served) => r == Some(served.outputs) && sock.incoming == served.rest
  {
    var response := new CFrame();
    ghost var before := sock.outgoing;
    assert before + Frames([]) == before;
    var ok := CCommand(sock, Text("GET_WELCOME"), response, before, []);
    if !ok || |flatbuf| > MAX_FRAME_SIZE {
      return None;
    }
    ghost var welcome, sent := response.Payload(), [] + [Text("GET_WELCOME")];
    ok := CRun(sock, flatbuf, response, before, sent);
    FourInOrder(Text("GET_WELCOME"), Text("READ_FLATBUF"), flatbuf, Text("RUN_FLATBUF"));
    NothingMore(Upload(flatbuf));
    if !ok || !Contains(CString(response.data[..response.size]), Text("PASSED")) {
      return None;
    }
    ghost var texts := [welcome, response.Payload()];
    r := CFetch(sock, response, before, Upload(flatbuf), texts);
  }

  method CRun(sock: Socket, flatbuf: Bytes, response: CFrame, ghost before: Bytes, ghost sent: seq<Bytes>)
    returns (ok: bool)
    requires |flatbuf| <= MAX_FRAME_SIZE && sock.outgoing == before + Frames(sent)
    modifies sock, response
    ensures response.Valid() && (response.data != null ==> fresh(response.data))
    ensures ok <==> Reply(C, old(sock.incoming)).Ok?
    ensures ok ==> response.data != null
    ensures ok ==> response.Payload() == Reply(C, old(sock.incoming)).value.payload
                   && sock.incoming == Reply(C, old(sock.incoming)).value.rest
    ensures sock.outgoing == before + Frames(sent + [Text("READ_FLATBUF")] + [flatbuf] + [Text("RUN_FLATBUF")])
  {
    ok := CSend(sock, Text("READ_FLATBUF"), before, sent);
    ok := CSend(sock, flatbuf, before, sent + [Text("READ_FLATBUF")]);
    ok := CCommand(sock, Text("RUN_FLATBUF"), response, before, sent + [Text("READ_FLATBUF")] + [flatbuf]);
  }

  method CFetch(sock: Socket, response: CFrame, ghost before: Bytes, ghost sent: seq<Bytes>, ghost texts: seq<Bytes>)
    returns (r: Option<seq<Bytes>>)
    requires sock.outgoing == before + Frames(sent)
    modifies sock, response
    ensures sock.outgoing == before + Frames(sent + SentAfterRun(C, old(sock.incoming), true))
    ensures match AfterRun(C, texts, old(sock.incoming), true)
            case Err(_) => r == None
            case Ok(served) => r == Some(served.outputs) && sock.incoming == served.rest
  {
    var ok := CCommand(sock, Text("GET_NUMOUTPUTS"), response, before, sent);
    if !ok {
      return None;
    }
    var count := Count(C, response.data[..response.size]);
    if count.None? {
      return None;
    }
    ghost var asked := OutputRequests(Asked(C, sock.incoming, count.value));
    RegroupFour(sent, [Text("GET_NUMOUTPUTS")], asked, Closing(true));
    RegroupFour(sent, [Text("GET_NUMOUTPUTS")], asked, []);
    Regroup([Text("GET_NUMOUTPUTS")], asked, Closing(true));
    Regroup([Text("GET_NUMOUTPUTS")], asked, []);
    NothingMore(sent + [Text("GET_NUMOUTPUTS")] + asked);
    var outputs := CGetOutputs(sock, response, count.value, before, sent + [Text("GET_NUMOUTPUTS")]);
    if outputs.None? {
      return None;
    }
    ok := CCommand(sock, Text("SHUTDOWN"), response, before, sent + [Text("GET_NUMOUTPUTS")] + asked);
    if !ok {
      return None;
    }
    r := outputs;
  }

  method CGetOutputs(sock: Socket, response: CFrame, count: nat, ghost before: Bytes, ghost sent: seq<Bytes>)
    returns (r: Option<seq<Bytes>>)
    requires sock.outgoing == before + Frames(sent) && count <= MAX_OUTPUTS
    modifies sock, response
    ensures sock.outgoing == before + Frames(sent + OutputRequests(Asked(C, old(sock.incoming), count)))
    ensures match Outputs(C, old(sock.incoming), count)
            case Err(_) => r == None
            case Ok(served) => r == Some(served.0) && sock.incoming == served.1
  {
    var outputs: seq<Bytes> := [];
    ghost var stream := sock.incoming;
    NothingMore(sent);
    for index := 0 to count
      invariant Outputs(C, stream, index) == Ok((outputs, sock.incoming))
      invariant sock.outgoing == before + Frames(sent + OutputRequests(index))
    {
      ghost var now := sent + OutputRequests(index);
      var ok := CSend(sock, Text("GET_OUTPUT"), before, now);
      MaxFramePrints(index);
      ok := CSend(sock, Print(index), before, now + [Text("GET_OUTPUT")]);
      TwoMore(sent, OutputRequests(index), Text("GET_OUTPUT"), Print(index));
      ok := CRecvFrame(sock, response);
      if !ok {
        OutputsFail(C, stream, index, count);
        return None;
      }
      outputs := outputs + [response.data[..response.size]];
    }
    AllAsked(C, stream, count);
    r := Some(outputs);
  }
}
