/**
The length-prefixed frames of the flatbuffer protocol: a decimal size, a newline, the payload. What
the Python and the C reader make of a stream of bytes.
 */
module Framing {
  import opened Lists
  import opened Outcomes

  type Byte = b: int | 0 <= b < 256
  type Bytes = seq<Byte>

  const NEWLINE: Byte := 10
  const MAX_FRAME_SIZE: nat := 67_108_864
  const ULLONG_MAX: nat := 0xFFFF_FFFF_FFFF_FFFF
  const HEADER_SIZE: nat := 32

  // ----- decimal numbers -----

  predicate IsDigit(b: Byte) {
    48 <= b <= 57
  }

  predicate AllDigits(s: Bytes) {
    forall i | 0 <= i < |s| :: IsDigit(s[i])
  }

  function Print(n: nat): Bytes {
    if n < 10 then [48 + n] else Print(n / 10) + [48 + n % 10]
  }

  /** The number written by a run of digits. */
  function Number(s: Bytes): nat
    requires AllDigits(s)
  {
    if s == [] then 0 else 10 * Number(s[..|s| - 1]) + s[|s| - 1] - 48
  }

  lemma {:induction false} PrintFacts(n: nat)
    ensures Print(n) != [] && AllDigits(Print(n)) && Number(Print(n)) == n
  {
    if n < 10 {
      assert Print(n)[..0] == [];
    } else {
      PrintFacts(n / 10);
      assert Print(n)[..|Print(n)| - 1] == Print(n / 10);
    }
  }

  /** Numbers are printed without leading zeros. */
  lemma {:induction false} NoLeadingZero(n: nat)
    ensures |Print(n)| > 1 ==> Print(n)[0] != 48
  {
    if n >= 10 {
      NoLeadingZero(n / 10);
    }
  }

  function PowerOfTen(k: nat): nat {
    if k == 0 then 1 else 10 * PowerOfTen(k - 1)
  }

  lemma {:induction false} PrintLength(n: nat, k: nat)
    requires n < PowerOfTen(k) && k > 0
    ensures |Print(n)| <= k
  {
    if n >= 10 {
      assert k > 1 && n / 10 < PowerOfTen(k - 1);
      PrintLength(n / 10, k - 1);
    }
  }

  // ----- Python's int() on ASCII text -----

  predicate IsSpace(b: Byte) {
    b == 32 || 9 <= b <= 13
  }

  predicate IsAscii(s: Bytes) {
    forall i | 0 <= i < |s| :: s[i] < 128
  }

  /** Digits with single underscores between them. */
  function Digits(s: Bytes): Option<nat> {
    if s == [] || !IsDigit(s[|s| - 1]) then None
    else if |s| == 1 then Some(s[0] - 48)
    else
      var rest := s[..|s| - 1];
      var more := if rest[|rest| - 1] == 95 then rest[..|rest| - 1] else rest;
      match Digits(more)
      case None => None
      case Some(value) => Some(10 * value + s[|s| - 1] - 48)
  }

  function PyInt(s: Bytes): Option<int> {
    if !IsAscii(s) then None
    else
      var text := Strip(s, IsSpace);
      var signed := text != [] && (text[0] == 43 || text[0] == 45);
      match Digits(if signed then text[1..] else text)
      case None => None
      case Some(value) =>
        var number := value as int;
        Some(if signed && text[0] == 45 then -number else number)
  }

  lemma {:induction false} DigitsOfDigits(s: Bytes)
    requires s != [] && AllDigits(s)
    ensures Digits(s) == Some(Number(s))
  {
    if |s| == 1 {
      assert s[..0] == [];
    } else {
      DigitsOfDigits(s[..|s| - 1]);
    }
  }

  lemma PyIntOfDigits(s: Bytes)
    requires s != [] && AllDigits(s)
    ensures PyInt(s) == Some(Number(s))
  {
    assert IsDigit(s[0]) && IsDigit(s[|s| - 1]);
    DigitsOfDigits(s);
  }

  // ----- one frame off a stream -----

  datatype Received = Received(payload: Bytes, rest: Bytes)
  datatype FrameError = ClosedInSize | InvalidSize | ClosedInData

  function Frame(payload: Bytes): Bytes {
    Print(|payload|) + [NEWLINE] + payload
  }

  function FirstNewline(s: Bytes): (k: nat)
    ensures k <= |s| && (forall i | 0 <= i < k :: s[i] != NEWLINE) && (k < |s| ==> s[k] == NEWLINE)
  {
    if s == [] || s[0] == NEWLINE then 0 else 1 + FirstNewline(s[1..])
  }

  /** The first `size` bytes of the data after a header. */
  function Take(body: Bytes, size: int): Result<Received, FrameError> {
    if size > |body| then Err(ClosedInData)
    else if size <= 0 then Ok(Received([], body))
    else Ok(Received(body[..size], body[size..]))
  }

  function PyDecode(stream: Bytes): Result<Received, FrameError> {
    var k := FirstNewline(stream);
    if k == |stream| then Err(ClosedInSize)
    else
      match PyInt(stream[..k])
      case None => Err(InvalidSize)
      case Some(size) => Take(stream[k + 1..], size)
  }

  /** How many digits the stream starts with. */
  function LeadingDigits(s: Bytes): (k: nat)
    ensures k <= |s| && AllDigits(s[..k]) && (k < |s| ==> !IsDigit(s[k]))
  {
    if s == [] || !IsDigit(s[0]) then 0
    else
      var k := 1 + LeadingDigits(s[1..]);
      assert forall i | 0 < i < k :: s[..k][i] == s[1..][..k - 1][i - 1];
      k
  }

  /** At most thirty digits and a newline fit the header; the number is at most 64 MiB. */
  function CSize(stream: Bytes): (size: Option<nat>)
    ensures size.Some? ==> LeadingDigits(stream) < |stream|
  {
    var k := LeadingDigits(stream);
    if k == 0 || k + 1 >= HEADER_SIZE || k == |stream| || stream[k] != NEWLINE then None
    else
      var parsed := Number(stream[..k]);
      if parsed > ULLONG_MAX || parsed > MAX_FRAME_SIZE then None else Some(parsed)
  }

  function CDecode(stream: Bytes): Option<Received> {
    match CSize(stream)
    case None => None
    case Some(size) =>
      match Take(stream[LeadingDigits(stream) + 1..], size)
      case Ok(received) => Some(received)
      case Err(_) => None
  }

  lemma FirstNewlineIs(s: Bytes, k: nat)
    requires k < |s| && s[k] == NEWLINE && AllDigits(s[..k])
    ensures FirstNewline(s) == k && LeadingDigits(s) == k
  {
    assert forall i | 0 <= i < k :: s[i] == s[..k][i];
  }

  /** Whatever the C reader accepts, the Python reader decodes alike. */
  lemma CFramesArePyFrames(stream: Bytes)
    requires CDecode(stream).Some?
    ensures PyDecode(stream) == Ok(CDecode(stream).value)
  {
    var k := LeadingDigits(stream);
    FirstNewlineIs(stream, k);
    PyIntOfDigits(stream[..k]);
  }

  /** A sent frame at the head of a stream is received whole, and nothing after it is touched. */
  lemma RoundTrip(payload: Bytes, rest: Bytes)
    ensures PyDecode(Frame(payload) + rest) == Ok(Received(payload, rest))
  {
    var header, stream := Print(|payload|), Frame(payload) + rest;
    HeaderOf(payload, rest);
    PyIntOfDigits(header);
    assert stream[|header| + 1..] == payload + rest;
    TakeAll(payload, rest);
  }

  lemma HeaderOf(payload: Bytes, rest: Bytes)
    ensures var header, stream := Print(|payload|), Frame(payload) + rest;
            && |stream| > |header| > 0 && AllDigits(header) && Number(header) == |payload|
            && stream[..|header|] == header && stream[|header|] == NEWLINE
            && stream[|header| + 1..] == payload + rest
            && FirstNewline(stream) == |header| && LeadingDigits(stream) == |header|
  {
    PrintFacts(|payload|);
    var header, stream := Print(|payload|), Frame(payload) + rest;
    assert stream[..|header|] == header && AllDigits(stream[..|header|]);
    assert stream[|header|] == NEWLINE;
    FirstNewlineIs(stream, |header|);
    assert stream[|header| + 1..] == payload + rest;
  }

  lemma TakeAll(payload: Bytes, rest: Bytes)
    ensures Take(payload + rest, |payload|) == Ok(Received(payload, rest))
  {
    var body := payload + rest;
    assert body[..|payload|] == payload && body[|payload|..] == rest;
    assert payload == [] ==> body == rest;
  }

  lemma MaxFramePrints(n: nat)
    requires n <= MAX_FRAME_SIZE
    ensures |Print(n)| <= 8
  {
    assert PowerOfTen(8) == 100_000_000;
    PrintLength(n, 8);
  }

  /** The C reader takes a sent frame exactly when the payload is at most 64 MiB. */
  lemma CRoundTrip(payload: Bytes, rest: Bytes)
    ensures CDecode(Frame(payload) + rest)
         == if |payload| <= MAX_FRAME_SIZE then Some(Received(payload, rest)) else None
  {
    HeaderOf(payload, rest);
    TakeAll(payload, rest);
    if |payload| <= MAX_FRAME_SIZE {
      MaxFramePrints(|payload|);
    }
  }

  /** No frame is delivered from a stream that ends inside it. */
  lemma TruncatedFrameFails(payload: Bytes, k: nat)
    requires k < |Frame(payload)|
    ensures PyDecode(Frame(payload)[..k]) == Err(if k <= |Print(|payload|)| then ClosedInSize else ClosedInData)
  {
    var header, stream := Print(|payload|), Frame(payload)[..k];
    PrintFacts(|payload|);
    if k <= |header| {
      assert forall i | 0 <= i < k :: stream[i] == header[i];
    } else {
      assert stream[..|header|] == header && stream[|header|] == NEWLINE;
      FirstNewlineIs(stream, |header|);
      PyIntOfDigits(header);
    }
  }

  // ----- many frames -----

  function Frames(payloads: seq<Bytes>): Bytes {
    if payloads == [] then [] else Frame(payloads[0]) + Frames(payloads[1..])
  }

  /** `count` frames received one after the other. */
  function PyDecodeMany(stream: Bytes, count: nat): Result<(seq<Bytes>, Bytes), FrameError> {
    if count == 0 then Ok(([], stream))
    else
      match PyDecode(stream)
      case Err(error) => Err(error)
      case Ok(received) =>
        match PyDecodeMany(received.rest, count - 1)
        case Err(error) => Err(error)
        case Ok(more) => Ok(([received.payload] + more.0, more.1))
  }

  lemma DecodeNext(stream: Bytes, payload: Bytes, others: Bytes, more: seq<Bytes>, rest: Bytes)
    requires PyDecode(stream) == Ok(Received(payload, others)) && PyDecodeMany(others, |more|) == Ok((more, rest))
    ensures PyDecodeMany(stream, |more| + 1) == Ok(([payload] + more, rest))
  {
  }

  lemma FramesHead(payloads: seq<Bytes>, rest: Bytes)
    requires payloads != []
    ensures Frames(payloads) + rest == Frame(payloads[0]) + (Frames(payloads[1..]) + rest)
  {
  }

  lemma {:induction false} FramesRoundTrip(payloads: seq<Bytes>, rest: Bytes)
    ensures PyDecodeMany(Frames(payloads) + rest, |payloads|) == Ok((payloads, rest))
  {
    if payloads == [] {
      assert Frames(payloads) + rest == rest;
    } else {
      var others := Frames(payloads[1..]) + rest;
      FramesHead(payloads, rest);
      RoundTrip(payloads[0], others);
      FramesRoundTrip(payloads[1..], rest);
      DecodeNext(Frames(payloads) + rest, payloads[0], others, payloads[1..], rest);
      assert payloads == [payloads[0]] + payloads[1..];
    }
  }

  lemma {:induction false} FramesAppend(payloads: seq<Bytes>, payload: Bytes)
    ensures Frames(payloads + [payload]) == Frames(payloads) + Frame(payload)
  {
    if payloads == [] {
      assert [payload][1..] == [];
    } else {
      FramesAppend(payloads[1..], payload);
      assert (payloads + [payload])[1..] == payloads[1..] + [payload];
    }
  }

  /** Frame boundaries are never ambiguous. */
  lemma FramesUnique(a: seq<Bytes>, b: seq<Bytes>)
    requires |a| == |b| && Frames(a) == Frames(b)
    ensures a == b
  {
    FramesRoundTrip(a, []);
    FramesRoundTrip(b, []);
  }
}
