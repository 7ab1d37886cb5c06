/**
Register-trace events as the trace comparer sees them: a parsed transaction (`Event`), the record
the normaliser keeps of it (`Item`), and the tests on register names and data text that every
later stage relies on.
 */
module TraceEvents {
  import opened Lists
  import opened Outcomes

  datatype Interface = Csb | Dbb

  datatype Operation = Read | Write

  datatype Event = Event(
    sequence: nat,
    iface: Interface,
    operation: Operation,
    offset: string,
    length: nat,
    data: string,
    response: string,
    register: Option<string>)

  datatype Item = Item(
    operation: Operation,
    offset: string,
    length: nat,
    data: string,
    response: string,
    register: Option<string>)

  datatype Channel = Programming | Interrupt

  const INTERRUPT_STATUS := "GLB_S_INTR_STATUS_0"
  const MASKED_ADDRESS := "<dma-address>"

  // ----- data text -----

  predicate IsHexDigit(c: char) {
    '0' <= c <= '9' || 'a' <= c <= 'f' || 'A' <= c <= 'F'
  }

  function DigitValue(c: char): nat
    requires IsHexDigit(c)
  {
    if '0' <= c <= '9' then (c - '0') as nat
    else if 'a' <= c <= 'f' then (c - 'a') as nat + 10
    else (c - 'A') as nat + 10
  }

  function DigitsValue(s: string): nat
    requires forall i | 0 <= i < |s| :: IsHexDigit(s[i])
  {
    if s == "" then 0
    else 16 * DigitsValue(s[..|s| - 1]) + DigitValue(s[|s| - 1])
  }

  /** The value of "0x…" text; None where the source's conversion raises. */
  function ParseHex(text: string): Option<nat> {
    if |text| > 2 && text[..2] == "0x" && forall i | 2 <= i < |text| :: IsHexDigit(text[i])
    then Some(DigitsValue(text[2..]))
    else None
  }

  function DigitOf(n: nat): char
    requires n < 16
  {
    if n < 10 then '0' + n as char else 'a' + (n - 10) as char
  }

  function HexDigits(n: nat): string {
    if n < 16 then [DigitOf(n)] else HexDigits(n / 16) + [DigitOf(n % 16)]
  }

  predicate AllHex(s: string) {
    forall i | 0 <= i < |s| :: IsHexDigit(s[i])
  }

  function Zeros(k: nat): string {
    seq(k, i => '0')
  }

  lemma {:induction false} DigitOfValue(n: nat)
    requires n < 16
    ensures IsHexDigit(DigitOf(n)) && DigitValue(DigitOf(n)) == n
  {
  }

  lemma {:induction false} OneMoreDigit(s: string, c: char)
    requires AllHex(s) && IsHexDigit(c)
    ensures AllHex(s + [c]) && DigitsValue(s + [c]) == 16 * DigitsValue(s) + DigitValue(c)
  {
    assert (s + [c])[..|s|] == s;
  }

  lemma {:induction false} ZerosAreZero(k: nat)
    ensures AllHex(Zeros(k)) && DigitsValue(Zeros(k)) == 0
  {
    if k > 0 {
      ZerosAreZero(k - 1);
      OneMoreDigit(Zeros(k - 1), '0');
      assert Zeros(k) == Zeros(k - 1) + ['0'];
    }
  }

  lemma {:induction false} DigitsOfNumber(k: nat, n: nat)
    ensures AllHex(Zeros(k) + HexDigits(n)) && DigitsValue(Zeros(k) + HexDigits(n)) == n
  {
    if n < 16 {
      ZerosAreZero(k);
      DigitOfValue(n);
      OneMoreDigit(Zeros(k), DigitOf(n));
    } else {
      DigitsOfNumber(k, n / 16);
      DigitOfValue(n % 16);
      OneMoreDigit(Zeros(k) + HexDigits(n / 16), DigitOf(n % 16));
      Regroup(Zeros(k), HexDigits(n / 16), [DigitOf(n % 16)]);
    }
  }

  /** A number printed in hexadecimal, with any leading zeros, is read back. */
  lemma {:induction false} HexRoundTrip(k: nat, n: nat)
    ensures ParseHex("0x" + (Zeros(k) + HexDigits(n))) == Some(n)
  {
    var digits, text := Zeros(k) + HexDigits(n), "0x" + (Zeros(k) + HexDigits(n));
    DigitsOfNumber(k, n);
    assert text[2..] == digits && text[..2] == "0x";
    assert forall i | 2 <= i < |text| :: text[i] == digits[i - 2];
  }

  /** Letters stand for the same digits in either case. */
  lemma {:induction false} EitherCase(lower: char, upper: char)
    requires 'a' <= lower <= 'f' && 'A' <= upper <= 'F' && lower - 'a' == upper - 'A'
    ensures DigitValue(lower) == DigitValue(upper) >= 10
  {
  }

  // ----- register names -----

  lemma {:induction false} ContainsLetter(s: string, token: string, i: nat)
    requires Contains(s, token) && i < |token|
    ensures token[i] in s
  {
    if !(token <= s) {
      ContainsLetter(s[1..], token, i);
    }
  }

  lemma {:induction false} ContainsInfix(before: string, token: string, after: string)
    ensures Contains(before + token + after, token)
  {
    if before != "" {
      ContainsInfix(before[1..], token, after);
      assert (before + token + after)[1..] == before[1..] + token + after;
    } else {
      assert before + token + after == token + after;
    }
  }

  function RegisterName(register: Option<string>): string {
    if register.Some? then register.value else ""
  }

  predicate ContainsAny(s: string, tokens: seq<string>) {
    tokens != [] && (Contains(s, tokens[0]) || ContainsAny(s, tokens[1..]))
  }

  const ADDRESS_TOKENS := ["BASE_ADDR", "DAIN_ADDR", "WEIGHT_ADDR", "DATAOUT_ADDR"]
  const STATE_TOKENS := ["_S_STATUS", "_S_POINTER", "INTR_STATUS", "INTR_MASK"]

  predicate IsDmaAddressRegister(register: Option<string>) {
    var name := RegisterName(register);
    Contains(name, "ADDR") && ContainsAny(name, ADDRESS_TOKENS)
  }

  predicate IsStateRead(item: Item) {
    item.operation == Read && ContainsAny(RegisterName(item.register), STATE_TOKENS)
  }

  /** The key under which the last value of a state read is remembered. */
  function StateKey(item: Item): string {
    if RegisterName(item.register) != "" then RegisterName(item.register) else item.offset
  }

  function KeyChannel(key: string): Channel {
    if key == INTERRUPT_STATUS then Interrupt else Programming
  }

  function ChannelOf(item: Item): Channel {
    KeyChannel(RegisterName(item.register))
  }

  lemma {:induction false} ContainsSome(s: string, tokens: seq<string>, i: nat)
    requires i < |tokens| && Contains(s, tokens[i])
    ensures ContainsAny(s, tokens)
  {
    if i > 0 {
      ContainsSome(s, tokens[1..], i - 1);
    }
  }

  lemma {:induction false} EmptyContainsNone(tokens: seq<string>)
    requires "" !in tokens
    ensures !ContainsAny("", tokens)
  {
    if tokens != [] {
      EmptyContainsNone(tokens[1..]);
    }
  }

  /** A state read always has a register name, so its key never falls back to the offset. */
  lemma StateKeyIsRegister(item: Item)
    requires IsStateRead(item)
    ensures StateKey(item) == RegisterName(item.register)
    ensures KeyChannel(StateKey(item)) == ChannelOf(item)
  {
    EmptyContainsNone(STATE_TOKENS);
  }

  lemma InterruptStatusIsState()
    ensures ContainsAny(INTERRUPT_STATUS, STATE_TOKENS)
  {
    assert INTERRUPT_STATUS == "GLB_S_" + "INTR_STATUS" + "_0";
    ContainsInfix("GLB_S_", "INTR_STATUS", "_0");
    ContainsSome(INTERRUPT_STATUS, STATE_TOKENS, 2);
  }

  lemma InterruptStatusIsNoAddress()
    ensures !Contains(INTERRUPT_STATUS, "ADDR")
  {
    assert 'D' !in INTERRUPT_STATUS;
    if Contains(INTERRUPT_STATUS, "ADDR") {
      ContainsLetter(INTERRUPT_STATUS, "ADDR", 1);
    }
  }

  /** Reads of the interrupt status register are polled state; writes to it are never masked. */
  lemma InterruptRegisterIsState(item: Item)
    requires ChannelOf(item) == Interrupt
    ensures IsStateRead(item) <==> item.operation == Read
    ensures !IsDmaAddressRegister(item.register)
    ensures StateKey(item) == INTERRUPT_STATUS
  {
    InterruptStatusIsState();
    InterruptStatusIsNoAddress();
  }

  // ----- the record the normaliser keeps -----

  predicate IsDmaWrite(e: Event) {
    e.operation == Write && IsDmaAddressRegister(e.register)
  }

  /** The kept record of an event, with the value of a DMA address masked. */
  function ItemOf(e: Event): Item {
    Item(e.operation, e.offset, e.length, if IsDmaWrite(e) then MASKED_ADDRESS else e.data, e.response, e.register)
  }

  /** All CSB transactions of a trace, masked, before any duplicate read is dropped. */
  function RawItems(events: seq<Event>): seq<Item> {
    if events == [] then []
    else if events[0].iface != Csb then RawItems(events[1..])
    else [ItemOf(events[0])] + RawItems(events[1..])
  }

  function OnChannel(items: seq<Item>, channel: Channel): seq<Item> {
    if items == [] then []
    else if ChannelOf(items[0]) == channel then [items[0]] + OnChannel(items[1..], channel)
    else OnChannel(items[1..], channel)
  }
}
