/**
The two frame readers and writers over a socket that delivers and takes bytes in pieces of any size.
 */
module FrameTransport {
  import opened Outcomes
  import opened Framing

  /** One end of a connection: the bytes still to be delivered to it, and those it has sent. */
  class Socket {
    var incoming: Bytes
    var outgoing: Bytes

    constructor (delivered: Bytes)
      ensures incoming == delivered && outgoing == []
    {
      incoming, outgoing := delivered, [];
    }

    /** Up to n bytes; none only at the end of the stream. How many is not determined. */
    method Recv(n: nat) returns (chunk: Bytes)
      requires n > 0
      modifies `incoming
      ensures |chunk| <= n && chunk + incoming == old(incoming)
      ensures chunk == [] <==> old(incoming) == []
    {
      if incoming == [] {
        return [];
      }
      var size: nat :| 1 <= size <= n && size <= |incoming| by {
        assert 1 <= 1 <= n && 1 <= |incoming|;
      }
      chunk, incoming := incoming[..size], incoming[size..];
    }

    /** Sends some of the data, at least one byte. */
    method Send(data: Bytes) returns (written: nat)
      requires data != []
      modifies `outgoing
      ensures 1 <= written <= |data| && outgoing == old(outgoing) + data[..written]
    {
      written :| 1 <= written <= |data| by {
        assert 1 <= 1 <= |data|;
      }
      outgoing := outgoing + data[..written];
    }

    method SendAll(data: Bytes)
      modifies `outgoing
      ensures outgoing == old(outgoing) + data
    {
      outgoing := outgoing + data;
    }
  }

  /** Taking one more byte off a stream. */
  lemma NextByte(stream: Bytes, used: nat, byte: Bytes, rest: Bytes)
    requires used <= |stream| && byte + rest == stream[used..] && |byte| == 1
    ensures used < |stream| && byte[0] == stream[used]
    ensures rest == stream[used + 1..] && stream[..used + 1] == stream[..used] + byte
  {
    assert (byte + rest)[0] == byte[0] && (byte + rest)[1..] == rest;
  }

  // ----- Python -----

  method PySendFrame(sock: Socket, payload: Bytes)
    modifies sock`outgoing
    ensures sock.outgoing == old(sock.outgoing) + Frame(payload)
  {
    sock.SendAll(Print(|payload|) + [NEWLINE]);
    sock.SendAll(payload);
  }

  /** The bytes before the first newline, which is consumed too. */
  method PyRecvSize(sock: Socket) returns (r: Result<Bytes, FrameError>)
    modifies sock`incoming
    ensures var k := FirstNewline(old(sock.incoming));
            if k < |old(sock.incoming)|
            then r == Ok(old(sock.incoming)[..k]) && sock.incoming == old(sock.incoming)[k + 1..]
            else r == Err(ClosedInSize)
  {
    ghost var stream := sock.incoming;
    var sizeBytes: Bytes := [];
    while true
      invariant |sizeBytes| <= FirstNewline(stream)
      invariant sizeBytes == stream[..|sizeBytes|] && sock.incoming == stream[|sizeBytes|..]
      decreases |sock.incoming|
    {
      var byte := sock.Recv(1);
      if byte == [] {
        return Err(ClosedInSize);
      }
      NextByte(stream, |sizeBytes|, byte, sock.incoming);
      if byte[0] == NEWLINE {
        return Ok(sizeBytes);
      }
      sizeBytes := sizeBytes + byte;
    }
  }

  method PyRecvData(sock: Socket, size: int) returns (r: Result<Bytes, FrameError>)
    modifies sock`incoming
    ensures match Take(old(sock.incoming), size)
            case Ok(received) => r == Ok(received.payload) && sock.incoming == received.rest
            case Err(error) => r == Err(error)
  {
    ghost var body := sock.incoming;
    var data: Bytes := [];
    while |data| < size
      invariant data + sock.incoming == body && (|data| <= size || data == [])
      decreases |sock.incoming|
    {
      var chunk := sock.Recv(size - |data|);
      if chunk == [] {
        assert data == body;
        return Err(ClosedInData);
      }
      data := data + chunk;
    }
    assert size > 0 ==> data == body[..size] && sock.incoming == body[size..];
    r := Ok(data);
  }

  method PyRecvFrame(sock: Socket) returns (r: Result<Bytes, FrameError>)
    modifies sock`incoming
    ensures match PyDecode(old(sock.incoming))
            case Ok(received) => r == Ok(received.payload) && sock.incoming == received.rest
            case Err(error) => r == Err(error)
  {
    var sizeBytes := PyRecvSize(sock);
    if sizeBytes.Err? {
      return sizeBytes;
    }
    var size := PyInt(sizeBytes.value);
    if size.None? {
      return Err(InvalidSize);
    }
    r := PyRecvData(sock, size.value);
  }

  /** `count` calls of the receiver on one connection. */
  method PyRecvFrames(sock: Socket, count: nat) returns (r: Result<seq<Bytes>, FrameError>)
    modifies sock`incoming
    ensures match PyDecodeMany(old(sock.incoming), count)
            case Ok(received) => r == Ok(received.0) && sock.incoming == received.1
            case Err(error) => r == Err(error)
    decreases count
  {
    if count == 0 {
      return Ok([]);
    }
    var first := PyRecvFrame(sock);
    if first.Err? {
      return Err(first.error);
    }
    var more := PyRecvFrames(sock, count - 1);
    if more.Err? {
      return more;
    }
    r := Ok([first.value] + more.value);
  }

  // ----- C -----

  method WriteAll(sock: Socket, buffer: Bytes)
    modifies sock`outgoing
    ensures sock.outgoing == old(sock.outgoing) + buffer
  {
    var cursor, size := 0, |buffer|;
    while size > 0
      invariant 0 <= cursor <= |buffer| && size == |buffer| - cursor
      invariant sock.outgoing == old(sock.outgoing) + buffer[..cursor]
    {
      var written := sock.Send(buffer[cursor..]);
      assert buffer[..cursor + written] == buffer[..cursor] + buffer[cursor..][..written];
      cursor := cursor + written;
      size := size - written;
    }
  }

  /** Fills buffer[..size] from the socket; false if the stream ends first. */
  method ReadAll(sock: Socket, buffer: array<Byte>, total: nat) returns (ok: bool)
    requires total <= buffer.Length
    modifies sock`incoming, buffer
    ensures ok <==> total <= |old(sock.incoming)|
    ensures ok ==> buffer[..total] == old(sock.incoming)[..total] && sock.incoming == old(sock.incoming)[total..]
    ensures buffer[total..] == old(buffer[total..])
  {
    ghost var stream := sock.incoming;
    var cursor, size := 0, total;
    while size > 0
      invariant 0 <= cursor <= total && size == total - cursor && cursor <= |stream|
      invariant sock.incoming == stream[cursor..] && buffer[..cursor] == stream[..cursor]
      invariant buffer[total..] == old(buffer[total..])
    {
      var chunk := sock.Recv(size);
      if chunk == [] {
        return false;
      }
      ghost var before := buffer[..cursor];
      forall i | 0 <= i < |chunk| {
        buffer[cursor + i] := chunk[i];
      }
      assert stream[cursor..] == chunk + sock.incoming;
      assert stream[..cursor + |chunk|] == stream[..cursor] + chunk;
      assert buffer[..cursor + |chunk|] == before + chunk;
      cursor := cursor + |chunk|;
      size := size - |chunk|;
    }
    ok := true;
  }

  const SIZE_MAX: nat := 0xFFFF_FFFF_FFFF_FFFF

  /** The header of any object that fits in memory fits in the header buffer. */
  lemma HeaderFits(size: nat)
    requires size <= SIZE_MAX
    ensures |Print(size)| + 1 < HEADER_SIZE
  {
    assert PowerOfTen(10) == 10_000_000_000;
    assert PowerOfTen(20) == 100_000_000_000_000_000_000;
    PrintLength(size, 20);
  }

  method CSendFrame(sock: Socket, payload: Bytes) returns (ok: bool)
    requires |payload| <= SIZE_MAX
    modifies sock`outgoing
    ensures ok && sock.outgoing == old(sock.outgoing) + Frame(payload)
  {
    HeaderFits(|payload|);
    var header := Print(|payload|) + [NEWLINE];
    if |header| == 0 || |header| >= HEADER_SIZE {
      return false;
    }
    WriteAll(sock, header);
    WriteAll(sock, payload);
    ok := true;
  }

  /** A received frame: its data is followed by a zero byte. */
  class CFrame {
    var data: array?<Byte>
    var size: nat

    ghost predicate Valid()
      reads this, data
    {
      if data == null then size == 0 else data.Length == size + 1 && data[size] == 0
    }

    ghost function Payload(): Bytes
      requires Valid()
      reads this, data
    {
      if data == null then [] else data[..size]
    }

    constructor ()
      ensures data == null && Valid()
    {
      data, size := null, 0;
    }
  }

  /** The size line, read a byte at a time into a fixed buffer. */
  method CRecvSize(sock: Socket) returns (r: Option<nat>)
    modifies sock`incoming
    ensures r == CSize(old(sock.incoming))
    ensures r.Some? ==> sock.incoming == old(sock.incoming)[LeadingDigits(old(sock.incoming)) + 1..]
  {
    ghost var stream := sock.incoming;
    var header := new Byte[HEADER_SIZE];
    var used := 0;
    while used + 1 < HEADER_SIZE
      invariant 0 <= used < HEADER_SIZE && used <= LeadingDigits(stream)
      invariant header[..used] == stream[..used] && sock.incoming == stream[used..]
    {
      var byte := sock.Recv(1);
      if byte == [] {
        return None;
      }
      NextByte(stream, used, byte, sock.incoming);
      if byte[0] == NEWLINE {
        break;
      }
      if byte[0] < 48 || byte[0] > 57 {
        return None;
      }
      header[used] := byte[0];
      used := used + 1;
    }
    if used == 0 || used + 1 >= HEADER_SIZE {
      return None;
    }
    var parsed := Number(header[..used]);
    if parsed > ULLONG_MAX || parsed > MAX_FRAME_SIZE {
      return None;
    }
    r := Some(parsed);
  }

  method CRecvFrame(sock: Socket, frame: CFrame) returns (ok: bool)
    modifies sock`incoming, frame
    ensures frame.Valid() && (frame.data != null ==> fresh(frame.data))
    ensures ok <==> CDecode(old(sock.incoming)).Some?
    ensures ok ==> frame.Payload() == CDecode(old(sock.incoming)).value.payload
                   && sock.incoming == CDecode(old(sock.incoming)).value.rest
    ensures ok <==> frame.data != null
  {
    frame.data, frame.size := null, 0;
    var parsed := CRecvSize(sock);
    if parsed.None? {
      return false;
    }
    var data := new Byte[parsed.value + 1];
    var filled := ReadAll(sock, data, parsed.value);
    if !filled {
      return false;
    }
    data[parsed.value] := 0;
    frame.data, frame.size := data, parsed.value;
    ok := true;
  }
}
