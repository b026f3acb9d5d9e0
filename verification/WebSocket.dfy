/** The server's frame reader, and the loop that turns a connection's bytes into packets. */
module WebSocket {
  import opened ByteStream
  import opened InPieces
  import opened WebSocketSpec

  class Request {
    var fin: int
    var opcode: int
    var mask: int
    var maskingKey: seq<int>
    var payloadLength: int
    const payload: array<int>

    constructor ()
      ensures payload.Length == SIZE && fresh(payload)
    {
      fin, opcode, mask, maskingKey, payloadLength := 0, 0, 0, [0, 0, 0, 0], 0;
      payload := new int[SIZE](_ => 0);
    }

    method Reset()
      requires payload.Length == SIZE
      modifies this, payload
      ensures fin == opcode == mask == payloadLength == 0 && maskingKey == [0, 0, 0, 0]
      ensures payload[..] == seq(SIZE, _ => 0)
    {
      fin, opcode, mask, maskingKey, payloadLength := 0, 0, 0, [0, 0, 0, 0], 0;
      ClearPayload();
    }

    method ClearPayload()
      requires payload.Length == SIZE
      modifies payload
      ensures payload[..] == seq(SIZE, _ => 0)
    {
      forall i | 0 <= i < SIZE {
        payload[i] := 0;
      }
    }

    method FetchPayloadLength(msg: seq<int>, from: int) returns (pos: int)
      requires |msg| >= 6 && from == 1
      modifies `payloadLength
      ensures pos == KeyAt(msg) && payloadLength == PayloadLen(msg)
    {
      pos := from;
      var length := msg[pos] % 128;
      pos := pos + 1;
      if length == 126 {
        length := msg[pos] * 256 + msg[pos + 1];
        pos := pos + 2;
      } else if length == 127 {
        length := Signed32(msg[pos], msg[pos + 1], msg[pos + 2], msg[pos + 3]);
        pos := pos + 4;
      }
      if length < 0 || length >= SIZE {
        length := 0;
      }
      payloadLength := length;
    }

    method FetchMaskingKey(msg: seq<int>, from: int) returns (pos: int)
      requires |msg| == SIZE && from == KeyAt(msg) && (mask == 1 <==> Masked(msg))
      modifies `maskingKey
      ensures pos == PayloadAt(msg)
      ensures mask == 1 ==> maskingKey == msg[KeyAt(msg)..KeyAt(msg) + 4]
    {
      pos := from;
      if mask != 1 {
        return;
      }
      maskingKey := msg[pos..pos + 4];
      pos := pos + 4;
    }

    method FetchPayload(msg: seq<int>, from: int) returns (pos: int)
      requires payload.Length == SIZE && |msg| == SIZE && Total(msg) <= SIZE
      requires from == PayloadAt(msg) && payloadLength == PayloadLen(msg) && (mask == 1 <==> Masked(msg))
      requires mask == 1 ==> maskingKey == msg[KeyAt(msg)..KeyAt(msg) + 4]
      modifies payload
      ensures pos == Total(msg) && payload[..payloadLength] == Payload(msg)
      ensures forall i :: 0 <= i < payloadLength ==>
        if mask == 1 then IsXor(payload[i], msg[PayloadAt(msg) + i], msg[KeyAt(msg) + i % 4])
        else payload[i] == msg[PayloadAt(msg) + i]
    {
      ClearPayload();
      var n := payloadLength;
      ghost var raw := msg[from..from + n];
      if mask != 1 {
        forall i | 0 <= i < n {
          payload[i] := msg[from + i];
        }
        assert payload[..n] == raw;
      } else {
        var key := maskingKey;
        ghost var clear := Unmask(key, raw);
        var i := 0;
        while i < n
          invariant 0 <= i <= n
          invariant payload[..i] == clear[..i]
          invariant forall k :: 0 <= k < i ==> IsXor(payload[k], msg[from + k], key[k % 4])
        {
          var j := i % 4;
          assert raw[i] == msg[from + i];
          payload[i] := Xor(msg[from + i], key[j]);
          XorIs(msg[from + i], key[j]);
          assert payload[..i + 1] == payload[..i] + [clear[i]];
          i := i + 1;
        }
        assert clear[..n] == clear;
      }
      pos := from + n;
    }

    /** fetch_websocket_info: the frame at the front of the buffer, and how long it is. A masked payload is unmasked bit by
        bit, each byte with the next of the key's four (RFC 6455 section 5.3). */
    method Fetch(msg: seq<int>) returns (pos: int)
      requires payload.Length == SIZE && |msg| == SIZE && Total(msg) <= SIZE
      modifies this, payload
      ensures pos == Total(msg)
      ensures fin == msg[0] / 128 && opcode == msg[0] % 16 && payloadLength == PayloadLen(msg)
      ensures payload[..payloadLength] == Payload(msg)
      ensures forall i :: 0 <= i < payloadLength ==>
        if Masked(msg) then IsXor(payload[i], msg[PayloadAt(msg) + i], msg[KeyAt(msg) + i % 4])
        else payload[i] == msg[PayloadAt(msg) + i]
    {
      pos := 0;
      fin := msg[pos] / 128;
      opcode := msg[pos] % 16;
      pos := pos + 1;
      mask := msg[pos] / 128;
      pos := FetchPayloadLength(msg, pos);
      pos := FetchMaskingKey(msg, pos);
      pos := FetchPayload(msg, pos);
    }
  }

  /** The scratch buffer after copying in what has arrived: behind it stale bytes remain. */
  function View(input: seq<int>, stale: seq<int>): (m: seq<int>)
    requires |stale| == SIZE
    ensures |m| == SIZE
  {
    if |input| >= SIZE then input[..SIZE] else input + stale[|input|..]
  }

  function Arrived(input: seq<int>): (n: nat)
    ensures n <= |input|
  {
    if |input| < SIZE then |input| else SIZE
  }

  class Websocket {
    const buf: array<int>
    const request: Request

    ghost predicate Valid()
      reads this, buf
    {
      buf.Length == SIZE && request.payload.Length == SIZE && buf != request.payload
    }

    constructor ()
      ensures Valid() && fresh(buf) && fresh(request) && fresh(request.payload)
    {
      var r := new Request();
      request := r;
      buf := new int[SIZE](_ => 0);
    }

    /**
     * handle_packet: -2 and nothing taken if the frame is not all there; otherwise the frame is taken from the
     * input, and if it is a final binary one its payload is at the front of the buffer.
     */
    method HandlePacket(input: seq<int>) returns (r: int, rest: seq<int>)
      requires Valid() && Total(View(input, buf[..])) <= SIZE
      modifies buf, request, request.payload
      ensures Valid()
      ensures var m := View(input, old(buf[..]));
        if Arrived(input) < Total(m) then r == -2 && rest == input
        else r == Outcome(m) && rest == input[Total(m)..] && (r > 0 ==> buf[..] == Payload(m) + m[r..])
    {
      var len := |input|;
      if SIZE < len {
        len := SIZE;
      }
      CopyOut(input, len);
      ghost var m := buf[..];
      request.Reset();
      var realLen := request.Fetch(buf[..]);
      if len < realLen {
        return -2, input;
      }
      rest := input[realLen..];
      if request.fin != 1 {
        return -1, rest;
      }
      if request.opcode != 2 {
        if request.opcode == 9 || request.opcode == 10 {
          return 0, rest;
        }
        return -1, rest;
      }
      r := request.payloadLength;
      if r > 0 {
        CopyPayload(r, m);
      }
    }

    /** send_msg: the bytes written to the connection; nothing if the packet is too long for a two-byte length. */
    method SendMsg(id: int, p: seq<int>) returns (out: seq<int>)
      requires AllBytes(p) && -0x8000 <= id < 0x8000
      ensures if |p| + 4 < 0x1_0000 then out == Sent(Message(id, p)) else out == []
    {
      var realLen := |p| + 4;
      if realLen < 126 {
        out := [130, realLen];
      } else if realLen < 65536 {
        out := [130, 126, realLen / 256, realLen % 256];
      } else {
        return [];
      }
      out := out + Bytes16(|p|) + Bytes16(id) + p;
    }

    /** evbuffer_copyout into the scratch buffer. */
    method CopyOut(input: seq<int>, len: nat)
      requires Valid() && len == Arrived(input)
      modifies buf
      ensures Valid() && buf[..] == View(input, old(buf[..]))
    {
      forall i | 0 <= i < len {
        buf[i] := input[i];
      }
    }

    method CopyPayload(n: int, ghost m: seq<int>)
      requires Valid() && m == buf[..] && Total(m) <= SIZE && n == PayloadLen(m)
      requires request.payload[..n] == Payload(m)
      modifies buf
      ensures buf[..] == Payload(m) + m[n..]
    {
      forall i | 0 <= i < n {
        buf[i] := request.payload[i];
      }
      assert buf[..n] == request.payload[..n];
      assert buf[n..] == m[n..];
      assert buf[..] == buf[..n] + buf[n..];
    }
  }

  /** What the scratch buffer shows of the input is what the input itself says, whatever stale bytes are in it. */
  lemma ViewSettles(input: seq<int>, stale: seq<int>, m: seq<int>, n: int)
    requires |stale| == SIZE && m == View(input, stale) && |input| >= 6 && n == Total(input)
    ensures Total(m) == n && Outcome(m) == Outcome(input) && PayloadLen(m) == PayloadLen(input)
    ensures n <= SIZE && n <= |input| ==> n <= Arrived(input) && Payload(m) == Payload(input) && Front(m) == Front(input)
    ensures n <= SIZE && |input| < n ==> Arrived(input) < n
  {
    assert m[..6] == input[..6];
    SixSettle(input, m);
    if n <= SIZE && n <= |input| {
      assert m[..n] == input[..n];
      FrameSettles(input, m, n);
    }
  }

  /** One connection: what has arrived and is not consumed yet, and the packets handed to the logic thread. */
  class Connection {
    const ws: Websocket
    var input: seq<int>
    var delivered: seq<Message>
    var open: bool

    constructor (ws: Websocket)
      ensures this.ws == ws && input == [] && delivered == [] && open
    {
      this.ws, input, delivered, open := ws, [], [], true;
    }

    /** The packet at the front of the buffer, if its length is right: 0 goes on, -1 closes, -2 gives up for now. */
    method TakePacket(packetLength: int) returns (r: int)
      requires ws.Valid() && 0 < packetLength < SIZE
      modifies `delivered
      ensures var b := ws.buf[..]; var len := Signed16(b[0], b[1]);
        if len < 0 || len > BODY then r == -1 && delivered == old(delivered)
        else if packetLength != len + 4 then r == -2 && delivered == old(delivered)
        else r == 0 && delivered == old(delivered) + [Message(Signed16(b[2], b[3]), b[4..packetLength])]
    {
      var len := Signed16(ws.buf[0], ws.buf[1]);
      var id := Signed16(ws.buf[2], ws.buf[3]);
      if !(0 <= len <= BODY) {
        return -1;
      }
      if packetLength != len + 4 {
        return -2;
      }
      delivered := delivered + [Message(id, ws.buf[4..4 + len])];
      r := 0;
    }

    /** One round of the loop: 0 goes on, -1 closes, -2 stops. */
    method OneRound() returns (r: int)
      requires ws.Valid() && |input| >= 6 && Round(input) != Stop(0, Overrun)
      modifies `input, `delivered, ws.buf, ws.request, ws.request.payload
      ensures ws.Valid()
      ensures match Round(old(input))
        case Wait => r == -2 && input == old(input) && delivered == old(delivered)
        case Skip(n) => r == 0 && n <= |old(input)| && input == old(input)[n..] && delivered == old(delivered)
        case Deliver(n, msg) =>
          r == 0 && n <= |old(input)| && input == old(input)[n..] && delivered == old(delivered) + [msg]
        case Stop(n, e) =>
          && r == (if e == Closed then -1 else -2)
          && n <= |old(input)| && input == old(input)[n..] && delivered == old(delivered)
    {
      ghost var was, m := input, View(input, ws.buf[..]);
      ViewSettles(input, ws.buf[..], m, Total(input));
      var packetLength, rest := ws.HandlePacket(input);
      if packetLength == -2 {
        return -2;
      }
      input := rest;
      if packetLength == 0 || packetLength == -1 {
        return packetLength;
      }
      FrontIs(m, ws.buf[..], packetLength);
      r := TakePacket(packetLength);
    }

    /** cb_read, after the handshake. */
    method OnRead(arrival: seq<int>)
      requires ws.Valid() && open
      requires Serve(input + arrival).ending != Overrun
      modifies this, ws.buf, ws.request, ws.request.payload
      ensures ws.Valid()
      ensures var s := Before(old(delivered), Serve(old(input) + arrival));
        delivered == s.items && input == s.rest && open == (s.ending != Closed)
    {
      input := input + arrival;
      ghost var goal := Before(delivered, Serve(input));
      while 6 <= |input|
        invariant ws.Valid() && open && goal.ending != Overrun
        invariant Before(delivered, Serve(input)) == goal
        decreases |input|
      {
        GoOn(delivered, input, goal);
        var r := OneRound();
        if r == -1 {
          open := false;
        }
        if r < 0 {
          return;
        }
      }
      GoOn(delivered, input, goal);
    }
  }

  /** The buffer after the payload was copied to its front. */
  lemma FrontIs(m: seq<int>, b: seq<int>, n: int)
    requires |m| == |b| == SIZE && Total(m) <= SIZE && n == PayloadLen(m) > 0 && b == Payload(m) + m[n..]
    ensures b[0] == Front(m)[0] && b[1] == Front(m)[1] && b[2] == Front(m)[2] && b[3] == Front(m)[3]
    ensures n >= 4 ==> b[4..n] == Payload(m)[4..]
  {
  }

  /** However the connection's stream is split into arrivals: at least the packets are delivered that would come of it at
      once, at most those behind every dropped packet too, and just the former if the stream is settled. */
  method ReadAll(c: Connection, arrivals: seq<seq<int>>)
    requires c.ws.Valid() && c.open && c.input == [] && c.delivered == []
    requires ServeAll(arrivals).ending != Overrun
    modifies c, c.ws.buf, c.ws.request, c.ws.request.payload
    ensures c.delivered == ServeAll(arrivals).items && c.open == (ServeAll(arrivals).ending != Closed)
    ensures c.open ==> c.input == ServeAll(arrivals).rest
    ensures Serve(Concat(arrivals)).items <= c.delivered <= ServeThrough(Concat(arrivals)).items
    ensures Settled(Concat(arrivals)) ==> c.delivered == Serve(Concat(arrivals)).items
    ensures Serve(Concat(arrivals)).ending == Waiting ==> c.open && c.input == Serve(Concat(arrivals)).rest
    ensures Serve(Concat(arrivals)).ending == Closed ==> !c.open
  {
    ghost var r := Start();
    var i := 0;
    RoundIsSteady();
    assert arrivals[0..] == arrivals;
    while i < |arrivals| && c.open
      invariant 0 <= i <= |arrivals| && c.ws.Valid()
      invariant Steady(Round) && Onwards(Round, r, arrivals[i..]) == ServeAll(arrivals)
      invariant r.items == c.delivered && (c.open ==> r.rest == c.input)
      invariant if c.open then Resumes(r.ending) else r.ending == Closed
      decreases |arrivals| - i
    {
      assert arrivals[i..][1..] == arrivals[i + 1..];
      r := Arrive(Round, r, arrivals[i]);
      if !Resumes(r.ending) {
        StoppedForGood(r, arrivals[i + 1..]);
      }
      c.OnRead(arrivals[i]);
      i := i + 1;
    }
    if !c.open {
      StoppedForGood(r, arrivals[i..]);
    }
    Between(arrivals, Concat(arrivals));
  }

  /** Nothing comes of what arrives after the loop has stopped for good. */
  lemma {:induction false} StoppedForGood(r: Result<Message>, arrivals: seq<seq<int>>)
    requires Steady(Round) && !Resumes(r.ending)
    ensures Onwards(Round, r, arrivals).items == r.items && Onwards(Round, r, arrivals).ending == r.ending
    decreases |arrivals|
  {
    if arrivals != [] {
      StoppedForGood(Unread(r, arrivals[0]), arrivals[1..]);
    }
  }

  /** Of a stream of frames exactly the packets of the frames that have wholly arrived are delivered, and only bytes of the
      next frame are kept. */
  method ReadFrames(c: Connection, arrivals: seq<seq<int>>, ghost fs: seq<Frame>)
    requires c.ws.Valid() && c.open && c.input == [] && c.delivered == []
    requires FramesOk(fs) && Concat(arrivals) <= Concat(Pieces(fs))
    modifies c, c.ws.buf, c.ws.request, c.ws.request.payload
    ensures c.open && c.delivered == Messages(fs)[..Whole(Sizes(Pieces(fs)), |Concat(arrivals)|)]
    ensures |c.input| == Left(Sizes(Pieces(fs)), |Concat(arrivals)|)
    ensures Concat(arrivals) == Concat(Pieces(fs)) ==> c.delivered == Messages(fs) && c.input == []
  {
    FramesServed(fs, Concat(arrivals));
    Between(arrivals, Concat(arrivals));
    ReadAll(c, arrivals);
  }
}
