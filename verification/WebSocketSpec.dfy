/** WebSocket frames as the server reads them, and as a client lays them out (RFC 6455 sections 5.2 and 5.3). */
module WebSocketSpec {
  import opened ByteStream
  import opened InPieces

  /** The scratch buffer and the payload buffer are both this long. */
  const SIZE: nat := 2048

  /** The longest packet body. */
  const BODY: nat := 512

  ghost predicate AllBytes(s: seq<int>)
  {
    forall i :: 0 <= i < |s| ==> 0 <= s[i] < 256
  }

  function Pow2(n: nat): (p: int)
    ensures p >= 1
  {
    if n == 0 then 1 else 2 * Pow2(n - 1)
  }

  /** Exclusive or of the lowest `n` bits. */
  function XorBits(a: int, b: int, n: nat): (r: int)
    ensures 0 <= r < Pow2(n)
    decreases n
  {
    if n == 0 then 0 else 2 * XorBits(a / 2, b / 2, n - 1) + if a % 2 == b % 2 then 0 else 1
  }

  lemma {:induction false} XorBitsBack(a: int, b: int, n: nat)
    requires 0 <= a < Pow2(n)
    ensures XorBits(XorBits(a, b, n), b, n) == a
    decreases n
  {
    if n > 0 {
      var r := XorBits(a, b, n);
      assert r / 2 == XorBits(a / 2, b / 2, n - 1) && (r % 2 == b % 2 <==> a % 2 == 0);
      XorBitsBack(a / 2, b / 2, n - 1);
    }
  }

  const BITS: nat := 8

  lemma ByteBits()
    ensures Pow2(BITS) == 256
  {
    assert Pow2(4) == 16;
  }

  function Xor(a: int, b: int): (r: int)
    ensures 0 <= r < 256
  {
    ByteBits();
    XorBits(a, b, BITS)
  }

  lemma XorBack(a: int, b: int)
    requires 0 <= a < 256
    ensures Xor(Xor(a, b), b) == a
  {
    ByteBits();
    XorBitsBack(a, b, BITS);
  }

  /** Bit `i` of a number, from the lowest on. */
  predicate Bit(x: int, i: nat)
    decreases i
  {
    if i == 0 then x % 2 == 1 else Bit(x / 2, i - 1)
  }

  lemma {:induction false} XorBitsAt(a: int, b: int, n: nat, i: nat)
    requires i < n
    ensures Bit(XorBits(a, b, n), i) <==> (Bit(a, i) != Bit(b, i))
    decreases n
  {
    if i > 0 {
      assert XorBits(a, b, n) / 2 == XorBits(a / 2, b / 2, n - 1);
      XorBitsAt(a / 2, b / 2, n - 1, i - 1);
    }
  }

  /** Every bit of the exclusive or is set where the two differ. */
  ghost predicate IsXor(x: int, a: int, b: int)
  {
    0 <= x < 256 && forall i: nat {:trigger Bit(x, i)} :: i < 8 ==> (Bit(x, i) <==> (Bit(a, i) != Bit(b, i)))
  }

  lemma XorIs(a: int, b: int)
    ensures IsXor(Xor(a, b), a, b)
  {
    forall i: nat | i < 8
      ensures Bit(Xor(a, b), i) <==> (Bit(a, i) != Bit(b, i))
    {
      XorBitsAt(a, b, BITS, i);
    }
  }

  /** No two bytes have the same bits. */
  lemma {:induction false} BitsDetermine(x: int, y: int, n: nat)
    requires 0 <= x < Pow2(n) && 0 <= y < Pow2(n) && forall i: nat {:trigger Bit(x, i)} :: i < n ==> (Bit(x, i) <==> Bit(y, i))
    ensures x == y
    decreases n
  {
    if n > 0 {
      assert Bit(x, 0) <==> Bit(y, 0);
      forall i: nat | i < n - 1
        ensures Bit(x / 2, i) <==> Bit(y / 2, i)
      {
        assert Bit(x, i + 1) <==> Bit(y, i + 1);
      }
      BitsDetermine(x / 2, y / 2, n - 1);
    }
  }

  /** So these bits say which byte it is. */
  lemma XorUnique(x: int, y: int, a: int, b: int)
    requires IsXor(x, a, b) && IsXor(y, a, b)
    ensures x == y
  {
    ByteBits();
    forall i: nat | i < BITS
      ensures Bit(x, i) <==> Bit(y, i)
    {
    }
    BitsDetermine(x, y, BITS);
  }

  // ---------- Reading ----------

  /** The payload length of a frame header: seven bits, or one of the two wider forms. */
  function Declared(m: seq<int>): int
    requires |m| >= 6
  {
    var short := m[1] % 128;
    if short == 126 then m[2] * 256 + m[3]
    else if short == 127 then Signed32(m[2], m[3], m[4], m[5])
    else short
  }

  function Signed32(a: int, b: int, c: int, d: int): int
  {
    var w := ((a * 256 + b) * 256 + c) * 256 + d;
    if w < 0x8000_0000 then w else w - 0x1_0000_0000
  }

  /** A length that does not fit the payload buffer is read as none. */
  function PayloadLen(m: seq<int>): (n: int)
    requires |m| >= 6
    ensures 0 <= n < SIZE
  {
    if 0 <= Declared(m) < SIZE then Declared(m) else 0
  }

  predicate Masked(m: seq<int>)
    requires |m| >= 6
  {
    m[1] / 128 == 1
  }

  function KeyAt(m: seq<int>): (k: int)
    requires |m| >= 6
    ensures 2 <= k <= 6
  {
    var short := m[1] % 128;
    if short == 126 then 4 else if short == 127 then 6 else 2
  }

  function PayloadAt(m: seq<int>): (k: int)
    requires |m| >= 6
    ensures 2 <= k <= 10
  {
    if Masked(m) then KeyAt(m) + 4 else KeyAt(m)
  }

  /** How long the whole frame is. */
  function Total(m: seq<int>): (n: int)
    requires |m| >= 6
    ensures 2 <= n < SIZE + 10
  {
    PayloadAt(m) + PayloadLen(m)
  }

  function Unmask(key: seq<int>, s: seq<int>): (r: seq<int>)
    requires |key| == 4
    ensures |r| == |s| && AllBytes(r)
  {
    seq(|s|, i requires 0 <= i < |s| => Xor(s[i], key[i % 4]))
  }

  lemma UnmaskBack(key: seq<int>, s: seq<int>)
    requires |key| == 4 && AllBytes(s)
    ensures Unmask(key, Unmask(key, s)) == s
  {
    forall i | 0 <= i < |s|
      ensures Unmask(key, Unmask(key, s))[i] == s[i]
    {
      XorBack(s[i], key[i % 4]);
    }
  }

  function Payload(m: seq<int>): seq<int>
    requires |m| >= 6 && Total(m) <= |m|
    ensures |Payload(m)| == PayloadLen(m)
  {
    var raw := m[PayloadAt(m)..Total(m)];
    if Masked(m) then Unmask(m[KeyAt(m)..KeyAt(m) + 4], raw) else raw
  }

  /** What handling a complete frame comes to: a payload, nothing to deliver (0), or a connection to close (-1). */
  function Outcome(m: seq<int>): int
    requires |m| >= 6
  {
    if m[0] / 128 != 1 then -1
    else if m[0] % 16 == 2 then PayloadLen(m)
    else if m[0] % 16 == 9 || m[0] % 16 == 10 then 0
    else -1
  }

  /** Of final frames binary ones are handed on, ping and pong are passed over, and everything else, a close frame among it,
      ends the connection, as does a frame that is not final (opcodes of RFC 6455 section 5.2). */
  lemma Opcodes(m: seq<int>)
    requires |m| >= 6 && 0 <= m[0] < 256
    ensures m[0] < 128 ==> Outcome(m) == -1
    ensures 0x80 <= m[0] && m[0] % 16 == 0x2 ==> Outcome(m) == PayloadLen(m) >= 0
    ensures 0x80 <= m[0] && m[0] % 16 in {0x9, 0xa} ==> Outcome(m) == 0
    ensures 0x80 <= m[0] && m[0] % 16 in {0x0, 0x1, 0x3, 0x4, 0x5, 0x6, 0x7, 0x8, 0xb, 0xc, 0xd, 0xe, 0xf} ==> Outcome(m) == -1
  {
  }

  /** A frame of 256 bytes (RFC 6455 section 5.7), and one with a four-byte length as the code reads it. */
  lemma LongLengths(m: seq<int>)
    requires |m| >= 6
    ensures m[..4] == [0x82, 0x7e, 0x01, 0x00] ==> !Masked(m) && KeyAt(m) == 4 && Declared(m) == 256 && Total(m) == 260
    ensures m[..6] == [0x82, 0xff, 0x00, 0x00, 0x01, 0x02] ==> Masked(m) && KeyAt(m) == 6 && Declared(m) == 258 && Total(m) == 268
    ensures m[..6] == [0x82, 0x7f, 0xff, 0xff, 0xff, 0xff] ==> Declared(m) == -1 && PayloadLen(m) == 0
  {
    if m[..4] == [0x82, 0x7e, 0x01, 0x00] {
      assert m[0] == m[..4][0] && m[1] == m[..4][1] && m[2] == m[..4][2] && m[3] == m[..4][3];
    }
    assert m[0] == m[..6][0] && m[1] == m[..6][1] && m[2] == m[..6][2] && m[3] == m[..6][3] && m[4] == m[..6][4] && m[5] == m[..6][5];
  }

  // ---------- Writing ----------

  datatype Message = Message(id: int, body: seq<int>)

  /** A masked, final, binary frame around one packet; `first` also holds the reserved bits. */
  datatype Frame = Frame(first: int, wide: bool, key: seq<int>, msg: Message)

  ghost predicate FrameOk(f: Frame)
  {
    && 128 <= f.first < 256 && f.first % 16 == 2
    && |f.key| == 4 && AllBytes(f.key)
    && |f.msg.body| <= BODY && AllBytes(f.msg.body)
    && -0x8000 <= f.msg.id < 0x8000
    && (|f.msg.body| + 4 >= 126 ==> f.wide)
  }

  function Unsigned16(n: int): int
  {
    if n < 0 then n + 0x1_0000 else n
  }

  function Signed16(a: int, b: int): int
  {
    if a * 256 + b < 0x8000 then a * 256 + b else a * 256 + b - 0x1_0000
  }

  function Bytes16(n: int): (r: seq<int>)
    requires -0x8000 <= n < 0x1_0000
    ensures |r| == 2 && AllBytes(r)
    ensures n < 0x8000 ==> Signed16(r[0], r[1]) == n
    ensures 0 <= n ==> r[0] * 256 + r[1] == n
  {
    [Unsigned16(n) / 256, Unsigned16(n) % 256]
  }

  /** Length and number of a packet, then its body. */
  function Packet(msg: Message): (r: seq<int>)
    requires |msg.body| + 4 < 0x1_0000 && AllBytes(msg.body) && -0x8000 <= msg.id < 0x8000
    ensures |r| == |msg.body| + 4 && AllBytes(r) && r[4..] == msg.body
    ensures |msg.body| < 0x8000 ==> Signed16(r[0], r[1]) == |msg.body|
    ensures Signed16(r[2], r[3]) == msg.id
  {
    Bytes16(|msg.body|) + Bytes16(msg.id) + msg.body
  }

  /** Length, then number, each with its high byte first. */
  lemma PacketBytes(b: int)
    requires 0 <= b < 256
    ensures Packet(Message(0x0102, [b])) == [0, 1, 1, 2, b]
    ensures Packet(Message(-2, [])) == [0, 0, 0xff, 0xfe]
  {
  }

  function Head(f: Frame): (r: seq<int>)
    requires FrameOk(f)
    ensures |r| == (if f.wide then 4 else 2) && AllBytes(r)
    ensures r[0] == f.first && r[1] == 128 + (if f.wide then 126 else |f.msg.body| + 4)
    ensures f.wide ==> r[2] * 256 + r[3] == |f.msg.body| + 4
  {
    var n := |f.msg.body| + 4;
    if f.wide then [f.first, 254] + Bytes16(n) else [f.first, 128 + n]
  }

  function Encode(f: Frame): (r: seq<int>)
    requires FrameOk(f)
    ensures 10 <= |r| <= SIZE && AllBytes(r)
  {
    Head(f) + f.key + Unmask(f.key, Packet(f.msg))
  }

  lemma EncodeParts(f: Frame, e: seq<int>, h: int)
    requires FrameOk(f) && e == Encode(f) && h == |Head(f)|
    ensures |e| == h + 4 + |f.msg.body| + 4 && e[..h] == Head(f)
    ensures e[h..h + 4] == f.key && e[h + 4..] == Unmask(f.key, Packet(f.msg))
  {
  }

  ghost predicate FramesOk(fs: seq<Frame>)
  {
    forall i :: 0 <= i < |fs| ==> FrameOk(fs[i])
  }

  // ---------- Reading what was written ----------

  lemma HeadSettles(f: Frame, m: seq<int>)
    requires FrameOk(f) && |m| >= 6
    requires forall i :: 0 <= i < |Head(f)| ==> m[i] == Head(f)[i]
    ensures Masked(m) && KeyAt(m) == |Head(f)| && PayloadLen(m) == |f.msg.body| + 4
    ensures Total(m) == |Head(f)| + 4 + |f.msg.body| + 4
    ensures Outcome(m) == |f.msg.body| + 4
  {
  }

  /** The first six bytes of a frame settle how long it is, whatever follows them. */
  lemma LengthSettled(f: Frame, m: seq<int>)
    requires FrameOk(f) && |m| >= 6 && m[..6] == Encode(f)[..6]
    ensures Total(m) == |Encode(f)| && Masked(m) && KeyAt(m) == |Head(f)| && Outcome(m) == |f.msg.body| + 4
  {
    var e, h := Encode(f), |Head(f)|;
    EncodeParts(f, e, h);
    forall i | 0 <= i < h
      ensures m[i] == Head(f)[i]
    {
      assert m[i] == m[..6][i] && e[i] == e[..6][i] && e[i] == e[..h][i];
    }
    HeadSettles(f, m);
  }

  lemma SlicesOf(m: seq<int>, e: seq<int>, h: int)
    requires e <= m && 0 <= h && h + 4 <= |e|
    ensures m[h..h + 4] == e[h..h + 4] && m[h + 4..|e|] == e[h + 4..]
  {
  }

  /** A whole frame reads back as the packet it was made around. */
  lemma FrameBack(f: Frame, m: seq<int>, e: seq<int>)
    requires FrameOk(f) && e == Encode(f) && e <= m
    ensures Total(m) == |e| && Payload(m) == Packet(f.msg)
    ensures Outcome(m) == |f.msg.body| + 4
  {
    var h := |Head(f)|;
    assert m[..6] == e[..6];
    LengthSettled(f, m);
    EncodeParts(f, e, h);
    SlicesOf(m, e, h);
    PayloadIs(m, f.key, Unmask(f.key, Packet(f.msg)));
    UnmaskBack(f.key, Packet(f.msg));
  }

  lemma PayloadIs(m: seq<int>, key: seq<int>, raw: seq<int>)
    requires |m| >= 6 && Total(m) <= |m| && Masked(m) && |key| == 4
    requires m[KeyAt(m)..KeyAt(m) + 4] == key && m[PayloadAt(m)..Total(m)] == raw
    ensures Payload(m) == Unmask(key, raw)
  {
  }

  // ---------- What the server sends ----------

  /** An unmasked, final, binary frame around a packet. */
  function Sent(msg: Message): (r: seq<int>)
    requires |msg.body| + 4 < 0x1_0000 && AllBytes(msg.body) && -0x8000 <= msg.id < 0x8000
    ensures |r| >= 6
  {
    var n := |msg.body| + 4;
    (if n < 126 then [130, n] else [130, 126] + Bytes16(n)) + Packet(msg)
  }

  /** By the rules for reading a frame the packet is there again, unmasked and whole. */
  lemma SentBack(msg: Message, e: seq<int>, m: seq<int>)
    requires |msg.body| + 4 < 0x1_0000 && AllBytes(msg.body) && -0x8000 <= msg.id < 0x8000
    requires e == Sent(msg) && e <= m
    ensures m[0] / 128 == 1 && m[0] % 16 == 2 && !Masked(m) && Declared(m) == |msg.body| + 4
    ensures |e| == KeyAt(m) + Declared(m) && m[KeyAt(m)..|e|] == Packet(msg)
  {
    assert m[..|e|] == e;
    assert m[KeyAt(m)..|e|] == e[KeyAt(m)..];
  }

  // ---------- The packets of a stream ----------

  /** The scratch buffer's front when a packet has been put there: a payload shorter than a head leaves frame bytes. */
  function Front(m: seq<int>): (r: seq<int>)
    requires |m| >= 6 && Total(m) <= |m|
    ensures |r| == 4
  {
    var p := Payload(m);
    if |p| >= 4 then p[..4] else p + m[|p|..4]
  }

  /** What comes of a complete binary frame: a message, or the reason to stop. */
  function Packed(m: seq<int>): Step<Message>
    requires |m| >= 6 && Total(m) <= |m|
  {
    var h := Front(m);
    var len := Signed16(h[0], h[1]);
    if len < 0 || len > BODY then Stop(Total(m), Closed)
    else if PayloadLen(m) != len + 4 then Stop(Total(m), Dropped)
    else Deliver(Total(m), Message(Signed16(h[2], h[3]), Payload(m)[4..]))
  }

  /** One round of the frame-consuming loop, on the bytes alone. */
  function Round(m: seq<int>): Step<Message>
  {
    if |m| < 6 then Wait
    else if Total(m) > SIZE then Stop(0, Overrun)
    else if |m| < Total(m) then Wait
    else if Outcome(m) == 0 then Skip(Total(m))
    else if Outcome(m) < 0 then Stop(Total(m), Closed)
    else Packed(m)
  }

  /** Everything about a frame's extent is in its first six bytes. */
  lemma SixSettle(m: seq<int>, m': seq<int>)
    requires |m| >= 6 && |m'| >= 6 && m[..6] == m'[..6]
    ensures Total(m) == Total(m') && Outcome(m) == Outcome(m') && PayloadLen(m) == PayloadLen(m')
    ensures KeyAt(m) == KeyAt(m') && PayloadAt(m) == PayloadAt(m') && Masked(m) == Masked(m')
  {
    assert forall i :: 0 <= i < 6 ==> m[i] == m[..6][i] == m'[i];
  }

  /** A complete frame is read the same whatever follows it. */
  lemma FrameSettles(m: seq<int>, m': seq<int>, n: int)
    requires |m| >= 6 && |m'| >= 6 && m[..6] == m'[..6]
    requires n == Total(m) && n <= |m| && n <= |m'| && m[..n] == m'[..n]
    ensures Total(m') == n && Payload(m) == Payload(m') && Front(m) == Front(m')
  {
    SixSettle(m, m');
    var k, a := KeyAt(m), PayloadAt(m);
    assert m[a..n] == m[..n][a..] == m'[a..n];
    if Masked(m) {
      assert m[k..k + 4] == m[..n][k..k + 4] == m'[k..k + 4];
    }
    assert m[..4] == m[..6][..4] == m'[..4];
    var p := Payload(m);
    if |p| < 4 {
      assert m[|p|..4] == m[..4][|p|..] == m'[|p|..4];
    }
  }

  /** Bytes that come after leave a frame that is all there as it is. */
  lemma RoundIsSteady()
    ensures Steady(Round)
  {
    forall m, b
      ensures SteadyAt(Round, m, b)
    {
      RoundSteadyAt(m, b, m + b);
    }
  }

  lemma RoundSteadyAt(m: seq<int>, b: seq<int>, c: seq<int>)
    requires c == m + b
    ensures SteadyAt(Round, m, b)
  {
    if |m| >= 6 {
      assert c[..6] == m[..6];
      SixSettle(m, c);
      var n := Total(m);
      if n <= |m| {
        assert m[..n] == c[..n];
        FrameSettles(m, c, n);
      }
    }
  }

  /** What is left behind a frame as soon as it is there is shorter than the six bytes every round waits for. */
  lemma RoundIsPrompt()
    ensures Prompt(Round)
  {
    forall m, x
      ensures PromptAt(Round, m, x)
    {
      RoundPromptAt(m, x, m + [x]);
    }
  }

  lemma RoundPromptAt(m: seq<int>, x: int, c: seq<int>)
    requires c == m + [x]
    ensures PromptAt(Round, m, x)
  {
    if |m| >= 6 {
      assert c[..6] == m[..6];
      SixSettle(m, c);
    }
  }

  /** The whole frame-consuming loop. */
  ghost function Serve(m: seq<int>): Result<Message>
  {
    RoundIsSteady();
    Served(Round, m)
  }

  /** One round, and what is still to come of the rest. */
  lemma GoOn(done: seq<Message>, m: seq<int>, goal: Result<Message>)
    requires Before(done, Serve(m)) == goal
    ensures match Round(m)
      case Wait => goal == Result(done, m, Waiting)
      case Skip(n) => 0 < n <= |m| && Before(done, Serve(m[n..])) == goal
      case Deliver(n, msg) => 0 < n <= |m| && Before(done + [msg], Serve(m[n..])) == goal
      case Stop(n, e) => n <= |m| && goal == Result(done, m[n..], e) && e != Waiting
  {
    RoundIsSteady();
    assert SteadyAt(Round, m, []);
    match Round(m)
    case Wait =>
    case Skip(n) =>
    case Deliver(n, msg) => BeforeTwice(done, [msg], Served(Round, m[n..]));
    case Stop(n, e) =>
  }

  // ---------- A stream of frames ----------

  ghost function Pieces(fs: seq<Frame>): (r: seq<seq<int>>)
    requires FramesOk(fs)
    ensures |r| == |fs|
  {
    seq(|fs|, i requires 0 <= i < |fs| => Encode(fs[i]))
  }

  function Messages(fs: seq<Frame>): (r: seq<Message>)
    ensures |r| == |fs|
  {
    seq(|fs|, i requires 0 <= i < |fs| => fs[i].msg)
  }

  lemma HeadOfPacket(f: Frame, m: seq<int>, p: seq<int>)
    requires FrameOk(f) && |m| >= 6 && Total(m) <= |m| && Payload(m) == p == Packet(f.msg)
    ensures Packed(m) == Deliver(Total(m), f.msg)
  {
    assert p[..4][0] == p[0] && p[..4][1] == p[1] && p[..4][2] == p[2] && p[..4][3] == p[3];
  }

  /** A frame makes its packet; the incomplete frame is waited for, whatever stale bytes are behind it. */
  lemma FrameMakes(f: Frame, e: seq<int>)
    requires FrameOk(f) && e == Encode(f)
    ensures Makes(Round, e, f.msg)
  {
    forall m | e <= m
      ensures Round(m) == Deliver(|e|, f.msg)
    {
      FrameBack(f, m, e);
      HeadOfPacket(f, m, Payload(m));
    }
    forall m | m <= e && |m| < |e|
      ensures Round(m) == Wait
    {
      if |m| >= 6 {
        assert m[..6] == e[..6];
        LengthSettled(f, m);
      }
    }
  }

  lemma FramesMake(fs: seq<Frame>)
    requires FramesOk(fs)
    ensures AllMake(Round, Pieces(fs), Messages(fs))
  {
    forall i | 0 <= i < |fs|
      ensures Makes(Round, Pieces(fs)[i], Messages(fs)[i])
    {
      FrameMakes(fs[i], Encode(fs[i]));
    }
  }

  /** What has been delivered and what is left, once `m` of the stream has arrived. */
  lemma FramesServed(fs: seq<Frame>, m: seq<int>)
    requires FramesOk(fs) && m <= Concat(Pieces(fs))
    ensures Serve(m).items == Messages(fs)[..Whole(Sizes(Pieces(fs)), |m|)]
    ensures |Serve(m).rest| == Left(Sizes(Pieces(fs)), |m|)
    ensures Serve(m).ending == Waiting
    ensures m == Concat(Pieces(fs)) ==> Serve(m).items == Messages(fs) && Serve(m).rest == []
  {
    RoundIsSteady();
    FramesMake(fs);
    var pieces, msgs := Pieces(fs), Messages(fs);
    PiecesServed(Round, pieces, msgs, Sizes(pieces), m);
    if m == Concat(pieces) {
      forall i | 0 <= i < |pieces|
        ensures pieces[i] != []
      {
        assert Makes(Round, pieces[i], msgs[i]);
      }
      WholePieces(pieces);
    }
  }

  // ---------- A stream in parts ----------

  /** What comes of a stream in these arrivals. */
  ghost function ServeAll(arrivals: seq<seq<int>>): Result<Message>
  {
    RoundIsSteady();
    Arrivals(Round, arrivals)
  }

  /** What would come of it if no wrong length ever stopped a round. */
  ghost function ServeThrough(m: seq<int>): Result<Message>
  {
    RoundIsSteady();
    Through(Round, m)
  }

  /** Behind a packet of a wrong length that ends the serving no message would have come. */
  ghost predicate Settled(m: seq<int>)
  {
    Serve(m).ending != Dropped || ServeThrough(Serve(m).rest).items == []
  }

  /** Every split of a stream delivers the same messages if and only if it is settled. */
  lemma EverySplitIff(m: seq<int>)
    ensures (forall arrivals :: SplitOf(arrivals, m) ==> ServeAll(arrivals).items == Serve(m).items) <==> Settled(m)
  {
    RoundIsSteady();
    RoundIsPrompt();
    assert Round([]) == Wait;
    EverySplitAgreesIff(Round, m);
    assert forall arrivals :: ServeAll(arrivals) == Arrivals(Round, arrivals);
  }

  /** Any split delivers at least what comes at once and at most what comes past every dropped packet. */
  lemma Between(arrivals: seq<seq<int>>, m: seq<int>)
    requires m == Concat(arrivals)
    ensures Serve(m).items <= ServeAll(arrivals).items <= ServeThrough(m).items
    ensures Serve(m).ending != Dropped ==> ServeAll(arrivals) == Serve(m)
    ensures Settled(m) ==> ServeAll(arrivals).items == Serve(m).items
  {
    RoundIsSteady();
    assert Round([]) == Wait;
    ArrivalsBetween(Round, arrivals, m);
    GoneThrough(Round, m);
    assert Serve(m).items + [] == Serve(m).items;
  }

  /** A binary frame around four bytes that announce a packet of nine more. */
  function WrongLength(): seq<int>
  {
    [130, 4, 0, 9, 0, 1]
  }

  lemma WrongLengthIsDropped(m: seq<int>)
    requires WrongLength() <= m
    ensures Round(m) == Stop(6, Dropped)
  {
    assert m[0] == 130 && m[1] == 4 && m[2] == 0 && m[3] == 9 && m[4] == 0 && m[5] == 1;
    assert Payload(m) == m[2..6];
  }

  lemma WrongLengthAlways(w: seq<int>)
    requires w == WrongLength()
    ensures forall m :: w <= m ==> Round(m) == Stop(|w|, Dropped)
  {
    forall m | w <= m
      ensures Round(m) == Stop(|w|, Dropped)
    {
      WrongLengthIsDropped(m);
    }
  }

  /** Such a frame makes it matter how the stream is split: a whole frame behind it is delivered if it arrives by itself,
      and left lying if both arrive together. */
  lemma WrongLengthDefers(f: Frame, e: seq<int>, w: seq<int>)
    requires FrameOk(f) && e == Encode(f) && w == WrongLength()
    ensures Serve(w + e) == Result([], e, Dropped)
    ensures ServeAll([w, e]).items == [f.msg]
  {
    RoundIsSteady();
    WrongLengthAlways(w);
    FrameMakes(f, e);
    assert Round([]) == Wait;
    DropThenItem(Round, w, e, f.msg);
  }
}
