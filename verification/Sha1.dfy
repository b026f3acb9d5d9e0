/** The SHA-1 object of the engine: input in pieces of any size, and the digest of what was put in. */
module Sha1 {
  import opened InPieces
  import opened Sha1Spec

  class SHA1 {
    var h: Regs
    var lengthLow: nat
    var lengthHigh: nat
    const block: array<Byte>
    var index: nat
    var computed: bool
    var corrupted: bool

    /** Everything put in since the last reset. */
    ghost var msg: seq<Byte>

    /** How many whole blocks of it have been absorbed. */
    ghost var blocks: nat

    /** Of `data`, the blocks `done` are in the registers and the rest is held in the block. */
    ghost predicate Holds(done: seq<Byte>, data: seq<Byte>)
      reads `h, `index, block
    {
      block.Length == 64 && index <= 64 && data == done + block[..index] && h == Fold(INITIAL, done)
    }

    /** Before the digest is asked for: whole blocks are in the registers, the rest is in the block. */
    ghost predicate Open()
      reads this, block
    {
      && block.Length == 64 && index < 64 && lengthLow < TWO32 && lengthHigh < TWO32
      && lengthHigh * TWO32 + lengthLow == 8 * |msg|
      && |msg| == 64 * blocks + index && Holds(msg[..64 * blocks], msg)
    }

    ghost predicate Valid()
      reads this, block
    {
      block.Length == 64 && (!corrupted ==> if computed then h == Digest(msg) else Open())
    }

    constructor ()
      ensures Valid() && !corrupted && !computed && msg == [] && fresh(block)
    {
      block := new Byte[64];
      h, lengthLow, lengthHigh, index := INITIAL, 0, 0, 0;
      computed, corrupted, msg, blocks := false, false, [], 0;
    }

    /** ProcessMessageBlock. */
    method ProcessMessageBlock()
      requires block.Length == 64
      modifies `h, `index
      ensures h == Compress(old(h), block[..]) && index == 0
    {
      var w := new Word[80];
      FirstWords(w);
      OtherWords(w);
      ghost var ws := Schedule(block[..]);
      var r := Rounds0(w, ws, h, h);
      r := Rounds20(w, ws, r, h);
      r := Rounds40(w, ws, r, h);
      r := Rounds60(w, ws, r, h);
      assert ws[..80] == ws;
      h := AddRegs(h, r);
      index := 0;
    }

    method FirstWords(w: array<Word>)
      requires block.Length == 64 && w.Length == 80
      modifies w
      ensures forall i :: 0 <= i < 16 ==> w[i] == W(block[..], i)
    {
      ghost var b := block[..];
      var t := 0;
      while t < 16
        invariant 0 <= t <= 16 && b == block[..] && forall i :: 0 <= i < t ==> w[i] == W(b, i)
      {
        w[t] := ((block[4 * t] as Word) << 24) | ((block[4 * t + 1] as Word) << 16)
                | ((block[4 * t + 2] as Word) << 8) | (block[4 * t + 3] as Word);
        t := t + 1;
      }
    }

    method OtherWords(w: array<Word>)
      requires block.Length == 64 && w.Length == 80 && forall i :: 0 <= i < 16 ==> w[i] == W(block[..], i)
      modifies w
      ensures w[..] == Schedule(block[..])
    {
      ghost var b := block[..];
      var t := 16;
      while t < 80
        invariant 16 <= t <= 80 && b == block[..] && forall i :: 0 <= i < t ==> w[i] == W(b, i)
      {
        w[t] := Mix(w[t - 3], w[t - 8], w[t - 14], w[t - 16]);
        t := t + 1;
      }
    }

    /** The four stages of rounds, each with its own function and constant. */
    method Rounds0(w: array<Word>, ghost ws: seq<Word>, start: Regs, ghost h0: Regs) returns (r: Regs)
      requires w.Length == 80 && w[..] == ws && start == Rounds(ws[..0], h0)
      ensures r == Rounds(ws[..20], h0)
    {
      r := start;
      var t := 0;
      while t < 20
        invariant 0 <= t <= 20 && r == Rounds(ws[..t], h0)
      {
        RoundsStep(ws, t, h0);
        Stage0(t, r.b, r.c, r.d);
        var temp := Sum(r.a, Choose(r.b, r.c, r.d), r.e, w[t], 0x5A827999);
        r := Shift(temp, r);
        t := t + 1;
      }
    }

    method Rounds20(w: array<Word>, ghost ws: seq<Word>, start: Regs, ghost h0: Regs) returns (r: Regs)
      requires w.Length == 80 && w[..] == ws && start == Rounds(ws[..20], h0)
      ensures r == Rounds(ws[..40], h0)
    {
      r := start;
      var t := 20;
      while t < 40
        invariant 20 <= t <= 40 && r == Rounds(ws[..t], h0)
      {
        RoundsStep(ws, t, h0);
        Stage20(t, r.b, r.c, r.d);
        var temp := Sum(r.a, Parity(r.b, r.c, r.d), r.e, w[t], 0x6ED9EBA1);
        r := Shift(temp, r);
        t := t + 1;
      }
    }

    method Rounds40(w: array<Word>, ghost ws: seq<Word>, start: Regs, ghost h0: Regs) returns (r: Regs)
      requires w.Length == 80 && w[..] == ws && start == Rounds(ws[..40], h0)
      ensures r == Rounds(ws[..60], h0)
    {
      r := start;
      var t := 40;
      while t < 60
        invariant 40 <= t <= 60 && r == Rounds(ws[..t], h0)
      {
        RoundsStep(ws, t, h0);
        Stage40(t, r.b, r.c, r.d);
        var temp := Sum(r.a, Majority(r.b, r.c, r.d), r.e, w[t], 0x8F1BBCDC);
        r := Shift(temp, r);
        t := t + 1;
      }
    }

    method Rounds60(w: array<Word>, ghost ws: seq<Word>, start: Regs, ghost h0: Regs) returns (r: Regs)
      requires w.Length == 80 && w[..] == ws && start == Rounds(ws[..60], h0)
      ensures r == Rounds(ws[..80], h0)
    {
      r := start;
      var t := 60;
      while t < 80
        invariant 60 <= t <= 80 && r == Rounds(ws[..t], h0)
      {
        RoundsStep(ws, t, h0);
        Stage60(t, r.b, r.c, r.d);
        var temp := Sum(r.a, Parity(r.b, r.c, r.d), r.e, w[t], 0xCA62C1D6);
        r := Shift(temp, r);
        t := t + 1;
      }
    }


    /** Store one octet in the block. */
    method PutOctet(x: Byte, ghost done: seq<Byte>, ghost data: seq<Byte>)
      requires Holds(done, data) && index < 64
      modifies `index, block
      ensures index == old(index) + 1 && Holds(done, data + [x])
    {
      block[index] := x;
      index := index + 1;
      assert block[..index] == old(block[..index]) + [x];
    }

    /** A full block goes into the registers. */
    method Absorb(ghost done: seq<Byte>, ghost data: seq<Byte>)
      requires Holds(done, data) && index == 64
      modifies `h, `index
      ensures index == 0 && Holds(data, data)
    {
      assert block[..] == block[..index];
      FoldBlock(INITIAL, done, block[..]);
      ProcessMessageBlock();
    }

    /** Input of one octet. */
    method InputOne(x: Byte)
      requires Valid() && !corrupted && !computed
      modifies `h, `lengthLow, `lengthHigh, `index, `corrupted, `msg, `blocks, block
      ensures Valid() && msg == old(msg) + [x]
      ensures corrupted <==> 8 * |msg| >= TWO64
    {
      StoreOctet(x);
      CountOctet();
    }

    /** Store an octet, and absorb the block it completes. */
    method StoreOctet(x: Byte)
      requires index < 64 && |msg| == 64 * blocks + index && Holds(msg[..64 * blocks], msg)
      modifies `h, `index, `msg, `blocks, block
      ensures index < 64 && |msg| == 64 * blocks + index && Holds(msg[..64 * blocks], msg)
      ensures msg == old(msg) + [x]
    {
      ghost var done := msg[..64 * blocks];
      PutOctet(x, done, msg);
      msg := msg + [x];
      assert msg[..64 * blocks] == done;
      if index == 64 {
        Absorb(done, msg);
        blocks := blocks + 1;
        assert msg[..|msg|] == msg;
      }
    }

    method CountOctet()
      requires lengthLow < TWO32 && lengthHigh < TWO32 && lengthLow % 8 == 0
      modifies `lengthLow, `lengthHigh, `corrupted
      ensures lengthLow < TWO32 && lengthHigh < TWO32
      ensures var bits := old(lengthHigh) * TWO32 + old(lengthLow) + 8;
        if bits >= TWO64 then corrupted else corrupted == old(corrupted) && lengthHigh * TWO32 + lengthLow == bits
    {
      lengthLow := (lengthLow + 8) % TWO32;
      if lengthLow == 0 {
        lengthHigh := (lengthHigh + 1) % TWO32;
        if lengthHigh == 0 {
          corrupted := true;
        }
      }
    }

    /** Input of a piece of the message. */
    method Input(piece: seq<Byte>)
      requires Valid()
      modifies `h, `lengthLow, `lengthHigh, `index, `corrupted, `msg, `blocks, block
      ensures Valid() && computed == old(computed)
      ensures piece == [] ==> corrupted == old(corrupted) && msg == old(msg)
      ensures piece != [] && (old(corrupted) || computed) ==> corrupted
      ensures !old(corrupted) && !computed ==> (corrupted <==> 8 * (|old(msg)| + |piece|) >= TWO64 && piece != [])
      ensures !corrupted ==> msg == old(msg) + piece
    {
      if piece == [] {
        assert old(msg) + piece == old(msg);
        return;
      }
      if computed || corrupted {
        corrupted := true;
        return;
      }
      InputOctets(piece);
    }

    method InputOctets(piece: seq<Byte>)
      requires Valid() && !computed && !corrupted && piece != []
      modifies `h, `lengthLow, `lengthHigh, `index, `corrupted, `msg, `blocks, block
      ensures Valid() && (corrupted <==> 8 * (|old(msg)| + |piece|) >= TWO64)
      ensures !corrupted ==> msg == old(msg) + piece
    {
      var i := 0;
      while i < |piece| && !corrupted
        invariant 0 <= i <= |piece| && Valid() && msg == old(msg) + piece[..i]
        invariant corrupted <==> i > 0 && 8 * |msg| >= TWO64
      {
        InputOne(piece[i]);
        i := i + 1;
        assert piece[..i] == piece[..i - 1] + [piece[i - 1]];
      }
      assert !corrupted ==> piece[..i] == piece;
    }

    /** Fill the block with zeros up to `to`. */
    method FillZeros(to: nat, ghost done: seq<Byte>, ghost data: seq<Byte>)
      requires Holds(done, data) && index <= to <= 64
      modifies `index, block
      ensures index == to && Holds(done, data + Zero(to - old(index)))
    {
      ghost var n, all := 0, data;
      assert data == data + Zero(0);
      while index < to
        invariant old(index) <= index <= to && n == index - old(index) && all == data + Zero(n) && Holds(done, all)
      {
        ZeroMore(n);
        PutOctet(0, done, all);
        n, all := n + 1, all + [0];
      }
    }

    /** Four octets of the block. */
    method Put4(at: nat, n: nat)
      requires block.Length == 64 && at + 4 <= 64
      modifies block
      ensures block[..at + 4] == old(block[..at]) + Bytes4(n)
    {
      block[at], block[at + 1] := ByteOf(n / 0x100_0000), ByteOf(n / 0x1_0000);
      block[at + 2], block[at + 3] := ByteOf(n / 0x100), ByteOf(n);
    }

    /** Store the message length as the last eight octets. */
    method StoreLength(ghost done: seq<Byte>, ghost data: seq<Byte>)
      requires Holds(done, data) && index == 56
      modifies `index, block
      ensures index == 64 && Holds(done, data + (Bytes4(lengthHigh) + Bytes4(lengthLow)))
    {
      Put4(56, lengthHigh);
      Put4(60, lengthLow);
      index := 64;
    }

    /** PadMessage, whose two branches pad into one block or into two. */
    method PadMessage()
      requires Open()
      modifies `h, `index, block
      ensures h == Digest(msg)
    {
      ModIs(|msg|, blocks, index);
      if index > 55 {
        PadTwo(msg[..64 * blocks]);
      } else {
        PadOne(msg[..64 * blocks]);
      }
    }

    method PadOne(ghost done: seq<Byte>)
      requires Holds(done, msg) && index <= 55 && Zeros(|msg|) == 55 - index
      requires lengthLow < TWO32 && lengthHigh * TWO32 + lengthLow == 8 * |msg|
      modifies `h, `index, block
      ensures h == Digest(msg)
    {
      ghost var zeros := Zeros(|msg|);
      PutOctet(0x80, done, msg);
      FillZeros(56, done, msg + [0x80]);
      assert msg + [0x80] + Zero(zeros) == msg + ([0x80] + Zero(zeros));
      PadLength(done, msg + [0x80] + Zero(zeros));
    }

    method PadTwo(ghost done: seq<Byte>)
      requires Holds(done, msg) && 55 < index < 64 && Zeros(|msg|) == 119 - index
      requires lengthLow < TWO32 && lengthHigh * TWO32 + lengthLow == 8 * |msg|
      modifies `h, `index, block
      ensures h == Digest(msg)
    {
      ghost var n := 63 - index;
      ghost var first := msg + [0x80] + Zero(n);
      PadBlock(done, n);
      FillZeros(56, first, first);
      ZeroPlus(n, 56);
      assert first + Zero(56) == msg + ([0x80] + Zero(n + 56));
      PadLength(first, first + Zero(56));
    }

    /** End the message in a block that has no room for its length. */
    method PadBlock(ghost done: seq<Byte>, ghost n: nat)
      requires Holds(done, msg) && index + 1 + n == 64
      modifies `h, `index, block
      ensures index == 0 && Holds(msg + [0x80] + Zero(n), msg + [0x80] + Zero(n))
    {
      PutOctet(0x80, done, msg);
      FillZeros(64, done, msg + [0x80]);
      Absorb(done, msg + [0x80] + Zero(n));
    }

    method PadLength(ghost done: seq<Byte>, ghost data: seq<Byte>)
      requires Holds(done, data) && index == 56 && data == msg + ([0x80] + Zero(Zeros(|msg|)))
      requires lengthLow < TWO32 && lengthHigh * TWO32 + lengthLow == 8 * |msg|
      modifies `h, `index, block
      ensures h == Digest(msg)
    {
      StoreLength(done, data);
      LengthBytes(lengthHigh, lengthLow, |msg|);
      ghost var all := data + Length(8 * |msg|);
      assert all == Padded(msg);
      Absorb(done, all);
    }

    /** Result. */
    method Result() returns (ok: bool, digest: Regs)
      requires Valid()
      modifies `h, `index, `computed, block
      ensures Valid() && corrupted == old(corrupted) && msg == old(msg)
      ensures ok == !corrupted && (ok ==> computed && digest == Digest(msg))
    {
      if corrupted {
        return false, INITIAL;
      }
      if !computed {
        PadMessage();
        computed := true;
      }
      ok, digest := true, h;
    }
  }

  lemma Stage0(t: nat, b: Word, c: Word, d: Word)
    requires t < 20
    ensures F(t, b, c, d) == Choose(b, c, d) && K(t) == 0x5A827999
  {
  }

  lemma Stage20(t: nat, b: Word, c: Word, d: Word)
    requires 20 <= t < 40
    ensures F(t, b, c, d) == Parity(b, c, d) && K(t) == 0x6ED9EBA1
  {
  }

  lemma Stage40(t: nat, b: Word, c: Word, d: Word)
    requires 40 <= t < 60
    ensures F(t, b, c, d) == Majority(b, c, d) && K(t) == 0x8F1BBCDC
  {
  }

  lemma Stage60(t: nat, b: Word, c: Word, d: Word)
    requires 60 <= t < 80
    ensures F(t, b, c, d) == Parity(b, c, d) && K(t) == 0xCA62C1D6
  {
  }

  lemma RoundsStep(ws: seq<Word>, t: nat, h: Regs)
    requires t < |ws|
    ensures Rounds(ws[..t + 1], h) == Round(t, ws[t], Rounds(ws[..t], h))
  {
    assert ws[..t + 1][..t] == ws[..t];
  }

  lemma ZeroPlus(n: nat, m: nat)
    ensures Zero(n) + Zero(m) == Zero(n + m)
  {
  }

  lemma LengthBytes(high: nat, low: nat, n: nat)
    requires low < TWO32 && high * TWO32 + low == 8 * n
    ensures Bytes4(high) + Bytes4(low) == Length(8 * n)
  {
    assert 8 * n / TWO32 == high && 8 * n % TWO32 == low;
  }

  /** However a message of less than 2^64 bits is cut into pieces, the digest is that of the message. */
  method HashPieces(pieces: seq<seq<Byte>>) returns (digest: Regs)
    requires 8 * |Concat(pieces)| < TWO64
    ensures digest == Digest(Concat(pieces))
  {
    var s := new SHA1();
    var i := 0;
    while i < |pieces|
      invariant 0 <= i <= |pieces| && s.Valid() && !s.corrupted && !s.computed && s.msg == Concat(pieces[..i])
    {
      ConcatLength(pieces, i + 1);
      ConcatStep(pieces, i);
      s.Input(pieces[i]);
      i := i + 1;
    }
    assert pieces[..i] == pieces;
    var ok;
    ok, digest := s.Result();
  }
}
