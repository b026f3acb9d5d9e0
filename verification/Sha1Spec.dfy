/** SHA-1 as FIPS PUB 180-1 defines it: padding (section 4), the functions and constants (sections 5 and
    6) and the computation of the digest (section 7). */
module Sha1Spec {
  type Word = bv32
  type Byte = bv8

  datatype Regs = Regs(a: Word, b: Word, c: Word, d: Word, e: Word)

  const INITIAL := Regs(0x67452301, 0xEFCDAB89, 0x98BADCFE, 0x10325476, 0xC3D2E1F0)

  function Rotl(n: bv6, w: Word): Word
    requires 0 < n < 32
  {
    (w << n) | (w >> (32 - n))
  }

  function Choose(b: Word, c: Word, d: Word): Word
  {
    (b & c) | (!b & d)
  }

  function Parity(b: Word, c: Word, d: Word): Word
  {
    b ^ c ^ d
  }

  function Majority(b: Word, c: Word, d: Word): Word
  {
    (b & c) | (b & d) | (c & d)
  }

  function F(t: nat, b: Word, c: Word, d: Word): Word
  {
    if t < 20 then Choose(b, c, d)
    else if t < 40 then Parity(b, c, d)
    else if t < 60 then Majority(b, c, d)
    else Parity(b, c, d)
  }

  function K(t: nat): Word
  {
    if t < 20 then 0x5A827999 else if t < 40 then 0x6ED9EBA1 else if t < 60 then 0x8F1BBCDC else 0xCA62C1D6
  }

  function WordAt(block: seq<Byte>, t: nat): Word
    requires |block| == 64 && t < 16
  {
    ((block[4 * t] as Word) << 24) | ((block[4 * t + 1] as Word) << 16) | ((block[4 * t + 2] as Word) << 8) | (block[4 * t + 3] as Word)
  }

  function Mix(a: Word, b: Word, c: Word, d: Word): Word
  {
    Rotl(1, a ^ b ^ c ^ d)
  }

  /** The word sequence of a block. */
  function W(block: seq<Byte>, t: nat): Word
    requires |block| == 64
  {
    if t < 16 then WordAt(block, t)
    else Mix(W(block, t - 3), W(block, t - 8), W(block, t - 14), W(block, t - 16))
  }

  function Sum(a: Word, f: Word, e: Word, w: Word, k: Word): Word
  {
    Rotl(5, a) + f + e + w + k
  }

  function Shift(temp: Word, r: Regs): Regs
  {
    Regs(temp, r.a, Rotl(30, r.b), r.c, r.d)
  }

  function Round(t: nat, w: Word, r: Regs): Regs
  {
    Shift(Sum(r.a, F(t, r.b, r.c, r.d), r.e, w, K(t)), r)
  }

  function AddRegs(h: Regs, r: Regs): Regs
  {
    Regs(h.a + r.a, h.b + r.b, h.c + r.c, h.d + r.d, h.e + r.e)
  }

  /** One round for every word of the sequence. */
  function Rounds(ws: seq<Word>, r: Regs): Regs
  {
    if ws == [] then r else Round(|ws| - 1, ws[|ws| - 1], Rounds(ws[..|ws| - 1], r))
  }

  function Schedule(block: seq<Byte>): (ws: seq<Word>)
    requires |block| == 64
    ensures |ws| == 80
  {
    seq(80, t requires 0 <= t < 80 => W(block, t))
  }

  function Compress(h: Regs, block: seq<Byte>): Regs
    requires |block| == 64
  {
    AddRegs(h, Rounds(Schedule(block), h))
  }

  /** The compression function over every whole block. */
  function Fold(h: Regs, data: seq<Byte>): Regs
    decreases |data|
  {
    if |data| < 64 then h else Compress(Fold(h, data[..|data| - 64]), data[|data| - 64..])
  }

  lemma FoldBlock(h: Regs, data: seq<Byte>, block: seq<Byte>)
    requires |block| == 64
    ensures Fold(h, data + block) == Compress(Fold(h, data), block)
  {
    var all := data + block;
    assert all[..|all| - 64] == data && all[|all| - 64..] == block;
  }

  // ---------- Padding ----------

  const TWO64: nat := 0x1_0000_0000_0000_0000
  const TWO32: nat := 0x1_0000_0000

  function ByteOf(n: nat): Byte
  {
    (n % 256) as Byte
  }

  /** A word as four bytes, highest first. */
  function Bytes4(n: nat): (s: seq<Byte>)
    ensures |s| == 4
  {
    [ByteOf(n / 0x100_0000), ByteOf(n / 0x1_0000), ByteOf(n / 0x100), ByteOf(n)]
  }

  /** The message length in bits, as 64 bits. */
  function Length(bits: nat): (s: seq<Byte>)
    ensures |s| == 8
  {
    Bytes4(bits / TWO32) + Bytes4(bits % TWO32)
  }

  /** How many zero bytes follow the 1 bit. */
  function Zeros(n: nat): nat
  {
    if n % 64 <= 55 then 55 - n % 64 else 119 - n % 64
  }

  function Zero(n: nat): (s: seq<Byte>)
    ensures |s| == n
  {
    seq(n, _ => 0)
  }

  /** A 1 bit, zeros, and the length. */
  function Padding(n: nat): seq<Byte>
  {
    [0x80] + Zero(Zeros(n)) + Length(8 * n)
  }

  function Padded(m: seq<Byte>): seq<Byte>
  {
    m + Padding(|m|)
  }

  lemma ModIs(n: nat, q: nat, r: nat)
    requires n == 64 * q + r && r < 64
    ensures n % 64 == r && n / 64 == q
  {
  }

  /** Padding ends on a block boundary, one block or two from the last whole block of the message. */
  lemma PaddingAligned(n: nat, q: nat, r: nat)
    requires n == 64 * q + r && r < 64
    ensures |Padding(n)| == 9 + Zeros(n) && n + |Padding(n)| == 64 * (if r <= 55 then q + 1 else q + 2)
  {
    ModIs(n, q, r);
  }

  /** No fewer zero bytes would reach a block boundary. */
  lemma PaddingMinimal(n: nat, q: nat, r: nat, k: nat, blocks: nat)
    requires n == 64 * q + r && r < 64 && n + 1 + k + 8 == 64 * blocks
    ensures Zeros(n) <= k
  {
    ModIs(n, q, r);
  }

  function Digest(m: seq<Byte>): Regs
  {
    Fold(INITIAL, Padded(m))
  }

  lemma ZeroMore(n: nat)
    ensures Zero(n) + [0] == Zero(n + 1)
  {
  }
}
