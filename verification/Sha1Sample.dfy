/** The first sample of FIPS PUB 180-1 (appendix A): the message "abc", eight words and eight rounds at a time. */
module Sha1Sample {
  import opened Sha1Spec

  const ABC: seq<Byte> := [0x61, 0x62, 0x63]

  datatype Eight = Eight(w0: Word, w1: Word, w2: Word, w3: Word, w4: Word, w5: Word, w6: Word, w7: Word)

  // ---------- Eight words ----------

  /** The eight words that follow sixteen. */
  function NextEight(a: Eight, b: Eight): Eight
  {
    var c0, c1, c2 := Mix(b.w5, b.w0, a.w2, a.w0), Mix(b.w6, b.w1, a.w3, a.w1), Mix(b.w7, b.w2, a.w4, a.w2);
    var c3, c4, c5 := Mix(c0, b.w3, a.w5, a.w3), Mix(c1, b.w4, a.w6, a.w4), Mix(c2, b.w5, a.w7, a.w5);
    Eight(c0, c1, c2, c3, c4, c5, Mix(c3, b.w6, b.w0, a.w6), Mix(c4, b.w7, b.w1, a.w7))
  }

  predicate WordsAre(block: seq<Byte>, t: nat, e: Eight)
    requires |block| == 64
  {
    && W(block, t) == e.w0 && W(block, t + 1) == e.w1 && W(block, t + 2) == e.w2 && W(block, t + 3) == e.w3
    && W(block, t + 4) == e.w4 && W(block, t + 5) == e.w5 && W(block, t + 6) == e.w6 && W(block, t + 7) == e.w7
  }

  lemma WordsGoOn(block: seq<Byte>, t: nat, a: Eight, b: Eight)
    requires |block| == 64 && t >= 16 && WordsAre(block, t - 16, a) && WordsAre(block, t - 8, b)
    ensures WordsAre(block, t, NextEight(a, b))
  {
  }

  // ---------- Eight rounds ----------

  /** What the first registers of the last eight rounds make of all five. */
  function After(p: Eight): Regs
  {
    Regs(p.w7, p.w6, Rotl(30, p.w5), Rotl(30, p.w4), Rotl(30, p.w3))
  }

  /** Round `t` puts `y` into the first register, where the five rounds before it put x0, x1, x2, x3 and x4. */
  predicate Follows(t: nat, w: Word, x0: Word, x1: Word, x2: Word, x3: Word, x4: Word, y: Word)
  {
    Sum(x4, F(t, x3, Rotl(30, x2), Rotl(30, x1)), Rotl(30, x0), w, K(t)) == y
  }

  predicate AllFollow(t: nat, w: Eight, p: Eight, q: Eight)
  {
    && Follows(t, w.w0, p.w3, p.w4, p.w5, p.w6, p.w7, q.w0)
    && Follows(t + 1, w.w1, p.w4, p.w5, p.w6, p.w7, q.w0, q.w1)
    && Follows(t + 2, w.w2, p.w5, p.w6, p.w7, q.w0, q.w1, q.w2)
    && Follows(t + 3, w.w3, p.w6, p.w7, q.w0, q.w1, q.w2, q.w3)
    && Follows(t + 4, w.w4, p.w7, q.w0, q.w1, q.w2, q.w3, q.w4)
    && Follows(t + 5, w.w5, q.w0, q.w1, q.w2, q.w3, q.w4, q.w5)
    && Follows(t + 6, w.w6, q.w1, q.w2, q.w3, q.w4, q.w5, q.w6)
    && Follows(t + 7, w.w7, q.w2, q.w3, q.w4, q.w5, q.w6, q.w7)
  }

  lemma OneMore(ws: seq<Word>, t: nat, h: Regs, x0: Word, x1: Word, x2: Word, x3: Word, x4: Word, y: Word)
    requires t < |ws| && Follows(t, ws[t], x0, x1, x2, x3, x4, y)
    requires Rounds(ws[..t], h) == Regs(x4, x3, Rotl(30, x2), Rotl(30, x1), Rotl(30, x0))
    ensures Rounds(ws[..t + 1], h) == Regs(y, x4, Rotl(30, x3), Rotl(30, x2), Rotl(30, x1))
  {
    assert ws[..t + 1][..t] == ws[..t];
  }

  lemma HalfOn(ws: seq<Word>, t: nat, h: Regs, p: Eight, q: Eight)
    requires t + 4 <= |ws| && Rounds(ws[..t], h) == After(p)
    requires Follows(t, ws[t], p.w3, p.w4, p.w5, p.w6, p.w7, q.w0)
    requires Follows(t + 1, ws[t + 1], p.w4, p.w5, p.w6, p.w7, q.w0, q.w1)
    requires Follows(t + 2, ws[t + 2], p.w5, p.w6, p.w7, q.w0, q.w1, q.w2)
    requires Follows(t + 3, ws[t + 3], p.w6, p.w7, q.w0, q.w1, q.w2, q.w3)
    ensures Rounds(ws[..t + 4], h) == Regs(q.w3, q.w2, Rotl(30, q.w1), Rotl(30, q.w0), Rotl(30, p.w7))
  {
    OneMore(ws, t, h, p.w3, p.w4, p.w5, p.w6, p.w7, q.w0);
    OneMore(ws, t + 1, h, p.w4, p.w5, p.w6, p.w7, q.w0, q.w1);
    OneMore(ws, t + 2, h, p.w5, p.w6, p.w7, q.w0, q.w1, q.w2);
    OneMore(ws, t + 3, h, p.w6, p.w7, q.w0, q.w1, q.w2, q.w3);
  }

  lemma RoundsGoOn(block: seq<Byte>, t: nat, w: Eight, h: Regs, p: Eight, q: Eight)
    requires |block| == 64 && t + 8 <= 80 && WordsAre(block, t, w) && AllFollow(t, w, p, q)
    requires Rounds(Schedule(block)[..t], h) == After(p)
    ensures Rounds(Schedule(block)[..t + 8], h) == After(q)
  {
    var ws := Schedule(block);
    HalfOn(ws, t, h, p, q);
    var middle := Eight(p.w4, p.w5, p.w6, p.w7, q.w0, q.w1, q.w2, q.w3);
    var last := Eight(q.w4, q.w5, q.w6, q.w7, q.w4, q.w5, q.w6, q.w7);
    HalfOn(ws, t + 4, h, middle, last);
  }

  // ---------- The sample ----------

  const WORDS_0 := Eight(0x61626380, 0x00000000, 0x00000000, 0x00000000, 0x00000000, 0x00000000, 0x00000000, 0x00000000)
  const WORDS_8 := Eight(0x00000000, 0x00000000, 0x00000000, 0x00000000, 0x00000000, 0x00000000, 0x00000000, 0x00000018)
  const WORDS_16 := Eight(0xC2C4C700, 0x00000000, 0x00000030, 0x85898E01, 0x00000000, 0x00000060, 0x0B131C03, 0x00000030)
  const WORDS_24 := Eight(0x85898EC1, 0x16263806, 0x00000000, 0x00000180, 0x2C4C700C, 0x000000F0, 0x93AFB507, 0x5898E048)
  const WORDS_32 := Eight(0x8E9A9202, 0x00000600, 0xB131C0F0, 0x16263BC6, 0x4EBED41E, 0x626380A1, 0x16263806, 0x000018C0)
  const WORDS_40 := Eight(0xD2E138C4, 0x00000F00, 0x3AFB5079, 0x898E04E5, 0xE2BA3C2B, 0x000060C0, 0x053A37CD, 0x74458547)
  const WORDS_48 := Eight(0xDA9415ED, 0x26380A16, 0x626383A1, 0x4EBF54DE, 0x3835B44B, 0x0000F600, 0x1E84C7A3, 0x98E04D98)
  const WORDS_56 := Eight(0x651D16A0, 0x62658CA1, 0x458544D6, 0x44584CB7, 0x7BA06619, 0x6380AEA2, 0x0AE55269, 0x627B49A1)
  const WORDS_64 := Eight(0x7CD45C9D, 0x000F0000, 0xFB50753A, 0xEC6765E8, 0xBA3C2BE2, 0x0060C000, 0x3A37CD05, 0x458546F4)
  const WORDS_72 := Eight(0xB8599DD6, 0x380A1A26, 0x01E02203, 0xE7CC3456, 0xE6E60B69, 0x00F60A00, 0x5795EF4F, 0x822E0879)

  /** The first register after each of eight rounds; before round 0, values that stand for the registers given. */
  const AFTER_0 := Eight(0x00000000, 0x00000000, 0x00000000, 0x0F4B87C3, 0x40C951D8, 0x62EB73FA, 0xEFCDAB89, 0x67452301)
  const AFTER_8 := Eight(0x0116FC33, 0x8990536D, 0xA1390F08, 0xCDD8E11B, 0xCFD499DE, 0x3FC7CA40, 0x993E30C1, 0x9E8C07D4)
  const AFTER_16 := Eight(0x4B6AE328, 0x8351F929, 0xFBDA9E89, 0x63188FE4, 0x4607B664, 0x9128F695, 0x196BEE77, 0x20BDD62F)
  const AFTER_24 := Eight(0x4E925823, 0x82AA6728, 0xDC64901D, 0xFD9E1D7D, 0x1A37B0CA, 0x33A23BFC, 0x21283486, 0xD541F12D)
  const AFTER_32 := Eight(0xC7567DC6, 0x48413BA4, 0xBE35FBD5, 0x4AA84D97, 0x8370B52E, 0xC5FBAF5D, 0x1267B407, 0x3B845D33)
  const AFTER_40 := Eight(0x046FAA0A, 0x2C0EBC11, 0x21796AD4, 0xDCBBB0CB, 0x0F511FD8, 0xDC63973F, 0x4C986405, 0x32DE1CBA)
  const AFTER_48 := Eight(0xFC87DEDF, 0x970A0D5C, 0x7F193DC5, 0xEE1B1AAF, 0x40F28E09, 0x1C51E1F2, 0xA01B846C, 0xBEAD02CA)
  const AFTER_56 := Eight(0xBAF39337, 0x120731C5, 0x641DB2CE, 0x3847AD66, 0xE490436D, 0x27E9F1D8, 0x7B71F76D, 0x5E6456AF)
  const AFTER_64 := Eight(0xC846093F, 0xD262FF50, 0x09D785FD, 0x3F52DE5A, 0xD756C147, 0x548C9CB2, 0xB66C020B, 0x6B61C9E1)
  const AFTER_72 := Eight(0x19DFA7AC, 0x101655F9, 0x0C3DF2B4, 0x78DD4D2B, 0x497093C0, 0x3F2588C2, 0xC199F8C7, 0x39859DE7)
  const AFTER_80 := Eight(0xEDB42DE4, 0x11793F6F, 0x5EE76897, 0x63F7DAB7, 0xA079B7D9, 0x860D21CC, 0x5738D5E1, 0x42541B35)

  predicate IsAbcBlock(block: seq<Byte>)
  {
    && |block| == 64 && block[..4] == [0x61, 0x62, 0x63, 0x80] && (forall i :: 4 <= i < 63 ==> block[i] == 0)
    && block[63] == 0x18
  }

  lemma LengthOfAbc()
    ensures Length(24) == [0, 0, 0, 0, 0, 0, 0, 0x18]
  {
  }

  lemma PaddedAbc()
    ensures IsAbcBlock(Padded(ABC))
  {
    LengthOfAbc();
    assert Padded(ABC) == ABC + ([0x80] + Zero(52) + [0, 0, 0, 0, 0, 0, 0, 0x18]);
  }

  lemma ZeroWord(block: seq<Byte>, t: nat)
    requires IsAbcBlock(block) && 1 <= t < 15
    ensures W(block, t) == 0
  {
  }

  lemma FirstWords(block: seq<Byte>)
    requires IsAbcBlock(block)
    ensures WordsAre(block, 0, WORDS_0) && WordsAre(block, 8, WORDS_8)
  {
    assert block[0] == 0x61 && block[1] == 0x62 && block[2] == 0x63 && block[3] == 0x80;
    assert WordAt(block, 0) == 0x61626380 && WordAt(block, 15) == 0x18;
    forall t: nat | 1 <= t < 15
      ensures W(block, t) == 0
    {
      ZeroWord(block, t);
    }
  }

  ghost predicate Reached(block: seq<Byte>, t: nat, w: Eight, v: Eight, p: Eight)
    requires |block| == 64
  {
    && t <= 80 && WordsAre(block, t, w) && WordsAre(block, t + 8, v)
    && Rounds(Schedule(block)[..t], INITIAL) == After(p)
  }

  lemma OneRow(block: seq<Byte>, t: nat, w: Eight, v: Eight, p: Eight, q: Eight)
    requires |block| == 64 && t + 8 <= 80 && Reached(block, t, w, v, p) && AllFollow(t, w, p, q)
    ensures Reached(block, t + 8, v, NextEight(w, v), q)
  {
    RoundsGoOn(block, t, w, INITIAL, p, q);
    WordsGoOn(block, t + 16, w, v);
  }

  lemma Start(block: seq<Byte>)
    requires IsAbcBlock(block)
    ensures Reached(block, 0, WORDS_0, WORDS_8, AFTER_0)
  {
    FirstWords(block);
  }

  lemma Row0(block: seq<Byte>)
    requires IsAbcBlock(block)
    ensures Reached(block, 8, WORDS_8, WORDS_16, AFTER_8)
  {
    Start(block);
    assert AllFollow(0, WORDS_0, AFTER_0, AFTER_8);
    OneRow(block, 0, WORDS_0, WORDS_8, AFTER_0, AFTER_8);
  }

  lemma Row1(block: seq<Byte>)
    requires IsAbcBlock(block)
    ensures Reached(block, 16, WORDS_16, WORDS_24, AFTER_16)
  {
    Row0(block);
    assert AllFollow(8, WORDS_8, AFTER_8, AFTER_16);
    OneRow(block, 8, WORDS_8, WORDS_16, AFTER_8, AFTER_16);
  }

  lemma Row2(block: seq<Byte>)
    requires IsAbcBlock(block)
    ensures Reached(block, 24, WORDS_24, WORDS_32, AFTER_24)
  {
    Row1(block);
    assert AllFollow(16, WORDS_16, AFTER_16, AFTER_24);
    OneRow(block, 16, WORDS_16, WORDS_24, AFTER_16, AFTER_24);
  }

  lemma Row3(block: seq<Byte>)
    requires IsAbcBlock(block)
    ensures Reached(block, 32, WORDS_32, WORDS_40, AFTER_32)
  {
    Row2(block);
    assert AllFollow(24, WORDS_24, AFTER_24, AFTER_32);
    OneRow(block, 24, WORDS_24, WORDS_32, AFTER_24, AFTER_32);
  }

  lemma Row4(block: seq<Byte>)
    requires IsAbcBlock(block)
    ensures Reached(block, 40, WORDS_40, WORDS_48, AFTER_40)
  {
    Row3(block);
    assert AllFollow(32, WORDS_32, AFTER_32, AFTER_40);
    OneRow(block, 32, WORDS_32, WORDS_40, AFTER_32, AFTER_40);
  }

  lemma Row5(block: seq<Byte>)
    requires IsAbcBlock(block)
    ensures Reached(block, 48, WORDS_48, WORDS_56, AFTER_48)
  {
    Row4(block);
    assert AllFollow(40, WORDS_40, AFTER_40, AFTER_48);
    OneRow(block, 40, WORDS_40, WORDS_48, AFTER_40, AFTER_48);
  }

  lemma Row6(block: seq<Byte>)
    requires IsAbcBlock(block)
    ensures Reached(block, 56, WORDS_56, WORDS_64, AFTER_56)
  {
    Row5(block);
    assert AllFollow(48, WORDS_48, AFTER_48, AFTER_56);
    OneRow(block, 48, WORDS_48, WORDS_56, AFTER_48, AFTER_56);
  }

  lemma Row7(block: seq<Byte>)
    requires IsAbcBlock(block)
    ensures Reached(block, 64, WORDS_64, WORDS_72, AFTER_64)
  {
    Row6(block);
    assert AllFollow(56, WORDS_56, AFTER_56, AFTER_64);
    OneRow(block, 56, WORDS_56, WORDS_64, AFTER_56, AFTER_64);
  }

  lemma Row8(block: seq<Byte>)
    requires IsAbcBlock(block)
    ensures Reached(block, 72, WORDS_72, NextEight(WORDS_64, WORDS_72), AFTER_72)
  {
    Row7(block);
    assert AllFollow(64, WORDS_64, AFTER_64, AFTER_72);
    OneRow(block, 64, WORDS_64, WORDS_72, AFTER_64, AFTER_72);
  }

  lemma Row9(block: seq<Byte>)
    requires IsAbcBlock(block)
    ensures Reached(block, 80, NextEight(WORDS_64, WORDS_72), NextEight(WORDS_72, NextEight(WORDS_64, WORDS_72)), AFTER_80)
  {
    Row8(block);
    assert AllFollow(72, WORDS_72, AFTER_72, AFTER_80);
    OneRow(block, 72, WORDS_72, NextEight(WORDS_64, WORDS_72), AFTER_72, AFTER_80);
  }

  lemma LastSum()
    ensures AddRegs(INITIAL, After(AFTER_80)) == Regs(0xA9993E36, 0x4706816A, 0xBA3E2571, 0x7850C26C, 0x9CD0D89D)
  {
  }

  lemma OneBlock(block: seq<Byte>, r: Regs)
    requires |block| == 64 && Rounds(Schedule(block), INITIAL) == r
    ensures Fold(INITIAL, block) == AddRegs(INITIAL, r)
  {
    FoldBlock(INITIAL, [], block);
    assert [] + block == block;
  }

  /** The digest of "abc". */
  lemma DigestOfAbc()
    ensures Digest(ABC) == Regs(0xA9993E36, 0x4706816A, 0xBA3E2571, 0x7850C26C, 0x9CD0D89D)
  {
    PaddedAbc();
    var block := Padded(ABC);
    Row9(block);
    assert Schedule(block)[..80] == Schedule(block);
    OneBlock(block, After(AFTER_80));
    LastSum();
  }
}
