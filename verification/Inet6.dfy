/** evutil_inet_ntop and evutil_inet_pton for IPv6: the printer, the parser, and their round trip. */
module Inet6 {
  import opened Lists
  import opened Inet6Text

  /** The eight 16-bit words of an address. */
  predicate IsAddr(w: seq<int>)
  {
    |w| == 8 && forall i :: 0 <= i < 8 ==> 0 <= w[i] < 0x10000
  }

  // ---------- Runs of zero words ----------

  /** How many zero words there are in a row from `i` on. */
  function ZeroRun(w: seq<int>, i: nat): (n: nat)
    ensures i <= |w| ==> i + n <= |w|
    ensures forall j :: i <= j < i + n && j < |w| ==> w[j] == 0
    decreases |w| - i
  {
    if i < |w| && w[i] == 0 then 1 + ZeroRun(w, i + 1) else 0
  }

  ghost predicate AllZero(w: seq<int>, from: int, to: int)
  {
    0 <= from <= to <= |w| && forall i :: from <= i < to ==> w[i] == 0
  }

  /** RFC 4291 section 2.2: "::" stands for the leftmost of the longest runs of zero words, provided it
      is longer than one word. */
  ghost predicate IsGap(w: seq<int>, pos: int, len: int)
  {
    if pos < 0 then forall a, b :: AllZero(w, a, b) ==> b - a <= 1
    else
      && len >= 2 && AllZero(w, pos, pos + len)
      && forall a, b :: AllZero(w, a, b) ==> b - a <= len && (b - a == len ==> pos <= a)
  }

  /** The longest run, and the leftmost of those, among runs that end by `i`. */
  ghost predicate Best(w: seq<int>, i: int, pos: int, len: int)
  {
    && 0 <= len && (len > 0 ==> 0 <= pos && pos + len <= i && AllZero(w, pos, pos + len))
    && forall a, b :: AllZero(w, a, b) && b <= i && a < b ==> b - a <= len && (b - a == len ==> pos <= a)
  }

  /** The gap found by the printer's scan, and -1 if there is none worth writing. */
  method FindGap(w: seq<int>) returns (pos: int, len: nat)
    requires IsAddr(w)
    ensures -1 <= pos < 8 && IsGap(w, pos, len)
  {
    pos, len := -1, 0;
    var i := 0;
    while i < 8
      invariant i <= 8 && Best(w, i, pos, len) && (0 < i < 8 ==> w[i - 1] != 0 || w[i] != 0)
      invariant -1 <= pos < 8
    {
      if w[i] == 0 {
        var curPos, curLen := i, 1;
        i := i + 1;
        while i < 8 && w[i] == 0
          invariant curPos < i <= 8 && curLen == i - curPos && AllZero(w, curPos, i)
        {
          i, curLen := i + 1, curLen + 1;
        }
        RunFound(w, curPos, i, pos, len);
        if curLen > len {
          pos, len := curPos, curLen;
        }
      } else {
        NoRunHere(w, i, pos, len);
        i := i + 1;
      }
    }
    if len <= 1 {
      pos := -1;
    }
  }

  lemma ZeroAt(w: seq<int>, a: int, b: int, i: int)
    requires AllZero(w, a, b) && a <= i < b
    ensures w[i] == 0
  {
  }

  lemma RunFound(w: seq<int>, from: nat, to: nat, pos: int, len: nat)
    requires from < to <= |w| && AllZero(w, from, to) && Best(w, from, pos, len)
    requires from > 0 ==> w[from - 1] != 0
    ensures if to - from > len then Best(w, to, from, to - from) else Best(w, to, pos, len)
  {
    forall a, b | AllZero(w, a, b) && b <= to && a < b
      ensures from <= a || b <= from
    {
      if a < from < b {
        ZeroAt(w, a, b, from - 1);
      }
    }
  }

  lemma NoRunHere(w: seq<int>, i: nat, pos: int, len: nat)
    requires i < |w| && w[i] != 0 && Best(w, i, pos, len)
    ensures Best(w, i + 1, pos, len)
  {
    forall a, b | AllZero(w, a, b) && b <= i + 1 && a < b
      ensures b <= i
    {
      if b == i + 1 {
        ZeroAt(w, a, b, i);
      }
    }
  }

  // ---------- The text form ----------

  /** What is written at word `i` when "::" belongs at `g`, and the word to go on with. */
  function Piece(w: seq<int>, i: nat, g: int): string
    requires IsAddr(w) && i < 8
  {
    if i == g && w[i] == 0 then if i == 0 then "::" else ":"
    else Digits(w[i], true) + if i != 7 then ":" else ""
  }

  function Next(w: seq<int>, i: nat, g: int): (r: nat)
    requires IsAddr(w) && i < 8
    ensures i < r <= 8
  {
    if i == g && w[i] == 0 then i + ZeroRun(w, i) else i + 1
  }

  /** The text of the words from `i` on. */
  function WordsText(w: seq<int>, i: nat, g: int): string
    requires IsAddr(w)
    decreases 8 - i
  {
    if i >= 8 then "" else Piece(w, i, g) + WordsText(w, Next(w, i, g), g)
  }

  /** The words that hold an IPv4 address, as an IPv4-compatible or an IPv4-mapped one. */
  predicate IsCompatible(w: seq<int>)
    requires IsAddr(w)
  {
    w[0] == w[1] == w[2] == w[3] == w[4] == w[5] == 0 && w[6] != 0 && w[7] != 0
  }

  predicate IsMapped(w: seq<int>)
    requires IsAddr(w)
  {
    w[0] == w[1] == w[2] == w[3] == w[4] == 0 && w[5] == 0xffff
  }

  /** The last four bytes, as a dotted quad. */
  function Quad(w: seq<int>): (q: seq<int>)
    requires IsAddr(w)
    ensures FourBytes(q)
  {
    [w[6] / 256, w[6] % 256, w[7] / 256, w[7] % 256]
  }

  /** `t` is the text form of `w`. */
  ghost predicate IsText(w: seq<int>, t: string)
    requires IsAddr(w)
  {
    if IsCompatible(w) then t == "::" + DottedText(Quad(w))
    else if IsMapped(w) then t == "::" + (Digits(w[5], true) + (":" + DottedText(Quad(w))))
    else exists g, n :: -1 <= g < 8 && IsGap(w, g, n) && t == WordsText(w, 0, g)
  }

  /** The printer's loop. */
  method Print(w: seq<int>) returns (buf: string)
    requires IsAddr(w)
    ensures IsText(w, buf)
  {
    if w[0] == 0 && w[1] == 0 && w[2] == 0 && w[3] == 0 && w[4] == 0
       && ((w[5] == 0 && w[6] != 0 && w[7] != 0) || w[5] == 0xffff) {
      if w[5] == 0 {
        return "::" + DottedText(Quad(w));
      } else {
        return "::" + (Digits(w[5], true) + (":" + DottedText(Quad(w))));
      }
    }
    var gap, len := FindGap(w);
    buf := PrintWords(w, gap);
  }

  method PrintWords(w: seq<int>, gap: int) returns (buf: string)
    requires IsAddr(w)
    ensures buf == WordsText(w, 0, gap)
  {
    buf := "";
    var i := 0;
    while i < 8
      invariant 0 <= i <= 8 && buf + WordsText(w, i, gap) == WordsText(w, 0, gap)
    {
      Appended(buf, Piece(w, i, gap), WordsText(w, Next(w, i, gap), gap));
      buf, i := PrintPiece(w, gap, buf, i);
    }
  }

  method PrintPiece(w: seq<int>, gap: int, before: string, start: nat) returns (buf: string, i: nat)
    requires IsAddr(w) && start < 8
    ensures buf == before + Piece(w, start, gap) && i == Next(w, start, gap)
  {
    buf, i := before, start;
    if w[i] == 0 && gap == i {
      if i == 0 {
        buf := buf + ":";
      }
      buf := buf + ":";
      i := SkipZeros(w, i);
    } else {
      buf := buf + Digits(w[i], true);
      if i != 7 {
        buf := buf + ":";
      }
      i := i + 1;
    }
  }

  method SkipZeros(w: seq<int>, start: nat) returns (i: nat)
    requires start < |w| == 8
    ensures i == start + ZeroRun(w, start)
  {
    i := start;
    while i < 8 && w[i] == 0
      invariant start <= i <= 8 && start + ZeroRun(w, start) == i + ZeroRun(w, i)
    {
      i := i + 1;
    }
  }

  lemma Appended(a: string, b: string, c: string)
    ensures a + (b + c) == a + b + c
  {
  }

  /** The printer with the caller's buffer: refused if the text is longer than the buffer, and cut by
      one char if it exactly fills it. */
  method Ntop(w: seq<int>, len: nat) returns (r: Option<string>, ghost text: string)
    requires IsAddr(w)
    ensures IsText(w, text)
    ensures r.None? <==> |text| > len
    ensures r.Some? ==> r.value == if |text| < len then text else text[..len - 1]
    ensures r == Some(text) <==> |text| < len
  {
    var buf := Print(w);
    text := buf;
    NotEmpty(w, buf);
    if |buf| > len {
      return None, text;
    }
    r := Some(if |buf| < len then buf else buf[..len - 1]);
  }

  lemma NotEmpty(w: seq<int>, t: string)
    requires IsAddr(w) && IsText(w, t)
    ensures t != ""
  {
  }

  // ---------- The parser ----------

  datatype Parsed = Addr(words: seq<int>) | Bad(code: int)

  /** Where the parser is among the words: how many it has set from the front, where it saw "::", and
      how many are set in all. */
  datatype WordState = WordState(words: seq<int>, i: nat, gap: int, setWords: nat)

  function Drop(u: string, n: nat): string
  {
    if n <= |u| then u[n..] else ""
  }

  function SetWord(st: WordState, x: int): WordState
    requires st.i < |st.words|
  {
    st.(words := st.words[st.i := x], i := st.i + 1, setWords := st.setWords + 1)
  }

  /** One round of the loop over words: how far it moves, and the state it leaves. */
  datatype Round = Round(adv: nat, st: WordState)

  /** `u` is the rest of the source, and the words end `m` chars into it. */
  function ParseRound(u: string, m: int, st: WordState): (r: Option<Round>)
    requires |st.words| == 8
    ensures r.Some? ==> r.value.adv > 0 && |r.value.st.words| == 8
  {
    if st.i > 7 then None
    else if IsHexDigit(CharAt(u, 0)) then
      var r := Strtol16(u);
      if r.len > 4 || r.value > 65536 || (CharAt(u, r.len) != ':' && r.len != m) then None
      else Some(Round(r.len + 1, SetWord(st, r.value % 65536)))
    else if CharAt(u, 0) == ':' && st.i > 0 && st.gap == -1 then Some(Round(1, st.(gap := st.i)))
    else if CharAt(u, 0) == ':' && st.i == 0 && CharAt(u, 1) == ':' && st.gap == -1 then Some(Round(2, st.(gap := 0)))
    else None
  }

  function ParseWords(u: string, m: int, st: WordState): (r: Option<WordState>)
    requires |st.words| == 8
    ensures r.Some? ==> |r.value.words| == 8
    decreases m
  {
    if m <= 0 then Some(st)
    else
      var a := ParseRound(u, m, st);
      if a.None? then None else ParseWords(Drop(u, a.value.adv), m - a.value.adv, a.value.st)
  }

  /** The checks after the loop, and the move of the words behind "::" to the end. */
  function Assemble(st: WordState, dots: nat): Parsed
    requires |st.words| == 8
  {
    if st.setWords > 8 || (st.setWords == 8 && st.gap != -1) || (st.setWords < 8 && st.gap == -1) then Bad(0)
    else if st.gap < 0 then Addr(st.words)
    else
      var n, gapLen := st.setWords - dots - st.gap, 8 - st.setWords;
      if n < 0 || st.gap + gapLen + n > 8 then Bad(-1)
      else Addr(st.words[..st.gap] + seq(gapLen, _ => 0) + st.words[st.gap..st.gap + n] + st.words[st.gap + gapLen + n..])
  }

  /** The first dot, and the start of the run of digits in front of it. */
  function DotAt(s: string): (d: nat)
    ensures d <= |s| && (d < |s| ==> s[d] == '.')
  {
    if s == [] || s[0] == '.' then 0 else 1 + DotAt(s[1..])
  }

  function DigitsBack(s: string, e: nat): (b: nat)
    requires e <= |s|
    ensures b <= e
  {
    if e > 0 && IsDigit(s[e - 1]) then DigitsBack(s, e - 1) else e
  }

  predicate FourBytes(q: seq<int>)
  {
    |q| == 4 && forall i :: 0 <= i < |q| ==> 0 <= q[i] <= 255
  }

  const BLANK := WordState([0, 0, 0, 0, 0, 0, 0, 0], 0, -1, 0)

  /** evutil_inet_pton. */
  function Parse(s: string): Parsed
  {
    var dot := DotAt(s);
    if dot == |s| then ParseRest(s, |s|, BLANK, 0)
    else if dot == 0 then Bad(0)
    else ParseDotted(s, DigitsBack(s, dot))
  }

  function ParseRest(s: string, eow: nat, st: WordState, dots: nat): Parsed
    requires |st.words| == 8
  {
    var r := ParseWords(s, eow, st);
    if r.None? then Bad(0) else Assemble(r.value, dots)
  }

  /** A source that ends in a dotted quad, which starts at `eow`. */
  function ParseDotted(s: string, eow: nat): Parsed
    requires eow <= |s|
  {
    AfterQuad(s, eow, ScanDotted(s[eow..], 4))
  }

  function AfterQuad(s: string, eow: nat, q: Option<seq<int>>): Parsed
    requires q.Some? ==> |q.value| == 4
  {
    if q.None? || !FourBytes(q.value) then Bad(0)
    else ParseRest(s, eow, QuadState(256 * q.value[0] + q.value[1], 256 * q.value[2] + q.value[3]), 2)
  }

  /** The state in which the parser starts on the words when a dotted quad follows them. */
  function QuadState(w6: int, w7: int): WordState
  {
    WordState([0, 0, 0, 0, 0, 0, w6, w7], 0, -1, 2)
  }

  // ---------- Reading words back ----------

  /** The parser's state once it has read the words before `i` of a text with "::" at `g`. */
  ghost predicate ReadUpTo(w: seq<int>, i: nat, g: int, st: WordState)
    requires IsAddr(w)
  {
    && |st.words| == 8 && st.setWords == st.i && i <= 8
    && if g < 0 || i <= g then st.i == i && st.gap == -1 && st.words[..i] == w[..i]
       else
         var n := ZeroRun(w, g);
         && g + n <= i && st.i == i - n && st.gap == g
         && st.words[..g] == w[..g] && st.words[g..i - n] == w[g + n..i]
  }

  /** Reading one word. */
  lemma WordRead(w: seq<int>, i: nat, g: int, st: WordState)
    requires IsAddr(w) && i < 8 && g < 8 && ReadUpTo(w, i, g, st) && !(i == g && w[i] == 0)
    requires g >= 0 ==> w[g] == 0
    ensures st.i < 8
    ensures ReadUpTo(w, i + 1, g, st.(words := st.words[st.i := w[i]], i := st.i + 1, setWords := st.setWords + 1))
  {
    var r := st.words[st.i := w[i]];
    if g < 0 || i < g {
      assert r[..i + 1] == st.words[..i] + [w[i]] == w[..i + 1];
    } else {
      var n := ZeroRun(w, g);
      assert r[g..i + 1 - n] == st.words[g..i - n] + [w[i]];
      assert w[g + n..i + 1] == w[g + n..i] + [w[i]];
      assert r[..g] == st.words[..g];
    }
  }

  /** Seeing the "::". */
  lemma GapRead(w: seq<int>, g: nat, st: WordState)
    requires IsAddr(w) && g < 8 && w[g] == 0 && ReadUpTo(w, g, g, st)
    ensures ReadUpTo(w, g + ZeroRun(w, g), g, st.(gap := g)) && st.i == g && st.gap == -1
  {
  }

  lemma OneRound(u: string, m: int, st: WordState, a: Round, rest: string, k: int, r: WordState)
    requires |st.words| == 8 && m > 0 && ParseRound(u, m, st) == Some(a)
    requires Drop(u, a.adv) == rest && k == m - a.adv && ParseWords(rest, k, a.st) == Some(r)
    ensures ParseWords(u, m, st) == Some(r)
  {
  }

  lemma GapRound(p: string, rest: string, st: WordState, m: int)
    requires |st.words| == 8 && st.i < 8 && st.gap == -1 && p == (if st.i == 0 then "::" else ":")
    ensures ParseRound(p + rest, m, st) == Some(Round(|p|, st.(gap := st.i)))
    ensures Drop(p + rest, |p|) == rest
  {
  }

  lemma WordLength(x: int)
    requires 0 <= x < 0x10000
    ensures |Digits(x, true)| <= 4
  {
    assert Power16(4) == 16 * Power16(3) && Power16(3) == 16 * Power16(2) && Power16(2) == 16 * Power16(1) && Power16(1) == 16;
    HexLength(x, 4);
  }

  lemma RoundOfWord(u: string, m: int, st: WordState, x: Scanned)
    requires |st.words| == 8 && st.i < 8 && u != "" && IsHexDigit(u[0]) && Strtol16(u) == x
    requires x.len <= 4 && 0 <= x.value < 0x10000 && (CharAt(u, x.len) == ':' || x.len == m)
    ensures ParseRound(u, m, st) == Some(Round(x.len + 1, SetWord(st, x.value)))
  {
  }

  /** A printed word, followed by a colon or by nothing, is read back. */
  lemma WordRound(x: int, tail: string, st: WordState, m: int)
    requires |st.words| == 8 && st.i < 8 && 0 <= x < 0x10000 && (tail != "" ==> tail[0] == ':')
    requires tail == "" ==> m == |Digits(x, true)|
    ensures ParseRound(Digits(x, true) + tail, m, st) == Some(Round(|Digits(x, true)| + 1, SetWord(st, x)))
  {
    var d := Digits(x, true);
    StrtolPrinted(x, tail);
    WordLength(x);
    assert tail != "" ==> (d + tail)[|d|] == tail[0];
    RoundOfWord(d + tail, m, st, Scanned(x, |d|));
  }

  lemma DropWord(d: string, tail: string)
    ensures Drop(d + tail, |d| + 1) == if tail == "" then "" else tail[1..]
  {
  }

  lemma WordPiece(w: seq<int>, i: nat, g: int, st: WordState, n: nat) returns (a: Round)
    requires IsAddr(w) && i < 8 && g < 8 && (g >= 0 ==> w[g] == 0) && ReadUpTo(w, i, g, st)
    requires !(i == g && w[i] == 0) && n == |WordsText(w, i, g)|
    ensures ReadUpTo(w, i + 1, g, a.st) && ParseRound(WordsText(w, i, g), n, st) == Some(a)
    ensures Drop(WordsText(w, i, g), a.adv) == WordsText(w, i + 1, g)
    ensures a.adv == |Digits(w[i], true)| + 1 && n == |Digits(w[i], true)| + (if i != 7 then 1 else 0) + |WordsText(w, i + 1, g)|
  {
    var d, tail := Digits(w[i], true), (if i != 7 then ":" else "") + WordsText(w, i + 1, g);
    WordRead(w, i, g, st);
    assert WordsText(w, i, g) == d + tail;
    WordRound(w[i], tail, st, n);
    DropWord(d, tail);
    a := Round(|d| + 1, SetWord(st, w[i]));
  }

  lemma GapPiece(w: seq<int>, g: nat, st: WordState, n: nat) returns (a: Round)
    requires IsAddr(w) && g < 8 && w[g] == 0 && ReadUpTo(w, g, g, st) && n == |WordsText(w, g, g)|
    ensures ReadUpTo(w, Next(w, g, g), g, a.st) && ParseRound(WordsText(w, g, g), n, st) == Some(a)
    ensures Drop(WordsText(w, g, g), a.adv) == WordsText(w, Next(w, g, g), g)
    ensures a.adv > 0 && n == a.adv + |WordsText(w, Next(w, g, g), g)|
  {
    GapRead(w, g, st);
    GapRound(Piece(w, g, g), WordsText(w, Next(w, g, g), g), st, n);
    a := Round(|Piece(w, g, g)|, st.(gap := st.i));
  }

  lemma {:induction false} WordsReadBack(w: seq<int>, i: nat, g: int, st: WordState, n: nat) returns (r: WordState)
    requires IsAddr(w) && i <= 8 && g < 8 && (g >= 0 ==> w[g] == 0) && ReadUpTo(w, i, g, st)
    requires n == |WordsText(w, i, g)|
    ensures ReadUpTo(w, 8, g, r)
    ensures ParseWords(WordsText(w, i, g), n, st) == Some(r)
    decreases 8 - i
  {
    if i == 8 {
      r := st;
    } else {
      var a, next := Round(0, st), Next(w, i, g);
      if i == g && w[i] == 0 {
        a := GapPiece(w, i, st, n);
      } else {
        a := WordPiece(w, i, g, st, n);
      }
      var k := n - a.adv;
      if k < 0 {
        r := a.st;
      } else {
        r := WordsReadBack(w, next, g, a.st, k);
      }
      OneRound(WordsText(w, i, g), n, st, a, WordsText(w, next, g), k, r);
    }
  }

  /** All eight words read: putting the zeros back where "::" stood gives the address. */
  lemma AssembledBack(w: seq<int>, g: int, st: WordState)
    requires IsAddr(w) && g < 8 && (g >= 0 ==> w[g] == 0) && (g < 0 ==> g == -1) && ReadUpTo(w, 8, g, st)
    ensures Assemble(st, 0) == Addr(w)
  {
    if g < 0 {
      assert st.words == st.words[..8] == w[..8] == w;
    } else {
      var n := ZeroRun(w, g);
      assert w == w[..g] + seq(n, _ => 0) + w[g + n..8] + st.words[8..];
    }
  }

  // ---------- The round trip ----------

  predicate NoDot(s: string)
  {
    forall i :: 0 <= i < |s| ==> s[i] != '.'
  }

  lemma {:induction false} FirstDot(a: string, rest: string)
    requires NoDot(a) && (rest != "" ==> rest[0] == '.')
    ensures DotAt(a + rest) == |a|
  {
    if a == "" {
      assert a + rest == rest;
    } else {
      assert (a + rest)[1..] == a[1..] + rest;
      FirstDot(a[1..], rest);
    }
  }

  lemma {:induction false} DigitsBackIs(pre: string, d: string, rest: string)
    requires AllDigits(d, false) && (pre == "" || !IsDigit(pre[|pre| - 1]))
    ensures DigitsBack(pre + d + rest, |pre| + |d|) == |pre|
    decreases |d|
  {
    if d != "" {
      var e := |d| - 1;
      assert pre + d + rest == pre + d[..e] + ([d[e]] + rest);
      DigitsBackIs(pre, d[..e], [d[e]] + rest);
    }
  }

  lemma DigitsNoDot(n: nat, hex: bool)
    ensures NoDot(Digits(n, hex))
  {
    DigitsReadBack(n, hex);
  }

  lemma {:induction false} WordsNoDot(w: seq<int>, i: nat, g: int)
    requires IsAddr(w) && i <= 8
    ensures NoDot(WordsText(w, i, g))
    decreases 8 - i
  {
    if i < 8 {
      DigitsNoDot(w[i], true);
      WordsNoDot(w, Next(w, i, g), g);
    }
  }

  /** An address printed word by word is parsed back, wherever "::" stands for zero words. */
  lemma WordsRoundTrip(w: seq<int>, g: int)
    requires IsAddr(w) && -1 <= g < 8 && (g >= 0 ==> w[g] == 0)
    ensures Parse(WordsText(w, 0, g)) == Addr(w)
  {
    var t := WordsText(w, 0, g);
    WordsNoDot(w, 0, g);
    FirstDot(t, "");
    assert t + "" == t;
    assert BLANK.words[..0] == w[..0];
    var r := WordsReadBack(w, 0, g, BLANK, |t|);
    AssembledBack(w, g, r);
  }

  /** The quad at the end of a text is found. */
  lemma QuadFound(q: seq<int>, pre: string)
    requires FourBytes(q)
    requires pre != "" && NoDot(pre) && !IsDigit(pre[|pre| - 1])
    ensures var s := pre + DottedText(q);
      DotAt(s) < |s| && DotAt(s) > 0 && DigitsBack(s, DotAt(s)) == |pre|
  {
    var d, rest := Digits(q[0], false), "." + DottedText(q[1..]);
    assert pre + DottedText(q) == pre + d + rest;
    DigitsReadBack(q[0], false);
    DigitsNoDot(q[0], false);
    FirstDot(pre + d, rest);
    DigitsBackIs(pre, d, rest);
  }

  /** And read, leaving the words in front to be parsed. */
  lemma QuadRead(q: seq<int>, pre: string, s: string, st: WordState)
    requires FourBytes(q) && pre != "" && NoDot(pre) && !IsDigit(pre[|pre| - 1])
    requires s == pre + DottedText(q) && st == QuadState(256 * q[0] + q[1], 256 * q[2] + q[3])
    ensures Parse(s) == ParseRest(s, |pre|, st, 2)
  {
    QuadFound(q, pre);
    DottedReadBack(q, 4);
    assert s[|pre|..] == DottedText(q);
    ParseIsDotted(s, |pre|);
    DottedIsRest(s, |pre|, s[|pre|..], q, st);
  }

  lemma ParseIsDotted(s: string, eow: nat)
    requires 0 < DotAt(s) < |s| && DigitsBack(s, DotAt(s)) == eow
    ensures eow <= |s| && Parse(s) == ParseDotted(s, eow)
  {
  }

  lemma DottedIsRest(s: string, eow: nat, tail: string, q: seq<int>, st: WordState)
    requires eow <= |s| && s[eow..] == tail && ScanDotted(tail, 4) == Some(q) && FourBytes(q)
    requires st == QuadState(256 * q[0] + q[1], 256 * q[2] + q[3])
    ensures ParseDotted(s, eow) == ParseRest(s, eow, st, 2)
  {
    assert ParseDotted(s, eow) == AfterQuad(s, eow, Some(q));
    StateAfterQuad(s, eow, q, st);
  }

  lemma StateAfterQuad(s: string, eow: nat, q: seq<int>, st: WordState)
    requires FourBytes(q) && st == QuadState(256 * q[0] + q[1], 256 * q[2] + q[3])
    ensures AfterQuad(s, eow, Some(q)) == ParseRest(s, eow, st, 2)
  {
  }

  lemma QuadWords(w: seq<int>)
    requires IsAddr(w)
    ensures w[6] == 256 * Quad(w)[0] + Quad(w)[1] && w[7] == 256 * Quad(w)[2] + Quad(w)[3]
  {
  }

  lemma RestIs(s: string, eow: nat, st: WordState, r: WordState, w: seq<int>)
    requires |st.words| == 8 && ParseWords(s, eow, st) == Some(r) && Assemble(r, 2) == Addr(w)
    ensures ParseRest(s, eow, st, 2) == Addr(w)
  {
  }

  lemma CompatibleRoundTrip(w: seq<int>, s: string)
    requires IsAddr(w) && IsCompatible(w) && s == "::" + DottedText(Quad(w))
    ensures Parse(s) == Addr(w)
  {
    var st := QuadState(w[6], w[7]);
    QuadWords(w);
    QuadRead(Quad(w), "::", s, st);
    CompatibleWords(DottedText(Quad(w)), st);
    CompatibleAssembled(w, st.(gap := 0));
    RestIs(s, 2, st, st.(gap := 0), w);
  }

  lemma CompatibleAssembled(w: seq<int>, st: WordState)
    requires IsAddr(w) && IsCompatible(w) && |st.words| == 8 && st.words[6..] == w[6..] && st.gap == 0 && st.setWords == 2
    ensures Assemble(st, 2) == Addr(w)
  {
    assert w == seq(6, _ => 0) + st.words[6..];
  }

  lemma CompatibleWords(rest: string, st: WordState)
    requires |st.words| == 8 && st.i == 0 && st.gap == -1
    ensures ParseWords("::" + rest, 2, st) == Some(st.(gap := 0))
  {
    GapRound("::", rest, st, 2);
    OneRound("::" + rest, 2, st, Round(2, st.(gap := 0)), rest, 0, st.(gap := 0));
  }

  lemma MappedRoundTrip(w: seq<int>, s: string)
    requires IsAddr(w) && IsMapped(w) && s == "::" + (Digits(w[5], true) + (":" + DottedText(Quad(w))))
    ensures Parse(s) == Addr(w)
  {
    var d, rest, st := Digits(w[5], true), DottedText(Quad(w)), QuadState(w[6], w[7]);
    MappedQuad(w, d, rest, s, st);
    MappedRest(w, rest, s, st, |d| + 3);
  }

  lemma MappedQuad(w: seq<int>, d: string, rest: string, s: string, st: WordState)
    requires IsAddr(w) && d == Digits(w[5], true) && rest == DottedText(Quad(w)) && s == "::" + (d + (":" + rest))
    requires st == QuadState(w[6], w[7])
    ensures Parse(s) == ParseRest(s, |d| + 3, st, 2)
  {
    var pre := "::" + d + ":";
    MappedText(d, rest);
    DigitsNoDot(w[5], true);
    assert NoDot(pre) && pre[|pre| - 1] == ':';
    QuadWords(w);
    QuadRead(Quad(w), pre, s, st);
  }

  lemma MappedRest(w: seq<int>, rest: string, s: string, st: WordState, m: int)
    requires IsAddr(w) && IsMapped(w) && s == "::" + (Digits(w[5], true) + (":" + rest))
    requires st == QuadState(w[6], w[7]) && m == |Digits(w[5], true)| + 3
    ensures ParseRest(s, m, st, 2) == Addr(w)
  {
    var r := SetWord(st.(gap := 0), w[5]);
    MappedWords(w[5], rest, st, m);
    MappedAssembled(w, r);
    RestIs(s, m, st, r, w);
  }

  lemma MappedText(d: string, rest: string)
    ensures "::" + (d + (":" + rest)) == "::" + d + ":" + rest
  {
  }

  lemma MappedAssembled(w: seq<int>, st: WordState)
    requires IsAddr(w) && IsMapped(w) && |st.words| == 8 && st.words[6..] == w[6..] && st.words[0] == w[5]
    requires st.gap == 0 && st.setWords == 3
    ensures Assemble(st, 2) == Addr(w)
  {
    assert w == seq(5, _ => 0) + st.words[0..1] + st.words[6..];
  }

  lemma MappedWords(x: int, rest: string, st: WordState, m: int)
    requires |st.words| == 8 && st.i == 0 && st.gap == -1 && 0 <= x < 0x10000 && m == |Digits(x, true)| + 3
    ensures ParseWords("::" + (Digits(x, true) + (":" + rest)), m, st) == Some(SetWord(st.(gap := 0), x))
  {
    var d, tail, u, n := Digits(x, true), ":" + rest, st.(gap := 0), |Digits(x, true)| + 1;
    var r := SetWord(u, x);
    GapRound("::", d + tail, st, m);
    WordRound(x, tail, u, n);
    DropWord(d, tail);
    OneRound(d + tail, n, u, Round(n, r), rest, 0, r);
    OneRound("::" + (d + tail), m, st, Round(2, u), d + tail, n, r);
  }

  /** Whatever an address is printed as, parsing it gives the address back. */
  lemma RoundTrip(w: seq<int>, t: string)
    requires IsAddr(w) && IsText(w, t)
    ensures Parse(t) == Addr(w)
  {
    if IsCompatible(w) {
      CompatibleRoundTrip(w, t);
    } else if IsMapped(w) {
      MappedRoundTrip(w, t);
    } else {
      var g, n :| -1 <= g < 8 && IsGap(w, g, n) && t == WordsText(w, 0, g);
      WordsRoundTrip(w, g);
    }
  }

  /** So no two addresses share a text. */
  lemma TextsDiffer(v: seq<int>, w: seq<int>, t: string)
    requires IsAddr(v) && IsAddr(w) && IsText(v, t) && IsText(w, t)
    ensures v == w
  {
    RoundTrip(v, t);
    RoundTrip(w, t);
  }
}
