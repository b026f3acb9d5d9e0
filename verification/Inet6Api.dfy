/** The IPv6 printer and parser on the sixteen bytes of an address, and what callers can rely on. */
module Inet6Api {
  import opened Lists
  import opened Inet6Text
  import opened Inet6

  predicate IsBytes(b: seq<int>)
  {
    |b| == 16 && forall i :: 0 <= i < 16 ==> 0 <= b[i] <= 255
  }

  function WordsOf(b: seq<int>): (w: seq<int>)
    requires IsBytes(b)
    ensures IsAddr(w)
  {
    seq(8, i requires 0 <= i < 8 => 256 * b[2 * i] + b[2 * i + 1])
  }

  function BytesOf(w: seq<int>): (b: seq<int>)
    requires IsAddr(w)
    ensures IsBytes(b)
  {
    seq(16, i requires 0 <= i < 16 => if i % 2 == 0 then w[i / 2] / 256 else w[i / 2] % 256)
  }

  lemma BytesBack(b: seq<int>)
    requires IsBytes(b)
    ensures BytesOf(WordsOf(b)) == b
  {
    forall i | 0 <= i < 16
      ensures BytesOf(WordsOf(b))[i] == b[i]
    {
      assert WordsOf(b)[i / 2] == 256 * b[2 * (i / 2)] + b[2 * (i / 2) + 1];
    }
  }

  // ---------- Parsing in place ----------

  lemma DropDrop(s: string, a: nat, b: nat)
    ensures Drop(Drop(s, a), b) == Drop(s, a + b)
  {
  }

  /** The body of the parser's loop: one word, or the second colon of "::", or a "::" at the start. */
  method ScanWord(s: string, src: nat, eow: nat, st: WordState) returns (ok: bool, next: WordState, adv: nat)
    requires |st.words| == 8 && src < eow <= |s|
    ensures |next.words| == 8 && adv > 0
    ensures ParseRound(Drop(s, src), eow - src, st) == if ok then Some(Round(adv, next)) else None
  {
    ok, next, adv := true, st, 1;
    if st.i > 7 {
      return false, st, 1;
    }
    if IsHexDigit(s[src]) {
      var r := Strtol16(s[src..]);
      if r.len > 4 || r.value > 65536 || (CharAt(s[src..], r.len) != ':' && src + r.len != eow) {
        return false, st, 1;
      }
      next := WordState(st.words[st.i := r.value % 65536], st.i + 1, st.gap, st.setWords + 1);
      adv := r.len + 1;
    } else if s[src] == ':' && st.i > 0 && st.gap == -1 {
      next := st.(gap := st.i);
    } else if s[src] == ':' && st.i == 0 && CharAt(s[src..], 1) == ':' && st.gap == -1 {
      next, adv := st.(gap := 0), 2;
    } else {
      return false, st, 1;
    }
  }

  /** What the parser will make of the words still ahead. */
  function Outcome(u: string, m: int, st: WordState): Option<WordState>
    requires |st.words| == 8
  {
    ParseWords(u, m, st)
  }

  lemma RoundTaken(u: string, m: int, st: WordState, adv: nat, next: WordState, rest: string, k: int)
    requires |st.words| == 8 && m > 0 && ParseRound(u, m, st) == Some(Round(adv, next)) && |next.words| == 8
    requires rest == Drop(u, adv) && k == m - adv
    ensures Outcome(rest, k, next) == Outcome(u, m, st)
  {
  }

  lemma NoRound(u: string, m: int, st: WordState)
    requires |st.words| == 8 && m > 0 && ParseRound(u, m, st) == None
    ensures Outcome(u, m, st) == None
  {
  }

  /** The parser's loop over words. */
  method ScanWords(s: string, eow: nat, start: WordState) returns (ok: bool, st: WordState)
    requires |start.words| == 8 && eow <= |s|
    ensures |st.words| == 8
    ensures Outcome(s, eow, start) == if ok then Some(st) else None
  {
    var src: nat := 0;
    st := start;
    ghost var u, m := s, eow as int;
    while src < eow
      invariant |st.words| == 8 && u == Drop(s, src) && m == eow - src && Outcome(u, m, st) == Outcome(s, eow, start)
      decreases m
    {
      var next, adv;
      ok, next, adv := ScanWord(s, src, eow, st);
      if !ok {
        NoRound(u, m, st);
        return;
      }
      DropDrop(s, src, adv);
      ghost var rest, k := Drop(u, adv), m - adv;
      RoundTaken(u, m, st, adv, next, rest, k);
      u, m, st, src := rest, k, next, src + adv;
    }
    ok := true;
  }

  /** evutil_inet_pton: 1 and the bytes of the address, or the code it fails with. */
  method InetPton(s: string) returns (r: int, out: seq<int>)
    ensures r == 1 || r == 0
    ensures r == 1 ==> Parse(s).Addr? && IsAddr(Parse(s).words) && out == BytesOf(Parse(s).words)
    ensures r == 0 ==> Parse(s) == Bad(0)
  {
    var dot := DotAt(s);
    if dot == |s| {
      r, out := PtonWords(s, |s|, BLANK, 0);
    } else if dot == 0 {
      r, out := 0, [];
    } else {
      r, out := PtonDotted(s, DigitsBack(s, dot));
    }
  }

  method PtonDotted(s: string, eow: nat) returns (r: int, out: seq<int>)
    requires eow <= |s|
    ensures r == 1 || r == 0
    ensures r == 1 ==> ParseDotted(s, eow).Addr? && IsAddr(ParseDotted(s, eow).words) && out == BytesOf(ParseDotted(s, eow).words)
    ensures r == 0 ==> ParseDotted(s, eow) == Bad(0)
  {
    var q := ScanDotted(s[eow..], 4);
    if q.None? || !FourBytes(q.value) {
      return 0, [];
    }
    var st := QuadState(256 * q.value[0] + q.value[1], 256 * q.value[2] + q.value[3]);
    DottedIsRest(s, eow, s[eow..], q.value, st);
    r, out := PtonWords(s, eow, st, 2);
  }

  method PtonWords(s: string, eow: nat, start: WordState, dots: nat) returns (r: int, out: seq<int>)
    requires eow <= |s| && StateOk(start, dots) && (dots == 0 || dots == 2)
    ensures r == 1 || r == 0
    ensures r == 1 ==>
      ParseRest(s, eow, start, dots).Addr? && IsAddr(ParseRest(s, eow, start, dots).words) && out == BytesOf(ParseRest(s, eow, start, dots).words)
    ensures r == 0 ==> ParseRest(s, eow, start, dots) == Bad(0)
  {
    RestOk(s, eow, start, dots);
    var ok, st := ScanWords(s, eow, start);
    if !ok {
      return 0, [];
    }
    match Assemble(st, dots)
    case Bad(code) => return code, [];
    case Addr(words) => return 1, BytesOf(words);
  }

  // ---------- The parser never fails its own sanity check, and yields addresses ----------

  ghost predicate StateOk(st: WordState, dots: nat)
  {
    && |st.words| == 8 && st.setWords == st.i + dots && st.i <= 8 && -1 <= st.gap <= st.i
    && forall k :: 0 <= k < 8 ==> 0 <= st.words[k] < 0x10000
  }

  lemma RoundOk(u: string, m: int, st: WordState, dots: nat)
    requires StateOk(st, dots)
    ensures ParseRound(u, m, st).Some? ==> StateOk(ParseRound(u, m, st).value.st, dots)
  {
  }

  lemma {:induction false} WordsOk(u: string, m: int, st: WordState, dots: nat)
    requires StateOk(st, dots)
    ensures ParseWords(u, m, st).Some? ==> StateOk(ParseWords(u, m, st).value, dots)
    decreases m
  {
    RoundOk(u, m, st, dots);
    var a := ParseRound(u, m, st);
    if m > 0 && a.Some? {
      WordsOk(Drop(u, a.value.adv), m - a.value.adv, a.value.st, dots);
    }
  }

  lemma AssembleOk(st: WordState, dots: nat)
    requires StateOk(st, dots) && (dots == 0 || dots == 2)
    ensures Assemble(st, dots).Bad? ==> Assemble(st, dots).code == 0
    ensures Assemble(st, dots).Addr? ==> IsAddr(Assemble(st, dots).words)
  {
  }

  lemma RestOk(s: string, eow: nat, st: WordState, dots: nat)
    requires StateOk(st, dots) && (dots == 0 || dots == 2)
    ensures var r := ParseRest(s, eow, st, dots); if r.Bad? then r.code == 0 else IsAddr(r.words)
  {
    WordsOk(s, eow, st, dots);
    if ParseWords(s, eow, st).Some? {
      AssembleOk(ParseWords(s, eow, st).value, dots);
    }
  }

  /** For every string: what is parsed is an address, and the branch marked impossible is. */
  lemma ParseOk(s: string)
    ensures var r := Parse(s); if r.Bad? then r.code == 0 else IsAddr(r.words)
  {
    var dot := DotAt(s);
    if dot == |s| {
      RestOk(s, |s|, BLANK, 0);
    } else if dot > 0 {
      DottedOk(s, DigitsBack(s, dot));
    }
  }

  lemma DottedOk(s: string, eow: nat)
    requires eow <= |s|
    ensures var r := ParseDotted(s, eow); if r.Bad? then r.code == 0 else IsAddr(r.words)
  {
    var q := ScanDotted(s[eow..], 4);
    if q.Some? && FourBytes(q.value) {
      var st := QuadState(256 * q.value[0] + q.value[1], 256 * q.value[2] + q.value[3]);
      RestOk(s, eow, st, 2);
      DottedIsRest(s, eow, s[eow..], q.value, st);
    }
  }

  // ---------- Round trip with buffers ----------

  /** evutil_inet_ntop, then evutil_inet_pton: with a buffer longer than the text, the same bytes; and 40 chars are
      always enough. */
  method ThereAndBack(b: seq<int>, len: nat) returns (printed: bool, r: int, out: seq<int>, ghost text: string)
    requires IsBytes(b)
    ensures IsText(WordsOf(b), text) && |text| <= 39
    ensures printed <==> |text| <= len
    ensures |text| < len ==> r == 1 && out == b
  {
    var t;
    t, text := Ntop(WordsOf(b), len);
    TextFits(WordsOf(b), text);
    RoundTrip(WordsOf(b), text);
    BytesBack(b);
    if t == None {
      return false, 0, [], text;
    }
    printed := true;
    r, out := InetPton(t.value);
  }

  lemma {:induction false} WordsFit(w: seq<int>, i: nat, g: int)
    requires IsAddr(w) && i < 8
    ensures |WordsText(w, i, g)| <= 5 * (8 - i) - 1
    decreases 8 - i
  {
    WordLength(w[i]);
    if Next(w, i, g) < 8 {
      WordsFit(w, Next(w, i, g), g);
    }
  }

  lemma ByteLength(n: int)
    requires 0 <= n <= 255
    ensures |Digits(n, false)| <= 3
  {
    var tens, hundreds := n / 10, n / 10 / 10;
    assert hundreds < 10 && |Digits(hundreds, false)| == 1;
    assert |Digits(tens, false)| <= 2;
  }

  lemma {:induction false} DottedFits(ns: seq<int>)
    requires forall i :: 0 <= i < |ns| ==> 0 <= ns[i] <= 255
    ensures |DottedText(ns)| <= 4 * |ns|
  {
    if ns != [] {
      ByteLength(ns[0]);
      DottedFits(ns[1..]);
    }
  }

  /** No text is longer than 39 chars. */
  lemma TextFits(w: seq<int>, t: string)
    requires IsAddr(w) && IsText(w, t)
    ensures |t| <= 39
  {
    DottedFits(Quad(w));
    WordLength(w[5]);
    if !IsCompatible(w) && !IsMapped(w) {
      var g, n :| -1 <= g < 8 && IsGap(w, g, n) && t == WordsText(w, 0, g);
      WordsFit(w, 0, g);
    }
  }

  lemma ZeroParsed(zero: seq<int>)
    requires zero == [0, 0, 0, 0, 0, 0, 0, 0]
    ensures Parse("::") == Addr(zero)
  {
    assert ZeroRun(zero, 0) == 8 by {
      assert ZeroRun(zero, 4) == 4;
    }
    assert WordsText(zero, 0, 0) == "::";
    WordsRoundTrip(zero, 0);
  }

  lemma OneGap(one: seq<int>)
    requires one == [0, 0, 0, 0, 0, 0, 0, 1]
    ensures IsGap(one, 0, 7)
  {
    assert AllZero(one, 0, 7);
    forall a, b | AllZero(one, a, b)
      ensures b <= 7 || a == b
    {
      if a < b && b == 8 {
        ZeroAt(one, a, b, 7);
      }
    }
  }

  lemma OneText(one: seq<int>)
    requires one == [0, 0, 0, 0, 0, 0, 0, 1]
    ensures IsText(one, "::1")
  {
    assert ZeroRun(one, 0) == 7 by {
      assert ZeroRun(one, 6) == 1;
      assert ZeroRun(one, 4) == 3;
      assert ZeroRun(one, 2) == 5;
    }
    assert WordsText(one, 7, 0) == "1";
    assert WordsText(one, 0, 0) == "::1";
    OneGap(one);
  }

  /** A buffer that the text exactly fills is not refused, but loses the last char: "::1" in three bytes
      comes back as another address. */
  lemma ExactBufferMisleads(one: seq<int>, zero: seq<int>)
    requires one == [0, 0, 0, 0, 0, 0, 0, 1] && zero == [0, 0, 0, 0, 0, 0, 0, 0]
    ensures IsText(one, "::1") && Parse("::1"[..2]) == Addr(zero)
  {
    OneText(one);
    ZeroParsed(zero);
    assert "::1"[..2] == "::";
  }
}
