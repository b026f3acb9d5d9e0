/** Exactly which texts the IPv6 parser accepts, and which address each of them means. */
module Inet6Grammar {
  import opened Lists
  import opened Inet6Text
  import opened Inet6
  import opened Inet6Api

  // ---------- Words ----------

  /** strtol takes a 0x prefix in front of a digit. */
  predicate Prefixed(t: string)
  {
    |t| >= 3 && t[0] == '0' && (t[1] == 'x' || t[1] == 'X')
  }

  /** One to four chars: hex digits, or a prefix and hex digits. */
  predicate WordOk(t: string)
  {
    1 <= |t| <= 4 && if Prefixed(t) then AllDigits(t[2..], true) else AllDigits(t, true)
  }

  function WordValue(t: string): nat
  {
    if Prefixed(t) then Value(t[2..], true) else Value(t, true)
  }

  predicate AllWords(ws: seq<string>)
  {
    forall i :: 0 <= i < |ws| ==> WordOk(ws[i])
  }

  function Values(ws: seq<string>): (vs: seq<int>)
    ensures |vs| == |ws|
  {
    seq(|ws|, i requires 0 <= i < |ws| => WordValue(ws[i]))
  }

  /** Words, each with its colon; the last one without, if it is the end of the text and not `colon`. */
  function Listed(ws: seq<string>, colon: bool): string
  {
    if ws == [] then "" else ws[0] + ((if colon || |ws| > 1 then ":" else "") + Listed(ws[1..], colon))
  }

  // ---------- Texts ----------

  /** Words in front of "::" and behind it; `colon` if the last word has a colon behind it. */
  datatype Shape = Shape(front: seq<string>, gap: bool, back: seq<string>, colon: bool)

  /** The text of a shape; a gap with no word in front of it has two colons of its own. */
  function ShapeText(sh: Shape): string
  {
    TextFrom(sh, 0)
  }

  /** The rest of a text that has `i` words already. */
  function TextFrom(sh: Shape, i: nat): string
  {
    if !sh.gap then Listed(sh.front, sh.colon)
    else Listed(sh.front, true) + ((if i == 0 && sh.front == [] then "::" else ":") + Listed(sh.back, sh.colon))
  }

  /** A dotted quad: it starts with a digit, and the numbers are bytes. */
  predicate QuadOk(q: string)
  {
    StartsQuad(q) && ScanDotted(q, 4).Some? && FourBytes(ScanDotted(q, 4).value)
  }

  predicate StartsQuad(q: string)
  {
    var d := Span(q, false);
    0 < d < |q| && q[d] == '.'
  }

  function QuadWords(q: string): seq<int>
    requires q != "" ==> QuadOk(q)
  {
    if q == "" then []
    else var b := ScanDotted(q, 4).value; [256 * b[0] + b[1], 256 * b[2] + b[3]]
  }

  /** Eight words, or fewer with a gap; a quad stands for two and has a colon in front of it. */
  predicate ShapeOk(sh: Shape, q: string)
  {
    && AllWords(sh.front) && AllWords(sh.back) && (!sh.gap ==> sh.back == [])
    && (q != "" ==> QuadOk(q) && sh.colon)
    && var n := |sh.front| + |sh.back| + if q == "" then 0 else 2;
       if sh.gap then n < 8 else n == 8
  }

  function Zeros(n: nat): seq<int>
  {
    seq(n, _ => 0)
  }

  /** The words of the address, the gap filled with zeros. */
  function ShapeWords(sh: Shape, q: string): seq<int>
    requires ShapeOk(sh, q)
  {
    var quad := QuadWords(q);
    Values(sh.front) + Zeros(8 - |sh.front| - |sh.back| - |quad|) + Values(sh.back) + quad
  }

  // ---------- Reading one word ----------

  lemma {:induction false} ValueBound(s: string, k: nat)
    requires |s| <= k
    ensures Value(s, true) < Power16(k)
    decreases k
  {
    if s != "" {
      ValueBound(s[..|s| - 1], k - 1);
    } else {
      PowerPositive(k);
    }
  }

  lemma {:induction false} PowerPositive(k: nat)
    ensures Power16(k) > 0
  {
    if k > 0 {
      PowerPositive(k - 1);
    }
  }

  lemma WordBound(t: string)
    requires |t| <= 4
    ensures WordValue(t) < 0x10000
  {
    assert Power16(4) == 16 * Power16(3) && Power16(3) == 16 * Power16(2) && Power16(2) == 16 * Power16(1) && Power16(1) == 16;
    var k := 4;
    ValueBound(if Prefixed(t) then t[2..] else t, k);
  }

  lemma WordScan(t: string, tail: string)
    requires WordOk(t) && (tail != "" ==> tail[0] == ':')
    ensures IsHexDigit((t + tail)[0]) && Strtol16(t + tail) == Scanned(WordValue(t), |t|)
  {
    var u := t + tail;
    assert u[0] == t[0] && (|t| > 1 ==> u[1] == t[1]) && (|t| > 2 ==> u[2] == t[2]);
    if Prefixed(t) {
      assert u[2..] == t[2..] + tail;
      SpanIs(t[2..], tail, true);
      assert u[2..|t|] == t[2..];
    } else {
      SpanIs(t, tail, true);
      assert u[..|t|] == t;
    }
  }

  /** Some chars of a number, and what is behind it. */
  lemma {:induction false} SpanFacts(s: string, hex: bool)
    ensures forall i :: 0 <= i < Span(s, hex) ==> InBase(hex, s[i])
    ensures Span(s, hex) < |s| ==> !InBase(hex, s[Span(s, hex)])
  {
    if s != "" && InBase(hex, s[0]) {
      SpanFacts(s[1..], hex);
      forall i | 0 <= i < Span(s, hex)
        ensures InBase(hex, s[i])
      {
        if i > 0 {
          assert s[i] == s[1..][i - 1];
        }
      }
    }
  }

  /** What strtol takes, if it is short enough, is a word; what follows is no hex digit. */
  lemma WordTaken(u: string, r: Scanned)
    requires u != "" && IsHexDigit(u[0]) && r == Strtol16(u) && r.len <= 4
    ensures r.len <= |u| && WordOk(u[..r.len]) && r.value == WordValue(u[..r.len])
    ensures forall i :: 0 <= i < r.len ==> u[i] != '.'
    ensures r.len < |u| ==> !IsHexDigit(u[r.len])
  {
    var t := u[..r.len];
    if u[0] == '0' && (CharAt(u, 1) == 'x' || CharAt(u, 1) == 'X') && IsHexDigit(CharAt(u, 2)) {
      SpanFacts(u[2..], true);
      assert t[2..] == u[2..r.len];
    } else {
      SpanFacts(u, true);
    }
  }

  // ---------- Reading a list of words ----------

  function SetAll(st: WordState, vs: seq<int>): (r: WordState)
    requires |st.words| == 8 && st.i + |vs| <= 8
    ensures |r.words| == 8 && r.i == st.i + |vs| && r.setWords == st.setWords + |vs| && r.gap == st.gap
    decreases |vs|
  {
    if vs == [] then st else SetAll(SetWord(st, vs[0]), vs[1..])
  }

  lemma {:induction false} SetAllWords(st: WordState, vs: seq<int>, k: nat)
    requires |st.words| == 8 && st.i + |vs| <= 8 && k == st.i + |vs|
    ensures SetAll(st, vs).words == st.words[..st.i] + vs + st.words[k..]
    decreases |vs|
  {
    if vs == [] {
      assert st.words == st.words[..st.i] + [] + st.words[k..];
    } else {
      var n := SetWord(st, vs[0]);
      SetAllWords(n, vs[1..], k);
      assert n.words[..n.i] == st.words[..st.i] + [vs[0]];
      assert n.words[k..] == st.words[k..];
      assert [vs[0]] + vs[1..] == vs;
    }
  }

  lemma ValuesTail(ws: seq<string>)
    requires ws != []
    ensures Values(ws)[0] == WordValue(ws[0]) && Values(ws)[1..] == Values(ws[1..])
  {
  }

  /** One word with its colon is read, and the rest goes on. */
  lemma RunWord(t: string, rest: string, st: WordState, k: nat, u: string, m: int)
    requires |st.words| == 8 && st.i < 8 && WordOk(t) && u == t + (":" + rest) && m == |t| + 1 + k
    ensures Outcome(u, m, st) == Outcome(rest, k, SetWord(st, WordValue(t)))
  {
    WordScan(t, ":" + rest);
    WordBound(t);
    assert u[|t|] == ':';
    RoundOfWord(u, m, st, Scanned(WordValue(t), |t|));
    RoundTaken(u, m, st, |t| + 1, SetWord(st, WordValue(t)), rest, k);
  }

  lemma ColonFirst(ws: seq<string>, colon: bool, rest: string, tail: string)
    requires ws != [] && colon && tail == Listed(ws[1..], colon)
    ensures Listed(ws, colon) + rest == ws[0] + (":" + (tail + rest)) && |Listed(ws, colon)| == |ws[0]| + 1 + |tail|
  {
    assert Listed(ws, colon) == ws[0] + (":" + tail);
  }

  lemma SetFirst(st: WordState, ws: seq<string>)
    requires |st.words| == 8 && st.i + |ws| <= 8 && ws != []
    ensures SetAll(st, Values(ws)) == SetAll(SetWord(st, WordValue(ws[0])), Values(ws[1..]))
  {
    ValuesTail(ws);
  }

  lemma NoWords(ws: seq<string>, colon: bool, rest: string, st: WordState, k: nat, u: string, m: int)
    requires |st.words| == 8 && st.i <= 8 && ws == []
    requires u == Listed(ws, colon) + rest && m == |Listed(ws, colon)| + k
    ensures u == rest && m == k && SetAll(st, Values(ws)) == st
  {
  }

  /** If reading goes on to `r` from behind some words with their colons, it comes to `r` from in front of them. */
  lemma {:induction false} RunColons(ws: seq<string>, colon: bool, rest: string, st: WordState, k: nat, u: string, m: int,
                                     r: Option<WordState>)
    requires |st.words| == 8 && st.i + |ws| <= 8 && AllWords(ws) && colon
    requires u == Listed(ws, colon) + rest && m == |Listed(ws, colon)| + k
    requires Outcome(rest, k, SetAll(st, Values(ws))) == r
    ensures Outcome(u, m, st) == r
    decreases |ws|
  {
    if ws == [] {
      NoWords(ws, colon, rest, st, k, u, m);
    } else {
      var tail := Listed(ws[1..], colon);
      var v, n, next := tail + rest, |tail| + k, SetWord(st, WordValue(ws[0]));
      ColonFirst(ws, colon, rest, tail);
      SetFirst(st, ws);
      RunColons(ws[1..], colon, rest, next, k, v, n, r);
      RunWord(ws[0], v, st, n, u, m);
    }
  }

  lemma LastWord(t: string, st: WordState)
    requires |st.words| == 8 && st.i < 8 && WordOk(t)
    ensures Outcome(t, |t|, st) == Some(SetWord(st, WordValue(t)))
  {
    WordScan(t, "");
    assert t + "" == t;
    WordBound(t);
    RoundOfWord(t, |t|, st, Scanned(WordValue(t), |t|));
    Ended(t, |t|, st, |t| + 1, SetWord(st, WordValue(t)));
  }

  /** A round that takes the rest of the part. */
  lemma Ended(u: string, m: int, st: WordState, adv: nat, next: WordState)
    requires |st.words| == 8 && m > 0 && ParseRound(u, m, st) == Some(Round(adv, next)) && |next.words| == 8 && m <= adv
    ensures Outcome(u, m, st) == Some(next)
  {
    var rest, k := Drop(u, adv), m - adv;
    RoundTaken(u, m, st, adv, next, rest, k);
  }

  /** A list of words that ends the part in front of a quad or of the end. */
  lemma {:induction false} RunListed(ws: seq<string>, colon: bool, q: string, st: WordState, u: string, m: int)
    requires |st.words| == 8 && st.i + |ws| <= 8 && AllWords(ws) && (q != "" ==> colon)
    requires u == Listed(ws, colon) + q && m == |Listed(ws, colon)|
    ensures Outcome(u, m, st) == Some(SetAll(st, Values(ws)))
    decreases |ws|
  {
    if ws == [] {
    } else if colon {
      RunColons(ws, colon, q, st, 0, u, m, Some(SetAll(st, Values(ws))));
    } else if |ws| == 1 {
      ValuesTail(ws);
      assert Listed(ws[1..], colon) == "" && u == ws[0];
      LastWord(ws[0], st);
    } else {
      var tail := Listed(ws[1..], colon);
      ValuesTail(ws);
      assert u == ws[0] + (":" + tail) && tail + q == tail;
      RunWord(ws[0], tail, st, |tail|, u, m);
      RunListed(ws[1..], colon, q, SetWord(st, WordValue(ws[0])), tail, |tail|);
    }
  }

  /** The state after the words of a shape. */
  function ShapeState(sh: Shape, st: WordState): WordState
    requires |st.words| == 8 && st.i + |sh.front| + |sh.back| <= 8
  {
    var s1 := SetAll(st, Values(sh.front));
    if sh.gap then SetAll(s1.(gap := s1.i), Values(sh.back)) else s1
  }

  lemma RunGap(p: string, rest: string, st: WordState, k: nat, u: string, m: int)
    requires |st.words| == 8 && st.i < 8 && st.gap == -1 && p == (if st.i == 0 then "::" else ":")
    requires u == p + rest && m == |p| + k
    ensures Outcome(u, m, st) == Outcome(rest, k, st.(gap := st.i))
  {
    GapRound(p, rest, st, m);
    RoundTaken(u, m, st, |p|, st.(gap := st.i), rest, k);
  }

  /** From the gap on. */
  lemma RunBehind(p: string, back: seq<string>, colon: bool, q: string, st: WordState, u: string, m: int)
    requires |st.words| == 8 && st.i + |back| < 8 && st.gap == -1 && AllWords(back) && (q != "" ==> colon)
    requires p == (if st.i == 0 then "::" else ":")
    requires u == p + (Listed(back, colon) + q) && m == |p| + |Listed(back, colon)|
    ensures Outcome(u, m, st) == Some(SetAll(st.(gap := st.i), Values(back)))
  {
    var tail := Listed(back, colon);
    RunGap(p, tail + q, st, |tail|, u, m);
    RunListed(back, colon, q, st.(gap := st.i), tail + q, |tail|);
  }

  lemma RunShape(sh: Shape, q: string, st: WordState, u: string, m: int)
    requires |st.words| == 8 && st.i == 0 && st.gap == -1 && AllWords(sh.front) && AllWords(sh.back)
    requires |sh.front| + |sh.back| < (if sh.gap then 8 else 9) && (q != "" ==> sh.colon) && (!sh.gap ==> sh.back == [])
    requires u == ShapeText(sh) + q && m == |ShapeText(sh)|
    ensures Outcome(u, m, st) == Some(ShapeState(sh, st))
  {
    if !sh.gap {
      RunListed(sh.front, sh.colon, q, st, u, m);
    } else {
      var p, tail, closed := if sh.front == [] then "::" else ":", Listed(sh.back, sh.colon), true;
      var head, rest, s1 := Listed(sh.front, closed), p + (tail + q), SetAll(st, Values(sh.front));
      RunBehind(p, sh.back, sh.colon, q, s1, rest, |p| + |tail|);
      Regrouped(head, p, tail, q);
      RunColons(sh.front, closed, rest, st, |p| + |tail|, u, m, Some(ShapeState(sh, st)));
    }
  }

  lemma Regrouped(head: string, p: string, tail: string, q: string)
    ensures head + (p + tail) + q == head + (p + (tail + q))
  {
  }

  // ---------- What was read is a shape ----------

  /** The part in front of a quad, or of the end of the text. */
  predicate Cut(u: string, m: int)
  {
    0 <= m <= |u| && (m < |u| ==> StartsQuad(u[m..]))
  }

  /** A number the loop takes ends in front of a colon that is still in its part, or at the end of the whole text. */
  lemma WordEnds(u: string, m: int, r: Scanned)
    requires Cut(u, m) && m > 0 && IsHexDigit(CharAt(u, 0)) && r == Strtol16(u) && r.len <= 4
    requires CharAt(u, r.len) == ':' || r.len == m
    ensures r.len <= m && (r.len == m ==> m == |u|) && (r.len < m ==> u[r.len] == ':')
  {
    WordTaken(u, r);
    if m < |u| {
      var q := u[m..];
      var d := Span(q, false);
      SpanFacts(q, false);
      assert u[m + d] == '.';
      forall i | m <= i < m + d
        ensures IsDigit(u[i])
      {
        assert u[i] == q[i - m];
      }
      assert r.len <= m + d;
    }
  }

  lemma ListedMore(ws: seq<string>, colon: bool, t: string, u: string, m: int, n: nat)
    requires 0 <= n < m <= |u| && u[..n] == t && u[n] == ':' && u[n + 1..][..m - n - 1] == Listed(ws, colon)
    ensures u[..m] == Listed([t] + ws, if ws == [] then true else colon)
  {
    assert ([t] + ws)[1..] == ws;
    assert u[..m] == u[..n] + ([u[n]] + u[n + 1..][..m - n - 1]);
  }

  /** One word of the loop: the word, and what is left. */
  lemma WordStep(u: string, m: int, st: WordState, r: WordState) returns (t: string, n: nat)
    requires |st.words| == 8 && Cut(u, m) && m > 0 && IsHexDigit(CharAt(u, 0)) && Outcome(u, m, st) == Some(r)
    requires ParseRound(u, m, st).Some?
    ensures st.i < 8 && 0 < n <= m && t == u[..n] && WordOk(t)
    ensures n == m ==> m == |u| && r == SetWord(st, WordValue(t))
    ensures n < m ==> u[n] == ':' && Cut(u[n + 1..], m - n - 1)
    ensures n < m ==> Outcome(u[n + 1..], m - n - 1, SetWord(st, WordValue(t))) == Some(r)
  {
    var x := WordIn(u, m, st);
    t, n := u[..x.len], x.len;
    if n < m {
      StepOn(u, m, st, x, u[n + 1..], m - n - 1);
    } else {
      Ended(u, m, st, n + 1, SetWord(st, x.value));
    }
  }

  lemma StepOn(u: string, m: int, st: WordState, x: Scanned, rest: string, k: int)
    requires |st.words| == 8 && st.i < 8 && Cut(u, m) && 0 < x.len < m && ParseRound(u, m, st) == Some(Round(x.len + 1, SetWord(st, x.value)))
    requires rest == u[x.len + 1..] && k == m - x.len - 1
    ensures Cut(rest, k) && Outcome(rest, k, SetWord(st, x.value)) == Outcome(u, m, st)
  {
    assert rest[k..] == u[m..];
    RoundTaken(u, m, st, x.len + 1, SetWord(st, x.value), rest, k);
  }

  lemma WordIn(u: string, m: int, st: WordState) returns (x: Scanned)
    requires |st.words| == 8 && Cut(u, m) && m > 0 && IsHexDigit(CharAt(u, 0)) && ParseRound(u, m, st).Some?
    ensures 0 < x.len <= m && WordOk(u[..x.len]) && x.value == WordValue(u[..x.len])
    ensures (x.len == m ==> m == |u|) && (x.len < m ==> u[x.len] == ':')
    ensures st.i < 8 && ParseRound(u, m, st) == Some(Round(x.len + 1, SetWord(st, x.value)))
  {
    x := Strtol16(u);
    WordEnds(u, m, x);
    WordTaken(u, x);
    WordBound(u[..x.len]);
    RoundOfWord(u, m, st, x);
  }

  lemma SomeRound(u: string, m: int, st: WordState)
    requires |st.words| == 8 && m > 0 && Outcome(u, m, st).Some?
    ensures ParseRound(u, m, st).Some?
  {
    if ParseRound(u, m, st).None? {
      NoRound(u, m, st);
    }
  }

  lemma SetMore(st: WordState, t: string, ws: seq<string>)
    requires |st.words| == 8 && st.i + 1 + |ws| <= 8
    ensures SetAll(st, Values([t] + ws)) == SetAll(SetWord(st, WordValue(t)), Values(ws))
  {
    ValuesTail([t] + ws);
    assert ([t] + ws)[1..] == ws;
  }

  lemma OneListed(ws: seq<string>, t: string, colon: bool, st: WordState)
    requires |st.words| == 8 && st.i < 8 && ws == [t] && !colon
    ensures Listed(ws, colon) == t && SetAll(st, Values(ws)) == SetWord(st, WordValue(t))
  {
    assert ws[1..] == [] && Listed(ws, colon) == t + ("" + "");
    SetMore(st, t, []);
    assert [t] + [] == ws;
  }

  ghost predicate BackAs(u: string, m: int, st: WordState, r: WordState, ws: seq<string>, colon: bool)
    requires 0 <= m <= |u| && |st.words| == 8
  {
    && AllWords(ws) && st.i + |ws| <= 8 && (m < |u| ==> colon)
    && u[..m] == Listed(ws, colon) && r == SetAll(st, Values(ws))
  }

  lemma MoreBack(u: string, m: int, st: WordState, r: WordState, t: string, n: nat, ws: seq<string>, colon: bool)
    requires |st.words| == 8 && st.i < 8 && n < m <= |u| && WordOk(t) && t == u[..n] && u[n] == ':'
    requires BackAs(u[n + 1..], m - n - 1, SetWord(st, WordValue(t)), r, ws, colon)
    ensures BackAs(u, m, st, r, [t] + ws, if ws == [] then true else colon)
  {
    ListedMore(ws, colon, t, u, m, n);
    SetMore(st, t, ws);
  }

  /** Behind the gap there are only words. */
  lemma {:induction false} ReadBack(u: string, m: int, st: WordState, r: WordState) returns (ws: seq<string>, colon: bool)
    requires |st.words| == 8 && st.i <= 8 && st.gap >= 0 && Cut(u, m) && Outcome(u, m, st) == Some(r)
    ensures BackAs(u, m, st, r, ws, colon)
    decreases m
  {
    if m == 0 {
      ws, colon := [], true;
    } else {
      SomeRound(u, m, st);
      var t, n := WordStep(u, m, st, r);
      if n == m {
        ws, colon := [t], false;
        OneListed(ws, t, colon, st);
      } else {
        var rest, c := ReadBack(u[n + 1..], m - n - 1, SetWord(st, WordValue(t)), r);
        ws, colon := [t] + rest, if rest == [] then true else c;
        MoreBack(u, m, st, r, t, n, rest, c);
      }
    }
  }

  lemma CutBehind(u: string, m: int, adv: nat, v: string, k: int)
    requires Cut(u, m) && adv <= m && v == u[adv..] && k == m - adv
    ensures Cut(v, k) && u[..m] == u[..adv] + v[..k]
  {
    assert v[k..] == u[m..];
  }

  /** The second colon of a gap is in the same part. */
  lemma GapInside(u: string, m: int)
    requires Cut(u, m) && m > 0 && CharAt(u, 0) == ':' && CharAt(u, 1) == ':'
    ensures m >= 2 && u[..2] == "::"
  {
    if m == 1 && m < |u| {
      SpanFacts(u[m..], false);
    }
  }

  /** The loop sees a gap. */
  lemma GapStep(u: string, m: int, st: WordState) returns (adv: nat, v: string, k: int)
    requires |st.words| == 8 && Cut(u, m) && m > 0 && !IsHexDigit(CharAt(u, 0)) && ParseRound(u, m, st).Some?
    ensures st.i < 8 && adv == (if st.i == 0 then 2 else 1) && adv <= m && u[..adv] == (if st.i == 0 then "::" else ":")
    ensures v == u[adv..] && k == m - adv && Cut(v, k) && Outcome(v, k, st.(gap := st.i)) == Outcome(u, m, st)
    ensures u[..m] == u[..adv] + v[..k]
  {
    if st.i == 0 {
      GapInside(u, m);
    }
    adv := if st.i == 0 then 2 else 1;
    v, k := u[adv..], m - adv;
    CutBehind(u, m, adv, v, k);
    RoundTaken(u, m, st, adv, st.(gap := st.i), v, k);
  }

  /** One more word in front. */
  function WithWord(t: string, sh: Shape): Shape
  {
    Shape([t] + sh.front, sh.gap, sh.back, if !sh.gap && sh.front == [] then true else sh.colon)
  }

  lemma WithWordText(t: string, sh: Shape, i: nat, u: string, m: int, n: nat)
    requires 0 <= n < m <= |u| && u[..n] == t && u[n] == ':' && u[n + 1..][..m - n - 1] == TextFrom(sh, i + 1)
    ensures u[..m] == TextFrom(WithWord(t, sh), i)
  {
    var colon := true;
    assert ([t] + sh.front)[1..] == sh.front;
    assert u[..m] == t + (":" + u[n + 1..][..m - n - 1]);
    if !sh.gap {
      var c := WithWord(t, sh).colon;
      assert Listed([t] + sh.front, c) == t + (":" + Listed(sh.front, c));
      assert Listed(sh.front, c) == Listed(sh.front, sh.colon);
    } else {
      var tail := ":" + Listed(sh.back, sh.colon);
      assert Listed([t] + sh.front, colon) == t + (":" + Listed(sh.front, colon));
      assert t + (":" + (Listed(sh.front, colon) + tail)) == t + (":" + Listed(sh.front, colon)) + tail;
    }
  }

  lemma WithWordState(t: string, sh: Shape, st: WordState)
    requires |st.words| == 8 && st.i + 1 + |sh.front| + |sh.back| <= 8
    ensures ShapeState(WithWord(t, sh), st) == ShapeState(sh, SetWord(st, WordValue(t)))
  {
    SetMore(st, t, sh.front);
  }

  lemma OneWord(t: string, i: nat, st: WordState)
    requires |st.words| == 8 && st.i < 8
    ensures TextFrom(Shape([t], false, [], false), i) == t
    ensures ShapeState(Shape([t], false, [], false), st) == SetWord(st, WordValue(t))
  {
    OneListed([t], t, false, st);
  }

  lemma OnlyGap(ws: seq<string>, colon: bool, i: nat, st: WordState)
    requires |st.words| == 8 && st.i + |ws| <= 8
    ensures TextFrom(Shape([], true, ws, colon), i) == (if i == 0 then "::" else ":") + Listed(ws, colon)
    ensures ShapeState(Shape([], true, ws, colon), st) == SetAll(st.(gap := st.i), Values(ws))
  {
    var closed := true;
    assert Listed([], closed) == "";
  }

  ghost predicate ReadAs(u: string, m: int, st: WordState, r: WordState, sh: Shape)
    requires 0 <= m <= |u| && |st.words| == 8
  {
    && AllWords(sh.front) && AllWords(sh.back) && (!sh.gap ==> sh.back == []) && (m < |u| ==> sh.colon)
    && st.i + |sh.front| + |sh.back| <= 8 && u[..m] == TextFrom(sh, st.i) && r == ShapeState(sh, st)
  }

  /** What the loop reads is the text of a shape, and it sets that shape's words. */
  lemma {:induction false} ReadFront(u: string, m: int, st: WordState, r: WordState) returns (sh: Shape)
    requires |st.words| == 8 && st.i <= 8 && st.gap == -1 && Cut(u, m) && Outcome(u, m, st) == Some(r)
    ensures ReadAs(u, m, st, r, sh)
    decreases m
  {
    if m == 0 {
      sh := Shape([], false, [], true);
    } else {
      SomeRound(u, m, st);
      if IsHexDigit(CharAt(u, 0)) {
        var t, n := WordStep(u, m, st, r);
        if n == m {
          sh := Shape([t], false, [], false);
          OneWord(t, st.i, st);
        } else {
          var rest := ReadFront(u[n + 1..], m - n - 1, SetWord(st, WordValue(t)), r);
          sh := WithWord(t, rest);
          ReadOneMore(u, m, st, r, t, n, rest);
        }
      } else {
        sh := ReadGap(u, m, st, r);
      }
    }
  }

  lemma ReadOneMore(u: string, m: int, st: WordState, r: WordState, t: string, n: nat, rest: Shape)
    requires |st.words| == 8 && st.i < 8 && n < m <= |u| && WordOk(t) && t == u[..n] && u[n] == ':'
    requires ReadAs(u[n + 1..], m - n - 1, SetWord(st, WordValue(t)), r, rest)
    ensures ReadAs(u, m, st, r, WithWord(t, rest))
  {
    WithWordText(t, rest, st.i, u, m, n);
    WithWordState(t, rest, st);
  }

  lemma ReadGap(u: string, m: int, st: WordState, r: WordState) returns (sh: Shape)
    requires |st.words| == 8 && st.i <= 8 && st.gap == -1 && Cut(u, m) && m > 0 && Outcome(u, m, st) == Some(r)
    requires !IsHexDigit(CharAt(u, 0)) && ParseRound(u, m, st).Some?
    ensures ReadAs(u, m, st, r, sh)
  {
    var adv, v, k := GapStep(u, m, st);
    var ws, colon := ReadBack(v, k, st.(gap := st.i), r);
    sh := Shape([], true, ws, colon);
    OnlyGap(ws, colon, st.i, st);
  }

  // ---------- The checks after the loop ----------

  function QuadCount(q: string): nat
  {
    if q == "" then 0 else 2
  }

  /** The state the loop starts in. */
  function StartState(q: string): WordState
    requires q != "" ==> QuadOk(q)
  {
    if q == "" then BLANK else QuadState(QuadWords(q)[0], QuadWords(q)[1])
  }

  /** The words and the quad, without their number. */
  predicate PartsOk(sh: Shape, q: string)
  {
    && AllWords(sh.front) && AllWords(sh.back) && (!sh.gap ==> sh.back == [])
    && (q != "" ==> QuadOk(q) && sh.colon) && |sh.front| + |sh.back| <= 8
  }

  lemma SetFromStart(st: WordState, vs: seq<int>, r: WordState)
    requires |st.words| == 8 && st.i == 0 && |vs| <= 8 && r == SetAll(st, vs)
    ensures r.words[..|vs|] == vs && r.words[|vs|..] == st.words[|vs|..]
  {
    SetAllWords(st, vs, |vs|);
  }

  lemma SetTwice(st: WordState, vs: seq<int>, ws: seq<int>, s1: WordState, r: WordState, k: nat)
    requires |st.words| == 8 && st.i == 0 && k == |vs| + |ws| <= 8 && |s1.words| == 8 && s1.i == |vs|
    requires s1.words[..|vs|] == vs && s1.words[|vs|..] == st.words[|vs|..] && r == SetAll(s1, ws)
    ensures r.words[..k] == vs + ws && r.words[k..] == st.words[k..]
  {
    SetAllWords(s1, ws, k);
    assert s1.words[k..] == s1.words[|vs|..][|ws|..] == st.words[k..];
    assert r.words == vs + ws + st.words[k..];
  }

  lemma StateIs(sh: Shape, q: string, r: WordState)
    requires PartsOk(sh, q) && r == ShapeState(sh, StartState(q))
    ensures |r.words| == 8 && r.setWords == |sh.front| + |sh.back| + QuadCount(q) && r.gap == (if sh.gap then |sh.front| else -1)
    ensures var k := |sh.front| + |sh.back|;
      r.words[..k] == Values(sh.front) + Values(sh.back) && r.words[k..] == StartState(q).words[k..]
  {
    var st, vs, ws := StartState(q), Values(sh.front), Values(sh.back);
    var s1 := SetAll(st, vs);
    SetFromStart(st, vs, s1);
    if sh.gap {
      SetTwice(st, vs, ws, s1.(gap := s1.i), r, |vs| + |ws|);
    } else {
      assert vs + ws == vs;
    }
  }

  /** The checks let pass just the shapes with the right number of words, and the move of the words behind the gap makes the
      address. */
  lemma Assembled(sh: Shape, q: string, r: WordState)
    requires PartsOk(sh, q) && r == ShapeState(sh, StartState(q)) && |r.words| == 8
    ensures Assemble(r, QuadCount(q)).Addr? <==> ShapeOk(sh, q)
    ensures ShapeOk(sh, q) ==> Assemble(r, QuadCount(q)) == Addr(ShapeWords(sh, q))
  {
    StateIs(sh, q, r);
    if ShapeOk(sh, q) {
      Moved(sh, q, r);
    }
  }

  lemma Moved(sh: Shape, q: string, r: WordState)
    requires ShapeOk(sh, q) && |r.words| == 8
    requires r.setWords == |sh.front| + |sh.back| + QuadCount(q) && r.gap == (if sh.gap then |sh.front| else -1)
    requires var k := |sh.front| + |sh.back|;
      r.words[..k] == Values(sh.front) + Values(sh.back) && r.words[k..] == StartState(q).words[k..]
    ensures Assemble(r, QuadCount(q)) == Addr(ShapeWords(sh, q))
  {
    var f, b, n := |sh.front|, |sh.back|, 8 - QuadCount(q);
    QuadStays(q, f + b, n, r.words);
    MovedWords(r.words, Values(sh.front), Values(sh.back), QuadWords(q), n - f - b);
  }

  lemma QuadStays(q: string, k: nat, n: nat, words: seq<int>)
    requires (q != "" ==> QuadOk(q)) && n == 8 - QuadCount(q) && k <= n && |words| == 8 && words[k..] == StartState(q).words[k..]
    ensures words[n..] == QuadWords(q)
  {
    assert words[n..] == words[k..][n - k..] == StartState(q).words[n..];
  }

  lemma MovedWords(words: seq<int>, front: seq<int>, back: seq<int>, quad: seq<int>, gap: nat)
    requires |words| == 8 == |front| + gap + |back| + |quad|
    requires words[..|front| + |back|] == front + back && words[8 - |quad|..] == quad
    ensures words[..|front|] + Zeros(gap) + words[|front|..|front| + |back|] + words[8 - |quad|..] == front + Zeros(gap) + back + quad
    ensures gap == 0 ==> words == front + Zeros(gap) + back + quad
  {
    var f, k := |front|, |front| + |back|;
    assert words[..f] == words[..k][..f] == front;
    assert words[f..k] == words[..k][f..] == back;
    if gap == 0 {
      assert words == words[..k] + words[8 - |quad|..];
    }
  }

  // ---------- The whole text ----------

  lemma ParseIsRest(s: string, q: string, m: nat)
    requires m <= |s| && s[m..] == q && (q != "" ==> QuadOk(q))
    requires if q == "" then DotAt(s) == |s| == m else 0 < DotAt(s) < |s| && DigitsBack(s, DotAt(s)) == m
    ensures Parse(s) == ParseRest(s, m, StartState(q), QuadCount(q))
  {
    if q != "" {
      ParseIsDotted(s, m);
      QuadIsRest(s, q, m);
    }
  }

  lemma ParseIsDotted(s: string, m: nat)
    requires 0 < DotAt(s) < |s| && DigitsBack(s, DotAt(s)) == m
    ensures m <= |s| && Parse(s) == ParseDotted(s, m)
  {
  }

  lemma QuadIsRest(s: string, q: string, m: nat)
    requires m <= |s| && s[m..] == q && q != "" && QuadOk(q)
    ensures ParseDotted(s, m) == ParseRest(s, m, StartState(q), QuadCount(q))
  {
    DottedIsRest(s, m, q, ScanDotted(q, 4).value, StartState(q));
  }

  lemma {:induction false} ListedChars(ws: seq<string>, colon: bool)
    requires AllWords(ws)
    ensures NoDot(Listed(ws, colon))
    ensures ws != [] && colon ==> Listed(ws, colon) != "" && Listed(ws, colon)[|Listed(ws, colon)| - 1] == ':'
    decreases |ws|
  {
    if ws != [] {
      ListedChars(ws[1..], colon);
      assert WordOk(ws[0]);
      WordNoDot(ws[0]);
    }
  }

  lemma WordNoDot(t: string)
    requires WordOk(t)
    ensures NoDot(t)
  {
    if Prefixed(t) {
      forall i | 0 <= i < |t|
        ensures t[i] != '.'
      {
        if i >= 2 {
          assert t[i] == t[2..][i - 2];
        }
      }
    }
  }

  /** There is no dot in front of the quad, and the last char there is a colon. */
  lemma ShapeChars(sh: Shape, q: string)
    requires ShapeOk(sh, q)
    ensures NoDot(ShapeText(sh))
    ensures q != "" ==> ShapeText(sh) != "" && ShapeText(sh)[|ShapeText(sh)| - 1] == ':'
  {
    var closed := true;
    ListedChars(sh.front, closed);
    ListedChars(sh.front, sh.colon);
    ListedChars(sh.back, sh.colon);
  }

  lemma Found(s: string, t: string, q: string)
    requires s == t + q && NoDot(t) && (q != "" ==> StartsQuad(q) && t != "" && t[|t| - 1] == ':')
    ensures if q == "" then DotAt(s) == |s| == |t| else 0 < DotAt(s) < |s| && DigitsBack(s, DotAt(s)) == |t|
  {
    if q == "" {
      FirstDot(t, q);
    } else {
      var n := Span(q, false);
      var d, rest := q[..n], q[n..];
      SpanFacts(q, false);
      assert q == d + rest && rest[0] == '.';
      assert s == t + d + rest;
      FirstDot(t + d, rest);
      DigitsBackIs(t, d, rest);
    }
  }

  /** A text of a shape is accepted, and means the shape's words. */
  lemma ShapeAccepted(sh: Shape, q: string, s: string)
    requires ShapeOk(sh, q) && s == ShapeText(sh) + q
    ensures Parse(s) == Addr(ShapeWords(sh, q))
  {
    var t, st := ShapeText(sh), StartState(q);
    ShapeChars(sh, q);
    Found(s, t, q);
    assert s[|t|..] == q;
    ParseIsRest(s, q, |t|);
    RunShape(sh, q, st, s, |t|);
    Assembled(sh, q, ShapeState(sh, st));
  }

  lemma {:induction false} BackFacts(s: string, e: nat)
    requires e <= |s|
    ensures forall i :: DigitsBack(s, e) <= i < e ==> IsDigit(s[i])
    decreases e
  {
    if e > 0 && IsDigit(s[e - 1]) {
      BackFacts(s, e - 1);
    }
  }

  /** What the parser takes for a quad starts with digits and a dot. */
  lemma QuadFound(s: string, dot: nat, m: nat, q: string)
    requires dot == DotAt(s) < |s| && m == DigitsBack(s, dot) && q == s[m..]
    requires ScanDotted(q, 4).Some? && FourBytes(ScanDotted(q, 4).value)
    ensures QuadOk(q)
  {
    BackFacts(s, dot);
    assert q[dot - m] == '.';
    if dot == m {
      NoQuad(q, 4);
    } else {
      DigitsThenDot(s, dot, m, q);
    }
  }

  lemma NoQuad(q: string, n: nat)
    requires q != "" && q[0] == '.' && n > 0
    ensures ScanDotted(q, n) == None
  {
    assert ScanInt(q) == None;
  }

  lemma DigitsThenDot(s: string, dot: nat, m: nat, q: string)
    requires m < dot < |s| && s[dot] == '.' && q == s[m..] && forall i :: m <= i < dot ==> IsDigit(s[i])
    ensures StartsQuad(q)
  {
    var d, rest := q[..dot - m], q[dot - m..];
    assert q == d + rest;
    forall i | 0 <= i < |d|
      ensures InBase(false, d[i])
    {
      assert d[i] == s[m + i];
    }
    SpanIs(d, rest, false);
  }

  /** The words and the quad, as the parser splits a text it may accept. */
  lemma Split(s: string) returns (m: nat, q: string)
    requires Parse(s).Addr?
    ensures m <= |s| && q == s[m..] && (q != "" ==> QuadOk(q)) && Cut(s, m)
    ensures Parse(s) == ParseRest(s, m, StartState(q), QuadCount(q))
  {
    var dot := DotAt(s);
    if dot == |s| {
      m, q := |s|, "";
    } else {
      m := DigitsBack(s, dot);
      q := s[m..];
      QuadFound(s, dot, m, q);
    }
    ParseIsRest(s, q, m);
  }

  lemma RestReads(s: string, m: nat, st: WordState, dots: nat) returns (r: WordState)
    requires |st.words| == 8 && ParseRest(s, m, st, dots).Addr?
    ensures |r.words| == 8 && Outcome(s, m, st) == Some(r) && Assemble(r, dots).Addr?
  {
    r := ParseWords(s, m, st).value;
  }

  /** What is accepted is the text of a shape. */
  lemma AcceptedShape(s: string) returns (sh: Shape, q: string)
    requires Parse(s).Addr?
    ensures ShapeOk(sh, q) && s == ShapeText(sh) + q
  {
    var m, text := Split(s);
    q := text;
    sh := SplitShape(s, m, q);
  }

  lemma SplitShape(s: string, m: nat, q: string) returns (sh: Shape)
    requires m <= |s| && q == s[m..] && (q != "" ==> QuadOk(q)) && Cut(s, m)
    requires ParseRest(s, m, StartState(q), QuadCount(q)).Addr?
    ensures ShapeOk(sh, q) && s == ShapeText(sh) + q
  {
    var st := StartState(q);
    var r := RestReads(s, m, st, QuadCount(q));
    sh := ReadFront(s, m, st, r);
    ShapeFrom(s, m, q, st, r, sh);
  }

  lemma ShapeFrom(s: string, m: nat, q: string, st: WordState, r: WordState, sh: Shape)
    requires m <= |s| && q == s[m..] && (q != "" ==> QuadOk(q)) && st == StartState(q)
    requires |r.words| == 8 && ReadAs(s, m, st, r, sh) && Assemble(r, QuadCount(q)).Addr?
    ensures ShapeOk(sh, q) && s == ShapeText(sh) + q
  {
    Assembled(sh, q, r);
    assert s == s[..m] + s[m..];
  }

  /** `s` is the text of a shape that means `w`. */
  ghost predicate IsShape(sh: Shape, q: string, s: string, w: seq<int>)
  {
    ShapeOk(sh, q) && s == ShapeText(sh) + q && w == ShapeWords(sh, q)
  }

  /** For every string and every address: the parser reads this address from it if and only if it is the text of a shape that
      means the address. */
  lemma AcceptedIff(s: string, w: seq<int>)
    ensures Parse(s) == Addr(w) <==> exists sh, q :: IsShape(sh, q, s, w)
  {
    if Parse(s) == Addr(w) {
      var sh, q := AcceptedShape(s);
      ShapeAccepted(sh, q, s);
      assert IsShape(sh, q, s, w);
    }
    forall sh, q | IsShape(sh, q, s, w)
      ensures Parse(s) == Addr(w)
    {
      ShapeAccepted(sh, q, s);
    }
  }

  lemma WordsAccepted(sh: Shape, q: string, s: string)
    requires ShapeOk(sh, q) && q == "" && s == ShapeText(sh)
    ensures Parse(s) == Addr(ShapeWords(sh, q))
  {
    assert s + q == s;
    ShapeAccepted(sh, q, s);
  }

  lemma SameMeaning(sh: Shape, sh': Shape, q: string)
    requires ShapeOk(sh, q) && q == "" && sh' == sh.(colon := !sh.colon)
    ensures ShapeOk(sh', q) && ShapeWords(sh', q) == ShapeWords(sh, q)
  {
  }

  /** Outside RFC 4291 section 2.2: a colon behind the last word makes no difference. */
  lemma ColonIgnored(sh: Shape, sh': Shape, q: string)
    requires ShapeOk(sh, q) && q == "" && sh' == sh.(colon := !sh.colon)
    ensures Parse(ShapeText(sh)) == Parse(ShapeText(sh')) == Addr(ShapeWords(sh, q))
  {
    SameMeaning(sh, sh', q);
    WordsAccepted(sh, q, ShapeText(sh));
    WordsAccepted(sh', q, ShapeText(sh'));
  }
}
