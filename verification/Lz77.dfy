/** The LZ77 packer: greedy matches over a window of 256 bytes, and unpacking with overlapping copies. */
module Lz77 {
  import opened Lists

  type Byte = x: int | 0 <= x < 256

  /** The marker byte; a marker in the text is followed by 0. */
  const SP: Byte := 124

  const WINDOW: nat := 256
  const LONGEST: nat := 258

  // ---------- Matches ----------

  predicate SameBack(s: seq<int>, p: int, d: int)
  {
    0 <= d <= p < |s| && s[p] == s[p - d]
  }

  /** The text from `from` to `to` repeats what stands `d` places back. */
  ghost predicate Repeats(s: seq<int>, from: int, to: int, d: int)
  {
    0 <= d <= from <= to <= |s| && forall p :: from <= p < to ==> SameBack(s, p, d)
  }

  /** How far the text at `i` and at `j` agree, looked at from `k` on; None if they agree for 258 bytes,
      which the packer takes for no match at all. */
  function MatchFrom(s: seq<int>, i: nat, j: nat, k: nat): (r: Option<nat>)
    requires j < i
    ensures r.Some? ==> k <= r.value < LONGEST
    decreases LONGEST - k
  {
    if k >= LONGEST then None
    else if |s| <= i + k || s[i + k] != s[j + k] then Some(k)
    else MatchFrom(s, i, j, k + 1)
  }

  lemma RepeatsMore(s: seq<int>, from: int, to: int, d: int, next: int)
    requires Repeats(s, from, to, d) && to < |s| && s[to] == s[to - d] && next == to + 1
    ensures Repeats(s, from, next, d)
  {
  }

  /** The search stops where the repetition stops, or at 258. */
  ghost predicate StopsRight(s: seq<int>, i: nat, d: nat, r: Option<nat>)
  {
    match r
    case Some(n) => Repeats(s, i, i + n, d) && (i + n == |s| || s[i + n] != s[i + n - d])
    case None => Repeats(s, i, i + LONGEST, d)
  }

  lemma {:induction false} MatchRepeats(s: seq<int>, i: nat, j: nat, k: nat, to: nat, r: Option<nat>)
    requires j < i && k <= LONGEST && to == i + k && Repeats(s, i, to, i - j) && r == MatchFrom(s, i, j, k)
    ensures StopsRight(s, i, i - j, r)
    decreases LONGEST - k
  {
    if k < LONGEST && to < |s| && s[to] == s[j + k] {
      var next := to + 1;
      RepeatsMore(s, i, to, i - j, next);
      MatchRepeats(s, i, j, k + 1, next, r);
    }
  }

  lemma RepeatsAt(s: seq<int>, from: int, to: int, d: int, p: int)
    requires Repeats(s, from, to, d) && from <= p < to
    ensures SameBack(s, p, d)
  {
  }

  /** The length that candidate `j` offers at `i`. */
  function Offer(s: seq<int>, i: nat, j: nat): (n: nat)
    requires j < i
    ensures n < LONGEST
  {
    match MatchFrom(s, i, j, 0) case None => 0 case Some(k) => k
  }

  /** An offer is the exact length of the repetition, unless that reaches 258. */
  lemma OfferIsExact(s: seq<int>, i: nat, j: nat)
    requires j < i <= |s|
    ensures Repeats(s, i, i + Offer(s, i, j), i - j)
    ensures Repeats(s, i, i + LONGEST, i - j) ==> Offer(s, i, j) == 0
    ensures !Repeats(s, i, i + LONGEST, i - j) ==>
      i + Offer(s, i, j) == |s| || s[i + Offer(s, i, j)] != s[j + Offer(s, i, j)]
  {
    MatchRepeats(s, i, j, 0, i, MatchFrom(s, i, j, 0));
    if Repeats(s, i, i + LONGEST, i - j) {
      RepeatsAt(s, i, i + LONGEST, i - j, i + Offer(s, i, j));
    }
  }

  datatype Found = Found(len: nat, dist: nat)

  /** Candidates from `j` down to the window's start; only a longer match replaces the best so far. */
  function BestFrom(s: seq<int>, i: nat, j: int, best: Found): (r: Found)
    requires j < i
    decreases j
  {
    if j < 0 || j < i - WINDOW then best
    else BestFrom(s, i, j - 1, if best.len < Offer(s, i, j) then Found(Offer(s, i, j), i - j) else best)
  }

  function Best(s: seq<int>, i: nat): Found
  {
    BestFrom(s, i, i - 1, Found(0, 0))
  }

  predicate InWindow(i: nat, j: int)
  {
    0 <= j < i && i - WINDOW <= j
  }

  /** `r` is a match at `i`, no candidate after `j` offers a longer one, and none nearer one as long. */
  ghost predicate BestAfter(s: seq<int>, i: nat, j: int, r: Found)
  {
    && (r.len > 0 ==> InWindow(i, i - r.dist) && j < i - r.dist && r.len == Offer(s, i, i - r.dist))
    && forall x :: InWindow(i, x) && j < x ==> Offer(s, i, x) <= r.len && (Offer(s, i, x) == r.len > 0 ==> i - r.dist >= x)
  }

  lemma {:induction false} BestFromIsBest(s: seq<int>, i: nat, j: int, best: Found)
    requires j < i && BestAfter(s, i, j, best)
    ensures BestAfter(s, i, -1, BestFrom(s, i, j, best))
    decreases j
  {
    if j >= 0 && j >= i - WINDOW {
      BestFromIsBest(s, i, j - 1, if best.len < Offer(s, i, j) then Found(Offer(s, i, j), i - j) else best);
    }
  }

  /** The packer's choice: the longest match in the window among those shorter than 258, and of those the
      nearest. */
  lemma BestIsLongest(s: seq<int>, i: nat)
    ensures BestAfter(s, i, -1, Best(s, i))
  {
    BestFromIsBest(s, i, i - 1, Found(0, 0));
  }

  lemma BestFits(s: seq<int>, i: nat)
    requires i <= |s|
    ensures var b := Best(s, i);
      b.len > 0 ==> 1 <= b.dist <= WINDOW && b.len < LONGEST && Repeats(s, i, i + b.len, b.dist)
  {
    BestIsLongest(s, i);
    var b := Best(s, i);
    if b.len > 0 {
      OfferIsExact(s, i, i - b.dist);
    }
  }

  // ---------- Packing and unpacking ----------

  predicate AllBytes(s: seq<int>)
  {
    forall i :: 0 <= i < |s| ==> 0 <= s[i] < 256
  }

  /** What is written for the text at `i`, and where the packer goes on. */
  function Token(s: seq<int>, i: nat): seq<int>
    requires i < |s|
  {
    var b := Best(s, i);
    if 2 < b.len then [SP, b.len - 2, b.dist - 1]
    else if s[i] == SP then [SP, 0]
    else [s[i]]
  }

  function Next(s: seq<int>, i: nat): (n: nat)
    requires i < |s|
    ensures n > i
  {
    var b := Best(s, i);
    if 2 < b.len then i + b.len else i + 1
  }

  function Zipped(s: seq<int>, i: nat): seq<int>
    decreases |s| - i
  {
    if i >= |s| then [] else Token(s, i) + Zipped(s, Next(s, i))
  }

  /** Everything written is a byte; lengths are 3..257 and distances 1..256; and no token is longer than
      twice the text it stands for. */
  lemma TokenFacts(s: seq<int>, i: nat)
    requires i < |s| && AllBytes(s)
    ensures AllBytes(Token(s, i))
    ensures Next(s, i) <= |s| && |Token(s, i)| <= 2 * (Next(s, i) - i)
    ensures 2 < Best(s, i).len ==> 3 <= Best(s, i).len <= 257 && 1 <= Best(s, i).dist <= 256
  {
    BestFits(s, i);
  }

  /** `n` bytes at `i` repeat what stands `d` back, and fewer than 258 do. */
  ghost predicate Usable(s: seq<int>, i: nat, n: nat, d: int)
  {
    1 <= d <= 256 && Repeats(s, i, i + n, d) && !Repeats(s, i, i + 258, d)
  }

  /** A reference: the marker '|', a length less two and a distance less one; nothing usable is longer, and
      nothing as long is nearer. */
  ghost predicate IsReference(s: seq<int>, i: nat, t: seq<int>)
  {
    && |t| == 3 && t[0] == '|' as int && t[1] >= 1 && Usable(s, i, t[1] + 2, t[2] + 1)
    && forall n: nat, d :: Usable(s, i, n, d) ==> n < t[1] + 2 || (n == t[1] + 2 && d >= t[2] + 1)
  }

  lemma UsableOffer(s: seq<int>, i: nat, n: nat, d: int)
    requires i < |s| && n > 0
    ensures Usable(s, i, n, d) <==> InWindow(i, i - d) && n <= Offer(s, i, i - d)
  {
    if InWindow(i, i - d) {
      OfferIsExact(s, i, i - d);
      var m := Offer(s, i, i - d);
      if m < n && Usable(s, i, n, d) {
        RepeatsAt(s, i, i + n, d, i + m);
      }
    }
  }

  /** The packer writes a reference exactly if three usable bytes are found, goes on behind the bytes it
      stands for, and otherwise writes one byte, with 0 behind a marker. */
  lemma TokenIs(s: seq<int>, i: nat)
    requires i < |s|
    ensures (exists d :: Usable(s, i, 3, d)) ==> IsReference(s, i, Token(s, i)) && Next(s, i) == i + Token(s, i)[1] + 2
    ensures !(exists d :: Usable(s, i, 3, d)) ==>
      Next(s, i) == i + 1 && Token(s, i) == if s[i] == '|' as int then [s[i], 0] else [s[i]]
  {
    BestIsLongest(s, i);
    var b := Best(s, i);
    forall n: nat, d | n > 0
      ensures Usable(s, i, n, d) <==> InWindow(i, i - d) && n <= Offer(s, i, i - d)
    {
      UsableOffer(s, i, n, d);
    }
    if 2 < b.len {
      assert Usable(s, i, 3, b.dist);
    }
  }

  /** The packed text is at most twice as long. */
  lemma {:induction false} ZippedFits(s: seq<int>, i: nat)
    requires i <= |s| && AllBytes(s)
    ensures |Zipped(s, i)| <= 2 * (|s| - i) && AllBytes(Zipped(s, i))
    decreases |s| - i
  {
    if i < |s| {
      TokenFacts(s, i);
      ZippedFits(s, Next(s, i));
    }
  }

  /** One byte after the other from `dist` back: the copy may overlap what it writes. */
  function CopyBack(out: seq<int>, dist: nat, len: nat): (r: seq<int>)
    requires 1 <= dist <= |out|
    ensures |r| == |out| + len && out <= r
    decreases len
  {
    if len == 0 then out else CopyBack(out + [out[|out| - dist]], dist, len - 1)
  }

  /** Unpack `z` behind what has been unpacked so far; None for input that is cut off or points before
      the start. */
  function Unzipped(z: seq<int>, out: seq<int>): Option<seq<int>>
    decreases |z|
  {
    if z == [] then Some(out)
    else if z[0] != SP then Unzipped(z[1..], out + [z[0]])
    else if |z| < 2 then None
    else if z[1] == 0 then Unzipped(z[2..], out + [SP])
    else if |z| < 3 || z[1] < 0 || z[2] < 0 || |out| < z[2] + 1 then None
    else Unzipped(z[3..], CopyBack(out, z[2] + 1, z[1] + 2))
  }

  // ---------- The round trip ----------

  /** Copying a match back reproduces the text, overlap or not. */
  lemma {:induction false} CopyReproduces(s: seq<int>, i: nat, dist: nat, len: nat)
    requires 1 <= dist && Repeats(s, i, i + len, dist)
    ensures CopyBack(s[..i], dist, len) == s[..i + len]
    decreases len
  {
    if len > 0 {
      assert SameBack(s, i, dist);
      assert s[..i] + [s[i]] == s[..i + 1];
      CopyReproduces(s, i + 1, dist, len - 1);
    }
  }

  lemma TokenUnzips(s: seq<int>, i: nat, rest: seq<int>)
    requires i < |s|
    ensures Next(s, i) <= |s| && Unzipped(Token(s, i) + rest, s[..i]) == Unzipped(rest, s[..Next(s, i)])
  {
    BestFits(s, i);
    var b, z := Best(s, i), Token(s, i) + rest;
    if 2 < b.len {
      CopyReproduces(s, i, b.dist, b.len);
      assert z[3..] == rest;
    } else if s[i] == SP {
      assert z[2..] == rest && s[..i] + [s[i]] == s[..i + 1];
    } else {
      assert z[1..] == rest && s[..i] + [s[i]] == s[..i + 1];
    }
  }

  lemma {:induction false} UnzipsFrom(s: seq<int>, i: nat)
    requires i <= |s|
    ensures Unzipped(Zipped(s, i), s[..i]) == Some(s)
    decreases |s| - i
  {
    if i == |s| {
      assert s[..i] == s;
    } else {
      TokenUnzips(s, i, Zipped(s, Next(s, i)));
      UnzipsFrom(s, Next(s, i));
    }
  }

  /** For every text: unpacking what was packed gives the text. */
  lemma RoundTrip(s: seq<int>)
    ensures Unzipped(Zipped(s, 0), []) == Some(s)
  {
    UnzipsFrom(s, 0);
    assert s[..0] == [];
  }

  // ---------- The code in place ----------

  /** The inner search loop: 258 stands for no end of the match found. */
  method MatchLength(s: seq<Byte>, i: nat, j: nat) returns (k: nat)
    requires j < i < |s|
    ensures k <= LONGEST && MatchFrom(s, i, j, 0) == if k < LONGEST then Some(k) else None
  {
    k := 0;
    while k < LONGEST
      invariant k <= LONGEST && MatchFrom(s, i, j, 0) == MatchFrom(s, i, j, k)
      decreases LONGEST - k
    {
      if |s| <= i + k || s[i + k] != s[j + k] {
        break;
      }
      k := k + 1;
    }
  }

  /** The packer's search loop over the window, backwards. */
  method FindBest(s: seq<Byte>, i: nat) returns (maxx: nat, ans: nat)
    requires i < |s|
    ensures Found(maxx, ans) == Best(s, i)
  {
    maxx, ans := 0, 0;
    var jj := if i < WINDOW then 0 else i - WINDOW;
    var j: int := i - 1;
    ghost var best := Best(s, i);
    while j >= jj
      invariant jj - 1 <= j < i && BestFrom(s, i, j, Found(maxx, ans)) == best
      decreases j
    {
      var k := MatchLength(s, i, j);
      if k < LONGEST && maxx < k {
        maxx, ans := k, i - j;
      }
      j := j - 1;
    }
  }

  /** Write one byte, if there is room. */
  method Put(out: array<Byte>, cap: nat, n: nat, b: Byte) returns (ok: bool, m: nat)
    requires n <= cap <= out.Length
    modifies out
    ensures ok == (n < cap) && m == (if ok then n + 1 else n)
    ensures out[..m] == old(out[..n]) + if ok then [b] else []
  {
    ok, m := n < cap, n;
    if ok {
      out[n] := b;
      m := n + 1;
    }
  }

  lemma TokenGoesNext(s: seq<int>, i: nat, done: seq<int>, all: seq<int>)
    requires i < |s| && done + Zipped(s, i) == all
    ensures done + Token(s, i) + Zipped(s, Next(s, i)) == all
  {
  }

  /** lz77::zip: fails exactly if the packed text does not fit. */
  method Zip(out: array<Byte>, cap: nat, s: seq<Byte>) returns (ok: bool, n: nat)
    requires cap <= out.Length
    modifies out
    ensures ok <==> |Zipped(s, 0)| <= cap
    ensures ok ==> n == |Zipped(s, 0)| && out[..n] == Zipped(s, 0)
  {
    n, ok := 0, true;
    var i := 0;
    ghost var all, done: seq<int> := Zipped(s, 0), [];
    while i < |s|
      invariant 0 <= i <= |s| && n <= cap && ok && done == out[..n] && done + Zipped(s, i) == all
    {
      TokenFacts(s, i);
      TokenGoesNext(s, i, done, all);
      done := done + Token(s, i);
      ok, n, i := ZipToken(out, cap, n, s, i);
      if !ok {
        return;
      }
    }
  }

  method ZipToken(out: array<Byte>, cap: nat, n: nat, s: seq<Byte>, i: nat) returns (ok: bool, m: nat, next: nat)
    requires n <= cap <= out.Length && i < |s|
    modifies out
    ensures ok <==> n + |Token(s, i)| <= cap
    ensures ok ==> m <= cap && next == Next(s, i) && out[..m] == old(out[..n]) + Token(s, i)
  {
    BestFits(s, i);
    var maxx, ans := FindBest(s, i);
    m, next := n, i;
    if 2 < maxx {
      ok, m := Put(out, cap, m, SP);
      if !ok {
        return;
      }
      ok, m := Put(out, cap, m, maxx - 2);
      if !ok {
        return;
      }
      ok, m := Put(out, cap, m, ans - 1);
      next := i + maxx;
    } else {
      ok, m := Put(out, cap, m, s[i]);
      if ok && s[i] == SP {
        ok, m := Put(out, cap, m, 0);
      }
      next := i + 1;
    }
  }

  lemma CopyOne(o: seq<int>, dist: nat, left: nat, rest: nat, o': seq<int>)
    requires 1 <= dist <= |o| && left == rest + 1 && o' == o + [o[|o| - dist]]
    ensures CopyBack(o', dist, rest) == CopyBack(o, dist, left)
  {
  }

  /** Copy `len` bytes from `dist` back, one at a time. */
  method CopyInPlace(out: array<Byte>, n: nat, dist: nat, len: nat)
    requires 1 <= dist <= n && n + len <= out.Length
    modifies out
    ensures out[..n + len] == CopyBack(old(out[..n]), dist, len)
  {
    var j := 0;
    ghost var o: seq<int>, left: nat, all := out[..n], len, CopyBack(out[..n], dist, len);
    while j < len
      invariant 0 <= j <= len && left == len - j && o == out[..n + j] && CopyBack(o, dist, left) == all
    {
      ghost var next: seq<int>, rest: nat := o + [o[|o| - dist]], left - 1;
      out[n + j] := out[n - dist + j];
      CopyOne(o, dist, left, rest, next);
      j, o, left := j + 1, next, rest;
    }
  }

  lemma {:induction false} UnzippedGrows(z: seq<int>, out: seq<int>)
    ensures Unzipped(z, out).Some? ==> |out| <= |Unzipped(z, out).value|
    decreases |z|
  {
    if z != [] {
      if z[0] != SP {
        UnzippedGrows(z[1..], out + [z[0]]);
      } else if |z| >= 2 && z[1] == 0 {
        UnzippedGrows(z[2..], out + [SP]);
      } else if |z| >= 3 && z[1] > 0 && z[2] >= 0 && |out| >= z[2] + 1 {
        UnzippedGrows(z[3..], CopyBack(out, z[2] + 1, z[1] + 2));
      }
    }
  }

  /** What unpacking will come to: a text that fits, or nothing. */
  ghost function Outcome(z: seq<int>, out: seq<int>, cap: nat): Option<seq<int>>
  {
    var r := Unzipped(z, out);
    if r.Some? && |r.value| <= cap then r else None
  }

  lemma TooLong(z: seq<int>, out: seq<int>, cap: nat)
    requires |out| > cap
    ensures Outcome(z, out, cap) == None
  {
    UnzippedGrows(z, out);
  }

  /** lz77::unzip: succeeds exactly if the input is well formed and its text fits. */
  method Unzip(out: array<Byte>, cap: nat, z: seq<Byte>) returns (ok: bool, n: nat)
    requires cap <= out.Length
    modifies out
    ensures n <= cap
    ensures Outcome(z, [], cap) == if ok then Some(out[..n]) else None
  {
    n, ok := 0, true;
    var i := 0;
    assert z[0..] == z && out[..0] == [];
    while i < |z|
      invariant 0 <= i <= |z| && n <= cap && ok
      invariant Outcome(z[i..], out[..n], cap) == Outcome(z, [], cap)
    {
      ok, n, i := UnzipToken(out, cap, n, z, i);
      if !ok {
        return;
      }
    }
  }

  method UnzipToken(out: array<Byte>, cap: nat, n: nat, z: seq<Byte>, start: nat) returns (ok: bool, m: nat, i: nat)
    requires n <= cap <= out.Length && start < |z|
    modifies out
    ensures m <= cap && (ok ==> start < i <= |z| && Outcome(z[i..], out[..m], cap) == Outcome(z[start..], old(out[..n]), cap))
    ensures !ok ==> Outcome(z[start..], old(out[..n]), cap) == None
  {
    ghost var t, o := z[start..], out[..n];
    i, m, ok := start, n, true;
    if z[i] == SP {
      i := i + 1;
      if |z| <= i {
        return false, m, i;
      }
      if z[i] != 0 {
        var len: nat := z[i] as int + 2;
        i := i + 1;
        if |z| <= i {
          return false, m, i;
        }
        var dist: nat := z[i] as int + 1;
        i := i + 1;
        if n < dist {
          return false, m, i;
        }
        if cap < n + len {
          TooLong(t[3..], CopyBack(o, dist, len), cap);
          return false, m, i;
        }
        CopyInPlace(out, n, dist, len);
        m := n + len;
        assert t[3..] == z[i..];
      } else {
        ok, m := Put(out, cap, n, SP);
        i := i + 1;
        assert t[2..] == z[i..];
        if !ok {
          TooLong(t[2..], o + [SP], cap);
        }
      }
    } else {
      ok, m := Put(out, cap, n, z[i]);
      i := i + 1;
      assert t[1..] == z[i..];
      if !ok {
        TooLong(t[1..], o + [t[0]], cap);
      }
    }
  }

  /** Packing into a buffer twice the size of the text, and unpacking into one of its size, both succeed
      and give the text back. */
  method ZipUnzip(s: seq<Byte>, packed: array<Byte>, unpacked: array<Byte>) returns (n: nat)
    requires packed != unpacked && 2 * |s| <= packed.Length && |s| <= unpacked.Length
    modifies packed, unpacked
    ensures n == |s| && unpacked[..n] == s
  {
    ZippedFits(s, 0);
    RoundTrip(s);
    var ok, m := Zip(packed, packed.Length, s);
    ok, n := Unzip(unpacked, unpacked.Length, packed[..m]);
  }
}
