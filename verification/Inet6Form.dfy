/** What a printed address looks like. */
module Inet6Form {
  import opened Inet6Text
  import opened Inet6

  predicate IsLowerHex(c: char)
  {
    '0' <= c <= '9' || 'a' <= c <= 'f'
  }

  predicate InAddress(c: char)
  {
    IsLowerHex(c) || c == ':' || c == '.'
  }

  lemma DigitForm(v: nat)
    requires v < 16
    ensures IsLowerHex(DigitChar(v)) && (DigitChar(v) == '0' ==> v == 0)
  {
    assert DigitValue(DigitChar(v)) == v;
  }

  /** Numbers are printed with small letters and with no zero in front. */
  lemma {:induction false} DigitsForm(n: nat, hex: bool)
    ensures var s := Digits(n, hex); forall i :: 0 <= i < |s| ==> IsLowerHex(s[i])
    ensures Digits(n, hex)[0] == '0' ==> n == 0 && Digits(n, hex) == "0"
    decreases n
  {
    var base := if hex then 16 else 10;
    DigitForm(n % base);
    if n >= base {
      DigitsForm(n / base, hex);
      assert Digits(n, hex) == Digits(n / base, hex) + [DigitChar(n % base)];
    } else {
      assert Digits(n, hex) == [DigitChar(n % base)];
    }
  }

  predicate AllInAddress(s: string)
  {
    forall i :: 0 <= i < |s| ==> InAddress(s[i])
  }

  lemma {:induction false} WordsForm(w: seq<int>, i: nat, g: int)
    requires IsAddr(w) && i <= 8
    ensures AllInAddress(WordsText(w, i, g))
    decreases 8 - i
  {
    if i < 8 {
      DigitsForm(w[i], true);
      assert AllInAddress(Piece(w, i, g));
      WordsForm(w, Next(w, i, g), g);
    }
  }

  lemma {:induction false} DottedForm(ns: seq<int>)
    requires forall i :: 0 <= i < |ns| ==> ns[i] >= 0
    ensures AllInAddress(DottedText(ns)) && (|ns| > 1 ==> !NoDot(DottedText(ns)))
  {
    if ns != [] {
      DigitsForm(ns[0], false);
      DottedForm(ns[1..]);
      if |ns| > 1 {
        var d := Digits(ns[0], false);
        assert DottedText(ns)[|d|] == '.';
      }
    }
  }

  lemma Behind(a: string, b: string)
    requires AllInAddress(a) && AllInAddress(b)
    ensures AllInAddress(a + b) && (!NoDot(b) ==> !NoDot(a + b))
  {
    if !NoDot(b) {
      var i :| 0 <= i < |b| && b[i] == '.';
      assert (a + b)[|a| + i] == '.';
    }
  }

  lemma QuadForm(pre: string, w: seq<int>)
    requires IsAddr(w) && AllInAddress(pre)
    ensures AllInAddress(pre + DottedText(Quad(w))) && !NoDot(pre + DottedText(Quad(w)))
  {
    DottedForm(Quad(w));
    Behind(pre, DottedText(Quad(w)));
  }

  lemma MappedForm(w: seq<int>)
    requires IsAddr(w)
    ensures var t := "::" + (Digits(w[5], true) + (":" + DottedText(Quad(w)))); AllInAddress(t) && !NoDot(t)
  {
    DigitsForm(w[5], true);
    QuadForm(":", w);
    Behind(Digits(w[5], true), ":" + DottedText(Quad(w)));
    Behind("::", Digits(w[5], true) + (":" + DottedText(Quad(w))));
  }

  /** Small letters, colons and dots; and dots, so a dotted quad, exactly if the first five words are zero
      and the sixth either has every bit set or is zero in front of two words neither of which is. */
  lemma TextForm(w: seq<int>, t: string)
    requires IsAddr(w) && IsText(w, t)
    ensures forall k :: 0 <= k < |t| ==> InAddress(t[k])
    ensures (exists k :: 0 <= k < |t| && t[k] == '.') <==>
      (forall i :: 0 <= i < 5 ==> w[i] == 0) && (w[5] == 0xffff || (w[5] == 0 && w[6] > 0 && w[7] > 0))
  {
    if IsCompatible(w) {
      QuadForm("::", w);
    } else if IsMapped(w) {
      MappedForm(w);
    } else {
      var g, n :| -1 <= g < 8 && IsGap(w, g, n) && t == WordsText(w, 0, g);
      WordsForm(w, 0, g);
      WordsNoDot(w, 0, g);
    }
  }

  // ---------- The words ----------

  /** Words in hexadecimal, set apart by colons. */
  function Joined(ws: seq<int>): string
    requires forall i :: 0 <= i < |ws| ==> ws[i] >= 0
  {
    if ws == [] then "" else if |ws| == 1 then Digits(ws[0], true) else Digits(ws[0], true) + (":" + Joined(ws[1..]))
  }

  lemma {:induction false} BehindTheGap(w: seq<int>, i: nat, g: int)
    requires IsAddr(w) && g < i <= 8
    ensures WordsText(w, i, g) == Joined(w[i..])
    decreases 8 - i
  {
    if i < 8 {
      BehindTheGap(w, i + 1, g);
      assert w[i..][1..] == w[i + 1..] && w[i..][0] == w[i];
    }
  }

  lemma JoinedMore(w: seq<int>, i: nat, g: nat, tail: string)
    requires IsAddr(w) && i + 1 < g < 8
    ensures Joined(w[i..g]) + (":" + tail) == Digits(w[i], true) + (":" + (Joined(w[i + 1..g]) + (":" + tail)))
  {
    assert w[i..g][1..] == w[i + 1..g] && w[i..g][0] == w[i];
  }

  lemma {:induction false} AheadOfTheGap(w: seq<int>, i: nat, g: nat, tail: string)
    requires IsAddr(w) && i < g < 8 && tail == WordsText(w, g, g)
    ensures WordsText(w, i, g) == Joined(w[i..g]) + (":" + tail)
    decreases g - i
  {
    var d, rest := Digits(w[i], true), WordsText(w, i + 1, g);
    assert Piece(w, i, g) == d + ":" && Next(w, i, g) == i + 1;
    assert d + ":" + rest == d + (":" + rest);
    if i + 1 < g {
      AheadOfTheGap(w, i + 1, g, tail);
      JoinedMore(w, i, g, tail);
    } else {
      assert w[i..g] == [w[i]];
    }
  }

  lemma {:induction false} RunAtLeast(w: seq<int>, i: nat, n: nat)
    requires AllZero(w, i, i + n)
    ensures ZeroRun(w, i) >= n
    decreases n
  {
    if n > 0 {
      RunAtLeast(w, i + 1, n - 1);
    }
  }

  lemma RunIsGap(w: seq<int>, g: nat, n: int)
    requires IsGap(w, g, n)
    ensures n >= 2 && g + n <= |w| && ZeroRun(w, g) == n
  {
    RunAtLeast(w, g, n);
    assert AllZero(w, g, g + ZeroRun(w, g));
  }

  lemma TwoColons(a: string, b: string)
    ensures a + (":" + (":" + b)) == a + ("::" + b)
  {
  }

  lemma GapForm(w: seq<int>, g: nat, n: int)
    requires IsAddr(w) && g < 8 && IsGap(w, g, n)
    ensures n >= 2 && g + n <= 8 && WordsText(w, 0, g) == Joined(w[..g]) + ("::" + Joined(w[g + n..]))
  {
    RunIsGap(w, g, n);
    BehindTheGap(w, g + n, g);
    var behind, here := Joined(w[g + n..]), WordsText(w, g, g);
    assert w[g] == 0 && Next(w, g, g) == g + n;
    if g == 0 {
      assert here == "::" + behind;
      assert w[..g] == [];
    } else {
      assert here == ":" + behind;
      AheadOfTheGap(w, 0, g, here);
      assert w[0..g] == w[..g];
      TwoColons(Joined(w[..g]), behind);
    }
  }

  /** Where no dotted quad is printed, every word is, but for the leftmost of the longest runs of two
      zero words or more, for which "::" stands. */
  lemma WordsShown(w: seq<int>, t: string) returns (g: int, n: int)
    requires IsAddr(w) && IsText(w, t) && !IsCompatible(w) && !IsMapped(w)
    ensures -1 <= g < 8 && IsGap(w, g, n) && (g >= 0 ==> g + n <= 8)
    ensures t == if g < 0 then Joined(w) else Joined(w[..g]) + ("::" + Joined(w[g + n..]))
  {
    g, n :| -1 <= g < 8 && IsGap(w, g, n) && t == WordsText(w, 0, g);
    if g < 0 {
      BehindTheGap(w, 0, g);
      assert w[0..] == w;
    } else {
      GapForm(w, g, n);
    }
  }
}
