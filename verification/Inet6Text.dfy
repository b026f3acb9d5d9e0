/** Digits and small scanners shared by the IPv6 printer and parser: printf's %x and %d, strtol in base
    16 and sscanf's %d, on strings without their terminating NUL. */
module Inet6Text {
  import opened Lists

  predicate IsDigit(c: char)
  {
    '0' <= c <= '9'
  }

  predicate IsHexDigit(c: char)
  {
    IsDigit(c) || 'a' <= c <= 'f' || 'A' <= c <= 'F'
  }

  /** A digit in base 16 if `hex`, and otherwise in base 10. */
  predicate InBase(hex: bool, c: char)
  {
    if hex then IsHexDigit(c) else IsDigit(c)
  }

  function DigitValue(c: char): (v: nat)
    ensures v < 16
  {
    if IsDigit(c) then c as int - '0' as int
    else if 'a' <= c <= 'f' then c as int - 'a' as int + 10
    else if 'A' <= c <= 'F' then c as int - 'A' as int + 10
    else 0
  }

  function DigitChar(v: nat): (c: char)
    requires v < 16
    ensures IsHexDigit(c) && DigitValue(c) == v && (v < 10 ==> IsDigit(c))
  {
    if v < 10 then '0' + v as char else 'a' + (v - 10) as char
  }

  // ---------- Printing and reading a number ----------

  /** printf's %x of a non-negative number if `hex`, and otherwise its %d. */
  function Digits(n: nat, hex: bool): (s: string)
    ensures s != []
    decreases n
  {
    if hex then
      if n < 16 then [DigitChar(n)] else Digits(n / 16, hex) + [DigitChar(n % 16)]
    else
      if n < 10 then [DigitChar(n)] else Digits(n / 10, hex) + [DigitChar(n % 10)]
  }

  predicate AllDigits(s: string, hex: bool)
  {
    forall i :: 0 <= i < |s| ==> InBase(hex, s[i])
  }

  function Value(s: string, hex: bool): nat
  {
    if s == [] then 0
    else (if hex then 16 else 10) * Value(s[..|s| - 1], hex) + DigitValue(s[|s| - 1])
  }

  lemma {:induction false} DigitsReadBack(n: nat, hex: bool)
    ensures AllDigits(Digits(n, hex), hex) && Value(Digits(n, hex), hex) == n
    decreases n
  {
    var d := Digits(n, hex);
    if n < (if hex then 16 else 10) {
      assert d[..|d| - 1] == [];
    } else {
      var m := if hex then n / 16 else n / 10;
      assert d[..|d| - 1] == Digits(m, hex);
      DigitsReadBack(m, hex);
    }
  }

  function Power16(k: nat): nat
  {
    if k == 0 then 1 else 16 * Power16(k - 1)
  }

  lemma {:induction false} HexLength(n: nat, k: nat)
    requires k > 0 && n < Power16(k)
    ensures |Digits(n, true)| <= k
    decreases k
  {
    if n >= 16 {
      assert Power16(1) == 16 * Power16(0);
      assert n / 16 < Power16(k - 1);
      HexLength(n / 16, k - 1);
    }
  }

  // ---------- Scanning ----------

  /** How many digits the string starts with. */
  function Span(s: string, hex: bool): (n: nat)
    ensures n <= |s|
  {
    if s != [] && InBase(hex, s[0]) then 1 + Span(s[1..], hex) else 0
  }

  lemma {:induction false} SpanIs(d: string, rest: string, hex: bool)
    requires AllDigits(d, hex) && (rest != [] ==> !InBase(hex, rest[0]))
    ensures Span(d + rest, hex) == |d|
  {
    if d == [] {
      assert d + rest == rest;
    } else {
      assert (d + rest)[1..] == d[1..] + rest;
      SpanIs(d[1..], rest, hex);
    }
  }

  /** The char at `p`, or NUL at the end of the string. */
  function CharAt(s: string, p: nat): char
  {
    if p < |s| then s[p] else 0 as char
  }

  /** A number read, and how many chars it took. */
  datatype Scanned = Scanned(value: int, len: nat)

  /** strtol(s, &next, 16) where s starts with a hex digit: an optional 0x prefix, then digits. */
  function Strtol16(s: string): (r: Scanned)
    requires s != [] && IsHexDigit(s[0])
    ensures 0 < r.len <= |s| && r.value >= 0
  {
    if s[0] == '0' && (CharAt(s, 1) == 'x' || CharAt(s, 1) == 'X') && IsHexDigit(CharAt(s, 2)) then
      var n := Span(s[2..], true);
      Scanned(Value(s[2..n + 2], true), n + 2)
    else
      var n := Span(s, true);
      Scanned(Value(s[..n], true), n)
  }

  predicate IsSpace(c: char)
  {
    c == ' ' || 9 <= c as int <= 13
  }

  /** An unsigned run of digits. */
  function ScanNat(s: string): (r: Option<Scanned>)
    ensures r.Some? ==> 0 < r.value.len <= |s|
  {
    var n := Span(s, false);
    if n == 0 then None else Some(Scanned(Value(s[..n], false), n))
  }

  /** sscanf's %d: white space, an optional sign, and at least one digit. */
  function ScanInt(s: string): (r: Option<Scanned>)
    ensures r.Some? ==> 0 < r.value.len <= |s|
  {
    if s == [] then None
    else if IsSpace(s[0]) then
      var r := ScanInt(s[1..]);
      if r.None? then None else Some(r.value.(len := r.value.len + 1))
    else if s[0] == '-' || s[0] == '+' then
      var r := ScanNat(s[1..]);
      if r.None? then None
      else Some(Scanned(if s[0] == '-' then -r.value.value else r.value.value, r.value.len + 1))
    else ScanNat(s)
  }

  /** `n` numbers set apart by dots, and nothing after them: with n == 4, what
      sscanf(s, "%d.%d.%d.%d%c", ...) == 4 asks for. */
  function ScanDotted(s: string, n: nat): (r: Option<seq<int>>)
    requires n > 0
    ensures r.Some? ==> |r.value| == n
    decreases |s|
  {
    var a := ScanInt(s);
    if a.None? then None
    else if n == 1 then
      if a.value.len == |s| then Some([a.value.value]) else None
    else if a.value.len == |s| || s[a.value.len] != '.' then None
    else
      var rest := ScanDotted(s[a.value.len + 1..], n - 1);
      if rest.None? then None else Some([a.value.value] + rest.value)
  }

  /** A printed number is scanned back, provided no digit follows it. */
  lemma ScanPrinted(n: nat, rest: string)
    requires rest != [] ==> !IsDigit(rest[0])
    ensures ScanInt(Digits(n, false) + rest) == Some(Scanned(n, |Digits(n, false)|))
  {
    var d := Digits(n, false);
    DigitsReadBack(n, false);
    SpanIs(d, rest, false);
    assert (d + rest)[..|d|] == d;
    assert (d + rest)[0] == d[0];
  }

  lemma StrtolPrinted(n: nat, rest: string)
    requires rest != [] ==> rest[0] == ':'
    ensures IsHexDigit((Digits(n, true) + rest)[0])
    ensures Strtol16(Digits(n, true) + rest) == Scanned(n, |Digits(n, true)|)
  {
    var d := Digits(n, true);
    DigitsReadBack(n, true);
    SpanIs(d, rest, true);
    assert (d + rest)[..|d|] == d;
    assert (d + rest)[0] == d[0];
    assert |d| > 1 ==> (d + rest)[1] == d[1];
  }

  /** Numbers set apart by dots. */
  function DottedText(ns: seq<int>): string
    requires forall i :: 0 <= i < |ns| ==> ns[i] >= 0
  {
    if ns == [] then "" else if |ns| == 1 then Digits(ns[0], false) else Digits(ns[0], false) + ("." + DottedText(ns[1..]))
  }

  lemma ScanMore(s: string, n: nat, a: Scanned, rest: string, r: seq<int>)
    requires n > 1 && ScanInt(s) == Some(a) && a.len < |s| && s[a.len] == '.' && s[a.len + 1..] == rest
    requires ScanDotted(rest, n - 1) == Some(r)
    ensures ScanDotted(s, n) == Some([a.value] + r)
  {
  }

  lemma {:induction false} DottedReadBack(ns: seq<int>, n: nat)
    requires n == |ns| > 0 && forall i :: 0 <= i < |ns| ==> ns[i] >= 0
    ensures ScanDotted(DottedText(ns), n) == Some(ns)
    decreases n
  {
    var d := Digits(ns[0], false);
    if n == 1 {
      ScanPrinted(ns[0], []);
      assert d + [] == d;
      assert ns == [ns[0]];
    } else {
      var tail := ns[1..];
      var rest := DottedText(tail);
      DottedReadBack(tail, n - 1);
      ScanPrinted(ns[0], "." + rest);
      assert (d + ("." + rest))[|d| + 1..] == rest;
      ScanMore(d + ("." + rest), n, Scanned(ns[0], |d|), rest, tail);
      assert [ns[0]] + tail == ns;
    }
  }
}
