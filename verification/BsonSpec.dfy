/** BSON documents as trees, their bytes, and reading the bytes back the way the iterator does
    (BSON specification: document, e_list, element). */
module BsonSpec {
  import opened Lists

  type Byte = x: int | 0 <= x < 256

  const INT32_MAX: int := 0x7fff_ffff
  const TWO31: int := 0x8000_0000
  const TWO32: int := 0x1_0000_0000

  type Int32 = x: int | -TWO31 <= x < TWO31

  datatype Value =
    | Plain(tag: PlainTag)
    | Bool(b: bool)
    | Int(i: Int32)
    | Eight(kind: EightKind, bytes: seq<Byte>)
    | Oid(bytes: seq<Byte>)
    | Text(text: TextKind, chars: seq<Byte>)
    | Bin(subtype: Byte, bytes: seq<Byte>)
    | Regex(pattern: seq<Byte>, opts: seq<Byte>)
    | Doc(isArray: bool, fields: seq<Field>)

  datatype Field = Field(key: seq<Byte>, value: Value)

  datatype PlainTag = Undefined | Null | MinKey | MaxKey
  datatype EightKind = Double | Date | Timestamp | Long
  datatype TextKind = String | Code | Symbol

  const BIN_OLD: Byte := 2

  function TypeOf(v: Value): (t: Byte)
    ensures t != 0
  {
    match v
    case Plain(Undefined) => 6
    case Plain(Null) => 10
    case Plain(MaxKey) => 127
    case Plain(MinKey) => 255
    case Bool(_) => 8
    case Int(_) => 16
    case Eight(Double, _) => 1
    case Eight(Date, _) => 9
    case Eight(Timestamp, _) => 17
    case Eight(Long, _) => 18
    case Oid(_) => 7
    case Text(String, _) => 2
    case Text(Code, _) => 13
    case Text(Symbol, _) => 14
    case Bin(_, _) => 5
    case Regex(_, _) => 11
    case Doc(a, _) => if a then 4 else 3
  }

  // ---------- Little-endian words ----------

  /** The low 32 bits of an integer, lowest byte first. */
  function Le32(n: int): (r: seq<Byte>)
    ensures |r| == 4
  {
    var u := n % TWO32;
    [u % 256, u / 256 % 256, u / 256 / 256 % 256, u / 256 / 256 / 256]
  }

  function Word(a: int, b: int, c: int, d: int): int
  {
    a + 256 * b + 65536 * c + 16777216 * d
  }

  /** bson_iterator_int_raw: four bytes as a signed word. */
  function Int32Of(s: seq<Byte>): Int32
    requires |s| >= 4
  {
    var u := Word(s[0], s[1], s[2], s[3]);
    if u >= TWO31 then u - TWO32 else u
  }

  lemma Le32Back(n: int, rest: seq<Byte>)
    requires -TWO31 <= n < TWO31
    ensures Int32Of(Le32(n) + rest) == n
  {
    var u := n % TWO32;
    assert u == if n < 0 then n + TWO32 else n;
    WordOf(u);
    var s := Le32(n) + rest;
    assert s[0] == Le32(n)[0] && s[1] == Le32(n)[1] && s[2] == Le32(n)[2] && s[3] == Le32(n)[3];
  }

  lemma WordOf(u: int)
    requires 0 <= u < TWO32
    ensures Word(u % 256, u / 256 % 256, u / 256 / 256 % 256, u / 256 / 256 / 256) == u
  {
  }

  // ---------- Bytes of a tree ----------

  function Payload(v: Value): seq<Byte>
    decreases v
  {
    match v
    case Plain(_) => []
    case Bool(b) => [if b then 1 else 0]
    case Int(i) => Le32(i)
    case Eight(_, b) => b
    case Oid(b) => b
    case Text(_, c) => Le32(|c| + 1) + (c + [0])
    case Bin(t, b) => if t == BIN_OLD then Le32(|b| + 4) + ([t] + (Le32(|b|) + b)) else Le32(|b|) + ([t] + b)
    case Regex(p, o) => p + [0] + (o + [0])
    case Doc(_, fs) => Document(fs)
  }

  /** Type byte, key, NUL. */
  function Header(t: Byte, key: seq<Byte>): seq<Byte>
  {
    [t] + (key + [0])
  }

  function Element(f: Field): seq<Byte>
    decreases f
  {
    Header(TypeOf(f.value), f.key) + Payload(f.value)
  }

  function Elements(fs: seq<Field>): seq<Byte>
    decreases fs, 0
  {
    if fs == [] then [] else Element(fs[0]) + Elements(fs[1..])
  }

  /** A document: its own length, its elements, and a final NUL. */
  function Document(fs: seq<Field>): seq<Byte>
    decreases fs, 1
  {
    Le32(|Elements(fs)| + 5) + (Elements(fs) + [0])
  }

  predicate NulFree(s: seq<Byte>)
  {
    forall i :: 0 <= i < |s| ==> s[i] != 0
  }

  /** Values whose lengths fit their prefixes, at every depth. */
  predicate Encodable(v: Value)
    decreases v
  {
    match v
    case Eight(_, b) => |b| == 8
    case Oid(b) => |b| == 12
    case Text(_, c) => |c| + 1 <= INT32_MAX
    case Bin(_, b) => |b| + 4 <= INT32_MAX
    case Regex(p, o) => NulFree(p) && NulFree(o)
    case Doc(_, fs) => AllEncodable(fs) && |Elements(fs)| + 5 < INT32_MAX
    case _ => true
  }

  predicate AllEncodable(fs: seq<Field>)
    decreases fs
  {
    fs == [] || (NulFree(fs[0].key) && Encodable(fs[0].value) && AllEncodable(fs[1..]))
  }

  // ---------- Reading back ----------

  /** strlen. */
  function Strlen(s: seq<Byte>): (n: nat)
    ensures n <= |s|
    ensures n < |s| ==> s[n] == 0
  {
    if s == [] || s[0] == 0 then 0 else 1 + Strlen(s[1..])
  }

  lemma {:induction false} StrlenIs(a: seq<Byte>, rest: seq<Byte>)
    requires NulFree(a) && rest != [] && rest[0] == 0
    ensures Strlen(a + rest) == |a|
  {
    if a == [] {
      assert a + rest == rest;
    } else {
      assert (a + rest)[1..] == a[1..] + rest;
      StrlenIs(a[1..], rest);
    }
  }

  /** The number of bytes bson_iterator_next steps over for a value of type `t` whose bytes start at `v`. */
  function DataSize(t: Byte, v: seq<Byte>): Option<int>
  {
    if t in {6, 10, 127, 255} then Some(0)
    else if t == 8 then Some(1)
    else if t == 16 then Some(4)
    else if t in {1, 9, 17, 18} then Some(8)
    else if t == 7 then Some(12)
    else if t in {2, 13, 14} then if |v| < 4 then None else Some(4 + Int32Of(v))
    else if t == 5 then if |v| < 4 then None else Some(5 + Int32Of(v))
    else if t in {3, 4, 15} then if |v| < 4 then None else Some(Int32Of(v))
    else if t == 12 then if |v| < 4 then None else Some(16 + Int32Of(v))
    else if t == 11 then
      var p := Strlen(v);
      if p == |v| then None else Some(p + 1 + Strlen(v[p + 1..]) + 1)
    else None
  }

  /** The start of an element's value: past the type byte, the key and its NUL. */
  function ValueAt(s: seq<Byte>): (n: nat)
    requires s != []
    ensures n >= 2
  {
    1 + Strlen(s[1..]) + 1
  }

  /** A value of type `t`, read from the bytes at `v` the way the accessors do. */
  function ReadValue(t: Byte, v: seq<Byte>): Option<Value>
    decreases |v|, 1
  {
    if t == 6 then Some(Plain(Undefined))
    else if t == 10 then Some(Plain(Null))
    else if t == 127 then Some(Plain(MaxKey))
    else if t == 255 then Some(Plain(MinKey))
    else if t == 8 && |v| >= 1 then Some(Bool(v[0] != 0))
    else if t == 16 && |v| >= 4 then Some(Int(Int32Of(v)))
    else if t == 1 && |v| >= 8 then Some(Eight(Double, v[..8]))
    else if t == 9 && |v| >= 8 then Some(Eight(Date, v[..8]))
    else if t == 17 && |v| >= 8 then Some(Eight(Timestamp, v[..8]))
    else if t == 18 && |v| >= 8 then Some(Eight(Long, v[..8]))
    else if t == 7 && |v| >= 12 then Some(Oid(v[..12]))
    else if t in {2, 13, 14} && |v| >= 4 && 1 <= Int32Of(v) <= |v| - 4 then
      Some(Text(if t == 2 then String else if t == 13 then Code else Symbol, v[4..3 + Int32Of(v)]))
    else if t == 5 then ReadBin(v)
    else if t == 11 then ReadRegex(v)
    else if t in {3, 4} && |v| >= 4 then
      var fs := ReadElements(v[4..]);
      if fs.None? then None else Some(Doc(t == 4, fs.value))
    else None
  }

  /** bson_iterator_bin_type, bin_len and bin_data. */
  function ReadBin(v: seq<Byte>): Option<Value>
  {
    if |v| < 5 then None
    else if v[4] == BIN_OLD then
      if 4 <= Int32Of(v) <= |v| - 5 then Some(Bin(BIN_OLD, v[9..5 + Int32Of(v)])) else None
    else if 0 <= Int32Of(v) <= |v| - 5 then Some(Bin(v[4], v[5..5 + Int32Of(v)])) else None
  }

  function ReadRegex(v: seq<Byte>): Option<Value>
  {
    var p := Strlen(v);
    if p == |v| then None
    else
      var o := v[p + 1..];
      Some(Regex(v[..p], o[..Strlen(o)]))
  }

  /** Iterate over the elements at `s` up to the final NUL, reading sub-documents with sub-iterators. */
  function ReadElements(s: seq<Byte>): Option<seq<Field>>
    decreases |s|, 0
  {
    if s == [] then None
    else if s[0] == 0 then Some([])
    else if ValueAt(s) > |s| then None
    else
      var v := s[ValueAt(s)..];
      var ds, x := DataSize(s[0], v), ReadValue(s[0], v);
      if ds.None? || !(0 <= ds.value <= |v|) || x.None? then None
      else
        var rest := ReadElements(v[ds.value..]);
        if rest.None? then None else Some([Field(s[1..ValueAt(s) - 1], x.value)] + rest.value)
  }

  // ---------- The round trip ----------

  /** The value `v`, whose bytes `s` starts with, is stepped over and read exactly. */
  ghost predicate ReadsBack(v: Value, s: seq<Byte>)
  {
    DataSize(TypeOf(v), s) == Some(|Payload(v)|) && ReadValue(TypeOf(v), s) == Some(v)
  }

  lemma EightBack(v: Value, rest: seq<Byte>, s: seq<Byte>)
    requires Encodable(v) && (v.Eight? || v.Oid?)
    requires s == Payload(v) + rest
    ensures ReadsBack(v, s)
  {
    var p := Payload(v);
    assert s[..|p|] == p;
  }

  lemma TextBack(v: Value, rest: seq<Byte>, s: seq<Byte>)
    requires Encodable(v) && v.Text?
    requires s == Payload(v) + rest
    ensures ReadsBack(v, s)
  {
    var c, n := v.chars, |v.chars| + 1;
    var tail := c + [0] + rest;
    assert s == Le32(n) + tail;
    Le32Back(n, tail);
    assert s[4..3 + n] == c;
  }

  lemma BinBack(v: Value, rest: seq<Byte>, s: seq<Byte>)
    requires Encodable(v) && v.Bin?
    requires s == Payload(v) + rest
    ensures ReadsBack(v, s)
  {
    var b, t := v.bytes, v.subtype;
    if t == BIN_OLD {
      var n, tail := |b| + 4, [t] + (Le32(|b|) + b) + rest;
      assert s == Le32(n) + tail;
      Le32Back(n, tail);
      assert s[4] == t && s[9..5 + n] == b;
    } else {
      var n, tail := |b|, [t] + b + rest;
      assert s == Le32(n) + tail;
      Le32Back(n, tail);
      assert s[4] == t && s[5..5 + n] == b;
    }
  }

  /** A string that ends at its first NUL. */
  lemma CString(a: seq<Byte>, rest: seq<Byte>, s: seq<Byte>)
    requires NulFree(a) && s == a + ([0] + rest)
    ensures Strlen(s) == |a| < |s| && s[..|a|] == a && s[|a| + 1..] == rest
  {
    StrlenIs(a, [0] + rest);
  }

  lemma RegexBack(v: Value, rest: seq<Byte>, s: seq<Byte>)
    requires Encodable(v) && v.Regex?
    requires s == Payload(v) + rest
    ensures ReadsBack(v, s)
  {
    var o := v.opts + ([0] + rest);
    TwoStrings(v.pattern, v.opts, rest, s, o);
    CString(v.pattern, o, s);
    CString(v.opts, rest, o);
  }

  lemma TwoStrings(p: seq<Byte>, o: seq<Byte>, rest: seq<Byte>, s: seq<Byte>, tail: seq<Byte>)
    requires s == p + [0] + (o + [0]) + rest && tail == o + ([0] + rest)
    ensures s == p + ([0] + tail)
  {
  }

  lemma PlainBack(v: Value, rest: seq<Byte>, s: seq<Byte>)
    requires v.Plain? || v.Bool? || v.Int?
    requires s == Payload(v) + rest
    ensures ReadsBack(v, s)
  {
    if v.Int? {
      Le32Back(v.i, rest);
    } else if v.Plain? {
      assert Payload(v) == [];
    }
  }

  lemma {:induction false} ValueBack(v: Value, rest: seq<Byte>, s: seq<Byte>)
    requires Encodable(v)
    requires s == Payload(v) + rest
    ensures ReadsBack(v, s)
    decreases v
  {
    if v.Doc? {
      DocBack(v, rest, s);
    } else if v.Eight? || v.Oid? {
      EightBack(v, rest, s);
    } else if v.Text? {
      TextBack(v, rest, s);
    } else if v.Bin? {
      BinBack(v, rest, s);
    } else if v.Regex? {
      RegexBack(v, rest, s);
    } else {
      PlainBack(v, rest, s);
    }
  }

  lemma ReadDoc(t: Byte, s: seq<Byte>, body: seq<Byte>, fs: seq<Field>)
    requires t in {3, 4} && |s| >= 4 && s[4..] == body && ReadElements(body) == Some(fs)
    ensures ReadValue(t, s) == Some(Doc(t == 4, fs))
  {
  }

  lemma DocParts(fs: seq<Field>, rest: seq<Byte>, s: seq<Byte>, body: seq<Byte>)
    requires s == Document(fs) + rest && |Elements(fs)| + 5 < INT32_MAX && body == Elements(fs) + ([0] + rest)
    ensures |s| >= 4 && s[4..] == body && Int32Of(s) == |Document(fs)|
  {
    var n := |Elements(fs)| + 5;
    assert s == Le32(n) + body;
    Le32Back(n, body);
  }

  lemma DocReads(v: Value, s: seq<Byte>, body: seq<Byte>)
    requires v.Doc? && |s| >= 4 && s[4..] == body && Int32Of(s) == |Payload(v)| && ReadElements(body) == Some(v.fields)
    ensures ReadsBack(v, s)
  {
    ReadDoc(TypeOf(v), s, body, v.fields);
  }

  lemma {:induction false} DocBack(v: Value, rest: seq<Byte>, s: seq<Byte>)
    requires Encodable(v) && v.Doc?
    requires s == Payload(v) + rest
    ensures ReadsBack(v, s)
    decreases v, 0
  {
    var body := Elements(v.fields) + ([0] + rest);
    DocParts(v.fields, rest, s, body);
    ElementsBack(v.fields, [0] + rest, body);
    DocReads(v, s, body);
  }

  /** One element, split where the iterator splits it. */
  lemma ElementSplit(f: Field, rest: seq<Byte>, s: seq<Byte>, v: seq<Byte>)
    requires NulFree(f.key) && s == Element(f) + rest && v == Payload(f.value) + rest
    ensures |s| >= ValueAt(s) == |f.key| + 2 && s[0] == TypeOf(f.value)
    ensures s[1..ValueAt(s) - 1] == f.key && s[ValueAt(s)..] == v
  {
    var tail := [0] + v;
    assert s == [TypeOf(f.value)] + (f.key + tail);
    assert s[1..] == f.key + tail;
    StrlenIs(f.key, tail);
    assert s[|f.key| + 2..] == tail[1..];
  }

  lemma ReadMore(s: seq<Byte>, v: seq<Byte>, k: nat, x: Value, tail: seq<Byte>, fs: seq<Field>)
    requires s != [] && s[0] != 0 && ValueAt(s) <= |s| && s[ValueAt(s)..] == v
    requires DataSize(s[0], v) == Some(k) && k <= |v| && ReadValue(s[0], v) == Some(x)
    requires v[k..] == tail && ReadElements(tail) == Some(fs)
    ensures ReadElements(s) == Some([Field(s[1..ValueAt(s) - 1], x)] + fs)
  {
  }

  lemma ElementBack(f: Field, tail: seq<Byte>, s: seq<Byte>, v: seq<Byte>, others: seq<Field>)
    requires NulFree(f.key) && s == Element(f) + tail && v == Payload(f.value) + tail
    requires ReadsBack(f.value, v) && ReadElements(tail) == Some(others)
    ensures ReadElements(s) == Some([f] + others)
  {
    ElementSplit(f, tail, s, v);
    assert v[|Payload(f.value)|..] == tail;
    ReadMore(s, v, |Payload(f.value)|, f.value, tail, others);
  }

  lemma ElementsFirst(fs: seq<Field>, rest: seq<Byte>, tail: seq<Byte>)
    requires fs != [] && tail == Elements(fs[1..]) + rest
    ensures Elements(fs) + rest == Element(fs[0]) + tail
  {
  }

  /** Reading the elements of a list up to the NUL that ends it gives the list. */
  lemma {:induction false} ElementsBack(fs: seq<Field>, rest: seq<Byte>, s: seq<Byte>)
    requires AllEncodable(fs) && rest != [] && rest[0] == 0 && s == Elements(fs) + rest
    ensures ReadElements(s) == Some(fs)
    decreases fs
  {
    if fs == [] {
      assert s == rest;
    } else {
      var f, others := fs[0], fs[1..];
      var tail := Elements(others) + rest;
      var v := Payload(f.value) + tail;
      ElementsFirst(fs, rest, tail);
      ValueBack(f.value, tail, v);
      ElementsBack(others, rest, tail);
      ElementBack(f, tail, s, v, others);
      assert fs == [f] + others;
    }
  }

  /** Reading a finished document gives the tree it was built from, at every depth. */
  lemma DocumentBack(fs: seq<Field>, d: seq<Byte>, body: seq<Byte>)
    requires AllEncodable(fs) && d == Document(fs) && |d| <= INT32_MAX && body == d[4..]
    ensures Int32Of(d) == |d| && ReadElements(body) == Some(fs)
  {
    Le32Back(|Elements(fs)| + 5, Elements(fs) + [0]);
    assert body == Elements(fs) + [0];
    ElementsBack(fs, [0], body);
  }

  lemma {:induction false} AllEncodablePlus(a: seq<Field>, f: Field)
    requires AllEncodable(a) && NulFree(f.key) && Encodable(f.value)
    ensures AllEncodable(a + [f]) && Elements(a + [f]) == Elements(a) + Element(f)
    decreases |a|
  {
    if a == [] {
      assert a + [f] == [f] && [f][1..] == [];
    } else {
      assert (a + [f])[0] == a[0] && (a + [f])[1..] == a[1..] + [f];
      AllEncodablePlus(a[1..], f);
    }
  }
}
