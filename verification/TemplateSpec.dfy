/** Messages described by templates: the bytes of a value, and what reading finds at a cursor. */
module TemplateSpec {

  datatype Kind = Byte | Short | Int | Uint | Double | Str

  /** What an entry holds: a single scalar or table, or, with a count of two or more, an array of them. */
  datatype Field = Field(name: string, cnt: int, body: Body)
  datatype Body = Leaf(kind: Kind) | Sub(fields: seq<Field>)

  /** A double is its eight bytes; Junk is a string read past the end: so many bytes of whatever was in memory. */
  datatype Value =
    | Num(n: int)
    | Bits(b: seq<int>)
    | Text(s: seq<int>)
    | Junk(len: int)
    | Table(fields: seq<Value>)
    | Many(items: seq<Value>)

  ghost predicate AllBytes(s: seq<int>)
  {
    forall i :: 0 <= i < |s| ==> 0 <= s[i] < 256
  }

  // ---------- Values that can be sent ----------

  ghost predicate LeafOk(k: Kind, v: Value)
  {
    match k
    case Byte => v.Num? && -0x80 <= v.n < 0x80
    case Short => v.Num? && -0x8000 <= v.n < 0x8000
    case Int => v.Num? && 0 <= v.n < 0x8000_0000
    case Uint => v.Num? && 0 <= v.n < 0x8000_0000
    case Double => v.Bits? && |v.b| == 8 && AllBytes(v.b)
    case Str => v.Text? && |v.s| < 0x8000 && AllBytes(v.s)
  }

  ghost predicate ItemOk(b: Body, v: Value)
    decreases b, 1
  {
    match b
    case Leaf(k) => LeafOk(k, v)
    case Sub(fs) => v.Table? && FieldsOk(fs, v.fields)
  }

  ghost predicate FieldOk(f: Field, v: Value)
    decreases f
  {
    if f.cnt < 2 then ItemOk(f.body, v)
    else v.Many? && |v.items| <= f.cnt && |v.items| < 0x8000 && ItemsOk(f.body, v.items)
  }

  ghost predicate ItemsOk(b: Body, vs: seq<Value>)
    decreases b, 2, |vs|
  {
    vs != [] ==> ItemOk(b, vs[0]) && ItemsOk(b, vs[1..])
  }

  ghost predicate FieldsOk(fs: seq<Field>, vs: seq<Value>)
    decreases fs
  {
    |fs| == |vs| && (fs != [] ==> FieldOk(fs[0], vs[0]) && FieldsOk(fs[1..], vs[1..]))
  }

  // ---------- Their bytes ----------

  /** Two's complement, most significant byte first. */
  function Bytes1(n: int): (r: seq<int>)
    ensures |r| == 1 && (-0x80 <= n < 0x80 ==> Int1(r) == n)
  {
    [n % 256]
  }

  function Bytes2(n: int): (r: seq<int>)
    ensures |r| == 2 && (-0x8000 <= n < 0x8000 ==> Int2(r) == n)
  {
    [n % 0x1_0000 / 256, n % 256]
  }

  function Bytes4(n: int): (r: seq<int>)
    requires 0 <= n < 0x1_0000_0000
    ensures |r| == 4 && (n < 0x8000_0000 ==> Int4(r) == n)
  {
    [n / 0x100_0000, n / 0x1_0000 % 256, n / 256 % 256, n % 256]
  }

  function Wrap(n: int, half: int): int
  {
    if n < half then n else n - 2 * half
  }

  function Int1(s: seq<int>): int
    requires |s| == 1
  {
    Wrap(s[0], 0x80)
  }

  function Int2(s: seq<int>): int
    requires |s| == 2
  {
    Wrap(s[0] * 256 + s[1], 0x8000)
  }

  function Int4(s: seq<int>): int
    requires |s| == 4
  {
    Wrap(((s[0] * 256 + s[1]) * 256 + s[2]) * 256 + s[3], 0x8000_0000)
  }

  /** Network byte order: the first byte weighs most. */
  lemma BytesWeigh(n: nat)
    ensures n < 0x1_0000 ==> var r := Bytes2(n); 0x100 * r[0] + r[1] == n
    ensures n < 0x1_0000_0000 ==> var r := Bytes4(n); 0x100_0000 * r[0] + 0x1_0000 * r[1] + 0x100 * r[2] + r[3] == n
  {
    var a := n / 0x100;
    var b := a / 0x100;
    var c := b / 0x100;
    assert n == 0x100 * a + n % 0x100 && a == 0x100 * b + a % 0x100 && b == 0x100 * c + b % 0x100;
    assert n / 0x1_0000 == b && n / 0x100_0000 == c;
  }

  /** Read back, with the sign in the first byte's highest bit. */
  lemma NetworkOrder(a: int, b: int, c: int, d: int)
    requires 0 <= a < 256 && 0 <= b < 256 && 0 <= c < 256 && 0 <= d < 256
    ensures Int1([a]) == a - if a < 128 then 0 else 0x100
    ensures Int2([a, b]) == 0x100 * a + b - if a < 128 then 0 else 0x1_0000
    ensures Int4([a, b, c, d]) == 0x100_0000 * a + 0x1_0000 * b + 0x100 * c + d - if a < 128 then 0 else 0x1_0000_0000
  {
  }

  function LeafBytes(k: Kind, v: Value): seq<int>
    requires LeafOk(k, v)
  {
    match k
    case Byte => Bytes1(v.n)
    case Short => Bytes2(v.n)
    case Int => Bytes4(v.n)
    case Uint => Bytes4(v.n)
    case Double => v.b
    case Str => Bytes2(|v.s|) + v.s
  }

  function ItemBytes(b: Body, v: Value): seq<int>
    requires ItemOk(b, v)
    decreases b, 1
  {
    match b
    case Leaf(k) => LeafBytes(k, v)
    case Sub(fs) => FieldsBytes(fs, v.fields)
  }

  function FieldBytes(f: Field, v: Value): seq<int>
    requires FieldOk(f, v)
    decreases f
  {
    if f.cnt < 2 then ItemBytes(f.body, v)
    else Bytes2(|v.items|) + ItemsBytes(f.body, v.items)
  }

  function ItemsBytes(b: Body, vs: seq<Value>): seq<int>
    requires ItemsOk(b, vs)
    decreases b, 2, |vs|
  {
    if vs == [] then [] else ItemBytes(b, vs[0]) + ItemsBytes(b, vs[1..])
  }

  function FieldsBytes(fs: seq<Field>, vs: seq<Value>): seq<int>
    requires FieldsOk(fs, vs)
    decreases fs
  {
    if fs == [] then [] else FieldBytes(fs[0], vs[0]) + FieldsBytes(fs[1..], vs[1..])
  }

  // Samples: a string and an array have two bytes of count in front, a table has nothing around it.

  lemma ScalarSamples(f: Field, v: Value)
    requires f.cnt < 2 && FieldOk(f, v)
    ensures f.body == Leaf(Byte) && v == Num(-1) ==> FieldBytes(f, v) == [255]
    ensures f.body == Leaf(Short) && v == Num(-2) ==> FieldBytes(f, v) == [255, 254]
    ensures f.body == Leaf(Int) && v == Num(0x01020304) ==> FieldBytes(f, v) == [1, 2, 3, 4]
    ensures f.body == Leaf(Str) && v == Text([97, 98]) ==> FieldBytes(f, v) == [0, 2, 97, 98]
  {
  }

  lemma ArraySample(f: Field, v: Value)
    requires f.cnt >= 2 && f.body == Leaf(Short) && v == Many([Num(0x0102), Num(-3)]) && FieldOk(f, v)
    ensures FieldBytes(f, v) == [0, 2, 1, 2, 255, 253]
  {
    var vs := v.items;
    assert vs[1..] == [Num(-3)] && vs[1..][1..] == [];
    assert ItemsBytes(f.body, vs[1..]) == [255, 253] + [];
    assert ItemsBytes(f.body, vs) == [1, 2] + [255, 253];
  }

  lemma TableSample(f: Field, v: Value)
    requires f.cnt < 2 && f.body == Sub([Field("x", 1, Leaf(Short)), Field("y", 0, Leaf(Byte))])
    requires v == Table([Num(0x0102), Num(7)]) && FieldOk(f, v)
    ensures FieldBytes(f, v) == [1, 2, 7]
  {
    var fs, vs := f.body.fields, v.fields;
    assert fs[1..] == [Field("y", 0, Leaf(Byte))] && fs[1..][1..] == [] && vs[1..] == [Num(7)] && vs[1..][1..] == [];
    assert FieldsBytes(fs[1..], vs[1..]) == [7] + [];
    assert FieldsBytes(fs, vs) == [1, 2] + [7];
  }

  // ---------- Reading at a cursor ----------

  /** A received message: what is between `front` and `back` is yet to be read; `back` is -1 once a read fell short. */
  datatype Cursor = Cursor(buf: seq<int>, front: nat, back: int)

  ghost predicate CursorOk(c: Cursor)
  {
    c.back <= |c.buf|
  }

  predicate HasReadAll(c: Cursor)
  {
    c.back == c.front
  }

  predicate FallsShort(c: Cursor, n: nat)
  {
    c.back < c.front + n
  }

  /** The cursor after asking for `n` bytes. */
  function After(c: Cursor, n: nat): (d: Cursor)
    ensures Later(c, d)
  {
    if FallsShort(c, n) then c.(back := -1) else c.(front := c.front + n)
  }

  /** The bytes a read finds; zeros if they are not there. */
  function Found(c: Cursor, n: nat): (r: seq<int>)
    requires CursorOk(c)
    ensures |r| == n
  {
    if FallsShort(c, n) then seq(n, _ => 0) else c.buf[c.front..c.front + n]
  }

  /** Reading only goes forward, and a cursor that fell short stays as it is. */
  ghost predicate Later(c: Cursor, d: Cursor)
  {
    && d.buf == c.buf && d.front >= c.front
    && (d.back == c.back || d.back == -1)
    && (c.back == -1 ==> d == c)
    && (d.back != -1 && c.front <= c.back ==> d.front <= d.back)
  }

  datatype Got<T> = Got(c: Cursor, v: T, ok: bool)

  function ReadLeaf(k: Kind, c: Cursor): (r: Got<Value>)
    requires CursorOk(c)
    ensures Later(c, r.c) && CursorOk(r.c)
  {
    match k
    case Byte => Got(After(c, 1), Num(Int1(Found(c, 1))), true)
    case Short => Got(After(c, 2), Num(Int2(Found(c, 2))), true)
    case Int => Got(After(c, 4), Num(Int4(Found(c, 4))), true)
    case Uint => Got(After(c, 4), Num(Int4(Found(c, 4))), true)
    case Double => Got(After(c, 8), Bits(Found(c, 8)), true)
    case Str =>
      var len, d := Int2(Found(c, 2)), After(c, 2);
      if len < 0 then Got(d, Junk(0), false)
      else Got(After(d, len), if FallsShort(d, len) then Junk(len) else Text(Found(d, len)), true)
  }

  function ReadItem(b: Body, c: Cursor): (r: Got<Value>)
    requires CursorOk(c)
    ensures Later(c, r.c) && CursorOk(r.c)
    decreases b, 1
  {
    match b
    case Leaf(k) => ReadLeaf(k, c)
    case Sub(fs) => var r := ReadFields(fs, c); Got(r.c, Table(r.v), r.ok)
  }

  function ReadField(f: Field, c: Cursor): (r: Got<Value>)
    requires CursorOk(c)
    ensures Later(c, r.c) && CursorOk(r.c)
    decreases f
  {
    if f.cnt < 2 then ReadItem(f.body, c)
    else
      var len, d := Int2(Found(c, 2)), After(c, 2);
      if !(0 <= len <= f.cnt) then Got(d, Many([]), false)
      else var r := ReadItems(f.body, len, d); Got(r.c, Many(r.v), r.ok)
  }

  /** In an array it is not looked at whether the reading of a table succeeded. */
  function ReadItems(b: Body, n: nat, c: Cursor): (r: Got<seq<Value>>)
    requires CursorOk(c)
    ensures Later(c, r.c) && CursorOk(r.c)
    decreases b, 2, n
  {
    if n == 0 then Got(c, [], true)
    else
      var r := ReadItem(b, c);
      if !r.ok && b.Leaf? then Got(r.c, [], false)
      else Led([r.v], ReadItems(b, n - 1, r.c))
  }

  function ReadFields(fs: seq<Field>, c: Cursor): (r: Got<seq<Value>>)
    requires CursorOk(c)
    ensures Later(c, r.c) && CursorOk(r.c)
    decreases fs
  {
    if fs == [] then Got(c, [], true)
    else
      var r := ReadField(fs[0], c);
      if !r.ok then Got(r.c, [], false) else Led([r.v], ReadFields(fs[1..], r.c))
  }

  function Led(vs: seq<Value>, r: Got<seq<Value>>): Got<seq<Value>>
  {
    r.(v := vs + r.v)
  }
}
