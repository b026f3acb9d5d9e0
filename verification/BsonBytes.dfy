/** The bytes themselves, as the BSON specification (version 1.1) prints them. */
module BsonBytes {
  import opened Lists
  import opened BsonSpec

  /** What four bytes weigh, lowest first. */
  function Weight(s: seq<Byte>): int
    requires |s| >= 4
  {
    var a: int, b: int, c: int, d: int := s[0], s[1], s[2], s[3];
    a + 0x100 * b + 0x1_0000 * c + 0x100_0000 * d
  }

  /** Words are written with their lowest byte first. */
  lemma Le32Weighs(n: int)
    ensures Weight(Le32(n)) == n % TWO32
  {
    WordOf(n % TWO32);
  }

  /** And read so, with a sign. */
  lemma Int32Weighs(s: seq<Byte>)
    requires |s| >= 4
    ensures Int32Of(s) == if Weight(s) < TWO31 then Weight(s) else Weight(s) - TWO32
  {
  }

  /** A document starts with its own length. */
  lemma DocumentWeighs(fs: seq<Field>)
    requires |Document(fs)| < TWO32
    ensures |Document(fs)| >= 5 && Weight(Document(fs)) == |Document(fs)| && Document(fs)[|Document(fs)| - 1] == 0
  {
    var n := |Elements(fs)| + 5;
    Le32Weighs(n);
    var d := Document(fs);
    assert d[..4] == Le32(n);
    assert d[0] == d[..4][0] && d[1] == d[..4][1] && d[2] == d[..4][2] && d[3] == d[..4][3];
  }

  /** The byte that the specification gives each type, in front of the key and its NUL. */
  lemma ElementStarts(f: Field)
    ensures |Element(f)| >= |f.key| + 2 && Element(f)[1..|f.key| + 1] == f.key && Element(f)[|f.key| + 1] == 0
    ensures Element(f)[0] ==
      match f.value
      case Eight(Double, _) => 0x01
      case Text(String, _) => 0x02
      case Doc(false, _) => 0x03
      case Doc(true, _) => 0x04
      case Bin(_, _) => 0x05
      case Plain(Undefined) => 0x06
      case Oid(_) => 0x07
      case Bool(_) => 0x08
      case Eight(Date, _) => 0x09
      case Plain(Null) => 0x0a
      case Regex(_, _) => 0x0b
      case Text(Code, _) => 0x0d
      case Text(Symbol, _) => 0x0e
      case Int(_) => 0x10
      case Eight(Timestamp, _) => 0x11
      case Eight(Long, _) => 0x12
      case Plain(MaxKey) => 0x7f
      case Plain(MinKey) => 0xff
  {
    var h := Header(TypeOf(f.value), f.key);
    assert Element(f)[..|h|] == h;
    assert Element(f)[0] == Element(f)[..|h|][0];
    assert Element(f)[1..|f.key| + 1] == h[1..|f.key| + 1] == f.key;
    assert Element(f)[|f.key| + 1] == h[|f.key| + 1];
  }

  const HELLO: seq<Byte> := [0x68, 0x65, 0x6c, 0x6c, 0x6f]
  const WORLD: seq<Byte> := [0x77, 0x6f, 0x72, 0x6c, 0x64]
  const BSON: seq<Byte> := [0x42, 0x53, 0x4f, 0x4e]
  const AWESOME: seq<Byte> := [0x61, 0x77, 0x65, 0x73, 0x6f, 0x6d, 0x65]

  lemma Words()
    ensures Le32(6) == [6, 0, 0, 0] && Le32(22) == [22, 0, 0, 0] && Le32(8) == [8, 0, 0, 0]
    ensures Le32(38) == [38, 0, 0, 0] && Le32(49) == [49, 0, 0, 0] && Le32(1986) == [0xc2, 7, 0, 0]
  {
  }

  lemma OneField(f: Field)
    ensures Elements([f]) == Element(f)
  {
    assert [f][1..] == [];
    assert Elements([f]) == Element(f) + [];
  }

  /** {"hello": "world"} */
  lemma HelloWorld()
    ensures Document([Field(HELLO, Text(String, WORLD))]) ==
      [0x16, 0, 0, 0, 0x02] + HELLO + [0, 0x06, 0, 0, 0] + WORLD + [0, 0]
  {
    var f := Field(HELLO, Text(String, WORLD));
    Words();
    OneField(f);
    assert Element(f) == [2] + (HELLO + [0]) + ([6, 0, 0, 0] + (WORLD + [0]));
  }

  /** {"BSON": ["awesome", 5.05, 1986]} */
  lemma Awesome(a: Field, d: Field, i: Field, fs: seq<Field>)
    requires a == Field([0x30], Text(String, AWESOME)) && i == Field([0x32], Int(1986))
    requires d == Field([0x31], Eight(Double, [0x33, 0x33, 0x33, 0x33, 0x33, 0x33, 0x14, 0x40]))
    requires fs == [Field(BSON, Doc(true, [a, d, i]))]
    ensures Document(fs) ==
      [0x31, 0, 0, 0, 0x04] + BSON + [0, 0x26, 0, 0, 0, 0x02, 0x30, 0, 0x08, 0, 0, 0] + AWESOME
      + [0, 0x01, 0x31, 0, 0x33, 0x33, 0x33, 0x33, 0x33, 0x33, 0x14, 0x40, 0x10, 0x32, 0, 0xc2, 0x07, 0, 0, 0, 0]
  {
    var es := AwesomeElements(a, d, i);
    DocumentIs([a, d, i], es, 38);
    Words();
    var inner, header := [38, 0, 0, 0] + (es + [0]), [4] + (BSON + [0]);
    Nested(fs[0], inner, header + inner, true);
    assert fs == [fs[0]];
    OneField(fs[0]);
    DocumentIs(fs, header + inner, 49);
  }

  lemma Nested(f: Field, inner: seq<Byte>, e: seq<Byte>, isArray: bool)
    requires f.value.Doc? && f.value.isArray == isArray && isArray && Document(f.value.fields) == inner
    requires e == [4] + (f.key + [0]) + inner
    ensures Element(f) == e
  {
  }

  lemma AwesomeElements(a: Field, d: Field, i: Field) returns (es: seq<Byte>)
    requires a == Field([0x30], Text(String, AWESOME)) && i == Field([0x32], Int(1986))
    requires d == Field([0x31], Eight(Double, [0x33, 0x33, 0x33, 0x33, 0x33, 0x33, 0x14, 0x40]))
    ensures es == [0x02, 0x30, 0, 8, 0, 0, 0] + AWESOME
      + [0, 0x01, 0x31, 0, 0x33, 0x33, 0x33, 0x33, 0x33, 0x33, 0x14, 0x40, 0x10, 0x32, 0, 0xc2, 0x07, 0, 0]
    ensures Elements([a, d, i]) == es && |es| == 33
  {
    Words();
    ThreeFields(a, d, i);
    assert Element(a) == [0x02, 0x30, 0, 8, 0, 0, 0] + AWESOME + [0];
    assert Element(d) == [0x01, 0x31, 0, 0x33, 0x33, 0x33, 0x33, 0x33, 0x33, 0x14, 0x40];
    assert Element(i) == [0x10, 0x32, 0, 0xc2, 0x07, 0, 0];
    es := Element(a) + (Element(d) + Element(i));
  }

  lemma DocumentIs(fs: seq<Field>, es: seq<Byte>, n: nat)
    requires Elements(fs) == es && n == |es| + 5
    ensures Document(fs) == Le32(n) + (es + [0])
  {
  }

  lemma ThreeFields(a: Field, b: Field, c: Field)
    ensures Elements([a, b, c]) == Element(a) + (Element(b) + Element(c))
  {
    assert [a, b, c][1..] == [b, c] && [b, c][1..] == [c];
    OneField(c);
  }

  /** A binary value of the old subtype repeats its length; a pattern and its options end at NULs. */
  lemma OtherValues(b: Byte)
    ensures Payload(Bin(0, [b])) == [1, 0, 0, 0, 0, b]
    ensures Payload(Bin(2, [b])) == [5, 0, 0, 0, 2, 1, 0, 0, 0, b]
    ensures Payload(Bool(true)) == [1] && Payload(Bool(false)) == [0] && Payload(Plain(Null)) == []
    ensures b != 0 ==> Payload(Regex([b], [0x69])) == [b, 0, 0x69, 0]
    ensures Payload(Int(-2)) == [0xfe, 0xff, 0xff, 0xff]
  {
    assert Le32(1) == [1, 0, 0, 0] && Le32(5) == [5, 0, 0, 0] && Le32(-2) == [0xfe, 0xff, 0xff, 0xff];
  }
}
