/** Reading a message back gives the value that was written, and nothing else could have been written. */
module TemplateCodec {
  import opened TemplateSpec

  /** These bytes are the next ones to be read. */
  ghost predicate Holds(c: Cursor, s: seq<int>)
  {
    c.front + |s| <= c.back <= |c.buf| && c.buf[c.front..c.front + |s|] == s
  }

  lemma HoldsParts(c: Cursor, a: seq<int>, b: seq<int>, s: seq<int>)
    requires Holds(c, s) && s == a + b
    ensures Holds(c, a) && Holds(After(c, |a|), b) && Found(c, |a|) == a
    ensures After(After(c, |a|), |b|) == After(c, |s|)
  {
    assert a == s[..|a|] && b == s[|a|..];
    var d := After(c, |a|);
    assert c.buf[c.front..c.front + |a|] == c.buf[c.front..c.front + |s|][..|a|];
    assert d.buf[d.front..d.front + |b|] == c.buf[c.front..c.front + |s|][|a|..];
  }

  lemma HoldsAll(c: Cursor, s: seq<int>)
    requires Holds(c, s)
    ensures Found(c, |s|) == s && !FallsShort(c, |s|) && CursorOk(c) && CursorOk(After(c, |s|))
  {
  }

  lemma TextBack(c: Cursor, t: seq<int>, s: seq<int>, v: Value)
    requires LeafOk(Str, v) && v == Text(t) && s == Bytes2(|t|) + t && Holds(c, s)
    ensures CursorOk(c) && ReadLeaf(Str, c) == Got(After(c, |s|), v, true)
  {
    var a := Bytes2(|t|);
    HoldsParts(c, a, t, s);
    HoldsAll(After(c, 2), t);
  }

  lemma LeafBack(k: Kind, v: Value, c: Cursor, s: seq<int>)
    requires LeafOk(k, v) && s == LeafBytes(k, v) && Holds(c, s)
    ensures CursorOk(c) && ReadLeaf(k, c) == Got(After(c, |s|), v, true)
  {
    HoldsAll(c, s);
    if k == Str {
      TextBack(c, v.s, s, v);
    }
  }

  lemma {:induction false} ItemBack(b: Body, v: Value, c: Cursor, s: seq<int>)
    requires ItemOk(b, v) && s == ItemBytes(b, v) && Holds(c, s)
    ensures CursorOk(c) && ReadItem(b, c) == Got(After(c, |s|), v, true)
    decreases b, 1
  {
    match b
    case Leaf(k) => LeafBack(k, v, c, s);
    case Sub(fs) => FieldsBack(fs, v.fields, c, s);
  }

  lemma {:induction false} FieldBack(f: Field, v: Value, c: Cursor, s: seq<int>)
    requires FieldOk(f, v) && s == FieldBytes(f, v) && Holds(c, s)
    ensures CursorOk(c) && ReadField(f, c) == Got(After(c, |s|), v, true)
    decreases f
  {
    if f.cnt < 2 {
      ItemBack(f.body, v, c, s);
    } else {
      var a, b := Bytes2(|v.items|), ItemsBytes(f.body, v.items);
      HoldsParts(c, a, b, s);
      ItemsBack(f.body, v.items, |v.items|, After(c, 2), b);
    }
  }

  lemma {:induction false} ItemsBack(b: Body, vs: seq<Value>, n: nat, c: Cursor, s: seq<int>)
    requires ItemsOk(b, vs) && n == |vs| && s == ItemsBytes(b, vs) && Holds(c, s)
    ensures CursorOk(c) && ReadItems(b, n, c) == Got(After(c, |s|), vs, true)
    decreases b, 2, |vs|
  {
    if vs != [] {
      var s0, s1 := ItemBytes(b, vs[0]), ItemsBytes(b, vs[1..]);
      HoldsParts(c, s0, s1, s);
      ItemBack(b, vs[0], c, s0);
      ItemsBack(b, vs[1..], n - 1, After(c, |s0|), s1);
      assert [vs[0]] + vs[1..] == vs;
    } else {
      assert s == [];
    }
  }

  /** The round trip: the value comes back, and the cursor stands just behind its bytes. */
  lemma {:induction false} FieldsBack(fs: seq<Field>, vs: seq<Value>, c: Cursor, s: seq<int>)
    requires FieldsOk(fs, vs) && s == FieldsBytes(fs, vs) && Holds(c, s)
    ensures CursorOk(c) && ReadFields(fs, c) == Got(After(c, |s|), vs, true)
    decreases fs
  {
    if fs != [] {
      var s0, s1 := FieldBytes(fs[0], vs[0]), FieldsBytes(fs[1..], vs[1..]);
      HoldsParts(c, s0, s1, s);
      FieldBack(fs[0], vs[0], c, s0);
      FieldsBack(fs[1..], vs[1..], After(c, |s0|), s1);
      assert [vs[0]] + vs[1..] == vs;
    } else {
      assert s == [];
    }
  }

  /** Reading a message that is just the bytes of a value gives the value, and all is read. */
  lemma MessageBack(fs: seq<Field>, vs: seq<Value>, s: seq<int>, c: Cursor)
    requires FieldsOk(fs, vs) && s == FieldsBytes(fs, vs) && c == Cursor(s, 0, |s|)
    ensures ReadFields(fs, c).v == vs && ReadFields(fs, c).ok && HasReadAll(ReadFields(fs, c).c)
  {
    assert s[0..|s|] == s;
    FieldsBack(fs, vs, c, s);
  }

  // ---------- And back again ----------

  /** The bytes read between two cursors. */
  ghost function Between(c: Cursor, d: Cursor): seq<int>
    requires d.back != -1 && d.back <= |d.buf| && d.front <= d.back && c.front <= d.front && c.buf == d.buf
  {
    c.buf[c.front..d.front]
  }

  ghost predicate Fine(c: Cursor, d: Cursor)
  {
    && CursorOk(c) && c.front <= c.back && Later(c, d) && d.back != -1
  }

  lemma BetweenParts(c: Cursor, d: Cursor, e: Cursor)
    requires Fine(c, d) && Fine(d, e)
    ensures Fine(c, e) && Between(c, e) == Between(c, d) + Between(d, e)
  {
  }

  lemma FineFirst(c: Cursor, d: Cursor, e: Cursor)
    requires CursorOk(c) && c.front <= c.back && Later(c, d) && Later(d, e) && e.back != -1
    ensures Fine(c, d) && Fine(d, e)
  {
  }

  lemma Bytes2Back(s: seq<int>)
    requires |s| == 2 && AllBytes(s)
    ensures Bytes2(Int2(s)) == s
  {
  }

  lemma Bytes1Back(s: seq<int>)
    requires |s| == 1 && AllBytes(s)
    ensures Bytes1(Int1(s)) == s
  {
  }

  lemma Bytes4Back(s: seq<int>)
    requires |s| == 4 && AllBytes(s) && Int4(s) >= 0
    ensures Bytes4(Int4(s)) == s
  {
  }

  lemma LeafIs(k: Kind, c: Cursor, r: Got<Value>)
    requires CursorOk(c) && AllBytes(c.buf) && r == ReadLeaf(k, c) && r.ok && LeafOk(k, r.v) && Fine(c, r.c)
    ensures LeafBytes(k, r.v) == Between(c, r.c)
  {
    match k
    case Byte => Bytes1Back(Found(c, 1));
    case Short => Bytes2Back(Found(c, 2));
    case Int => Bytes4Back(Found(c, 4));
    case Uint => Bytes4Back(Found(c, 4));
    case Double =>
    case Str =>
      var d := After(c, 2);
      FineFirst(c, d, r.c);
      Bytes2Back(Found(c, 2));
      BetweenParts(c, d, r.c);
  }

  /** A table whose reading failed is short of fields. */
  lemma {:induction false} FieldsCount(fs: seq<Field>, c: Cursor)
    requires CursorOk(c)
    ensures if ReadFields(fs, c).ok then |ReadFields(fs, c).v| == |fs| else |ReadFields(fs, c).v| < |fs|
    decreases |fs|
  {
    if fs != [] {
      FieldsCount(fs[1..], ReadField(fs[0], c).c);
    }
  }

  lemma {:induction false} ItemIs(b: Body, c: Cursor, r: Got<Value>)
    requires CursorOk(c) && AllBytes(c.buf) && r == ReadItem(b, c) && r.ok && ItemOk(b, r.v) && Fine(c, r.c)
    ensures ItemBytes(b, r.v) == Between(c, r.c)
    decreases b, 1
  {
    match b
    case Leaf(k) => LeafIs(k, c, r);
    case Sub(fs) => FieldsAre(fs, c, ReadFields(fs, c));
  }

  lemma {:induction false} FieldIs(f: Field, c: Cursor, r: Got<Value>)
    requires CursorOk(c) && AllBytes(c.buf) && r == ReadField(f, c) && r.ok && FieldOk(f, r.v) && Fine(c, r.c)
    ensures FieldBytes(f, r.v) == Between(c, r.c)
    decreases f
  {
    if f.cnt < 2 {
      ItemIs(f.body, c, r);
    } else {
      var len, d := Int2(Found(c, 2)), After(c, 2);
      var q := ReadItems(f.body, len, d);
      FineFirst(c, d, r.c);
      Bytes2Back(Found(c, 2));
      ItemsAre(f.body, len, d, q);
      BetweenParts(c, d, r.c);
    }
  }

  lemma {:induction false} ItemsAre(b: Body, n: nat, c: Cursor, r: Got<seq<Value>>)
    requires CursorOk(c) && AllBytes(c.buf) && r == ReadItems(b, n, c) && r.ok && ItemsOk(b, r.v) && Fine(c, r.c)
    ensures ItemsBytes(b, r.v) == Between(c, r.c) && |r.v| == n
    decreases b, 2, n
  {
    if n > 0 {
      var q := ReadItem(b, c);
      var t := ReadItems(b, n - 1, q.c);
      assert r.v[0] == q.v && r.v[1..] == t.v;
      FineFirst(c, q.c, t.c);
      if b.Sub? {
        FieldsCount(b.fields, c);
        assert FieldsOk(b.fields, q.v.fields);
      }
      ItemIs(b, c, q);
      ItemsAre(b, n - 1, q.c, t);
      BetweenParts(c, q.c, t.c);
    }
  }

  /** Whatever was read in full and can be sent is, byte for byte, what sending it would give. */
  lemma {:induction false} FieldsAre(fs: seq<Field>, c: Cursor, r: Got<seq<Value>>)
    requires CursorOk(c) && AllBytes(c.buf) && r == ReadFields(fs, c) && r.ok && FieldsOk(fs, r.v) && Fine(c, r.c)
    ensures FieldsBytes(fs, r.v) == Between(c, r.c)
    decreases fs
  {
    if fs != [] {
      var q := ReadField(fs[0], c);
      var t := ReadFields(fs[1..], q.c);
      assert r.v[0] == q.v && r.v[1..] == t.v;
      FineFirst(c, q.c, t.c);
      FieldIs(fs[0], c, q);
      FieldsAre(fs[1..], q.c, t);
      BetweenParts(c, q.c, t.c);
    }
  }

  /** Once one read has fallen short, nothing that is read later makes the message look read in full. */
  lemma NeverReadAll(c: Cursor, n: nat, fs: seq<Field>)
    requires CursorOk(c) && FallsShort(c, n)
    ensures !HasReadAll(ReadFields(fs, After(c, n)).c)
  {
  }

  /** A message that was read in full and can be sent is exactly the bytes of what was read. */
  lemma OnlyItsBytes(fs: seq<Field>, s: seq<int>, c: Cursor)
    requires AllBytes(s) && c == Cursor(s, 0, |s|)
    requires ReadFields(fs, c).ok && HasReadAll(ReadFields(fs, c).c) && FieldsOk(fs, ReadFields(fs, c).v)
    ensures s == FieldsBytes(fs, ReadFields(fs, c).v)
  {
    FieldsAre(fs, c, ReadFields(fs, c));
  }

  // ---------- Failures inside arrays ----------

  /** Every table of the array is read without failing. */
  predicate EachRead(b: Body, n: nat, c: Cursor)
    requires CursorOk(c)
    decreases n
  {
    n == 0 || (ReadItem(b, c).ok && EachRead(b, n - 1, ReadItem(b, c).c))
  }

  ghost predicate AllFull(vs: seq<Value>, n: nat)
  {
    forall i :: 0 <= i < |vs| ==> vs[i].Table? && |vs[i].fields| == n
  }

  /** Reading an array of tables never reports a failure: that a table in it failed shows only in its missing fields. */
  lemma {:induction false} FailuresIgnored(b: Body, n: nat, c: Cursor)
    requires CursorOk(c) && b.Sub?
    ensures ReadItems(b, n, c).ok && |ReadItems(b, n, c).v| == n
    ensures AllFull(ReadItems(b, n, c).v, |b.fields|) <==> EachRead(b, n, c)
    decreases n
  {
    if n > 0 {
      var q := ReadItem(b, c);
      var t := ReadItems(b, n - 1, q.c);
      FieldsCount(b.fields, c);
      FailuresIgnored(b, n - 1, q.c);
      var vs := ReadItems(b, n, c).v;
      assert vs[0] == q.v && vs[1..] == t.v;
      assert forall i :: 0 < i < |vs| ==> vs[i] == t.v[i - 1];
      assert forall i :: 0 <= i < |t.v| ==> t.v[i] == vs[i + 1];
    }
  }

  /** An array of one table, whose only field is a string of length -1: refused alone, accepted in the array. */
  lemma BadTableAccepted()
    ensures var table := [Field("s", 1, Leaf(Str))];
      && !ReadFields(table, Cursor([255, 255], 0, 2)).ok
      && ReadField(Field("t", 2, Sub(table)), Cursor([0, 1, 255, 255], 0, 4)) ==
           Got(Cursor([0, 1, 255, 255], 4, 4), Many([Table([])]), true)
  {
    var s := Field("s", 1, Leaf(Str));
    var table, b := [s], Sub([s]);
    assert table[0] == s && Found(Cursor([255, 255], 0, 2), 2) == [255, 255];
    assert ReadField(s, Cursor([255, 255], 0, 2)) == ReadLeaf(Str, Cursor([255, 255], 0, 2));
    var c := Cursor([0, 1, 255, 255], 0, 4);
    var d := After(c, 2);
    assert c.buf[0..2] == [0, 1] && d.buf[2..4] == [255, 255];
    assert ReadField(s, d) == ReadLeaf(Str, d);
    assert ReadFields(table, d) == Got(After(d, 2), [], false);
    assert ReadItem(b, d) == Got(After(d, 2), Table([]), false);
    assert ReadItems(b, 0, After(d, 2)) == Got(After(d, 2), [], true);
    assert ReadItems(b, 1, d) == Led([Table([])], ReadItems(b, 0, After(d, 2)));
    assert [Table([])] + [] == [Table([])];
  }
}
