/** Building a whole tree with the builder and walking it again with iterators. */
module BsonTree {
  import opened Lists
  import opened BsonSpec
  import opened Bson

  /** What the C types of the append functions allow: strings end at their NUL, and fixed sizes are fixed. */
  predicate Typed(v: Value)
    decreases v
  {
    match v
    case Eight(_, b) => |b| == 8
    case Oid(b) => |b| == 12
    case Regex(p, o) => NulFree(p) && NulFree(o)
    case Doc(_, fs) => AllTyped(fs)
    case _ => true
  }

  predicate AllTyped(fs: seq<Field>)
    decreases fs
  {
    forall i :: 0 <= i < |fs| ==> NulFree(fs[i].key) && Typed(fs[i].value)
  }

  /** Every key, string and pattern passes the UTF-8 check. */
  predicate Passes(utf8: seq<Byte> -> bool, f: Field)
    decreases f
  {
    && utf8(f.key)
    && match f.value
       case Text(_, chars) => utf8(chars)
       case Regex(p, _) => utf8(p)
       case Doc(_, fs) => AllPass(utf8, fs)
       case _ => true
  }

  predicate AllPass(utf8: seq<Byte> -> bool, fs: seq<Field>)
    decreases fs
  {
    forall i :: 0 <= i < |fs| ==> Passes(utf8, fs[i])
  }

  lemma AllPassSplit(utf8: seq<Byte> -> bool, fs: seq<Field>)
    requires fs != []
    ensures AllPass(utf8, fs) <==> Passes(utf8, fs[0]) && AllPass(utf8, fs[1..])
  {
    if AllPass(utf8, fs[1..]) && Passes(utf8, fs[0]) {
      forall i | 0 <= i < |fs|
        ensures Passes(utf8, fs[i])
      {
        assert i > 0 ==> fs[i] == fs[1..][i - 1];
      }
    }
  }

  lemma DocSize(f: Field)
    requires f.value.Doc?
    ensures |Element(f)| == |f.key| + 7 + |Elements(f.value.fields)|
  {
    DocElement(f.key, f.value.isArray, f.value.fields);
  }

  /** The frames once fields have been added to the innermost. */
  ghost function Extended(frames: seq<Frame>, fs: seq<Field>): seq<Frame>
    requires frames != []
  {
    var z := |frames| - 1;
    frames[z := frames[z].(fields := frames[z].fields + fs)]
  }

  lemma ExtendedByNone(frames: seq<Frame>)
    requires frames != []
    ensures Extended(frames, []) == frames
  {
    var z := |frames| - 1;
    assert frames[z].fields + [] == frames[z].fields;
  }

  lemma ExtendedMore(frames: seq<Frame>, f: Field, rest: seq<Field>, fs: seq<Field>)
    requires frames != [] && fs == [f] + rest
    ensures Extended(Pushed(frames, f), rest) == Extended(frames, fs)
  {
    var z := |frames| - 1;
    assert frames[z].fields + [f] + rest == frames[z].fields + fs;
  }

  lemma ClosedExtended(frames: seq<Frame>, isArray: bool, key: seq<Byte>, fs: seq<Field>)
    requires frames != []
    ensures Closed(Extended(frames + [Frame(isArray, key, [])], fs)) == Pushed(frames, Field(key, Doc(isArray, fs)))
  {
    assert Extended(frames + [Frame(isArray, key, [])], fs)[..|frames|] == frames;
    assert [] + fs == fs;
  }

  // ---------- When building succeeds ----------

  /** The block after a field has been appended, if every append on the way finds room. */
  ghost function AfterField(b: Block, f: Field): Option<Block>
    decreases f
  {
    if f.value.Doc? then AfterDoc(b, |f.key|, f.value.fields) else Next(b, |Element(f)|)
  }

  ghost function AfterDoc(b: Block, keyLength: nat, fs: seq<Field>): Option<Block>
    decreases fs, 1
  {
    if !Takes(b, keyLength + 7) then None
    else
      var inner := AfterFields(Grown(b, keyLength + 7, keyLength + 6, true), fs);
      if inner.None? then None else Next(inner.value, 1)
  }

  ghost function AfterFields(b: Block, fs: seq<Field>): Option<Block>
    decreases fs, 0
  {
    if fs == [] then Some(b)
    else if AfterField(b, fs[0]).None? then None
    else AfterFields(AfterField(b, fs[0]).value, fs[1..])
  }

  function Next(b: Block, n: nat): Option<Block>
  {
    if Takes(b, n) then Some(Appended(b, n, true)) else None
  }

  ghost predicate FitsWell(b: Block, n: nat)
  {
    b.owns && !b.finished && 2 * (b.cur + n) <= INT32_MAX
  }

  ghost predicate Reaches(b: Block, r: Option<Block>, n: nat)
  {
    r.Some? && r.value.cur == b.cur + n && r.value.owns == b.owns && r.value.finished == b.finished
  }

  /** No append on the way fails if the block would be filled to half the largest size at most. */
  lemma {:induction false} HalfIsEnough(b: Block, fs: seq<Field>)
    requires FitsWell(b, |Elements(fs)|)
    ensures Reaches(b, AfterFields(b, fs), |Elements(fs)|)
    decreases fs, 0
  {
    if fs != [] {
      HalfIsEnoughForOne(b, fs[0]);
      HalfIsEnough(AfterField(b, fs[0]).value, fs[1..]);
    }
  }

  lemma {:induction false} HalfIsEnoughForOne(b: Block, f: Field)
    requires FitsWell(b, |Element(f)|)
    ensures Reaches(b, AfterField(b, f), |Element(f)|)
    decreases f
  {
    if f.value.Doc? {
      DocSize(f);
      HalfIsEnough(Grown(b, |f.key| + 7, |f.key| + 6, true), f.value.fields);
    }
  }

  // ---------- Building ----------

  /** Append every field of a tree, opening an object for each document in it. It succeeds exactly if every text passes the
      check and every append on the way finds room. */
  method Build(b: Builder, fs: seq<Field>) returns (ok: bool)
    requires b.Valid() && AllTyped(fs)
    modifies b`data, b`cur, b`err, b`frames, b`torn, b`stack, b`stackPos
    ensures b.Valid() && (!ok ==> b.err != {})
    ensures ok ==> b.torn == old(b.torn) && b.stackPos == old(b.stackPos) && b.err == old(b.err)
    ensures ok ==> b.frames == Extended(old(b.frames), fs) && Some(b.Now()) == AfterFields(old(b.Now()), fs)
    ensures ok <==> AllPass(b.utf8, fs) && AfterFields(old(b.Now()), fs).Some?
    decreases fs, 0
  {
    if fs == [] {
      ExtendedByNone(b.frames);
      return true;
    }
    ExtendedMore(b.frames, fs[0], fs[1..], fs);
    assert AllPass(b.utf8, fs) <==> Passes(b.utf8, fs[0]) && AllPass(b.utf8, fs[1..]) by {
      AllPassSplit(b.utf8, fs);
    }
    ok := BuildField(b, fs[0]);
    if ok {
      ok := Build(b, fs[1..]);
    }
  }

  method BuildField(b: Builder, f: Field) returns (ok: bool)
    requires b.Valid() && NulFree(f.key) && Typed(f.value)
    modifies b`data, b`cur, b`err, b`frames, b`torn, b`stack, b`stackPos
    ensures b.Valid() && (!ok ==> b.err != {})
    ensures ok ==> b.torn == old(b.torn) && b.stackPos == old(b.stackPos) && b.err == old(b.err)
    ensures ok ==> b.frames == Pushed(old(b.frames), f) && Some(b.Now()) == AfterField(old(b.Now()), f)
    ensures ok <==> Passes(b.utf8, f) && AfterField(old(b.Now()), f).Some?
    decreases f
  {
    if f.value.Doc? {
      ok := BuildDoc(b, f.key, f.value.isArray, f.value.fields);
    } else {
      ok := BuildScalar(b, f);
    }
  }

  method BuildScalar(b: Builder, f: Field) returns (ok: bool)
    requires b.Valid() && NulFree(f.key) && Typed(f.value) && !f.value.Doc?
    modifies b`data, b`cur, b`err, b`frames, b`torn
    ensures b.Valid() && (!ok ==> b.err != {})
    ensures ok ==> b.torn == old(b.torn) && b.err == old(b.err)
    ensures ok ==> b.frames == Pushed(old(b.frames), f) && b.Now() == Appended(old(b.Now()), |Element(f)|, true)
    ensures ok <==> Passes(b.utf8, f) && Takes(old(b.Now()), |Element(f)|)
  {
    var key := f.key;
    match f.value {
      case Plain(tag) => ok := b.AppendPlain(key, tag);
      case Bool(x) => ok := b.AppendBool(key, x);
      case Int(n) => ok := b.AppendInt(key, n);
      case Eight(kind, bytes) => ok := b.AppendEight(key, kind, bytes);
      case Oid(bytes) => ok := b.AppendOid(key, bytes);
      case Text(kind, chars) => ok := b.AppendText(key, kind, chars);
      case Bin(t, bytes) => ok := b.AppendBinary(key, t, bytes);
      case Regex(p, o) => ok := b.AppendRegex(key, p, o);
    }
  }

  method BuildDoc(b: Builder, key: seq<Byte>, isArray: bool, fs: seq<Field>) returns (ok: bool)
    requires b.Valid() && NulFree(key) && AllTyped(fs)
    modifies b`data, b`cur, b`err, b`frames, b`torn, b`stack, b`stackPos
    ensures b.Valid() && (!ok ==> b.err != {})
    ensures ok ==> b.torn == old(b.torn) && b.stackPos == old(b.stackPos) && b.err == old(b.err)
    ensures ok ==> b.frames == Pushed(old(b.frames), Field(key, Doc(isArray, fs)))
    ensures ok ==> Some(b.Now()) == AfterDoc(old(b.Now()), |key|, fs)
    ensures ok <==> b.utf8(key) && AllPass(b.utf8, fs) && AfterDoc(old(b.Now()), |key|, fs).Some?
    decreases fs, 2
  {
    ghost var around := b.frames;
    ok := b.StartObject(key, isArray);
    if ok {
      ok := BuildInside(b, around, isArray, key, fs);
    }
  }

  /** The fields of a document that has just been started, and its end. */
  method BuildInside(b: Builder, ghost around: seq<Frame>, ghost isArray: bool, ghost key: seq<Byte>, fs: seq<Field>)
      returns (ok: bool)
    requires b.Valid() && AllTyped(fs) && b.stackPos > 0
    requires around != [] && b.frames == around + [Frame(isArray, key, [])]
    modifies b`data, b`cur, b`err, b`frames, b`torn, b`stack, b`stackPos
    ensures b.Valid() && (!ok ==> b.err != {})
    ensures ok ==> b.torn == old(b.torn) && b.stackPos == old(b.stackPos) - 1 && b.err == old(b.err)
    ensures ok ==> b.frames == Pushed(around, Field(key, Doc(isArray, fs)))
    ensures var inner := AfterFields(old(b.Now()), fs);
      && (ok <==> AllPass(b.utf8, fs) && inner.Some? && Next(inner.value, 1).Some?)
      && (ok ==> Some(b.Now()) == Next(inner.value, 1))
    decreases fs, 1
  {
    ok := Build(b, fs);
    if ok {
      ClosedExtended(around, isArray, key, fs);
      ok := b.FinishObject();
    }
  }

  /** What reading one element of readable bytes involves. */
  lemma OneElement(s: seq<Byte>)
    requires ReadElements(s).Some?
    ensures s != []
    ensures s[0] == 0 ==> ReadElements(s).value == []
    ensures s[0] != 0 ==> ValueAt(s) <= |s|
    ensures s[0] != 0 ==>
      var v := s[ValueAt(s)..];
      && DataSize(s[0], v).Some? && 0 <= DataSize(s[0], v).value < |v| && ReadValue(s[0], v).Some?
      && ReadElements(v[DataSize(s[0], v).value..]).Some?
      && ReadElements(s).value == [Field(s[1..ValueAt(s) - 1], ReadValue(s[0], v).value)] + ReadElements(v[DataSize(s[0], v).value..]).value
  {
  }

  /** Walk a document with an iterator, and its sub-documents with sub-iterators. */
  method ReadTree(data: seq<Byte>, at: nat) returns (fs: seq<Field>)
    requires at + 4 <= |data| && ReadElements(data[at + 4..]).Some?
    ensures ReadElements(data[at + 4..]) == Some(fs)
    decreases |data| - at, 2
  {
    var it := new Iterator(data, at);
    fs := [];
    OneElement(data[it.cur..]);
    var t := it.Next();
    ghost var whole := ReadElements(data[at + 4..]).value;
    while t != 0
      invariant it.data == data && !it.first && at + 4 <= it.cur < |data| && t == SignedChar(data[it.cur])
      invariant ReadElements(data[it.cur..]).Some? && fs + ReadElements(data[it.cur..]).value == whole
      modifies it
      decreases |data| - it.cur
    {
      var f;
      f, t := ReadField(it, at);
      Moved(fs, f, ReadElements(data[it.cur..]).value);
      fs := fs + [f];
    }
    OneElement(data[it.cur..]);
    assert data[it.cur..][0] == data[it.cur];
    assert fs + [] == fs;
  }

  lemma Moved(fs: seq<Field>, f: Field, rest: seq<Field>)
    ensures fs + ([f] + rest) == fs + [f] + rest
  {
  }

  /** Read the field at the cursor and move on. */
  method ReadField(it: Iterator, ghost at: nat) returns (f: Field, t: int)
    requires !it.first && at + 4 <= it.cur < |it.data| && it.data[it.cur] != 0 && ReadElements(it.data[it.cur..]).Some?
    modifies it
    ensures !it.first && old(it.cur) < it.cur < |it.data| && t == SignedChar(it.data[it.cur])
    ensures ReadElements(it.data[it.cur..]).Some?
    ensures ReadElements(it.data[old(it.cur)..]).value == [f] + ReadElements(it.data[it.cur..]).value
    decreases |it.data| - at, 1
  {
    ghost var s := it.data[it.cur..];
    assert s[0] == it.data[it.cur];
    ghost var n, value, rest := AtField(s);
    f := FieldHere(it, at, s, n, value);
    ghost var all := ReadElements(s).value;
    assert all == [f] + ReadElements(rest).value;
    t := StepOver(it, s, value, rest);
  }

  /** The key and the value at the cursor. */
  method FieldHere(it: Iterator, ghost at: nat, ghost s: seq<Byte>, ghost n: nat, ghost value: seq<Byte>) returns (f: Field)
    requires at + 4 <= it.cur < |it.data| && s == it.data[it.cur..] && n == ValueAt(s) <= |s| && value == s[n..]
    requires s[0] != 0 && ReadValue(s[0], value).Some?
    ensures f == Field(s[1..n - 1], ReadValue(s[0], value).value)
    decreases |it.data| - at, 0
  {
    assert s[0] == it.data[it.cur] && value == it.data[it.ValuePos()..];
    var v := ReadOne(it.data, it.Type(), it.ValuePos());
    f := Field(it.Key(), v);
  }

  /** bson_iterator_next from inside a list of elements. */
  method StepOver(it: Iterator, ghost s: seq<Byte>, ghost value: seq<Byte>, ghost rest: seq<Byte>) returns (t: int)
    requires !it.first && it.cur < |it.data| && s == it.data[it.cur..] && s[0] != 0
    requires ValueAt(s) <= |s| && value == s[ValueAt(s)..]
    requires DataSize(s[0], value).Some? && 0 <= DataSize(s[0], value).value < |value|
    requires rest == value[DataSize(s[0], value).value..]
    modifies it
    ensures !it.first && old(it.cur) < it.cur < |it.data| && it.data[it.cur..] == rest && t == SignedChar(it.data[it.cur])
  {
    assert s[0] == it.data[it.cur];
    t := it.Next();
    assert |it.data[it.cur..]| == |rest|;
  }

  /** The value at the front of a list of elements, and the elements after it. */
  lemma AtField(s: seq<Byte>) returns (n: nat, value: seq<Byte>, rest: seq<Byte>)
    requires s != [] && s[0] != 0 && ReadElements(s).Some?
    ensures n == ValueAt(s) <= |s| && value == s[n..]
    ensures DataSize(s[0], value).Some? && 0 <= DataSize(s[0], value).value < |value|
    ensures rest == value[DataSize(s[0], value).value..] && 0 < |rest| < |s|
    ensures ReadValue(s[0], value).Some? && ReadElements(rest).Some?
    ensures ReadElements(s).value == [Field(s[1..n - 1], ReadValue(s[0], value).value)] + ReadElements(rest).value
  {
    OneElement(s);
    n := ValueAt(s);
    value := s[n..];
    rest := value[DataSize(s[0], value).value..];
  }

  /** The value of an element, read with the accessor for its type. */
  method ReadOne(data: seq<Byte>, t: Byte, at: nat) returns (v: Value)
    requires at <= |data| && ReadValue(t, data[at..]).Some?
    ensures ReadValue(t, data[at..]) == Some(v)
    decreases |data| - at, 3
  {
    if t == 3 || t == 4 {
      assert data[at..][4..] == data[at + 4..];
      var fs := ReadTree(data, at);
      v := Doc(t == 4, fs);
    } else {
      v := ReadValue(t, data[at..]).value;
    }
  }

  // ---------- The round trip ----------

  /** Building a tree in a fresh block finds room on the whole way, its end included. */
  ghost predicate Buildable(fs: seq<Field>)
  {
    var r := AfterFields(Block(true, INITIAL_SIZE, 4, false, false), fs);
    r.Some? && Room(r.value, 1) && r.value.cur + 1 < INT32_MAX
  }

  lemma SmallIsBuildable(fs: seq<Field>)
    requires 2 * |Document(fs)| <= INT32_MAX
    ensures Buildable(fs)
  {
    HalfIsEnough(Block(true, INITIAL_SIZE, 4, false, false), fs);
  }

  /** For every tree: it is built exactly if every text passes the check and every append finds room, and then walking the
      bytes gives the same tree back. */
  method BuildAndRead(utf8: seq<Byte> -> bool, fs: seq<Field>) returns (ok: bool, back: seq<Field>)
    requires AllTyped(fs)
    ensures ok <==> AllPass(utf8, fs) && Buildable(fs)
    ensures ok ==> back == fs && |Document(fs)| < INT32_MAX
  {
    back := [];
    var b := new Builder(utf8);
    ok := Build(b, fs);
    if !ok {
      return;
    }
    assert b.frames[0].fields == fs;
    ok := b.Finish();
    if !ok {
      return;
    }
    var d := b.data[..b.cur];
    DocumentBack(fs, d, d[4..]);
    back := ReadTree(d, 0);
  }

  /** The check that keeps a torn document from being finished can be wiped out: after a regular expression with a bad
      pattern, ending an object that was never opened overwrites the UTF-8 error, and what is then finished is not the
      document of the tree, which is still empty. */
  method TornDocumentFinishes(utf8: seq<Byte> -> bool, key: seq<Byte>, pattern: seq<Byte>) returns (b: Builder, finished: bool)
    requires NulFree(key) && NulFree(pattern) && |key| + |pattern| < 100 && utf8(key) && !utf8(pattern)
    ensures finished && b.finished && b.torn && b.cur <= |b.data|
    ensures b.frames == [Frame(false, [], [])] && b.data[..b.cur] != Document([])
  {
    b := new Builder(utf8);
    var appended := b.AppendRegex(key, pattern, []);
    var closed := b.FinishObject();
    finished := b.Finish();
  }
}
