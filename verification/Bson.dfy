/** The BSON builder and iterator as the code runs them: a growing buffer with back-patched lengths and
    a growing stack of open objects, and a cursor over finished bytes. */
module Bson {
  import opened Lists
  import opened BsonSpec
  import opened BsonBytes

  datatype Err = SizeOverflow | NotUtf8 | AlreadyFinished | NotInSubobject | DoesNotOwnData

  /** The errors that are assigned to `err` and so wipe out what it held. */
  const WIPING := {SizeOverflow, NotInSubobject, DoesNotOwnData}

  const INITIAL_SIZE: nat := 128
  const LOCAL_STACK: nat := 32

  /** A document under construction: the root, or an object opened inside the frame below it. */
  datatype Frame = Frame(isArray: bool, key: seq<Byte>, fields: seq<Field>)

  function ObjectType(isArray: bool): Byte
  {
    if isArray then 4 else 3
  }

  /** An opened object: its header, and a length still to be patched. */
  ghost function Opening(f: Frame): seq<Byte>
  {
    Header(ObjectType(f.isArray), f.key) + [0, 0, 0, 0]
  }

  /** What stands behind the root's length. */
  ghost function Body(frames: seq<Frame>): seq<Byte>
    requires frames != []
  {
    var z := |frames| - 1;
    if z == 0 then Elements(frames[0].fields)
    else Body(frames[..z]) + Opening(frames[z]) + Elements(frames[z].fields)
  }

  /** Where the length of frame `i` is to be patched. */
  ghost function LengthAt(frames: seq<Frame>, i: nat): nat
    requires 0 < i < |frames|
  {
    4 + |Body(frames[..i])| + |frames[i].key| + 2
  }

  ghost predicate FrameOk(f: Frame)
  {
    NulFree(f.key) && AllEncodable(f.fields)
  }

  /** The frames after a field has been added to the innermost. */
  ghost function Pushed(frames: seq<Frame>, f: Field): seq<Frame>
    requires frames != []
  {
    var z := |frames| - 1;
    frames[z := frames[z].(fields := frames[z].fields + [f])]
  }

  /** The frames once the innermost object is finished. */
  ghost function Closed(frames: seq<Frame>): seq<Frame>
    requires |frames| > 1
  {
    var z := |frames| - 1;
    Pushed(frames[..z], Field(frames[z].key, Doc(frames[z].isArray, frames[z].fields)))
  }

  ghost predicate FramesOk(frames: seq<Frame>)
  {
    frames != [] && forall i :: 0 <= i < |frames| ==> FrameOk(frames[i])
  }

  /** The lengths still to be patched are at the same places. */
  ghost predicate SameLengths(frames: seq<Frame>, r: seq<Frame>, n: nat)
  {
    n <= |frames| && n <= |r| && forall i :: 0 < i < n ==> LengthAt(r, i) == LengthAt(frames, i)
  }

  lemma LengthsOf(frames: seq<Frame>, r: seq<Frame>, n: nat)
    requires n <= |frames| && n <= |r| && forall i :: 0 < i < n ==> r[..i] == frames[..i] && r[i].key == frames[i].key
    ensures SameLengths(frames, r, n)
  {
  }

  lemma PushedBody(frames: seq<Frame>, f: Field)
    requires FramesOk(frames) && NulFree(f.key) && Encodable(f.value)
    ensures var r := Pushed(frames, f);
      Body(r) == Body(frames) + Element(f) && FramesOk(r) && SameLengths(frames, r, |r|)
  {
    var z, r := |frames| - 1, Pushed(frames, f);
    AllEncodablePlus(frames[z].fields, f);
    assert r[..z] == frames[..z];
    assert forall i :: 0 < i < |r| ==> r[..i] == frames[..i];
    LengthsOf(frames, r, |r|);
  }

  lemma OpenedBody(frames: seq<Frame>, f: Frame)
    requires FramesOk(frames) && f.fields == [] && NulFree(f.key)
    ensures Body(frames + [f]) == Body(frames) + Opening(f) && FramesOk(frames + [f])
    ensures LengthAt(frames + [f], |frames|) == 4 + |Body(frames)| + |f.key| + 2
    ensures SameLengths(frames, frames + [f], |frames|)
  {
    var r := frames + [f];
    assert r[..|frames|] == frames;
    assert forall i :: 0 < i < |frames| ==> r[..i] == frames[..i];
    LengthsOf(frames, r, |frames|);
  }

  lemma DocElement(key: seq<Byte>, isArray: bool, fs: seq<Field>)
    ensures Element(Field(key, Doc(isArray, fs))) ==
      Header(ObjectType(isArray), key) + (Le32(|Elements(fs)| + 5) + (Elements(fs) + [0]))
  {
    assert Payload(Doc(isArray, fs)) == Document(fs);
  }

  /** The bytes of the whole document. */
  lemma FinishedBytes(fs: seq<Field>, body: seq<Byte>, len: int)
    requires body == Elements(fs) + [0] && len == |body| + 4
    ensures Le32(len) + body == Document(fs)
  {
  }

  /** Where the patch goes in the bytes. */
  lemma PatchedBody(frames: seq<Frame>, body: seq<Byte>, start: nat, len: int)
    requires FramesOk(frames) && |frames| > 1 && body == Body(frames) + [0] && start == LengthAt(frames, |frames| - 1)
    requires start + len == |body| + 4
    ensures var z := |frames| - 1; var f := frames[z];
      && len == 4 + |Elements(f.fields)| + 1 && 4 <= start <= |body|
      && body[..start - 4] + Le32(len) + body[start..] ==
           Body(frames[..z]) + (Header(ObjectType(f.isArray), f.key) + (Le32(len) + (Elements(f.fields) + [0])))
  {
    var z := |frames| - 1;
    var f := frames[z];
    var pre := Body(frames[..z]) + Header(ObjectType(f.isArray), f.key);
    assert body == pre + [0, 0, 0, 0] + Elements(f.fields) + [0];
    assert start - 4 == |pre|;
    assert body[..start - 4] == pre && body[start..] == Elements(f.fields) + [0];
  }

  /** These bytes, behind the root's length, are those of the tree, and the stack says where to patch. When an element is torn
      they are more than the tree has. */
  ghost predicate Shows(frames: seq<Frame>, stack: seq<nat>, torn: bool, bytes: seq<Byte>)
  {
    && FramesOk(frames)
    && if torn then |bytes| > 4 + |Body(frames)|
       else |bytes| >= 4 && bytes[4..] == Body(frames) && Marks(frames, stack)
  }

  ghost predicate Marks(frames: seq<Frame>, stack: seq<nat>)
  {
    && |stack| >= |frames| - 1
    && forall i :: 0 < i < |frames| ==> stack[i - 1] == LengthAt(frames, i)
  }

  ghost predicate ShowsWhole(frames: seq<Frame>, torn: bool, bytes: seq<Byte>)
  {
    && |frames| == 1 && FramesOk(frames) && |bytes| >= 4 && bytes[..4] == Le32(|bytes|)
    && if torn then |bytes| > |Document(frames[0].fields)| else bytes == Document(frames[0].fields)
  }

  lemma PushedShows(frames: seq<Frame>, stack: seq<nat>, torn: bool, before: seq<Byte>, f: Field, bytes: seq<Byte>)
    requires Shows(frames, stack, torn, before) && NulFree(f.key) && Encodable(f.value) && bytes == before + Element(f)
    ensures Shows(Pushed(frames, f), stack, torn, bytes)
  {
    PushedBody(frames, f);
    if !torn {
      assert bytes[4..] == before[4..] + Element(f);
    }
  }

  lemma OpenedShows(frames: seq<Frame>, stack: seq<nat>, torn: bool, before: seq<Byte>, f: Frame, stack': seq<nat>, bytes: seq<Byte>)
    requires Shows(frames, stack, torn, before) && f.fields == [] && NulFree(f.key) && bytes == before + Opening(f)
    requires |stack'| >= |frames| && stack'[|frames| - 1] == |before| + |f.key| + 2
    requires forall i :: 0 <= i < |frames| - 1 && i < |stack| ==> stack'[i] == stack[i]
    ensures Shows(frames + [f], stack', torn, bytes)
  {
    OpenedBody(frames, f);
    if !torn {
      assert bytes[4..] == before[4..] + Opening(f);
    }
  }

  /** What is left open once the innermost object has got its final NUL and its length has been patched. */
  lemma ClosedShows(frames: seq<Frame>, stack: seq<nat>, torn: bool, before: seq<Byte>, bytes: seq<Byte>)
    requires Shows(frames, stack, torn, before) && 1 < |frames| <= |stack| + 1 && |bytes| == |before| + 1 <= INT32_MAX
    requires var start := stack[|frames| - 2];
      && 4 <= start && start + 4 <= |before| && bytes == before[..start] + Le32(|bytes| - start) + before[start + 4..] + [0]
    ensures Shows(Closed(frames), stack, torn, bytes)
  {
    var z, start := |frames| - 1, stack[|frames| - 2];
    var f := Field(frames[z].key, Doc(frames[z].isArray, frames[z].fields));
    if torn {
      ClosedSize(frames, f);
    } else {
      var body := before[4..] + [0];
      PatchedBody(frames, body, start, |bytes| - start);
      assert bytes[4..] == body[..start - 4] + Le32(|bytes| - start) + body[start..];
      ClosedBody(frames, f, |bytes| - start, bytes[4..]);
      ClosedLengths(frames, f);
    }
  }

  lemma Repatched(before: seq<Byte>, whole: seq<Byte>, start: nat, len: int)
    requires whole == before + [0] && start + 4 <= |before|
    ensures whole[..start] + Le32(len) + whole[start + 4..] == before[..start] + Le32(len) + before[start + 4..] + [0]
  {
    assert whole[start + 4..] == before[start + 4..] + [0];
  }

  /** Patching the length of the innermost object once its final NUL is written makes it a field of the
      frame below. */
  lemma ClosedBody(frames: seq<Frame>, f: Field, len: int, patched: seq<Byte>)
    requires FramesOk(frames) && |frames| > 1
    requires var z := |frames| - 1;
      && len == 4 + |Elements(frames[z].fields)| + 1 < INT32_MAX
      && patched == Body(frames[..z]) + (Header(ObjectType(frames[z].isArray), frames[z].key) + (Le32(len) + (Elements(frames[z].fields) + [0])))
      && f == Field(frames[z].key, Doc(frames[z].isArray, frames[z].fields))
    ensures var r := Pushed(frames[..|frames| - 1], f); patched == Body(r) && FramesOk(r)
  {
    var z := |frames| - 1;
    DocElement(frames[z].key, frames[z].isArray, frames[z].fields);
    PushedBody(frames[..z], f);
  }

  /** Ending the innermost object adds its final NUL. */
  lemma ClosedSize(frames: seq<Frame>, f: Field)
    requires FramesOk(frames) && |frames| > 1 && |Body(frames)| + 4 < INT32_MAX
    requires var z := |frames| - 1; f == Field(frames[z].key, Doc(frames[z].isArray, frames[z].fields))
    ensures var r := Pushed(frames[..|frames| - 1], f); |Body(r)| == |Body(frames)| + 1 && FramesOk(r)
  {
    var z := |frames| - 1;
    DocElement(frames[z].key, frames[z].isArray, frames[z].fields);
    PushedBody(frames[..z], f);
  }

  lemma ClosedLengths(frames: seq<Frame>, f: Field)
    requires |frames| > 1
    ensures var r := Pushed(frames[..|frames| - 1], f); SameLengths(frames, r, |r|)
  {
    var r := Pushed(frames[..|frames| - 1], f);
    assert forall i :: 0 < i < |r| ==> r[..i] == frames[..i];
    LengthsOf(frames, r, |r|);
  }

  /** The first four bytes are the length of the whole. */
  lemma LengthWeighs(data: seq<Byte>, cur: nat)
    requires 4 <= cur <= |data| && cur <= INT32_MAX && data[..cur][..4] == Le32(cur)
    ensures Weight(data) == cur
  {
    Le32Weighs(cur);
    var d := data[..cur][..4];
    assert data[0] == d[0] && data[1] == d[1] && data[2] == d[2] && data[3] == d[3];
  }

  lemma RegexSize(f: Field, pattern: seq<Byte>, opts: seq<Byte>)
    requires f.value == Regex(pattern, opts)
    ensures |Element(f)| == |f.key| + 2 + (|pattern| + 1 + (|opts| + 1))
    ensures Element(f) == Header(11, f.key) + (pattern + [0] + (opts + [0]))
  {
  }

  // ---------- Sizes and errors ----------

  /** The block as far as success depends on it: `blamed` says whether NotUtf8 is among the errors. */
  datatype Block = Block(owns: bool, size: nat, cur: nat, finished: bool, blamed: bool)

  /** There is room for `n` more bytes, or the block can be made larger. */
  predicate Room(b: Block, n: nat)
  {
    b.cur + n <= b.size || (b.owns && b.size + n < INT32_MAX)
  }

  /** How large the block is then: larger by half than what is needed, up to the largest size. */
  function NewSize(b: Block, n: nat): nat
  {
    if b.cur + n <= b.size then b.size
    else if (b.size + n) * 3 / 2 <= INT32_MAX then (b.size + n) * 3 / 2
    else INT32_MAX
  }

  predicate Takes(b: Block, n: nat)
  {
    !b.finished && Room(b, n)
  }

  /** An append that makes room for `n` bytes and writes `w`, if its key passes the check. */
  function Grown(b: Block, n: nat, w: nat, passes: bool): Block
  {
    if b.finished then b
    else if !Room(b, n) then b.(blamed := false)
    else if passes then b.(size := NewSize(b, n), cur := b.cur + w)
    else b.(size := NewSize(b, n), blamed := true)
  }

  /** An append of a pattern, which is checked once the header, of `w` bytes, is written. */
  function WithPattern(b: Block, n: nat, w: nat, keyPasses: bool, passes: bool): Block
  {
    if Takes(b, n) && keyPasses && !passes then Grown(b, n, w, true).(blamed := true) else Appended(b, n, keyPasses)
  }

  function Appended(b: Block, n: nat, passes: bool): Block
  {
    Grown(b, n, n, passes)
  }

  // ---------- The builder ----------

  class Builder {
    /** Whether a string passes the UTF-8 check. */
    const utf8: seq<Byte> -> bool

    const ownsData: bool

    /** The whole block; the bytes from `cur` on are free. */
    var data: seq<Byte>
    var cur: nat

    /** Positions of the lengths still to be patched; the entries from `stackPos` on are free. */
    var stack: seq<nat>
    var stackPos: nat

    var finished: bool
    var err: set<Err>

    /** The tree of all that has been appended, root first. */
    ghost var frames: seq<Frame>

    /** An element was left with a header and no value, or a final NUL that no length counts was written. */
    ghost var torn: bool

    ghost predicate Bounds()
      reads this
    {
      && 4 <= cur <= |data| <= INT32_MAX && stackPos <= |stack| && frames != []
      && forall i :: 0 <= i < stackPos ==> 4 <= stack[i] <= cur - 4
    }

    /** The error that keeps a torn document from being finished is noted, or was wiped out. */
    ghost predicate TornNoted()
      reads this
    {
      torn ==> NotUtf8 in err || err * WIPING != {}
    }

    ghost predicate Valid()
      reads this
    {
      && Bounds() && stackPos == |frames| - 1
      && (if finished then ShowsWhole(frames, torn, data[..cur]) else Shows(frames, stack, torn, data[..cur]))
      && TornNoted()
    }

    /** bson_init. */
    constructor (utf8: seq<Byte> -> bool)
      ensures this.utf8 == utf8 && ownsData && Valid() && !finished && !torn && err == {} && frames == [Frame(false, [], [])]
      ensures |data| == INITIAL_SIZE && cur == 4 && stackPos == 0
    {
      this.utf8, ownsData := utf8, true;
      data, cur := seq(INITIAL_SIZE, _ => 0), 4;
      stack, stackPos := [], 0;
      finished, err := false, {};
      frames, torn := [Frame(false, [], [])], false;
    }

    ghost function Now(): Block
      reads `data, `cur, `finished, `err
    {
      Block(ownsData, |data|, cur, finished, NotUtf8 in err)
    }

    /** bson_ensure_space: grow the block by half as much again as is needed. */
    method EnsureSpace(needed: nat) returns (ok: bool)
      requires Bounds()
      modifies `data, `err
      ensures ok ==> cur + needed <= |data| <= INT32_MAX && err == old(err) && data[..cur] == old(data)[..cur] && data[4..cur] == old(data)[4..cur]
      ensures ok <==> Room(old(Now()), needed)
      ensures ok ==> |data| == NewSize(old(Now()), needed)
      ensures cur + needed <= |old(data)| ==> data == old(data)
      ensures !ok ==> data == old(data) && (err == {SizeOverflow} || err == {DoesNotOwnData}) && err * WIPING != {}
    {
      assert SizeOverflow in {SizeOverflow} * WIPING && DoesNotOwnData in {DoesNotOwnData} * WIPING;
      if cur + needed <= |data| {
        return true;
      }
      // A product too large for an int comes out of the conversion below any size.
      var grown := (|data| + needed) * 3 / 2;
      var newSize := if grown <= INT32_MAX then grown else -TWO31;
      if newSize < |data| {
        if |data| + needed < INT32_MAX {
          newSize := INT32_MAX;
        } else {
          err := {SizeOverflow};
          return false;
        }
      }
      if !ownsData {
        err := {DoesNotOwnData};
        return false;
      }
      data := data + seq(newSize - |data|, _ => 0);
      ok := true;
    }

    method Reserve(needed: nat) returns (ok: bool)
      requires Valid() && !finished
      modifies `data, `err
      ensures Valid() && (ok ==> cur + needed <= |data| && err == old(err)) && (!ok ==> err != {})
      ensures data[..cur] == old(data)[..cur] && (ok <==> Takes(old(Now()), needed))
      ensures Now() == Grown(old(Now()), needed, 0, true)
    {
      ok := EnsureSpace(needed);
    }

    /** bson_append, and its fixed-size relatives. */
    method Append(d: seq<Byte>)
      requires 4 <= cur && cur + |d| <= |data|
      modifies `data, `cur
      ensures |data| == |old(data)| && cur == old(cur) + |d| && data[..cur] == old(data)[..old(cur)] + d
    {
      data := data[..cur] + d + data[cur + |d|..];
      cur := cur + |d|;
    }

    method AppendTwo(d: seq<Byte>, e: seq<Byte>)
      requires 4 <= cur && cur + |d| + |e| <= |data|
      modifies `data, `cur
      ensures |data| == |old(data)| && cur == old(cur) + |d| + |e| && data[..cur] == old(data)[..old(cur)] + (d + e)
    {
      Append(d);
      Append(e);
    }

    method AppendBehind(ghost before: seq<Byte>, ghost head: seq<Byte>, d: seq<Byte>, e: seq<Byte>)
      requires Bounds() && cur + |d| + |e| <= |data| && data[..cur] == before + head
      modifies `data, `cur
      ensures Bounds() && |data| == |old(data)| && cur == old(cur) + |d| + |e| && data[..cur] == before + (head + (d + e))
    {
      AppendTwo(d, e);
      assert data[..cur] == before + head + (d + e) == before + (head + (d + e));
    }

    /** bson_append_estart: type byte and key, with room behind them for the value. */
    method EStart(t: Byte, key: seq<Byte>, dataSize: nat, ghost n: nat) returns (ok: bool)
      requires Valid() && NulFree(key) && n == |key| + 2 + dataSize
      modifies `data, `cur, `err
      ensures ok ==> Bounds() && err == old(err) && data[..cur] == old(data)[..old(cur)] + Header(t, key)
      ensures ok || (Valid() && err != {})
      ensures ok <==> Takes(old(Now()), n) && utf8(key)
      ensures Now() == Grown(old(Now()), n, |key| + 2, utf8(key))
    {
      if finished {
        err := err + {AlreadyFinished};
        return false;
      }
      ok := Reserve(1 + (|key| + 1) + dataSize);
      ghost var before := data[..cur];
      if !ok {
        return;
      }
      if !utf8(key) {
        err := err + {NotUtf8};
        return false;
      }
      AppendTwo([t], key + [0]);
      assert data[..cur] == before + Header(t, key);
    }

    /** An element whose value is written in one piece. */
    method AppendElement(key: seq<Byte>, ghost v: Value, t: Byte, payload: seq<Byte>) returns (ok: bool)
      requires Valid() && NulFree(key) && t == TypeOf(v) && payload == Payload(v) && (|payload| < INT32_MAX ==> Encodable(v))
      modifies `data, `cur, `err, `frames
      ensures Valid() && (ok ==> err == old(err)) && (!ok ==> err != {})
      ensures frames == if ok then Pushed(old(frames), Field(key, v)) else old(frames)
      ensures ok <==> Takes(old(Now()), |Element(Field(key, v))|) && utf8(key)
      ensures Now() == Appended(old(Now()), |Element(Field(key, v))|, utf8(key))
    {
      ok := WriteElement(t, key, payload, Field(key, v));
      if ok {
        PushedShows(frames, stack, torn, old(data)[..old(cur)], Field(key, v), data[..cur]);
        frames := Pushed(frames, Field(key, v));
      }
    }

    method WriteElement(t: Byte, key: seq<Byte>, payload: seq<Byte>, ghost f: Field) returns (ok: bool)
      requires Valid() && NulFree(key) && key == f.key && t == TypeOf(f.value) && payload == Payload(f.value)
      modifies `data, `cur, `err
      ensures ok || (Valid() && err != {})
      ensures ok ==> Bounds() && err == old(err) && data[..cur] == old(data)[..old(cur)] + Element(f)
      ensures ok <==> Takes(old(Now()), |Element(f)|) && utf8(key)
      ensures Now() == Appended(old(Now()), |Element(f)|, utf8(key))
    {
      ghost var before, head, n := data[..cur], Header(t, key), |Element(f)|;
      assert n == |key| + 2 + |payload|;
      ok := EStart(t, key, |payload|, n);
      if ok {
        Append(payload);
        assert data[..cur] == before + head + payload == before + (head + payload);
      }
    }

    /** bson_append_int. */
    method AppendInt(key: seq<Byte>, i: Int32) returns (ok: bool)
      requires Valid() && NulFree(key)
      modifies `data, `cur, `err, `frames
      ensures Valid() && (ok ==> err == old(err)) && (!ok ==> err != {})
      ensures frames == if ok then Pushed(old(frames), Field(key, Int(i))) else old(frames)
      ensures ok <==> Takes(old(Now()), |Element(Field(key, Int(i)))|) && utf8(key)
      ensures Now() == Appended(old(Now()), |Element(Field(key, Int(i)))|, utf8(key))
    {
      ok := AppendElement(key, Int(i), 16, Le32(i));
    }

    /** bson_append_bool. */
    method AppendBool(key: seq<Byte>, b: bool) returns (ok: bool)
      requires Valid() && NulFree(key)
      modifies `data, `cur, `err, `frames
      ensures Valid() && (ok ==> err == old(err)) && (!ok ==> err != {})
      ensures frames == if ok then Pushed(old(frames), Field(key, Bool(b))) else old(frames)
      ensures ok <==> Takes(old(Now()), |Element(Field(key, Bool(b)))|) && utf8(key)
      ensures Now() == Appended(old(Now()), |Element(Field(key, Bool(b)))|, utf8(key))
    {
      ok := AppendElement(key, Bool(b), 8, [if b then 1 else 0]);
    }

    /** bson_append_null, undefined, maxkey and minkey. */
    method AppendPlain(key: seq<Byte>, tag: PlainTag) returns (ok: bool)
      requires Valid() && NulFree(key)
      modifies `data, `cur, `err, `frames
      ensures Valid() && (ok ==> err == old(err)) && (!ok ==> err != {})
      ensures frames == if ok then Pushed(old(frames), Field(key, Plain(tag))) else old(frames)
      ensures ok <==> Takes(old(Now()), |Element(Field(key, Plain(tag)))|) && utf8(key)
      ensures Now() == Appended(old(Now()), |Element(Field(key, Plain(tag)))|, utf8(key))
    {
      ok := AppendElement(key, Plain(tag), TypeOf(Plain(tag)), []);
    }

    /** bson_append_long, double, date and timestamp. */
    method AppendEight(key: seq<Byte>, kind: EightKind, bytes: seq<Byte>) returns (ok: bool)
      requires Valid() && NulFree(key) && |bytes| == 8
      modifies `data, `cur, `err, `frames
      ensures Valid() && (ok ==> err == old(err)) && (!ok ==> err != {})
      ensures frames == if ok then Pushed(old(frames), Field(key, Eight(kind, bytes))) else old(frames)
      ensures ok <==> Takes(old(Now()), |Element(Field(key, Eight(kind, bytes)))|) && utf8(key)
      ensures Now() == Appended(old(Now()), |Element(Field(key, Eight(kind, bytes)))|, utf8(key))
    {
      ok := AppendElement(key, Eight(kind, bytes), TypeOf(Eight(kind, bytes)), bytes);
    }

    /** bson_append_oid. */
    method AppendOid(key: seq<Byte>, bytes: seq<Byte>) returns (ok: bool)
      requires Valid() && NulFree(key) && |bytes| == 12
      modifies `data, `cur, `err, `frames
      ensures Valid() && (ok ==> err == old(err)) && (!ok ==> err != {})
      ensures frames == if ok then Pushed(old(frames), Field(key, Oid(bytes))) else old(frames)
      ensures ok <==> Takes(old(Now()), |Element(Field(key, Oid(bytes)))|) && utf8(key)
      ensures Now() == Appended(old(Now()), |Element(Field(key, Oid(bytes)))|, utf8(key))
    {
      ok := AppendElement(key, Oid(bytes), 7, bytes);
    }

    /** bson_append_string_base: any bytes that pass the UTF-8 check, even with a NUL among them. */
    method AppendText(key: seq<Byte>, kind: TextKind, chars: seq<Byte>) returns (ok: bool)
      requires Valid() && NulFree(key)
      modifies `data, `cur, `err, `frames
      ensures Valid() && (ok ==> err == old(err)) && (!ok ==> err != {})
      ensures frames == if ok then Pushed(old(frames), Field(key, Text(kind, chars))) else old(frames)
      ensures ok <==> Takes(old(Now()), |Element(Field(key, Text(kind, chars)))|) && utf8(key) && utf8(chars)
      ensures Now() == (
        if |chars| >= INT32_MAX then old(Now()).(blamed := false)
        else if !utf8(chars) then old(Now()).(blamed := true)
        else Appended(old(Now()), |Element(Field(key, Text(kind, chars)))|, utf8(key)))
    {
      if |chars| + 1 > INT32_MAX {
        err := {SizeOverflow};
        assert SizeOverflow in err * WIPING;
        return false;
      }
      if !utf8(chars) {
        err := err + {NotUtf8};
        return false;
      }
      ok := AppendElement(key, Text(kind, chars), TypeOf(Text(kind, chars)), Le32(|chars| + 1) + (chars + [0]));
    }

    /** bson_append_binary: the old subtype repeats the length. */
    method AppendBinary(key: seq<Byte>, subtype: Byte, bytes: seq<Byte>) returns (ok: bool)
      requires Valid() && NulFree(key)
      modifies `data, `cur, `err, `frames
      ensures Valid() && (ok ==> err == old(err)) && (!ok ==> err != {})
      ensures frames == if ok then Pushed(old(frames), Field(key, Bin(subtype, bytes))) else old(frames)
      ensures ok <==> Takes(old(Now()), |Element(Field(key, Bin(subtype, bytes)))|) && utf8(key)
      ensures Now() == Appended(old(Now()), |Element(Field(key, Bin(subtype, bytes)))|, utf8(key))
    {
      if subtype == BIN_OLD {
        ok := AppendElement(key, Bin(subtype, bytes), 5, Le32(|bytes| + 4) + ([subtype] + (Le32(|bytes|) + bytes)));
      } else {
        ok := AppendElement(key, Bin(subtype, bytes), 5, Le32(|bytes|) + ([subtype] + bytes));
      }
    }

    /** bson_append_regex: the pattern is checked only once the header is written, so a pattern that fails
        the check leaves an element without a value. */
    method AppendRegex(key: seq<Byte>, pattern: seq<Byte>, opts: seq<Byte>) returns (ok: bool)
      requires Valid() && NulFree(key) && NulFree(pattern) && NulFree(opts)
      modifies `data, `cur, `err, `frames, `torn
      ensures Valid() && (ok ==> err == old(err)) && (!ok ==> err != {})
      ensures torn <==> old(torn) || (Takes(old(Now()), |Element(Field(key, Regex(pattern, opts)))|) && utf8(key) && !utf8(pattern))
      ensures frames == if ok then Pushed(old(frames), Field(key, Regex(pattern, opts))) else old(frames)
      ensures ok <==> Takes(old(Now()), |Element(Field(key, Regex(pattern, opts)))|) && utf8(key) && utf8(pattern)
      ensures Now() ==
        WithPattern(old(Now()), |Element(Field(key, Regex(pattern, opts)))|, |key| + 2, utf8(key), utf8(pattern))
    {
      ghost var f := Field(key, Regex(pattern, opts));
      ok := WriteRegex(key, pattern, opts, f);
      if ok {
        PushedShows(frames, stack, torn, old(data)[..old(cur)], f, data[..cur]);
        frames := Pushed(frames, f);
      }
    }

    method WriteRegex(key: seq<Byte>, pattern: seq<Byte>, opts: seq<Byte>, ghost f: Field) returns (ok: bool)
      requires Valid() && NulFree(key) && f == Field(key, Regex(pattern, opts))
      modifies `data, `cur, `err, `torn
      ensures ok || (Valid() && err != {})
      ensures ok ==> Bounds() && err == old(err) && data[..cur] == old(data)[..old(cur)] + Element(f)
      ensures torn <==> old(torn) || (Takes(old(Now()), |Element(f)|) && utf8(key) && !utf8(pattern))
      ensures ok <==> Takes(old(Now()), |Element(f)|) && utf8(key) && utf8(pattern)
      ensures Now() == WithPattern(old(Now()), |Element(f)|, |key| + 2, utf8(key), utf8(pattern))
    {
      ghost var before, n := data[..cur], |Element(f)|;
      RegexSize(f, pattern, opts);
      ok := EStart(11, key, |pattern| + 1 + (|opts| + 1), n);
      if ok {
        ok := PatternOrNone(pattern, opts, before, Header(11, key));
      }
    }

    /** The rest of the element behind its header; if the pattern does not pass, the header stays alone. */
    method PatternOrNone(pattern: seq<Byte>, opts: seq<Byte>, ghost before: seq<Byte>, ghost head: seq<Byte>) returns (ok: bool)
      requires Bounds() && cur + |pattern| + |opts| + 2 <= |data| && data[..cur] == before + head && head != []
      requires !finished && stackPos == |frames| - 1 && |before| >= 4 && Shows(frames, stack, torn, before) && TornNoted()
      modifies `data, `cur, `err, `torn
      ensures ok || (Valid() && err != {})
      ensures ok ==> Bounds() && err == old(err) && data[..cur] == before + (head + (pattern + [0] + (opts + [0])))
      ensures (ok <==> utf8(pattern)) && (torn <==> old(torn) || !ok)
      ensures Now() == if ok then old(Now()).(cur := old(cur) + |pattern| + |opts| + 2) else old(Now()).(blamed := true)
    {
      ok := utf8(pattern);
      if ok {
        AppendBehind(before, head, pattern + [0], opts + [0]);
      } else {
        assert |before| >= 4 + |Body(frames)|;
        err := err + {NotUtf8};
        torn := true;
      }
    }

    // ---------- Nesting ----------

    /** _bson_append_grow_stack. */
    method GrowStack()
      modifies `stack
      ensures |stack| > |old(stack)| && stack[..|old(stack)|] == old(stack)
    {
      var size := if |stack| == 0 then LOCAL_STACK else 2 * |stack|;
      stack := stack + seq(size - |stack|, _ => 0);
    }

    /** bson_append_start_object and bson_append_start_array. */
    method StartObject(key: seq<Byte>, isArray: bool) returns (ok: bool)
      requires Valid() && NulFree(key)
      modifies `data, `cur, `err, `frames, `stack, `stackPos
      ensures Valid() && (ok ==> err == old(err)) && (!ok ==> err != {})
      ensures stackPos == old(stackPos) + if ok then 1 else 0
      ensures frames == if ok then old(frames) + [Frame(isArray, key, [])] else old(frames)
      ensures ok <==> Takes(old(Now()), |key| + 7) && utf8(key)
      ensures Now() == Grown(old(Now()), |key| + 7, |key| + 6, utf8(key))
    {
      ghost var f := Frame(isArray, key, []);
      ok := WriteOpening(key, isArray);
      if ok {
        OpenedShows(frames, old(stack), torn, old(data)[..old(cur)], f, stack, data[..cur]);
        frames := frames + [f];
      }
    }

    method WriteOpening(key: seq<Byte>, isArray: bool) returns (ok: bool)
      requires Valid() && NulFree(key)
      modifies `data, `cur, `err, `stack, `stackPos
      ensures ok || (Valid() && err != {} && stackPos == old(stackPos))
      ensures ok ==> Bounds() && err == old(err) && stackPos == old(stackPos) + 1 && stack[stackPos - 1] == old(cur) + |key| + 2
      ensures ok ==> forall i :: 0 <= i < old(stackPos) ==> stack[i] == old(stack)[i]
      ensures ok ==> data[..cur] == old(data)[..old(cur)] + Opening(Frame(isArray, key, []))
      ensures ok <==> Takes(old(Now()), |key| + 7) && utf8(key)
      ensures Now() == Grown(old(Now()), |key| + 7, |key| + 6, utf8(key))
    {
      ghost var before, head := data[..cur], Header(ObjectType(isArray), key);
      ok := EStart(ObjectType(isArray), key, 5, |key| + 7);
      if ok {
        PushOpen();
        assert data[..cur] == before + head + [0, 0, 0, 0] == before + (head + [0, 0, 0, 0]);
      }
    }

    /** The place of the length goes on the stack, and the length will be patched. */
    method PushOpen()
      requires Bounds() && cur + 5 <= |data|
      modifies `data, `cur, `stack, `stackPos
      ensures Bounds() && stackPos == old(stackPos) + 1 && cur == old(cur) + 4 && stack[stackPos - 1] == old(cur)
      ensures |data| == |old(data)|
      ensures forall i :: 0 <= i < old(stackPos) ==> stack[i] == old(stack)[i]
      ensures data[..cur] == old(data)[..old(cur)] + [0, 0, 0, 0]
    {
      if stackPos >= |stack| {
        GrowStack();
      }
      stack := stack[stackPos := cur];
      stackPos := stackPos + 1;
      Append([0, 0, 0, 0]);
    }

    /** Write a length into bytes already written. */
    method Patch(at: nat, n: int)
      requires at + 4 <= cur <= |data|
      modifies `data
      ensures |data| == |old(data)| && data[..cur] == old(data[..cur])[..at] + Le32(n) + old(data[..cur])[at + 4..]
    {
      data := data[..at] + Le32(n) + data[at + 4..];
    }

    /** bson_append_finish_object and bson_append_finish_array. The code's check that the object is short
        enough cannot fail: the block never grows past INT32_MAX. */
    method FinishObject() returns (ok: bool)
      requires Valid()
      modifies `data, `cur, `err, `frames, `stackPos
      ensures Valid() && (ok ==> !finished && err == old(err)) && (!ok ==> err != {})
      ensures old(stackPos) == 0 ==> !ok && err == {NotInSubobject} && data == old(data) && cur == old(cur)
      ensures !ok ==> stackPos == old(stackPos) && frames == old(frames)
      ensures ok ==> |old(frames)| > 1 && frames == Closed(old(frames)) && stackPos == old(stackPos) - 1
      ensures ok <==> old(stackPos) > 0 && Room(old(Now()), 1)
      ensures Now() == if old(stackPos) > 0 then Appended(old(Now()), 1, true) else old(Now()).(blamed := false)
    {
      if stackPos == 0 {
        err := {NotInSubobject};
        assert NotInSubobject in err * WIPING;
        return false;
      }
      ok := Reserve(1);
      if ok {
        CloseInnermost();
      }
    }

    /** The final NUL of the innermost object, and its length patched. */
    method CloseInnermost()
      requires Valid() && stackPos > 0 && cur + 1 <= |data|
      modifies `data, `cur, `frames, `stackPos
      ensures Valid() && stackPos == old(stackPos) - 1 && cur == old(cur) + 1 && |data| == |old(data)|
      ensures |old(frames)| > 1 && frames == Closed(old(frames))
    {
      ghost var before := data[..cur];
      EndObject();
      ClosedShows(frames, stack, torn, before, data[..cur]);
      frames := Closed(frames);
    }

    method EndObject()
      requires Bounds() && stackPos > 0 && cur + 1 <= |data|
      modifies `data, `cur, `stackPos
      ensures Bounds() && stackPos == old(stackPos) - 1 && cur == old(cur) + 1 && |data| == |old(data)|
      ensures var start, before := stack[stackPos], old(data)[..old(cur)];
        && 4 <= start && start + 4 <= |before|
        && data[..cur] == before[..start] + Le32(cur - start) + before[start + 4..] + [0]
    {
      ghost var before := data[..cur];
      Append([0]);
      stackPos := stackPos - 1;
      var start := stack[stackPos];
      ghost var whole := data[..cur];
      Patch(start, cur - start);
      Repatched(before, whole, start, cur - start);
    }

    /** bson_finish. With an object still open the program is stopped. What it then holds is the document of the tree exactly
        if no element was torn; and a torn one is finished exactly if the error that notes it has been wiped out. */
    method Finish() returns (ok: bool)
      requires Valid() && stackPos == 0
      modifies `data, `cur, `err, `finished, `torn
      ensures Valid() && (ok ==> finished && NotUtf8 !in err && err == old(err) && torn == old(torn))
      ensures ok ==> |frames| == 1 && (data[..cur] == Document(frames[0].fields) <==> !torn)
      ensures ok ==> |data| >= 4 && Weight(data) == cur
      ensures !ok ==> err != {} && finished == old(finished)
      ensures ok <==> NotUtf8 !in old(err) && (old(finished) || (Room(old(Now()), 1) && old(cur) + 1 < INT32_MAX))
      ensures NotUtf8 in err <==> NotUtf8 in old(err)
    {
      if NotUtf8 in err {
        return false;
      }
      if !finished {
        ok := Reserve(1);
        if !ok {
          return;
        }
        ghost var before := data[..cur];
        Append([0]);
        ghost var body := data[4..cur];
        assert body == data[..cur][4..] == before[4..] + [0];
        if cur >= INT32_MAX {
          err := {SizeOverflow};
          assert SizeOverflow in err * WIPING;
          torn := true;
          return false;
        }
        Patch(0, cur);
        assert data[..cur] == Le32(cur) + body;
        if !torn {
          FinishedBytes(frames[0].fields, body, cur);
        }
        finished := true;
      }
      LengthWeighs(data, cur);
      ok := true;
    }
  }

  // ---------- The iterator ----------

  /** char is signed: what a byte turns into when it is returned as a bson_type. */
  function SignedChar(b: Byte): int
  {
    if b >= 128 then b - 256 else b
  }

  class Iterator {
    const data: seq<Byte>
    var cur: nat
    var first: bool

    /** bson_iterator_init and bson_iterator_from_buffer, with `at` the start of the document. */
    constructor (data: seq<Byte>, at: nat)
      ensures this.data == data && cur == at + 4 && first
    {
      this.data, cur, first := data, at + 4, true;
    }

    /** The element at the cursor lies within the data. */
    predicate Inside()
      reads this
    {
      && cur < |data|
      && (data[cur] != 0 ==>
            && ValueAt(data[cur..]) <= |data| - cur
            && var v := data[cur..][ValueAt(data[cur..])..];
               DataSize(data[cur], v).Some? && 0 <= DataSize(data[cur], v).value < |v|)
    }

    /** bson_iterator_next: the type byte as a signed char, which is why a MinKey is not 255 here. */
    method Next() returns (t: int)
      requires Inside()
      modifies `cur, `first
      ensures !first && cur < |data| && t == SignedChar(data[cur])
      ensures old(first) || data[old(cur)] == 0 ==> cur == old(cur)
      ensures !old(first) && data[old(cur)] != 0 ==>
        var s := data[old(cur)..];
        data[cur..] == s[ValueAt(s)..][DataSize(s[0], s[ValueAt(s)..]).value..]
    {
      if first {
        first := false;
        return SignedChar(data[cur]);
      }
      if data[cur] != 0 {
        var s := data[cur..];
        var ds := DataSize(data[cur], s[ValueAt(s)..]).value;
        cur := cur + ValueAt(s) + ds;
        assert data[cur..] == s[ValueAt(s)..][ds..];
      }
      t := SignedChar(data[cur]);
    }

    /** bson_iterator_type. */
    function Type(): Byte
      requires cur < |data|
      reads this
    {
      data[cur]
    }

    /** bson_iterator_key. */
    function Key(): seq<Byte>
      requires cur < |data| && ValueAt(data[cur..]) <= |data| - cur
      reads this
    {
      data[cur..][1..ValueAt(data[cur..]) - 1]
    }

    /** bson_iterator_value: where the value starts. */
    function ValuePos(): nat
      requires cur < |data| && ValueAt(data[cur..]) <= |data| - cur
      reads this
    {
      cur + ValueAt(data[cur..])
    }
  }
}
