/** The template parser: templates laid out in an arena of nodes, and the two walks over it. */
module ProtoParser {
  import opened TemplateCodec
  import opened TemplateSpec

  const NODES: nat := 32768
  const ENTRIES: nat := 128
  const NAME: nat := 64
  const SEND: nat := 16384

  /** Nodes below this one are roots; the tables inside templates get nodes above it. */
  const ROOTS: nat := 4096

  // ---------- Messages ----------

  class MsgRecv {
    var buf: seq<int>
    var front: nat
    var back: int

    ghost predicate Valid()
      reads this
    {
      CursorOk(At())
    }

    function At(): Cursor
      reads this
    {
      Cursor(buf, front, back)
    }

    constructor (s: seq<int>)
      ensures Valid() && At() == Cursor(s, 0, |s|)
    {
      buf, front, back := s, 0, |s|;
    }

    method ReadByte() returns (r: int)
      requires Valid()
      modifies `front, `back
      ensures Valid() && At() == After(old(At()), 1) && r == Int1(Found(old(At()), 1))
    {
      if back < front + 1 {
        back := -1;
        return 0;
      }
      r := Wrap(buf[front], 0x80);
      front := front + 1;
    }

    method ReadShort() returns (r: int)
      requires Valid()
      modifies `front, `back
      ensures Valid() && At() == After(old(At()), 2) && r == Int2(Found(old(At()), 2))
    {
      if back < front + 2 {
        back := -1;
        return 0;
      }
      r := Wrap(buf[front] * 256 + buf[front + 1], 0x8000);
      front := front + 2;
    }

    method ReadInt() returns (r: int)
      requires Valid()
      modifies `front, `back
      ensures Valid() && At() == After(old(At()), 4) && r == Int4(Found(old(At()), 4))
    {
      if back < front + 4 {
        back := -1;
        return 0;
      }
      r := Int4(buf[front..front + 4]);
      front := front + 4;
    }

    method ReadDouble() returns (r: seq<int>)
      requires Valid()
      modifies `front, `back
      ensures Valid() && At() == After(old(At()), 8) && r == Found(old(At()), 8)
    {
      if back < front + 8 {
        back := -1;
        return seq(8, _ => 0);
      }
      r := buf[front..front + 8];
      front := front + 8;
    }

    /** The bytes if they are there; if not, the caller's buffer stays as it was. */
    method ReadString(len: nat) returns (r: Value)
      requires Valid()
      modifies `front, `back
      ensures Valid() && At() == After(old(At()), len)
      ensures r == if FallsShort(old(At()), len) then Junk(len) else Text(Found(old(At()), len))
    {
      if back < front + len {
        back := -1;
        return Junk(len);
      }
      r := Text(buf[front..front + len]);
      front := front + len;
    }
  }

  class MsgSend {
    var buf: seq<int>

    constructor ()
      ensures buf == []
    {
      buf := [];
    }

    /** Every write_*: what does not fit is dropped. */
    method Write(s: seq<int>)
      modifies this
      ensures buf == if |old(buf)| + |s| <= SEND then old(buf) + s else old(buf)
    {
      if SEND < |buf| + |s| {
        return;
      }
      buf := buf + s;
    }
  }

  // ---------- The arena ----------

  /** One entry of a node; `next` is 0 for a scalar. */
  datatype Attr = Attr(name: string, cnt: int, next: int, kind: Kind)

  type Arena = seq<seq<Attr>>

  /** The least node that a table below this node can have. */
  function Above(node: int): int
  {
    if node < ROOTS then ROOTS + 1 else node + 1
  }

  /** The node describes these fields, and every edge below it goes to a larger node, none above `hi`. */
  ghost predicate Represents(rows: Arena, node: int, fs: seq<Field>, hi: int)
    requires hi < |rows|
    decreases fs
  {
    && 0 <= node <= |rows| - 1 && |rows[node]| == |fs|
    && forall i :: 0 <= i < |fs| ==> AttrIs(rows, node, rows[node][i], fs[i], hi)
  }

  ghost predicate AttrIs(rows: Arena, node: int, a: Attr, f: Field, hi: int)
    requires hi < |rows|
    decreases f
  {
    && a.name == f.name && a.cnt == f.cnt
    && match f.body
       case Leaf(k) => a.next == 0 && a.kind == k
       case Sub(gs) => Above(node) <= a.next <= hi && Represents(rows, a.next, gs, hi)
  }

  ghost predicate SameRows(rows: Arena, rows': Arena, lo: int, hi: int)
  {
    |rows'| == |rows| && forall id :: 0 <= id < |rows| && lo <= id <= hi ==> rows'[id] == rows[id]
  }

  /** A template depends on its own row and the rows of its tables only. */
  lemma {:induction false} RepresentsFrame(rows: Arena, rows': Arena, node: int, fs: seq<Field>, hi: int, hi': int)
    requires hi <= hi' < |rows| && Represents(rows, node, fs, hi)
    requires SameRows(rows, rows', Above(node), hi) && rows'[node] == rows[node]
    ensures Represents(rows', node, fs, hi')
    decreases fs
  {
    forall i | 0 <= i < |fs|
      ensures AttrIs(rows', node, rows'[node][i], fs[i], hi')
    {
      AttrFrame(rows, rows', node, rows[node][i], fs[i], hi, hi');
    }
  }

  lemma {:induction false} AttrFrame(rows: Arena, rows': Arena, node: int, a: Attr, f: Field, hi: int, hi': int)
    requires hi <= hi' < |rows| && AttrIs(rows, node, a, f, hi) && SameRows(rows, rows', Above(node), hi)
    ensures AttrIs(rows', node, a, f, hi')
    decreases f
  {
    if f.body.Sub? {
      RepresentsFrame(rows, rows', a.next, f.body.fields, hi, hi');
    }
  }

  /** How many nodes the tables inside a template take. */
  function Nodes(fs: seq<Field>): nat
    decreases fs
  {
    if fs == [] then 0 else FieldNodes(fs[0]) + Nodes(fs[1..])
  }

  function FieldNodes(f: Field): nat
    decreases f
  {
    if f.body.Sub? then 1 + Nodes(f.body.fields) else 0
  }

  /** Names that fit, and no more fields than a node has room for. */
  predicate TemplateOk(fs: seq<Field>)
    decreases fs, 1
  {
    |fs| < ENTRIES && FieldsFine(fs)
  }

  predicate FieldsFine(fs: seq<Field>)
    decreases fs, 0
  {
    fs != [] ==> FieldFine(fs[0]) && FieldsFine(fs[1..])
  }

  predicate FieldFine(f: Field)
    decreases f
  {
    1 <= |f.name| < NAME && (f.body.Sub? ==> TemplateOk(f.body.fields))
  }

  class Parser {
    var adj: Arena
    var nextNodeId: int

    /** The nodes that were not handed out yet are free. */
    ghost predicate Arranged()
      reads this
    {
      && |adj| == NODES && ROOTS <= nextNodeId
      && forall id :: nextNodeId < id < NODES ==> adj[id] == []
    }

    ghost predicate Valid()
      reads this
    {
      Arranged() && nextNodeId < NODES
    }

    constructor ()
      ensures Valid() && nextNodeId == ROOTS && forall id :: 0 <= id < NODES ==> adj[id] == []
    {
      adj := seq(NODES, _ => []);
      nextNodeId := ROOTS;
    }

    /**
     * template2tree_dfs. It comes to an end without a failed assertion exactly if the node is free, the template's
     * names and tables fit, and there are nodes enough; the tables inside get the nodes after `nextNodeId`.
     */
    method TemplateToTree(node: int, fs: seq<Field>) returns (ok: bool)
      requires Arranged() && 0 <= node <= nextNodeId && (nextNodeId < NODES || node == nextNodeId)
      modifies this
      ensures ok <==> node < NODES && old(adj)[node] == [] && TemplateOk(fs) && old(nextNodeId) + Nodes(fs) < NODES
      ensures ok ==> Valid() && nextNodeId == old(nextNodeId) + Nodes(fs)
      ensures ok ==> Represents(adj, node, fs, nextNodeId)
      ensures ok ==> OnlyNew(old(adj), adj, node, old(nextNodeId), nextNodeId)
      decreases fs, 1
    {
      if NODES <= node {
        return false;
      }
      if adj[node] != [] {
        return false;
      }
      ghost var next0, rows0 := nextNodeId, adj;
      assert fs[0..] == fs;
      for i := 0 to |fs|
        invariant Valid() && |adj[node]| == i < ENTRIES && nextNodeId >= next0
        invariant EntriesAre(adj, node, fs[..i], nextNodeId)
        invariant nextNodeId + Nodes(fs[i..]) == next0 + Nodes(fs)
        invariant FieldsFine(fs) <==> FieldsFine(fs[i..])
        invariant OnlyNew(rows0, adj, node, next0, nextNodeId)
      {
        ghost var before, next := adj, nextNodeId;
        assert fs[i..][1..] == fs[i + 1..];
        ok := AddEntry(node, fs[i]);
        if !ok {
          return;
        }
        EntriesMore(before, adj, node, fs, i, next, nextNodeId);
      }
      assert fs[..|fs|] == fs;
      ok := true;
    }

    method AddEntry(node: int, f: Field) returns (ok: bool)
      requires Valid() && 0 <= node <= nextNodeId && |adj[node]| < ENTRIES
      modifies this
      ensures ok <==> |old(adj)[node]| + 1 < ENTRIES && FieldFine(f) && old(nextNodeId) + FieldNodes(f) < NODES
      ensures ok ==> Valid() && nextNodeId == old(nextNodeId) + FieldNodes(f)
      ensures ok ==> |adj[node]| == |old(adj)[node]| + 1 && adj[node][..|adj[node]| - 1] == old(adj)[node]
      ensures ok ==> AttrIs(adj, node, adj[node][|adj[node]| - 1], f, nextNodeId)
      ensures ok ==> OnlyNew(old(adj), adj, node, old(nextNodeId), nextNodeId)
      decreases f, 0
    {
      var row := adj[node];
      if ENTRIES <= |row| + 1 {
        return false;
      }
      if |f.name| < 1 {
        return false;
      }
      if NAME <= |f.name| {
        return false;
      }
      match f.body
      case Leaf(k) =>
        adj := adj[node := row + [Attr(f.name, f.cnt, 0, k)]];
        ok := true;
      case Sub(gs) =>
        nextNodeId := nextNodeId + 1;
        adj := adj[node := row + [Attr(f.name, f.cnt, nextNodeId, Byte)]];
        ok := TemplateToTree(nextNodeId, gs);
    }

    /** The arena is as it was left by laying out a template at this node. */
    ghost predicate Laid(node: int, fs: seq<Field>, hi: int)
      reads this
    {
      hi < |adj| && Represents(adj, node, fs, hi)
    }

    // ---------- Reading ----------

    /** read_msg_dfs. Every edge goes to a larger node, so the walk comes to an end. */
    method ReadMsg(data: MsgRecv, node: int, ghost fs: seq<Field>, ghost hi: int) returns (vs: seq<Value>, ok: bool)
      requires Laid(node, fs, hi) && data.Valid()
      modifies data
      ensures data.Valid() && Got(data.At(), vs, ok) == ReadFields(fs, old(data.At()))
      decreases |adj| - node, 1
    {
      vs := [];
      ghost var goal := ReadFields(fs, data.At());
      assert fs[0..] == fs;
      LedNothing(goal);
      for i := 0 to |adj[node]|
        invariant data.Valid() && Led(vs, ReadFields(fs[i..], data.At())) == goal
      {
        assert fs[i..][1..] == fs[i + 1..];
        assert AttrIs(adj, node, adj[node][i], fs[i], hi);
        FieldsStep(vs, fs[i..], data.At(), goal);
        var v, good := ReadAttr(data, node, adj[node][i], fs[i], hi);
        if !good {
          return vs, false;
        }
        vs := vs + [v];
      }
      assert vs + [] == vs;
      ok := true;
    }

    method ReadAttr(data: MsgRecv, node: int, pa: Attr, ghost f: Field, ghost hi: int) returns (v: Value, ok: bool)
      requires 0 <= node < |adj| && hi < |adj| && AttrIs(adj, node, pa, f, hi) && data.Valid()
      modifies data
      ensures data.Valid() && Got(data.At(), v, ok) == ReadField(f, old(data.At()))
      decreases |adj| - node, 0
    {
      if pa.cnt < 2 {
        v, ok := ReadOne(data, node, pa, f, hi);
      } else {
        var len := data.ReadShort();
        if !(0 <= len <= pa.cnt) {
          return Many([]), false;
        }
        var items := [];
        ghost var goal := ReadItems(f.body, len, data.At());
        LedNothing(goal);
        for j := 0 to len
          invariant data.Valid() && Led(items, ReadItems(f.body, len - j, data.At())) == goal
        {
          ItemsStep(items, f.body, len - j, data.At(), goal);
          var x, good := ReadOne(data, node, pa, f, hi);
          if !good && pa.next == 0 {
            return Many(items), false;
          }
          items := items + [x];
        }
        assert items + [] == items;
        v, ok := Many(items), true;
      }
    }

    /** A single scalar or table. */
    method ReadOne(data: MsgRecv, node: int, pa: Attr, ghost f: Field, ghost hi: int) returns (v: Value, ok: bool)
      requires 0 <= node < |adj| && hi < |adj| && AttrIs(adj, node, pa, f, hi) && data.Valid()
      modifies data
      ensures data.Valid() && Got(data.At(), v, ok) == ReadItem(f.body, old(data.At()))
      decreases |adj| - node, 0, 0
    {
      if pa.next != 0 {
        var vs, good := ReadMsg(data, pa.next, f.body.fields, hi);
        v, ok := Table(vs), good;
      } else {
        v, ok := ReadScalar(data, pa.kind);
      }
    }

    method ReadScalar(data: MsgRecv, kind: Kind) returns (v: Value, ok: bool)
      requires data.Valid()
      modifies data
      ensures data.Valid() && Got(data.At(), v, ok) == ReadLeaf(kind, old(data.At()))
    {
      ok := true;
      match kind
      case Byte => var n := data.ReadByte(); v := Num(n);
      case Short => var n := data.ReadShort(); v := Num(n);
      case Int => var n := data.ReadInt(); v := Num(n);
      case Uint => var n := data.ReadInt(); v := Num(n);
      case Double => var b := data.ReadDouble(); v := Bits(b);
      case Str =>
        var len := data.ReadShort();
        if len < 0 {
          return Junk(0), false;
        }
        v := data.ReadString(len);
    }

    // ---------- Writing ----------

    /** write_msg_dfs on a value the template admits: it succeeds, and its bytes are written while there is room. */
    method WriteMsg(data: MsgSend, node: int, vs: seq<Value>, ghost fs: seq<Field>, ghost hi: int) returns (ret: int)
      requires Laid(node, fs, hi) && FieldsOk(fs, vs)
      modifies data
      ensures ret == 0 && Wrote(old(data.buf), FieldsBytes(fs, vs), data.buf)
      ensures |old(data.buf)| <= SEND ==>
        (data.buf == old(data.buf) + FieldsBytes(fs, vs) <==> |old(data.buf)| + |FieldsBytes(fs, vs)| <= SEND)
      decreases |adj| - node, 1
    {
      ghost var b, s, all := data.buf, [], FieldsBytes(fs, vs);
      assert fs[0..] == fs && vs[0..] == vs;
      for i := 0 to |adj[node]|
        invariant FieldsOk(fs[i..], vs[i..]) && all == s + FieldsBytes(fs[i..], vs[i..])
        invariant Wrote(b, s, data.buf)
      {
        ghost var mid := data.buf;
        FieldsSplit(fs, vs, i);
        assert AttrIs(adj, node, adj[node][i], fs[i], hi);
        WriteAttr(data, node, adj[node][i], vs[i], fs[i], hi);
        ghost var t := FieldBytes(fs[i], vs[i]);
        WroteMore(b, s, mid, t, data.buf, s + t);
        assert s + (t + FieldsBytes(fs[i + 1..], vs[i + 1..])) == s + t + FieldsBytes(fs[i + 1..], vs[i + 1..]);
        s := s + t;
      }
      assert s + [] == s;
      ret := 0;
    }

    method WriteAttr(data: MsgSend, node: int, pa: Attr, v: Value, ghost f: Field, ghost hi: int)
      requires 0 <= node < |adj| && hi < |adj| && AttrIs(adj, node, pa, f, hi) && FieldOk(f, v)
      modifies data
      ensures Wrote(old(data.buf), FieldBytes(f, v), data.buf)
      decreases |adj| - node, 0
    {
      if pa.cnt < 2 {
        WriteOne(data, node, pa, v, f, hi);
      } else {
        ghost var b, s := data.buf, Bytes2(|v.items|);
        ghost var all := FieldBytes(f, v);
        data.Write(Bytes2(|v.items|));
        assert v.items[0..] == v.items;
        for j := 0 to |v.items|
          invariant ItemsOk(f.body, v.items[j..]) && all == s + ItemsBytes(f.body, v.items[j..])
          invariant Wrote(b, s, data.buf)
        {
          ghost var mid := data.buf;
          ItemsSplit(f.body, v.items, j);
          WriteOne(data, node, pa, v.items[j], f, hi);
          ghost var t, rest := ItemBytes(f.body, v.items[j]), ItemsBytes(f.body, v.items[j + 1..]);
          WroteMore(b, s, mid, t, data.buf, s + t);
          assert s + (t + rest) == s + t + rest;
          s := s + t;
        }
        assert s + [] == s;
      }
    }

    method WriteOne(data: MsgSend, node: int, pa: Attr, v: Value, ghost f: Field, ghost hi: int)
      requires 0 <= node < |adj| && hi < |adj| && AttrIs(adj, node, pa, f, hi) && ItemOk(f.body, v)
      modifies data
      ensures Wrote(old(data.buf), ItemBytes(f.body, v), data.buf)
      decreases |adj| - node, 0, 0
    {
      if pa.next != 0 {
        var _ := WriteMsg(data, pa.next, v.fields, f.body.fields, hi);
      } else {
        WriteScalar(data, pa.kind, v);
      }
    }

    method WriteScalar(data: MsgSend, kind: Kind, v: Value)
      requires LeafOk(kind, v)
      modifies data
      ensures Wrote(old(data.buf), LeafBytes(kind, v), data.buf)
    {
      match kind
      case Byte => data.Write(Bytes1(v.n));
      case Short => data.Write(Bytes2(v.n));
      case Int => data.Write(Bytes4(v.n));
      case Uint => data.Write(Bytes4(v.n));
      case Double => data.Write(v.b);
      case Str =>
        ghost var b := data.buf;
        data.Write(Bytes2(|v.s|));
        ghost var mid := data.buf;
        data.Write(v.s);
        WroteMore(b, Bytes2(|v.s|), mid, v.s, data.buf, LeafBytes(kind, v));
    }
  }

  /** What comes of writing `s` piece by piece after `b`: all of it if there is room, some of it if not. */
  ghost predicate Wrote(b: seq<int>, s: seq<int>, out: seq<int>)
  {
    && |b| <= SEND ==> (|out| <= SEND && (|b| + |s| <= SEND ==> out == b + s))
  }

  lemma WroteMore(b: seq<int>, s: seq<int>, mid: seq<int>, t: seq<int>, out: seq<int>, all: seq<int>)
    requires Wrote(b, s, mid) && Wrote(mid, t, out) && all == s + t
    ensures Wrote(b, all, out)
  {
    if |b| + |all| <= SEND {
      assert b + s + t == b + (s + t);
    }
  }

  lemma FieldsSplit(fs: seq<Field>, vs: seq<Value>, i: nat)
    requires i < |fs| && i < |vs| && FieldsOk(fs[i..], vs[i..])
    ensures FieldOk(fs[i], vs[i]) && FieldsOk(fs[i + 1..], vs[i + 1..])
    ensures FieldsBytes(fs[i..], vs[i..]) == FieldBytes(fs[i], vs[i]) + FieldsBytes(fs[i + 1..], vs[i + 1..])
  {
    assert fs[i..][1..] == fs[i + 1..] && vs[i..][1..] == vs[i + 1..];
  }

  lemma ItemsSplit(b: Body, vs: seq<Value>, i: nat)
    requires i < |vs| && ItemsOk(b, vs[i..])
    ensures ItemOk(b, vs[i]) && ItemsOk(b, vs[i + 1..])
    ensures ItemsBytes(b, vs[i..]) == ItemBytes(b, vs[i]) + ItemsBytes(b, vs[i + 1..])
  {
    assert vs[i..][1..] == vs[i + 1..];
  }

  lemma LedNothing(r: Got<seq<Value>>)
    ensures Led([], r) == r
  {
    assert [] + r.v == r.v;
  }

  /** One field of a table, and what is still to be read. */
  lemma FieldsStep(vs: seq<Value>, fs: seq<Field>, c: Cursor, goal: Got<seq<Value>>)
    requires CursorOk(c) && fs != [] && Led(vs, ReadFields(fs, c)) == goal
    ensures var r := ReadField(fs[0], c);
      if r.ok then Led(vs + [r.v], ReadFields(fs[1..], r.c)) == goal else goal == Got(r.c, vs, false)
  {
    var r := ReadField(fs[0], c);
    if r.ok {
      assert vs + ([r.v] + ReadFields(fs[1..], r.c).v) == vs + [r.v] + ReadFields(fs[1..], r.c).v;
    } else {
      assert vs + [] == vs;
    }
  }

  /** One item of an array, and what is still to be read. */
  lemma ItemsStep(vs: seq<Value>, b: Body, n: nat, c: Cursor, goal: Got<seq<Value>>)
    requires CursorOk(c) && n > 0 && Led(vs, ReadItems(b, n, c)) == goal
    ensures var r := ReadItem(b, c);
      if !r.ok && b.Leaf? then goal == Got(r.c, vs, false)
      else Led(vs + [r.v], ReadItems(b, n - 1, r.c)) == goal
  {
    var r := ReadItem(b, c);
    if r.ok || b.Sub? {
      assert vs + ([r.v] + ReadItems(b, n - 1, r.c).v) == vs + [r.v] + ReadItems(b, n - 1, r.c).v;
    } else {
      assert vs + [] == vs;
    }
  }

  /** Nothing but the node itself and the newly handed out nodes has changed. */
  ghost predicate OnlyNew(rows: Arena, rows': Arena, node: int, lo: int, hi: int)
  {
    |rows'| == |rows| && forall id :: 0 <= id < |rows| && id != node && !(lo < id <= hi) ==> rows'[id] == rows[id]
  }

  ghost predicate EntriesAre(rows: Arena, node: int, fs: seq<Field>, hi: int)
  {
    && 0 <= node < |rows| && hi < |rows| && |rows[node]| == |fs|
    && forall i :: 0 <= i < |fs| ==> AttrIs(rows, node, rows[node][i], fs[i], hi)
  }

  lemma EntriesMore(rows: Arena, rows': Arena, node: int, fs: seq<Field>, i: nat, hi: int, hi': int)
    requires i < |fs| && EntriesAre(rows, node, fs[..i], hi) && node <= hi <= hi' < |rows|
    requires OnlyNew(rows, rows', node, hi, hi')
    requires |rows'[node]| == i + 1 && rows'[node][..i] == rows[node]
    requires AttrIs(rows', node, rows'[node][i], fs[i], hi')
    ensures EntriesAre(rows', node, fs[..i + 1], hi')
  {
    forall k | 0 <= k < i + 1
      ensures AttrIs(rows', node, rows'[node][k], fs[..i + 1][k], hi')
    {
      if k < i {
        assert AttrIs(rows, node, rows[node][k], fs[..i][k], hi);
        assert rows'[node][k] == rows'[node][..i][k];
        AttrFrame(rows, rows', node, rows[node][k], fs[k], hi, hi');
      }
    }
  }

  /** The arena holds these templates, each at its root. */
  ghost predicate Holding(rows: Arena, templates: map<int, seq<Field>>, hi: int)
  {
    hi < |rows| && forall root :: root in templates ==> 0 <= root < ROOTS && Represents(rows, root, templates[root], hi)
  }

  /** Laying out one more template in new nodes leaves the others as they are. */
  lemma HoldingMore(rows: Arena, rows': Arena, templates: map<int, seq<Field>>, root: int, fs: seq<Field>, hi: int, hi': int)
    requires Holding(rows, templates, hi) && 0 <= root < ROOTS <= hi <= hi' < |rows| && root !in templates
    requires OnlyNew(rows, rows', root, hi, hi') && Represents(rows', root, fs, hi')
    ensures Holding(rows', templates[root := fs], hi')
  {
    forall r | r in templates
      ensures Represents(rows', r, templates[r], hi')
    {
      RepresentsFrame(rows, rows', r, templates[r], hi, hi');
    }
  }

  /** One more template for a parser that holds any others. */
  method AddTemplate(parser: Parser, root: int, fs: seq<Field>, ghost templates: map<int, seq<Field>>) returns (ok: bool)
    requires parser.Valid() && Holding(parser.adj, templates, parser.nextNodeId)
    requires 0 <= root < ROOTS && root !in templates
    modifies parser
    ensures ok <==> old(parser.adj)[root] == [] && TemplateOk(fs) && old(parser.nextNodeId) + Nodes(fs) < NODES
    ensures ok ==> parser.Valid() && Holding(parser.adj, templates[root := fs], parser.nextNodeId)
  {
    ok := parser.TemplateToTree(root, fs);
    if ok {
      HoldingMore(old(parser.adj), parser.adj, templates, root, fs, old(parser.nextNodeId), parser.nextNodeId);
    }
  }

  /** By any of the templates a parser holds: a value written and the message read is the same value, all read. */
  method WriteThenRead(parser: Parser, root: int, vs: seq<Value>, ghost templates: map<int, seq<Field>>)
    returns (r: seq<Value>, ok: bool, readAll: bool)
    requires Holding(parser.adj, templates, parser.nextNodeId) && root in templates
    requires FieldsOk(templates[root], vs) && |FieldsBytes(templates[root], vs)| <= SEND
    ensures ok && readAll && r == vs
  {
    ghost var fs, hi := templates[root], parser.nextNodeId;
    var sent := new MsgSend();
    var _ := parser.WriteMsg(sent, root, vs, fs, hi);
    ghost var s := FieldsBytes(fs, vs);
    assert [] + s == s;
    var received := new MsgRecv(sent.buf);
    MessageBack(fs, vs, s, received.At());
    r, ok := parser.ReadMsg(received, root, fs, hi);
    readAll := HasReadAll(received.At());
  }
}
