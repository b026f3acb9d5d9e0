/** Whole runs of evbuffer operations on two buffers compute what the same operations do to two plain
    byte strings. */
module EvRuns {
  import opened Lists
  import opened Chains
  import opened InPieces
  import opened EvBuffer
  import opened EvTransfer
  import EvPullup
  import EvSearch

  // ---------- Lines ----------

  /** evbuffer_readln: the bytes up to the first line end, which is removed with them. */
  method Readln(buf: Evbuffer, style: EvSearch.EolStyle) returns (line: Option<seq<Byte>>)
    requires buf.Valid()
    modifies buf`first, buf`last, buf`lastWithDatap, buf`totalLen, buf`chains, buf`parts, buf.heap
    ensures buf.Valid() && Elsewhere(buf.heap.cells, buf.chains) == Elsewhere(old(buf.heap.cells), old(buf.chains))
    ensures line.None? ==> buf.Contents() == old(buf.Contents())
    ensures line.None? && !buf.freezeStart ==> NoLine(old(buf.Contents()), |old(buf.Contents())|, style)
    ensures line.Some? ==>
      var s := old(buf.Contents()); var n := |line.value|;
      && n < |s| && line.value == s[..n] && NoLine(s, n, style)
      && EvSearch.EolAt(s, n, style) > 0 && n + EvSearch.EolAt(s, n, style) <= |s|
      && buf.Contents() == s[n + EvSearch.EolAt(s, n, style)..]
  {
    if buf.freezeStart {
      return None;
    }
    EvSearch.StartPlaced(buf);
    var it, extra := EvSearch.SearchEol(buf, EvSearch.Start(buf), 0, style);
    if it.pos < 0 {
      return None;
    }
    EolFits(buf.Contents(), it.pos, style);
    var data := TakeLine(buf, it.pos, extra);
    line := Some(data);
  }

  /** Remove `n` bytes and drain `extra` more. */
  method TakeLine(buf: Evbuffer, n: nat, extra: nat) returns (data: seq<Byte>)
    requires buf.Valid() && !buf.freezeStart && n + extra <= |buf.Contents()|
    modifies buf`first, buf`last, buf`lastWithDatap, buf`totalLen, buf`chains, buf`parts, buf.heap
    ensures buf.Valid() && Elsewhere(buf.heap.cells, buf.chains) == Elsewhere(old(buf.heap.cells), old(buf.chains))
    ensures n + extra <= |old(buf.Contents())| && data == old(buf.Contents())[..n]
    ensures buf.Contents() == old(buf.Contents())[n + extra..]
  {
    ghost var s := buf.Contents();
    var removed;
    removed, data := buf.Remove(n);
    Rest(s, data, buf.Contents());
    DropTwice(s, n, extra);
    var drained := buf.Drain(extra);
  }

  /** No line end of the style begins before `to`. */
  ghost predicate NoLine(s: seq<Byte>, to: int, style: EvSearch.EolStyle)
    requires to <= |s|
  {
    forall q :: 0 <= q < to ==> EvSearch.EolAt(s, q, style) == 0
  }

  lemma EolFits(s: seq<Byte>, q: nat, style: EvSearch.EolStyle)
    requires q < |s|
    ensures q + EvSearch.EolAt(s, q, style) <= |s|
  {
    RunFits(s, q);
  }

  lemma {:induction false} RunFits(s: seq<Byte>, q: nat)
    requires q <= |s|
    ensures q + EvSearch.Run(s, q) <= |s|
    decreases |s| - q
  {
    if q < |s| {
      RunFits(s, q + 1);
    }
  }

  lemma Rest(s: seq<Byte>, data: seq<Byte>, rest: seq<Byte>)
    requires data + rest == s
    ensures rest == s[|data|..] && data == s[..|data|]
  {
  }

  lemma DropTwice(s: seq<Byte>, n: nat, k: nat)
    requires n + k <= |s|
    ensures s[n..][k..] == s[n + k..]
  {
  }

  // ---------- Runs ----------

  /** A byte string with its two freeze flags. */
  datatype Flat = Flat(bytes: seq<Byte>, freezeStart: bool, freezeEnd: bool)

  datatype Op =
    | Add(data: seq<Byte>)
    | Prepend(data: seq<Byte>)
    | Drain(len: nat)
    | Remove(len: nat)
    | Pullup(size: int)
    | AddBuffer
    | PrependBuffer
    | RemoveBuffer(len: nat)

  /** The two strings after an operation on the first, which may take bytes from the second. */
  datatype Pair = Pair(one: Flat, two: Flat)

  function Take(f: Flat, n: nat): Flat
  {
    f.(bytes := if n >= |f.bytes| then [] else f.bytes[n..])
  }

  function Front(f: Flat, n: nat): seq<Byte>
  {
    if n >= |f.bytes| then f.bytes else f.bytes[..n]
  }

  /** Operations of one buffer alone. */
  function ApplyOne(f: Flat, op: Op): Flat
  {
    match op
    case Add(d) => if f.freezeEnd then f else f.(bytes := f.bytes + d)
    case Prepend(d) => if f.freezeStart then f else f.(bytes := d + f.bytes)
    case Drain(n) => if f.freezeStart then f else Take(f, n)
    case Remove(n) => if f.freezeStart then f else Take(f, n)
    case _ => f
  }

  function Apply(p: Pair, op: Op): Pair
  {
    match op
    case AddBuffer => if p.one.freezeEnd || p.two.freezeStart then p
                      else Pair(p.one.(bytes := p.one.bytes + p.two.bytes), p.two.(bytes := []))
    case PrependBuffer => if p.one.freezeStart || p.two.freezeStart then p
                          else Pair(p.one.(bytes := p.two.bytes + p.one.bytes), p.two.(bytes := []))
    case RemoveBuffer(n) => if p.one.freezeEnd || p.two.freezeStart then p
                            else Pair(p.one.(bytes := p.one.bytes + Front(p.two, n)), Take(p.two, n))
    case _ => p.(one := ApplyOne(p.one, op))
  }

  function Swap(p: Pair): Pair
  {
    Pair(p.two, p.one)
  }

  /** Each step names the buffer it works on. */
  function ApplyAll(p: Pair, ops: seq<(bool, Op)>): Pair
    decreases |ops|
  {
    if ops == [] then p
    else
      var q := ApplyAll(p, ops[..|ops| - 1]);
      var last := ops[|ops| - 1];
      if last.0 then Apply(q, last.1) else Swap(Apply(Swap(q), last.1))
  }

  ghost function FlatOf(buf: Evbuffer): Flat
    reads buf
  {
    Flat(buf.Contents(), buf.freezeStart, buf.freezeEnd)
  }

  ghost predicate Ready(a: Evbuffer, b: Evbuffer)
    reads a, b, a.heap, b.heap
  {
    a != b && a.heap == b.heap && a.Valid() && b.Valid() && Apart(a, b)
  }

  /** An operation of one buffer alone leaves the other buffer alone. */
  lemma OtherStays(a: Evbuffer, b: Evbuffer, m: Cells, cs: seq<Addr>)
    requires a.heap == b.heap && List(m, b.chains, b.parts) && (forall x :: x in cs ==> x !in b.chains)
    requires Elsewhere(a.heap.cells, a.chains) == Elsewhere(m, cs)
    ensures List(b.heap.cells, b.chains, b.parts) && Apart(a, b)
    ensures Elsewhere(a.heap.cells, a.chains + b.chains) == Elsewhere(m, cs + b.chains)
  {
    ElsewhereFrame(m, cs, a.heap.cells, a.chains, b.chains, b.parts, None);
    ElsewhereWiden(a.heap.cells, a.chains, m, cs, b.chains);
  }

  method RemoveFront(a: Evbuffer, n: nat)
    requires a.Valid()
    modifies a`first, a`last, a`lastWithDatap, a`totalLen, a`chains, a`parts, a.heap
    ensures a.Valid() && FlatOf(a) == ApplyOne(old(FlatOf(a)), Remove(n))
    ensures Elsewhere(a.heap.cells, a.chains) == Elsewhere(old(a.heap.cells), old(a.chains))
  {
    var r, data := a.Remove(n);
    if r >= 0 {
      Rest(old(a.Contents()), data, a.Contents());
    }
  }

  method OnOne(a: Evbuffer, op: Op)
    requires a.Valid() && !op.AddBuffer? && !op.PrependBuffer? && !op.RemoveBuffer?
    modifies a`first, a`last, a`lastWithDatap, a`totalLen, a`chains, a`parts, a.heap
    ensures a.Valid() && FlatOf(a) == ApplyOne(old(FlatOf(a)), op)
    ensures Elsewhere(a.heap.cells, a.chains) == Elsewhere(old(a.heap.cells), old(a.chains))
  {
    match op {
      case Add(d) => var r := a.Add(d);
      case Prepend(d) => var r := a.Prepend(d);
      case Drain(n) => var r := a.Drain(n);
      case Remove(n) => RemoveFront(a, n);
      case Pullup(n) => var ok := EvPullup.Pullup(a, n);
    }
  }

  method Alone(a: Evbuffer, b: Evbuffer, op: Op)
    requires Ready(a, b) && !op.AddBuffer? && !op.PrependBuffer? && !op.RemoveBuffer?
    modifies a`first, a`last, a`lastWithDatap, a`totalLen, a`chains, a`parts, a.heap
    ensures Ready(a, b) && Pair(FlatOf(a), FlatOf(b)) == Apply(old(Pair(FlatOf(a), FlatOf(b))), op)
    ensures Elsewhere(a.heap.cells, a.chains + b.chains) == Elsewhere(old(a.heap.cells), old(a.chains + b.chains))
  {
    OnOne(a, op);
    OtherStays(a, b, old(a.heap.cells), old(a.chains));
  }

  lemma CutFront(f: Flat, n: nat)
    ensures var r := if n >= |f.bytes| then |f.bytes| else n;
      Front(f, n) == f.bytes[..r] && Take(f, n).bytes == f.bytes[r..]
    ensures f.bytes + [] == f.bytes
  {
  }

  method MoveFront(a: Evbuffer, b: Evbuffer, n: nat)
    requires Ready(a, b)
    modifies a`first, a`last, a`lastWithDatap, a`totalLen, a`chains, a`parts, a.heap
    modifies b`first, b`last, b`lastWithDatap, b`totalLen, b`chains, b`parts
    ensures Ready(a, b) && Pair(FlatOf(a), FlatOf(b)) == Apply(old(Pair(FlatOf(a), FlatOf(b))), RemoveBuffer(n))
    ensures Elsewhere(a.heap.cells, a.chains + b.chains) == Elsewhere(old(a.heap.cells), old(a.chains + b.chains))
  {
    CutFront(FlatOf(b), n);
    var r := EvTransfer.RemoveBuffer(b, a, n);
  }

  method Step(a: Evbuffer, b: Evbuffer, op: Op)
    requires Ready(a, b)
    modifies a`first, a`last, a`lastWithDatap, a`totalLen, a`chains, a`parts, a.heap
    modifies b`first, b`last, b`lastWithDatap, b`totalLen, b`chains, b`parts
    ensures Ready(a, b) && Pair(FlatOf(a), FlatOf(b)) == Apply(old(Pair(FlatOf(a), FlatOf(b))), op)
    ensures Elsewhere(a.heap.cells, a.chains + b.chains) == Elsewhere(old(a.heap.cells), old(a.chains + b.chains))
  {
    if op.AddBuffer? {
      var r := EvTransfer.AddBuffer(a, b);
    } else if op.PrependBuffer? {
      var r := EvTransfer.PrependBuffer(a, b);
    } else if op.RemoveBuffer? {
      MoveFront(a, b, op.len);
    } else {
      Alone(a, b, op);
    }
  }

  lemma Exchange(a: Evbuffer, b: Evbuffer)
    requires Ready(a, b)
    ensures Ready(b, a)
    ensures Elsewhere(a.heap.cells, a.chains + b.chains) == Elsewhere(a.heap.cells, b.chains + a.chains)
  {
    ElsewhereSameSet(a.heap.cells, a.chains + b.chains, b.chains + a.chains);
  }

  /** Any run of operations on two buffers does to their bytes what it would do to plain strings, and
      neither touches nor leaks any other memory. */
  method RunAll(a: Evbuffer, b: Evbuffer, ops: seq<(bool, Op)>)
    requires Ready(a, b)
    modifies a, b, a.heap
    ensures Ready(a, b) && Pair(FlatOf(a), FlatOf(b)) == ApplyAll(old(Pair(FlatOf(a), FlatOf(b))), ops)
    ensures Elsewhere(a.heap.cells, a.chains + b.chains) == Elsewhere(old(a.heap.cells), old(a.chains + b.chains))
  {
    var i := 0;
    while i < |ops|
      invariant i <= |ops| && Ready(a, b)
      invariant Pair(FlatOf(a), FlatOf(b)) == ApplyAll(old(Pair(FlatOf(a), FlatOf(b))), ops[..i])
      invariant Elsewhere(a.heap.cells, a.chains + b.chains) == Elsewhere(old(a.heap.cells), old(a.chains + b.chains))
    {
      assert ops[..i + 1][..i] == ops[..i];
      if ops[i].0 {
        Step(a, b, ops[i].1);
      } else {
        StepOther(a, b, ops[i].1);
      }
      i := i + 1;
    }
    assert ops[..i] == ops;
  }

  method StepOther(a: Evbuffer, b: Evbuffer, op: Op)
    requires Ready(a, b)
    modifies a`first, a`last, a`lastWithDatap, a`totalLen, a`chains, a`parts, a.heap
    modifies b`first, b`last, b`lastWithDatap, b`totalLen, b`chains, b`parts
    ensures Ready(a, b) && Pair(FlatOf(a), FlatOf(b)) == Swap(Apply(Swap(old(Pair(FlatOf(a), FlatOf(b)))), op))
    ensures Elsewhere(a.heap.cells, a.chains + b.chains) == Elsewhere(old(a.heap.cells), old(a.chains + b.chains))
  {
    Exchange(a, b);
    Step(b, a, op);
    Exchange(b, a);
  }

  // ---------- Conservation ----------

  predicate MovesOnly(op: Op)
  {
    op.Pullup? || op.AddBuffer? || op.PrependBuffer? || op.RemoveBuffer?
  }

  ghost function Bytes(p: Pair): multiset<Byte>
  {
    multiset(p.one.bytes) + multiset(p.two.bytes)
  }

  /** Runs that only move bytes between the two buffers neither lose nor duplicate any. */
  lemma {:induction false} BytesConserved(p: Pair, ops: seq<(bool, Op)>)
    requires forall i :: 0 <= i < |ops| ==> MovesOnly(ops[i].1)
    ensures Bytes(ApplyAll(p, ops)) == Bytes(p)
    decreases |ops|
  {
    if ops != [] {
      var q := ApplyAll(p, ops[..|ops| - 1]);
      BytesConserved(p, ops[..|ops| - 1]);
      var last := ops[|ops| - 1];
      MoveConserves(q, last.1);
      MoveConserves(Swap(q), last.1);
      SwapBytes(q);
      SwapBytes(Apply(Swap(q), last.1));
    }
  }

  lemma SwapBytes(p: Pair)
    ensures Bytes(Swap(p)) == Bytes(p)
  {
  }

  lemma MoveConserves(p: Pair, op: Op)
    requires MovesOnly(op)
    ensures Bytes(Apply(p, op)) == Bytes(p)
  {
    if op.RemoveBuffer? {
      assert p.two.bytes == Front(p.two, op.len) + Take(p.two, op.len).bytes;
    }
  }
}
