/** One piece of a byte string held in pieces: the chain of an evbuffer. */
module Chains {
  import opened Lists
  import opened InPieces

  type Byte = x: int | 0 <= x < 256

  /** The smallest block allocated for a chain, and the part of it taken by the chain's own fields. */
  const MIN_BUFFER_SIZE: nat := 1024
  const CHAIN_HEADER: nat := 48

  const MAX_AUTO_SIZE: nat := 4096
  const MAX_TO_REALIGN: nat := 2048

  // ---------- One chain ----------

  type Addr = nat

  /** The block is allocated in one piece with the chain, so a chain is one cell of memory. */
  datatype Chain = Chain(next: Option<Addr>, block: seq<Byte>, misalign: nat, off: nat)

  predicate Fits(c: Chain)
  {
    c.misalign + c.off <= |c.block| && c.block != []
  }

  function Data(c: Chain): (d: seq<Byte>)
    requires Fits(c)
    ensures |d| == c.off
  {
    c.block[c.misalign..c.misalign + c.off]
  }

  /** The free space behind the data. */
  function Room(c: Chain): nat
    requires Fits(c)
  {
    |c.block| - c.misalign - c.off
  }

  function Copy(block: seq<Byte>, at: nat, d: seq<Byte>): (r: seq<Byte>)
    requires at + |d| <= |block|
    ensures |r| == |block|
    ensures r[at..at + |d|] == d
    ensures r[..at] == block[..at] && r[at + |d|..] == block[at + |d|..]
  {
    block[..at] + d + block[at + |d|..]
  }

  function PutBack(c: Chain, d: seq<Byte>): (r: Chain)
    requires Fits(c) && |d| <= Room(c)
    ensures Fits(r) && Data(r) == Data(c) + d && r.next == c.next && |r.block| == |c.block|
  {
    var r := c.(block := Copy(c.block, c.misalign + c.off, d), off := c.off + |d|);
    assert r.block[..c.misalign + c.off][c.misalign..] == Data(c);
    assert Data(r) == r.block[c.misalign..c.misalign + c.off] + r.block[c.misalign + c.off..c.misalign + c.off + |d|];
    r
  }

  function PutFront(c: Chain, d: seq<Byte>): (r: Chain)
    requires Fits(c) && |d| <= c.misalign
    ensures Fits(r) && Data(r) == d + Data(c) && r.next == c.next && |r.block| == |c.block|
    ensures r.misalign == c.misalign - |d|
  {
    var r := c.(block := Copy(c.block, c.misalign - |d|, d), misalign := c.misalign - |d|, off := c.off + |d|);
    assert r.block[c.misalign..][..c.off] == Data(c);
    assert Data(r) == r.block[r.misalign..c.misalign] + r.block[c.misalign..c.misalign + c.off];
    r
  }

  function TrimFront(c: Chain, k: nat): (r: Chain)
    requires Fits(c) && k <= c.off
    ensures Fits(r) && Data(r) == Data(c)[k..] && r.next == c.next
  {
    c.(misalign := c.misalign + k, off := c.off - k)
  }

  /** Move the data to the start of the block. */
  function Align(c: Chain): (r: Chain)
    requires Fits(c)
    ensures Fits(r) && Data(r) == Data(c) && r.next == c.next && r.misalign == 0 && |r.block| == |c.block|
  {
    c.(block := Copy(c.block, 0, Data(c)), misalign := 0)
  }

  predicate ShouldRealign(c: Chain, datlen: nat)
    requires Fits(c)
  {
    |c.block| - c.off >= datlen && c.off < |c.block| / 2 && c.off <= MAX_TO_REALIGN
  }

  method BlockSize(size: nat) returns (len: nat)
    ensures len >= size && len >= MIN_BUFFER_SIZE - CHAIN_HEADER
  {
    var toAlloc: nat := MIN_BUFFER_SIZE;
    while toAlloc < size + CHAIN_HEADER
      invariant toAlloc >= MIN_BUFFER_SIZE
    {
      toAlloc := 2 * toAlloc;
    }
    len := toAlloc - CHAIN_HEADER;
  }

  // ---------- Lists of chains in memory ----------

  type Cells = map<Addr, Chain>

  function At(cs: seq<Addr>, i: nat): Option<Addr>
  {
    if i < |cs| then Some(cs[i]) else None
  }

  function LastOf(cs: seq<Addr>): Option<Addr>
  {
    if cs == [] then None else Some(cs[|cs| - 1])
  }

  /** The chain whose `next` leads to the last one. */
  function BeforeLast(cs: seq<Addr>): Option<Addr>
  {
    if |cs| <= 1 then None else Some(cs[|cs| - 2])
  }

  ghost predicate IsChain(m: Cells, a: Addr, next: Option<Addr>, data: seq<Byte>)
  {
    a in m && Fits(m[a]) && Data(m[a]) == data && m[a].next == next
  }

  /** `cs` are live, distinct chains linked through `next` up to `end`, and `parts` is their data. */
  ghost predicate Segment(m: Cells, cs: seq<Addr>, parts: seq<seq<Byte>>, end: Option<Addr>)
    decreases |cs|
  {
    |cs| == |parts| &&
    if cs == [] then true
    else
      && cs[0] !in cs[1..]
      && IsChain(m, cs[0], if |cs| == 1 then end else Some(cs[1]), parts[0])
      && Segment(m, cs[1..], parts[1..], end)
  }

  ghost predicate List(m: Cells, cs: seq<Addr>, parts: seq<seq<Byte>>)
  {
    Segment(m, cs, parts, None)
  }

  /** The memory apart from the given chains. */
  ghost function Elsewhere(m: Cells, cs: seq<Addr>): Cells
  {
    m - set a | a in cs
  }

  lemma {:induction false} SegmentAt(m: Cells, cs: seq<Addr>, parts: seq<seq<Byte>>, end: Option<Addr>, i: nat)
    requires Segment(m, cs, parts, end) && i < |cs|
    ensures |cs| == |parts|
    ensures IsChain(m, cs[i], if i + 1 < |cs| then Some(cs[i + 1]) else end, parts[i])
    ensures cs[i] !in cs[..i] && cs[i] !in cs[i + 1..]
    decreases i
  {
    if i > 0 {
      SegmentAt(m, cs[1..], parts[1..], end, i - 1);
      assert cs[i + 1..] == cs[1..][i..];
      assert cs[..i] == [cs[0]] + cs[1..][..i - 1];
      assert cs[i] == cs[1..][i - 1] && cs[i] in cs[1..];
    } else {
      assert cs[..0] == [];
    }
  }

  /** What happens to other cells does not matter to a list. */
  lemma {:induction false} SegmentFrame(m: Cells, r: Cells, cs: seq<Addr>, parts: seq<seq<Byte>>, end: Option<Addr>)
    requires Segment(m, cs, parts, end)
    requires forall a :: a in cs && a in m ==> a in r && r[a] == m[a]
    ensures Segment(r, cs, parts, end)
    decreases |cs|
  {
    if cs != [] {
      SegmentFrame(m, r, cs[1..], parts[1..], end);
    }
  }

  /** Rewriting one chain's data in place changes one part. */
  lemma {:induction false} SegmentSet(m: Cells, cs: seq<Addr>, parts: seq<seq<Byte>>, end: Option<Addr>, k: nat, c: Chain)
    requires Segment(m, cs, parts, end) && k < |cs| && cs[k] in m && Fits(c) && c.next == m[cs[k]].next
    ensures |cs| == |parts| && Segment(m[cs[k] := c], cs, parts[k := Data(c)], end)
    decreases |cs|
  {
    if k == 0 {
      SegmentFrame(m, m[cs[0] := c], cs[1..], parts[1..], end);
      assert parts[0 := Data(c)][1..] == parts[1..];
    } else {
      SegmentSet(m, cs[1..], parts[1..], end, k - 1, c);
      assert cs[k] == cs[1..][k - 1] && cs[k] in cs[1..];
      assert parts[k := Data(c)][1..] == parts[1..][k - 1 := Data(c)];
    }
  }

  /** Two lists joined by the link at the end of the first. */
  lemma {:induction false} SegmentJoin(m: Cells, cs: seq<Addr>, parts: seq<seq<Byte>>, mid: Option<Addr>,
                                       ds: seq<Addr>, qs: seq<seq<Byte>>, end: Option<Addr>)
    requires Segment(m, cs, parts, mid) && Segment(m, ds, qs, end)
    requires mid == (if ds == [] then end else Some(ds[0]))
    requires forall a :: a in cs ==> a !in ds
    ensures Segment(m, cs + ds, parts + qs, end)
    decreases |cs|
  {
    if cs == [] {
      assert cs + ds == ds && parts + qs == qs;
    } else {
      SegmentJoin(m, cs[1..], parts[1..], mid, ds, qs, end);
      assert (cs + ds)[1..] == cs[1..] + ds && (parts + qs)[1..] == parts[1..] + qs;
    }
  }

  /** A list cut in two. */
  lemma {:induction false} SegmentCut(m: Cells, cs: seq<Addr>, parts: seq<seq<Byte>>, end: Option<Addr>, k: nat)
    requires Segment(m, cs, parts, end) && k <= |cs|
    ensures |cs| == |parts|
    ensures Segment(m, cs[..k], parts[..k], if k < |cs| then Some(cs[k]) else end)
    ensures Segment(m, cs[k..], parts[k..], end)
    ensures forall a :: a in cs[..k] ==> a !in cs[k..]
    decreases k
  {
    if k == 0 {
      assert cs[0..] == cs && parts[0..] == parts;
    } else {
      SegmentCut(m, cs[1..], parts[1..], end, k - 1);
      assert cs[..k][1..] == cs[1..][..k - 1] && parts[..k][1..] == parts[1..][..k - 1];
      assert cs[k..] == cs[1..][k - 1..] && parts[k..] == parts[1..][k - 1..];
      assert cs[..k] == [cs[0]] + cs[1..][..k - 1];
    }
  }

  /** Redirecting the last link of a list. */
  lemma {:induction false} SegmentRelink(m: Cells, cs: seq<Addr>, parts: seq<seq<Byte>>, end: Option<Addr>, other: Option<Addr>)
    requires Segment(m, cs, parts, end) && cs != [] && cs[|cs| - 1] in m
    ensures var z := cs[|cs| - 1]; Segment(m[z := m[z].(next := other)], cs, parts, other)
    decreases |cs|
  {
    var z := cs[|cs| - 1];
    if |cs| > 1 {
      assert cs[1..][|cs| - 2] == z && z in cs[1..];
      SegmentRelink(m, cs[1..], parts[1..], end, other);
    } else {
      assert parts[1..] == [];
    }
  }

  lemma ElsewhereFree(m: Cells, cs: seq<Addr>)
    requires cs != []
    ensures Elsewhere(m - {cs[0]}, cs[1..]) == Elsewhere(m, cs)
  {
    assert forall a :: a in cs <==> a == cs[0] || a in cs[1..];
  }

  lemma ElsewhereSet(m: Cells, cs: seq<Addr>, a: Addr, c: Chain)
    requires a in cs
    ensures Elsewhere(m[a := c], cs) == Elsewhere(m, cs)
  {
  }

  lemma ElsewhereNew(m: Cells, cs: seq<Addr>, a: Addr, c: Chain, ds: seq<Addr>)
    requires a !in m && forall x :: x in ds <==> x in cs || x == a
    ensures Elsewhere(m[a := c], ds) == Elsewhere(m, cs)
  {
    assert Elsewhere(m[a := c], ds).Keys == Elsewhere(m, cs).Keys;
  }

  lemma ElsewhereSameSet(m: Cells, cs: seq<Addr>, ds: seq<Addr>)
    requires forall x :: x in ds <==> x in cs
    ensures Elsewhere(m, ds) == Elsewhere(m, cs)
  {
    assert Elsewhere(m, ds).Keys == Elsewhere(m, cs).Keys;
  }

  /** Work on some chains leaves a list of other chains alone. */
  lemma ElsewhereFrame(m: Cells, cs: seq<Addr>, r: Cells, ds: seq<Addr>, xs: seq<Addr>, parts: seq<seq<Byte>>, end: Option<Addr>)
    requires Elsewhere(m, cs) == Elsewhere(r, ds) && Segment(m, xs, parts, end)
    requires forall a :: a in xs ==> a !in cs
    ensures Segment(r, xs, parts, end) && forall a :: a in xs ==> a !in ds
  {
    forall a | a in xs
      ensures a in m && a in r && r[a] == m[a] && a !in ds
    {
      var i :| 0 <= i < |xs| && xs[i] == a;
      SegmentAt(m, xs, parts, end, i);
      assert a in Elsewhere(m, cs);
      assert a in Elsewhere(r, ds);
    }
    SegmentFrame(m, r, xs, parts, end);
  }

  lemma ElsewhereWiden(m: Cells, cs: seq<Addr>, r: Cells, ds: seq<Addr>, xs: seq<Addr>)
    requires Elsewhere(m, cs) == Elsewhere(r, ds)
    ensures Elsewhere(m, cs + xs) == Elsewhere(r, ds + xs)
  {
    assert forall a :: a in Elsewhere(m, cs + xs) <==> a in Elsewhere(m, cs) && a !in xs;
    assert forall a :: a in Elsewhere(r, ds + xs) <==> a in Elsewhere(r, ds) && a !in xs;
    assert Elsewhere(m, cs + xs).Keys == Elsewhere(r, ds + xs).Keys;
    forall a | a in Elsewhere(m, cs + xs)
      ensures m[a] == r[a]
    {
      assert Elsewhere(m, cs)[a] == Elsewhere(r, ds)[a];
    }
  }
}
