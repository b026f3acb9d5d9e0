/** evbuffer_pullup: make the first bytes of a buffer contiguous without changing its contents. */
module EvPullup {
  import opened Lists
  import opened Chains
  import opened InPieces
  import opened EvBuffer

  /** `tmp` is to hold `size` bytes, of which those in front of `fill` are written: they are `done`. */
  ghost predicate Filling(m: Cells, tmp: Addr, size: nat, fill: nat, done: seq<Byte>)
  {
    && tmp in m && Fits(m[tmp]) && m[tmp].off == size
    && m[tmp].misalign + |done| == fill <= m[tmp].misalign + size
    && m[tmp].block[m[tmp].misalign..fill] == done
  }

  lemma FillStep(m: Cells, tmp: Addr, size: nat, fill: nat, done: seq<Byte>, d: seq<Byte>)
    requires Filling(m, tmp, size, fill, done) && |done| + |d| <= size
    ensures Filling(m[tmp := m[tmp].(block := Copy(m[tmp].block, fill, d))], tmp, size, fill + |d|, done + d)
  {
    var b := Copy(m[tmp].block, fill, d);
    var at := m[tmp].misalign;
    assert b[at..fill] == b[..fill][at..] == m[tmp].block[..fill][at..] == done;
    assert b[at..fill + |d|] == b[at..fill] + b[fill..fill + |d|];
  }

  lemma Filled(m: Cells, tmp: Addr, size: nat, fill: nat, done: seq<Byte>)
    requires Filling(m, tmp, size, fill, done) && |done| == size
    ensures Data(m[tmp]) == done
  {
  }

  /** `tmp` is filling up with what the chains of `rest` hold; the rest of memory is `other`. */
  ghost predicate Pulling(m: Cells, tmp: Addr, size: nat, fill: nat, left: nat, done: seq<Byte>,
                          rest: seq<Addr>, qs: seq<seq<Byte>>, other: Cells)
  {
    && Filling(m, tmp, size, fill, done) && left + |done| == size <= |done| + |Concat(qs)|
    && tmp !in rest && List(m, rest, qs) && Elsewhere(m, [tmp] + rest) == other
    && forall i :: 0 <= i < |qs| ==> qs[i] != []
  }

  /** Copying the first remaining chain into `tmp` and freeing it. */
  lemma PullChain(m: Cells, tmp: Addr, size: nat, fill: nat, left: nat, done: seq<Byte>,
                  rest: seq<Addr>, qs: seq<seq<Byte>>, other: Cells)
    requires Pulling(m, tmp, size, fill, left, done, rest, qs, other) && rest != [] && |qs[0]| <= left
    ensures fill + |qs[0]| <= |m[tmp].block| && m[rest[0]].next == At(rest[1..], 0)
    ensures var r := m[tmp := m[tmp].(block := Copy(m[tmp].block, fill, qs[0]))] - {rest[0]};
      Pulling(r, tmp, size, fill + |qs[0]|, left - |qs[0]|, done + qs[0], rest[1..], qs[1..], other)
  {
    var m1 := m[tmp := m[tmp].(block := Copy(m[tmp].block, fill, qs[0]))];
    FillStep(m, tmp, size, fill, done, qs[0]);
    SegmentFrame(m, m1, rest, qs, None);
    FreeHead(m1, rest, qs);
    ElsewhereSet(m, [tmp] + rest, tmp, m1[tmp]);
    var r := m1 - {rest[0]};
    assert Elsewhere(r, [tmp] + rest[1..]) == Elsewhere(m1, [tmp] + rest) by {
      assert forall a :: a in [tmp] + rest <==> a == rest[0] || a in [tmp] + rest[1..];
    }
    assert Filling(r, tmp, size, fill + |qs[0]|, done + qs[0]);
  }

  /** Copying the part still wanted of the first remaining chain, which keeps the rest. */
  lemma PullPart(m: Cells, tmp: Addr, size: nat, fill: nat, left: nat, done: seq<Byte>,
                 rest: seq<Addr>, qs: seq<seq<Byte>>, other: Cells)
    requires Pulling(m, tmp, size, fill, left, done, rest, qs, other) && rest != [] && left < |qs[0]|
    ensures rest[0] in m && Fits(m[rest[0]]) && left <= m[rest[0]].off && fill + left <= |m[tmp].block|
    ensures var r := m[tmp := m[tmp].(block := Copy(m[tmp].block, fill, qs[0][..left]))][rest[0] := TrimFront(m[rest[0]], left)];
      Pulling(r, tmp, size, fill + left, 0, done + qs[0][..left], rest, qs[0 := qs[0][left..]], other)
    ensures done + qs[0][..left] + Concat(qs[0 := qs[0][left..]]) == done + Concat(qs)
  {
    var d := qs[0][..left];
    var m1 := m[tmp := m[tmp].(block := Copy(m[tmp].block, fill, d))];
    FillStep(m, tmp, size, fill, done, d);
    SegmentFrame(m, m1, rest, qs, None);
    SegmentSet(m1, rest, qs, None, 0, TrimFront(m[rest[0]], left));
    ElsewhereSet(m, [tmp] + rest, tmp, m1[tmp]);
    ElsewhereSet(m1, [tmp] + rest, rest[0], TrimFront(m[rest[0]], left));
    TrimFirst(qs, left);
  }

  lemma TrimFirst(qs: seq<seq<Byte>>, k: nat)
    requires qs != [] && k <= |qs[0]|
    ensures Concat(qs) == qs[0][..k] + Concat(qs[0 := qs[0][k..]])
  {
    assert qs[0 := qs[0][k..]][1..] == qs[1..];
  }

  /** Linking `tmp`, once full, ahead of the chains that remain. */
  lemma PullLink(m: Cells, tmp: Addr, size: nat, fill: nat, done: seq<Byte>,
                 rest: seq<Addr>, qs: seq<seq<Byte>>, other: Cells)
    requires Pulling(m, tmp, size, fill, 0, done, rest, qs, other) && size > 0
    ensures var r := m[tmp := m[tmp].(next := At(rest, 0))];
      && List(r, [tmp] + rest, [done] + qs) && Elsewhere(r, [tmp] + rest) == other
      && Fits(r[tmp]) && Data(r[tmp]) == done
    ensures Dense([done] + qs) && Concat([done] + qs) == done + Concat(qs)
  {
    var r := m[tmp := m[tmp].(next := At(rest, 0))];
    Filled(m, tmp, size, fill, done);
    SegmentFrame(m, r, rest, qs, None);
    assert ([tmp] + rest)[1..] == rest && ([done] + qs)[1..] == qs;
    ElsewhereSet(m, [tmp] + rest, tmp, r[tmp]);
    ConcatCons(done, qs);
  }

  /** evbuffer_pullup; a negative length asks for everything. */
  method Pullup(buf: Evbuffer, wanted: int) returns (ok: bool)
    requires buf.Valid()
    modifies buf`first, buf`last, buf`lastWithDatap, buf`chains, buf`parts, buf.heap
    ensures buf.Valid() && Elsewhere(buf.heap.cells, buf.chains) == Elsewhere(old(buf.heap.cells), old(buf.chains))
    ensures buf.Contents() == old(buf.Contents())
    ensures ok == (0 < (if wanted < 0 then buf.totalLen else wanted) <= buf.totalLen)
    ensures ok ==> StartsWith(buf, if wanted < 0 then buf.totalLen else wanted)
  {
    var size := if wanted < 0 then buf.totalLen else wanted;
    if size == 0 || size > buf.totalLen {
      return false;
    }
    ConcatStep(buf.parts, 0);
    assert buf.parts[0..] == buf.parts;
    if buf.heap.cells[buf.first.value].off < size {
      PullMany(buf, size);
    }
    ok := true;
  }

  /** The first `size` bytes of the buffer are contiguous in its first chain. */
  ghost predicate StartsWith(buf: Evbuffer, size: nat)
    reads buf, buf.heap
  {
    && buf.first.Some? && buf.first.value in buf.heap.cells && Fits(buf.heap.cells[buf.first.value])
    && size <= buf.heap.cells[buf.first.value].off && size <= |buf.Contents()|
    && Data(buf.heap.cells[buf.first.value])[..size] == buf.Contents()[..size]
  }

  method PullMany(buf: Evbuffer, size: nat)
    requires buf.Valid() && buf.chains != [] && buf.parts != [] && |buf.parts[0]| < size <= buf.totalLen
    modifies buf`first, buf`last, buf`lastWithDatap, buf`chains, buf`parts, buf.heap
    ensures buf.Valid() && Elsewhere(buf.heap.cells, buf.chains) == Elsewhere(old(buf.heap.cells), old(buf.chains))
    ensures buf.Contents() == old(buf.Contents()) && StartsWith(buf, size)
  {
    AllNonEmpty(buf.parts);
    ManyChains(buf, size);
    DerefBeforeLast(buf.heap.cells, buf.chains, buf.parts);
    var c := buf.heap.cells[buf.first.value];
    ghost var other := Elsewhere(buf.heap.cells, buf.chains);
    if |c.block| - c.misalign >= size {
      PullReadyFirst(buf.heap.cells, buf.chains, buf.parts, size);
      buf.heap.Set(buf.first.value, c.(off := size));
      Gather(buf, buf.first.value, c.next, size, c.misalign + c.off, size - c.off,
             buf.parts[0], buf.chains[1..], buf.parts[1..], other);
    } else {
      var chain := buf.first;
      var tmp := buf.NewChain(size);
      PullReadyNew(buf.heap.cells, buf.chains, buf.parts, size, tmp);
      buf.heap.Set(tmp, buf.heap.cells[tmp].(off := size));
      buf.first := Some(tmp);
      Gather(buf, tmp, chain, size, 0, size, [], buf.chains, buf.parts, other);
    }
  }

  lemma ManyChains(buf: Evbuffer, size: nat)
    requires buf.Valid() && buf.parts != [] && |buf.parts[0]| < size <= buf.totalLen
    ensures |buf.chains| >= 2
  {
    if |buf.parts| == 1 {
      assert buf.parts == [buf.parts[0]];
      ConcatOne(buf.parts[0]);
    }
  }

  lemma PullReadyFirst(m: Cells, cs: seq<Addr>, parts: seq<seq<Byte>>, size: nat)
    requires List(m, cs, parts) && cs != [] && |parts[0]| < size <= |Concat(parts)|
    requires m[cs[0]].misalign + size <= |m[cs[0]].block| && forall i :: 0 <= i < |parts| ==> parts[i] != []
    ensures var c := m[cs[0]];
      Pulling(m[cs[0] := c.(off := size)], cs[0], size, c.misalign + c.off, size - c.off,
              parts[0], cs[1..], parts[1..], Elsewhere(m, cs))
    ensures Concat(parts) == parts[0] + Concat(parts[1..])
  {
    var c := m[cs[0]];
    assert [cs[0]] + cs[1..] == cs;
    SegmentFrame(m, m[cs[0] := c.(off := size)], cs[1..], parts[1..], None);
    ElsewhereSet(m, cs, cs[0], c.(off := size));
  }

  lemma PullReadyNew(m: Cells, cs: seq<Addr>, parts: seq<seq<Byte>>, size: nat, tmp: Addr)
    requires List(m, cs, parts) && List(m, [tmp], [[]]) && tmp !in cs && size <= |Concat(parts)|
    requires m[tmp].misalign == 0 && size <= |m[tmp].block| && forall i :: 0 <= i < |parts| ==> parts[i] != []
    ensures Pulling(m[tmp := m[tmp].(off := size)], tmp, size, 0, size, [], cs, parts, Elsewhere(m, cs + [tmp]))
  {
    SegmentFrame(m, m[tmp := m[tmp].(off := size)], cs, parts, None);
    ElsewhereSameSet(m, cs + [tmp], [tmp] + cs);
    ElsewhereSet(m, [tmp] + cs, tmp, m[tmp].(off := size));
  }

  /** How last_with_datap stands to the chains that remain. */
  ghost predicate DatapOk(buf: Evbuffer, tmp: Addr, rest: seq<Addr>, removedLastWithData: bool, removedLastWithDatap: bool)
    reads buf`lastWithDatap
  {
    && removedLastWithData == (rest == [])
    && (|rest| >= 2 ==> buf.lastWithDatap == BeforeLast(rest) && !removedLastWithDatap)
    && (|rest| == 1 ==> removedLastWithDatap || buf.lastWithDatap == Some(tmp))
  }

  /** Copy into `tmp` and free every chain that lies wholly within the bytes wanted, then finish. */
  method Gather(buf: Evbuffer, tmp: Addr, from: Option<Addr>, size: nat, start: nat, wanted: nat,
                ghost done0: seq<Byte>, ghost rest0: seq<Addr>, ghost qs0: seq<seq<Byte>>, ghost other: Cells)
    requires Pulling(buf.heap.cells, tmp, size, start, wanted, done0, rest0, qs0, other) && size > 0
    requires from == At(rest0, 0) && rest0 != [] && buf.first == Some(tmp) && buf.last == LastOf(rest0)
    requires DatapOk(buf, tmp, rest0, false, false) && buf.totalLen == |done0 + Concat(qs0)|
    requires buf.lastWithDatap.Some? && buf.lastWithDatap.value in buf.heap.cells
    requires buf.heap.cells[buf.lastWithDatap.value].next == buf.last
    modifies buf`last, buf`lastWithDatap, buf`chains, buf`parts, buf.heap
    ensures buf.Valid() && Elsewhere(buf.heap.cells, buf.chains) == other
    ensures buf.Contents() == done0 + Concat(qs0) && StartsWith(buf, size)
  {
    var chain: Option<Addr>, fill: nat, left: nat := from, start, wanted;
    ghost var rest, qs, done := rest0, qs0, done0;
    var lastWithData := buf.Deref(buf.lastWithDatap);
    var removedLastWithData, removedLastWithDatap := false, false;
    while chain.Some? && left >= buf.heap.cells[chain.value].off
      invariant Pulling(buf.heap.cells, tmp, size, fill, left, done, rest, qs, other)
      invariant chain == At(rest, 0) && done + Concat(qs) == done0 + Concat(qs0)
      invariant rest != [] ==> LastOf(rest) == buf.last
      invariant DatapOk(buf, tmp, rest, removedLastWithData, removedLastWithDatap)
      modifies buf.heap
      decreases |rest|
    {
      var c := buf.heap.cells[chain.value];
      PullChain(buf.heap.cells, tmp, size, fill, left, done, rest, qs, other);
      DerefBeforeLast(buf.heap.cells, rest, qs);
      TakeWhole(done, qs);
      var t := buf.heap.cells[tmp];
      buf.heap.Set(tmp, t.(block := Copy(t.block, fill, Data(c))));
      left, fill := left - c.off, fill + c.off;
      if chain == lastWithData {
        removedLastWithData := true;
      }
      if chain == buf.lastWithDatap {
        removedLastWithDatap := true;
      }
      buf.heap.Free(chain.value);
      done, rest, qs := done + qs[0], rest[1..], qs[1..];
      chain := c.next;
    }
    Finish(buf, tmp, chain, size, fill, left, done, rest, qs, other, removedLastWithData, removedLastWithDatap);
  }

  /** Copy the part still wanted from the next chain, link `tmp` ahead of it, and repair last_with_datap. */
  method Finish(buf: Evbuffer, tmp: Addr, chain: Option<Addr>, size: nat, fill: nat, left: nat,
                ghost done: seq<Byte>, ghost rest: seq<Addr>, ghost qs: seq<seq<Byte>>, ghost other: Cells,
                removedLastWithData: bool, removedLastWithDatap: bool)
    requires Pulling(buf.heap.cells, tmp, size, fill, left, done, rest, qs, other) && size > 0
    requires chain == At(rest, 0) && (rest != [] ==> left < |qs[0]|) && buf.first == Some(tmp)
    requires rest != [] ==> LastOf(rest) == buf.last
    requires DatapOk(buf, tmp, rest, removedLastWithData, removedLastWithDatap)
    requires buf.totalLen == |done + Concat(qs)|
    modifies buf`last, buf`lastWithDatap, buf`chains, buf`parts, buf.heap
    ensures buf.Valid() && Elsewhere(buf.heap.cells, buf.chains) == other
    ensures buf.Contents() == done + Concat(qs) && StartsWith(buf, size)
  {
    if chain.Some? {
      PullPart(buf.heap.cells, tmp, size, fill, left, done, rest, qs, other);
      var t, c := buf.heap.cells[tmp], buf.heap.cells[chain.value];
      buf.heap.Set(tmp, t.(block := Copy(t.block, fill, Data(c)[..left])));
      buf.heap.Set(chain.value, TrimFront(c, left));
      buf.chains, buf.parts := rest, qs[0 := qs[0][left..]];
      FinishLink(buf, tmp, chain, size, fill + left, done + qs[0][..left], other, removedLastWithData, removedLastWithDatap);
    } else {
      buf.last := Some(tmp);
      buf.chains, buf.parts := rest, qs;
      FinishLink(buf, tmp, chain, size, fill, done, other, removedLastWithData, removedLastWithDatap);
    }
  }

  method FinishLink(buf: Evbuffer, tmp: Addr, chain: Option<Addr>, size: nat, fill: nat,
                    ghost done: seq<Byte>, ghost other: Cells, removedLastWithData: bool, removedLastWithDatap: bool)
    requires Pulling(buf.heap.cells, tmp, size, fill, 0, done, buf.chains, buf.parts, other) && size > 0
    requires chain == At(buf.chains, 0) && buf.first == Some(tmp)
    requires buf.last == LastOf([tmp] + buf.chains)
    requires DatapOk(buf, tmp, buf.chains, removedLastWithData, removedLastWithDatap)
    requires buf.totalLen == |done + Concat(buf.parts)|
    modifies buf`lastWithDatap, buf`chains, buf`parts, buf.heap
    ensures buf.Valid() && Elsewhere(buf.heap.cells, buf.chains) == other
    ensures buf.Contents() == done + old(Concat(buf.parts)) && StartsWith(buf, size)
  {
    PullLink(buf.heap.cells, tmp, size, fill, done, buf.chains, buf.parts, other);
    buf.heap.Set(tmp, buf.heap.cells[tmp].(next := chain));
    if removedLastWithData {
      buf.lastWithDatap := None;
    } else if removedLastWithDatap {
      var next := buf.heap.cells[buf.first.value].next;
      buf.lastWithDatap := if next.Some? && buf.heap.cells[next.value].off != 0 then buf.first else None;
    }
    buf.chains, buf.parts := [tmp] + buf.chains, [done] + buf.parts;
  }
}
