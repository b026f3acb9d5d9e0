/** Moving data between two evbuffers by relinking chains instead of copying bytes. */
module EvTransfer {
  import opened Lists
  import opened Chains
  import opened InPieces
  import opened EvBuffer

  /** Two buffers over one memory that share no chain. */
  ghost predicate Apart(a: Evbuffer, b: Evbuffer)
    reads a, b
  {
    a.heap == b.heap && forall x :: x in a.chains ==> x !in b.chains
  }

  /** COPY_CHAIN. */
  method CopyChain(dst: Evbuffer, src: Evbuffer)
    requires dst != src
    modifies dst`first, dst`last, dst`lastWithDatap, dst`totalLen, dst`chains, dst`parts
    ensures dst.first == src.first && dst.last == src.last && dst.lastWithDatap == src.lastWithDatap
    ensures dst.totalLen == src.totalLen && dst.chains == src.chains && dst.parts == src.parts
  {
    dst.first := src.first;
    dst.lastWithDatap := if src.lastWithDatap == None then None else src.lastWithDatap;
    dst.last := src.last;
    dst.totalLen := src.totalLen;
    dst.chains, dst.parts := src.chains, src.parts;
  }

  /** APPEND_CHAIN. */
  method AppendChain(dst: Evbuffer, src: Evbuffer)
    requires dst != src && dst.Valid() && src.Valid() && Apart(dst, src) && dst.totalLen > 0 && src.totalLen > 0
    modifies dst`last, dst`lastWithDatap, dst`totalLen, dst`chains, dst`parts, dst.heap
    ensures dst.Valid() && dst.Contents() == old(dst.Contents()) + src.Contents()
    ensures dst.chains == old(dst.chains) + src.chains
    ensures Elsewhere(dst.heap.cells, dst.chains) == Elsewhere(old(dst.heap.cells), old(dst.chains) + src.chains)
  {
    JoinLists(dst.heap.cells, dst.chains, dst.parts, src.chains, src.parts);
    dst.heap.Set(dst.last.value, dst.heap.cells[dst.last.value].(next := src.first));
    dst.lastWithDatap := if src.lastWithDatap == None then dst.last else src.lastWithDatap;
    dst.last := src.last;
    dst.totalLen := dst.totalLen + src.totalLen;
    dst.chains, dst.parts := dst.chains + src.chains, dst.parts + src.parts;
  }

  /** PREPEND_CHAIN. */
  method PrependChain(dst: Evbuffer, src: Evbuffer)
    requires dst != src && dst.Valid() && src.Valid() && Apart(src, dst) && dst.totalLen > 0 && src.totalLen > 0
    modifies dst`first, dst`lastWithDatap, dst`totalLen, dst`chains, dst`parts, dst.heap
    ensures dst.Valid() && dst.Contents() == src.Contents() + old(dst.Contents())
    ensures dst.chains == src.chains + old(dst.chains)
    ensures Elsewhere(dst.heap.cells, dst.chains) == Elsewhere(old(dst.heap.cells), src.chains + old(dst.chains))
  {
    JoinLists(dst.heap.cells, src.chains, src.parts, dst.chains, dst.parts);
    dst.heap.Set(src.last.value, dst.heap.cells[src.last.value].(next := dst.first));
    dst.first := src.first;
    dst.totalLen := dst.totalLen + src.totalLen;
    if dst.lastWithDatap == None {
      dst.lastWithDatap := src.last;
    }
    dst.chains, dst.parts := src.chains + dst.chains, src.parts + dst.parts;
  }

  /** evbuffer_add_buffer. */
  method AddBuffer(out: Evbuffer, inp: Evbuffer) returns (r: int)
    requires out.Valid() && inp.Valid() && (out != inp ==> Apart(out, inp))
    modifies out`first, out`last, out`lastWithDatap, out`totalLen, out`chains, out`parts, out.heap
    modifies inp`first, inp`last, inp`lastWithDatap, inp`totalLen, inp`chains, inp`parts
    ensures out.Valid() && inp.Valid() && (out != inp ==> Apart(out, inp))
    ensures r == (if old(inp.totalLen) > 0 && out != inp && (out.freezeEnd || inp.freezeStart) then -1 else 0)
    ensures r == -1 || out == inp ==> out.Contents() == old(out.Contents()) && inp.Contents() == old(inp.Contents())
    ensures r == 0 && out != inp ==> out.Contents() == old(out.Contents() + inp.Contents()) && inp.Contents() == []
    ensures out.heap == inp.heap ==>
      Elsewhere(out.heap.cells, out.chains + inp.chains) == Elsewhere(old(out.heap.cells), old(out.chains + inp.chains))
  {
    if inp.totalLen == 0 || out == inp {
      return 0;
    }
    if out.freezeEnd || inp.freezeStart {
      return -1;
    }
    if out.totalLen == 0 {
      TakeOver(out, inp);
    } else {
      AppendChain(out, inp);
    }
    inp.Zero();
    assert out.chains + inp.chains == out.chains;
    r := 0;
  }

  /** Into a buffer that holds no data: free its empty chain and take the other's list. */
  method TakeOver(out: Evbuffer, inp: Evbuffer)
    requires out != inp && out.Valid() && inp.Valid() && Apart(out, inp) && out.totalLen == 0
    modifies out`first, out`last, out`lastWithDatap, out`totalLen, out`chains, out`parts, out.heap
    ensures out.Valid() && out.Contents() == inp.Contents() && out.chains == inp.chains
    ensures Elsewhere(out.heap.cells, out.chains) == Elsewhere(old(out.heap.cells), old(out.chains) + inp.chains)
  {
    out.heap.FreeAll(out.first, out.chains, out.parts);
    ElsewhereFrame(old(out.heap.cells), out.chains, out.heap.cells, [], inp.chains, inp.parts, None);
    ElsewhereWiden(out.heap.cells, [], old(out.heap.cells), out.chains, inp.chains);
    assert [] + inp.chains == inp.chains;
    CopyChain(out, inp);
  }

  /** evbuffer_prepend_buffer. */
  method PrependBuffer(out: Evbuffer, inp: Evbuffer) returns (r: int)
    requires out.Valid() && inp.Valid() && (out != inp ==> Apart(out, inp))
    modifies out`first, out`last, out`lastWithDatap, out`totalLen, out`chains, out`parts, out.heap
    modifies inp`first, inp`last, inp`lastWithDatap, inp`totalLen, inp`chains, inp`parts
    ensures out.Valid() && inp.Valid() && (out != inp ==> Apart(out, inp))
    ensures r == (if old(inp.totalLen) > 0 && out != inp && (out.freezeStart || inp.freezeStart) then -1 else 0)
    ensures r == -1 || out == inp ==> out.Contents() == old(out.Contents()) && inp.Contents() == old(inp.Contents())
    ensures r == 0 && out != inp ==> out.Contents() == old(inp.Contents() + out.Contents()) && inp.Contents() == []
    ensures out.heap == inp.heap ==>
      Elsewhere(out.heap.cells, out.chains + inp.chains) == Elsewhere(old(out.heap.cells), old(out.chains + inp.chains))
  {
    if inp.totalLen == 0 || out == inp {
      return 0;
    }
    if out.freezeStart || inp.freezeStart {
      return -1;
    }
    if out.totalLen == 0 {
      TakeOver(out, inp);
      ConcatNone(old(out.Contents()), inp.Contents());
    } else {
      ElsewhereSameSet(old(out.heap.cells), out.chains + inp.chains, inp.chains + out.chains);
      PrependChain(out, inp);
    }
    inp.Zero();
    assert out.chains + inp.chains == out.chains;
    r := 0;
  }

  lemma ConcatNone(a: seq<Byte>, b: seq<Byte>)
    requires a == []
    ensures a + b == b == b + a
  {
  }

  // ---------- evbuffer_remove_buffer ----------

  /** Move up to `datlen` bytes from the front of `src` to the end of `dst`. */
  method RemoveBuffer(src: Evbuffer, dst: Evbuffer, datlen: nat) returns (r: int)
    requires src.Valid() && dst.Valid() && (dst != src ==> Apart(dst, src))
    modifies dst`first, dst`last, dst`lastWithDatap, dst`totalLen, dst`chains, dst`parts, dst.heap
    modifies src`first, src`last, src`lastWithDatap, src`totalLen, src`chains, src`parts
    ensures src.Valid() && dst.Valid() && (dst != src ==> Apart(dst, src))
    ensures r == if datlen == 0 || dst == src then 0 else if dst.freezeEnd || src.freezeStart then -1
                 else if datlen >= old(src.totalLen) then old(src.totalLen) else datlen
    ensures r <= 0 ==> src.Contents() == old(src.Contents()) && dst.Contents() == old(dst.Contents())
    ensures r > 0 ==> r <= |old(src.Contents())|
    ensures r > 0 ==> dst.Contents() == old(dst.Contents()) + old(src.Contents())[..r]
    ensures r > 0 ==> src.Contents() == old(src.Contents())[r..]
    ensures dst.heap == src.heap ==>
      Elsewhere(dst.heap.cells, dst.chains + src.chains) == Elsewhere(old(dst.heap.cells), old(dst.chains + src.chains))
  {
    if datlen == 0 || dst == src {
      return 0;
    }
    if dst.freezeEnd || src.freezeStart {
      return -1;
    }
    if datlen >= src.totalLen {
      r := src.totalLen;
      var added := AddBuffer(dst, src);
    } else {
      MoveSome(src, dst, datlen);
      r := datlen;
    }
  }

  method MoveSome(src: Evbuffer, dst: Evbuffer, datlen: nat)
    requires src.Valid() && dst.Valid() && dst != src && Apart(dst, src) && 0 < datlen < src.totalLen && !dst.freezeEnd
    modifies dst`first, dst`last, dst`lastWithDatap, dst`totalLen, dst`chains, dst`parts, dst.heap
    modifies src`first, src`lastWithDatap, src`totalLen, src`chains, src`parts
    ensures src.Valid() && dst.Valid() && Apart(dst, src) && datlen <= |old(src.Contents())|
    ensures dst.Contents() == old(dst.Contents()) + old(src.Contents())[..datlen]
    ensures src.Contents() == old(src.Contents())[datlen..]
    ensures Elsewhere(dst.heap.cells, dst.chains + src.chains) == Elsewhere(old(dst.heap.cells), old(dst.chains + src.chains))
  {
    var chain, previous, nread, k := WalkWhole(src, datlen);
    var left := datlen - nread;
    MovedBytes(src.parts, k, left, dst.Contents(), datlen);
    MoveWhole(src, dst, chain, previous, nread, k);
    CopyRest(src, dst, left);
  }

  /** Relink the chains stepped over, if there are any. */
  method MoveWhole(src: Evbuffer, dst: Evbuffer, chain: Addr, previous: Option<Addr>, nread: nat, ghost k: nat)
    requires dst.Valid() && dst != src && Apart(dst, src)
    requires src.first == At(src.chains, 0) && src.last == LastOf(src.chains) && src.totalLen == |Concat(src.parts)|
    requires List(src.heap.cells, src.chains, src.parts) && Dense(src.parts)
    requires k < |src.chains| == |src.parts| && chain == src.chains[k] && nread == |Concat(src.parts[..k])|
    requires (nread > 0 <==> k > 0) && (k > 0 ==> previous == Some(src.chains[k - 1]))
    requires src.lastWithDatap == BeforeLast(src.chains[k..])
    modifies dst`first, dst`last, dst`lastWithDatap, dst`totalLen, dst`chains, dst`parts, dst.heap
    modifies src`first, src`totalLen, src`chains, src`parts
    ensures src.Valid() && dst.Valid() && Apart(dst, src)
    ensures src.chains == old(src.chains)[k..] && src.parts == old(src.parts)[k..]
    ensures dst.Contents() == old(dst.Contents()) + Concat(old(src.parts)[..k])
    ensures Elsewhere(dst.heap.cells, dst.chains + src.chains) == Elsewhere(old(dst.heap.cells), old(dst.chains + src.chains))
  {
    if nread > 0 {
      Splice(src, dst, chain, previous.value, nread, k);
    } else {
      NothingMoved(src.chains, src.parts, dst.Contents());
    }
  }

  lemma NothingMoved(cs: seq<Addr>, parts: seq<seq<Byte>>, d: seq<Byte>)
    ensures cs[0..] == cs && parts[0..] == parts && d + Concat(parts[..0]) == d
  {
  }

  /** Step over the chains that lie wholly within the first `datlen` bytes. */
  method WalkWhole(src: Evbuffer, datlen: nat) returns (chain: Addr, previous: Option<Addr>, nread: nat, ghost k: nat)
    requires src.Valid() && datlen < src.totalLen
    modifies src`lastWithDatap
    ensures k < |src.chains| == |src.parts| && chain == src.chains[k]
    ensures nread == |Concat(src.parts[..k])| && nread <= datlen < nread + |src.parts[k]|
    ensures src.lastWithDatap == BeforeLast(src.chains[k..])
    ensures (nread > 0 <==> k > 0) && (k > 0 ==> previous == Some(src.chains[k - 1]))
  {
    chain, previous, nread, k := src.first.value, None, 0, 0;
    SegmentAt(src.heap.cells, src.chains, src.parts, None, 0);
    while src.heap.cells[chain].off <= datlen - nread
      invariant k < |src.chains| == |src.parts| && chain == src.chains[k]
      invariant IsChain(src.heap.cells, chain, At(src.chains, k + 1), src.parts[k])
      invariant nread == |Concat(src.parts[..k])| && nread <= datlen
      invariant src.lastWithDatap == BeforeLast(src.chains[k..])
      invariant (nread > 0 <==> k > 0) && (k > 0 ==> previous == Some(src.chains[k - 1]))
      decreases |src.chains| - k
    {
      WalkStep(src, k);
      nread := nread + src.heap.cells[chain].off;
      previous := Some(chain);
      if src.lastWithDatap == Some(chain) {
        src.lastWithDatap := None;
      }
      chain := src.heap.cells[chain].next.value;
      k := k + 1;
    }
  }

  lemma WalkStep(src: Evbuffer, k: nat)
    requires List(src.heap.cells, src.chains, src.parts) && Dense(src.parts)
    requires k < |src.parts| && |Concat(src.parts[..k])| + |src.parts[k]| < |Concat(src.parts)|
    ensures k + 1 < |src.chains| == |src.parts| && src.parts[k] != []
    ensures Concat(src.parts[..k + 1]) == Concat(src.parts[..k]) + src.parts[k]
    ensures IsChain(src.heap.cells, src.chains[k + 1], At(src.chains, k + 2), src.parts[k + 1])
    ensures BeforeLast(src.chains[k + 1..]) == if BeforeLast(src.chains[k..]) == Some(src.chains[k]) then None else BeforeLast(src.chains[k..])
  {
    ConcatStep(src.parts, k);
    ConcatSplit(src.parts, k + 1);
    SegmentAt(src.heap.cells, src.chains, src.parts, None, k);
    assert k + 1 < |src.parts|;
    SegmentAt(src.heap.cells, src.chains, src.parts, None, k + 1);
    var rest := src.chains[k + 1..];
    if |rest| >= 2 {
      assert rest[|rest| - 2] in rest;
      assert BeforeLast(src.chains[k..]) == Some(rest[|rest| - 2]);
    }
  }

  lemma MovedBytes(parts: seq<seq<Byte>>, k: nat, left: nat, d: seq<Byte>, n: nat)
    requires k < |parts| && left <= |parts[k]| && n == |Concat(parts[..k])| + left
    ensures parts[k..][0] == parts[k] && left <= |Concat(parts[k..])| && n <= |Concat(parts)|
    ensures d + Concat(parts[..k]) + parts[k..][0][..left] == d + Concat(parts)[..n]
    ensures Concat(parts[k..])[left..] == Concat(parts)[n..]
  {
    ConcatSplit(parts, k);
    ConcatStep(parts, k);
    assert Concat(parts)[..|Concat(parts[..k])| + left] == Concat(parts[..k]) + parts[k][..left];
  }

  /** Cut the first `k` chains off `src` and link them behind `dst`. */
  method Splice(src: Evbuffer, dst: Evbuffer, chain: Addr, previous: Addr, nread: nat, ghost k: nat)
    requires dst.Valid() && dst != src && Apart(dst, src)
    requires src.first == At(src.chains, 0) && src.last == LastOf(src.chains) && src.totalLen == |Concat(src.parts)|
    requires List(src.heap.cells, src.chains, src.parts) && Dense(src.parts)
    requires 0 < k < |src.chains| && chain == src.chains[k] && previous == src.chains[k - 1]
    requires k < |src.parts| && nread == |Concat(src.parts[..k])| > 0
    requires src.lastWithDatap == BeforeLast(src.chains[k..])
    modifies dst`first, dst`last, dst`lastWithDatap, dst`totalLen, dst`chains, dst`parts, dst.heap
    modifies src`first, src`totalLen, src`chains, src`parts
    ensures src.Valid() && dst.Valid() && Apart(dst, src)
    ensures src.chains == old(src.chains)[k..] && src.parts == old(src.parts)[k..]
    ensures dst.Contents() == old(dst.Contents()) + Concat(old(src.parts)[..k])
    ensures Elsewhere(dst.heap.cells, dst.chains + src.chains) == Elsewhere(old(dst.heap.cells), old(dst.chains + src.chains))
  {
    var chp := FreeTrailingEmpty(dst, src.chains, src.parts);
    Relink(src, dst, chp, previous, k);
    TakeSpliced(src, dst, chain, previous, nread, k);
  }

  method Relink(src: Evbuffer, dst: Evbuffer, chp: Option<Addr>, previous: Addr, ghost k: nat)
    requires dst != src && Apart(dst, src) && src.first == At(src.chains, 0) && dst.first == At(dst.chains, 0)
    requires List(src.heap.cells, src.chains, src.parts) && List(dst.heap.cells, dst.chains, dst.parts)
    requires 0 < k < |src.chains| && previous == src.chains[k - 1] && chp == LastOf(dst.chains)
    modifies dst`first, dst.heap
    ensures dst.first == At(dst.chains + src.chains[..k], 0) && k < |src.parts|
    ensures List(dst.heap.cells, dst.chains + src.chains[..k], dst.parts + src.parts[..k])
    ensures List(dst.heap.cells, src.chains[k..], src.parts[k..])
    ensures forall a :: a in dst.chains + src.chains[..k] ==> a !in src.chains[k..]
    ensures Elsewhere(dst.heap.cells, dst.chains + src.chains[..k] + src.chains[k..]) ==
            Elsewhere(old(dst.heap.cells), dst.chains + src.chains)
  {
    CutAndLink(dst.heap.cells, dst.chains, dst.parts, src.chains, src.parts, k);
    dst.heap.Set(previous, dst.heap.cells[previous].(next := None));
    if dst.first == None {
      dst.first := src.first;
    } else {
      dst.SetLink(chp, src.first);
    }
  }

  /** Fix up the pointers and lengths of two buffers whose chains have been relinked. */
  method TakeSpliced(src: Evbuffer, dst: Evbuffer, chain: Addr, previous: Addr, nread: nat, ghost k: nat)
    requires dst != src && dst.heap == src.heap && 0 < k < |src.chains| && k < |src.parts|
    requires chain == src.chains[k] && previous == src.chains[k - 1]
    requires dst.first == At(dst.chains + src.chains[..k], 0)
    requires List(dst.heap.cells, dst.chains + src.chains[..k], dst.parts + src.parts[..k])
    requires List(dst.heap.cells, src.chains[k..], src.parts[k..])
    requires forall a :: a in dst.chains + src.chains[..k] ==> a !in src.chains[k..]
    requires Dense(dst.parts) && (dst.parts == [] || Concat(dst.parts) != []) && Dense(src.parts)
    requires src.last == LastOf(src.chains) && src.lastWithDatap == BeforeLast(src.chains[k..])
    requires dst.lastWithDatap == BeforeLast(dst.chains)
    requires dst.totalLen == |dst.Contents()| && src.totalLen == |src.Contents()| && nread == |Concat(src.parts[..k])|
    modifies dst`last, dst`lastWithDatap, dst`totalLen, dst`chains, dst`parts
    modifies src`first, src`totalLen, src`chains, src`parts
    ensures src.Valid() && dst.Valid() && Apart(dst, src)
    ensures src.chains == old(src.chains)[k..] && src.parts == old(src.parts)[k..]
    ensures dst.chains == old(dst.chains + src.chains[..k])
    ensures dst.Contents() == old(dst.Contents()) + Concat(old(src.parts)[..k])
  {
    SplicedParts(dst.parts, src.parts, k);
    TakeMoved(dst, previous, nread, src.chains[..k], src.parts[..k]);
    src.first := Some(chain);
    src.totalLen := src.totalLen - nread;
    src.chains, src.parts := src.chains[k..], src.parts[k..];
  }

  method TakeMoved(dst: Evbuffer, previous: Addr, nread: nat, ghost moved: seq<Addr>, ghost qs: seq<seq<Byte>>)
    requires moved != [] && LastOf(moved) == Some(previous) && dst.first == At(dst.chains + moved, 0)
    requires List(dst.heap.cells, dst.chains + moved, dst.parts + qs)
    requires forall i :: 0 <= i < |dst.parts + qs| ==> (dst.parts + qs)[i] != []
    requires Concat(dst.parts + qs) == Concat(dst.parts) + Concat(qs)
    requires dst.lastWithDatap == BeforeLast(dst.chains) && dst.totalLen == |dst.Contents()| && nread == |Concat(qs)|
    modifies dst`last, dst`lastWithDatap, dst`totalLen, dst`chains, dst`parts
    ensures dst.Valid() && dst.chains == old(dst.chains) + moved && dst.Contents() == old(dst.Contents()) + Concat(qs)
  {
    ghost var from := if dst.chains == [] then 0 else |dst.chains| - 1;
    dst.chains, dst.parts := dst.chains + moved, dst.parts + qs;
    dst.last := Some(previous);
    var _ := AdvanceLastWithData(dst, from);
    dst.totalLen := dst.totalLen + nread;
  }

  /** Memory after `cs[..k]` has been cut off its list and linked behind `ds`. */
  ghost function Spliced(m: Cells, ds: seq<Addr>, cs: seq<Addr>, k: nat): Cells
    requires 0 < k <= |cs| && cs[k - 1] in m && (ds != [] ==> ds[|ds| - 1] in m)
  {
    var m1 := m[cs[k - 1] := m[cs[k - 1]].(next := None)];
    if ds == [] then m1 else m1[ds[|ds| - 1] := m1[ds[|ds| - 1]].(next := Some(cs[0]))]
  }

  lemma CutAndLink(m: Cells, ds: seq<Addr>, qs: seq<seq<Byte>>, cs: seq<Addr>, ps: seq<seq<Byte>>, k: nat)
    requires List(m, ds, qs) && List(m, cs, ps) && 0 < k < |cs| && forall a :: a in ds ==> a !in cs
    ensures |cs| == |ps| && cs[k - 1] in m && (ds != [] ==> ds[|ds| - 1] in m)
    ensures List(Spliced(m, ds, cs, k), ds + cs[..k], qs + ps[..k])
    ensures List(Spliced(m, ds, cs, k), cs[k..], ps[k..])
    ensures forall a :: a in ds + cs[..k] ==> a !in cs[k..]
    ensures Elsewhere(Spliced(m, ds, cs, k), ds + cs[..k] + cs[k..]) == Elsewhere(m, ds + cs)
  {
    CutList(m, cs, ps, k);
    var p := cs[k - 1];
    var m1 := m[p := m[p].(next := None)];
    assert p in cs;
    SegmentFrame(m, m1, ds, qs, None);
    ElsewhereSet(m, ds + cs, p, m1[p]);
    assert ds + cs[..k] + cs[k..] == ds + cs;
    if ds == [] {
      assert ds + cs[..k] == cs[..k] && qs + ps[..k] == ps[..k];
    } else {
      assert forall a :: a in cs[..k] ==> a in cs;
      JoinLists(m1, ds, qs, cs[..k], ps[..k]);
      var z := ds[|ds| - 1];
      assert z !in cs && forall a :: a in cs[k..] ==> a in cs;
      SegmentFrame(m1, Spliced(m, ds, cs, k), cs[k..], ps[k..], None);
      ElsewhereSet(m1, ds + cs, z, m1[z].(next := Some(cs[0])));
    }
  }

  /** Ending a list after its first `k` chains makes it two lists. */
  lemma CutList(m: Cells, cs: seq<Addr>, ps: seq<seq<Byte>>, k: nat)
    requires List(m, cs, ps) && 0 < k < |cs|
    ensures |cs| == |ps| && cs[k - 1] in m
    ensures var r := m[cs[k - 1] := m[cs[k - 1]].(next := None)];
      List(r, cs[..k], ps[..k]) && List(r, cs[k..], ps[k..])
    ensures forall a :: a in cs[..k] ==> a !in cs[k..]
  {
    SegmentCut(m, cs, ps, None, k);
    SegmentAt(m, cs, ps, None, k - 1);
    assert cs[..k][k - 1] == cs[k - 1] && cs[k - 1] in cs[..k];
    SegmentRelink(m, cs[..k], ps[..k], Some(cs[k]), None);
    SegmentFrame(m, m[cs[k - 1] := m[cs[k - 1]].(next := None)], cs[k..], ps[k..], None);
  }

  lemma SplicedParts(qs: seq<seq<Byte>>, ps: seq<seq<Byte>>, k: nat)
    requires 0 < k < |ps| && Dense(ps) && Dense(qs) && (qs == [] || Concat(qs) != [])
    ensures Concat(qs + ps[..k]) == Concat(qs) + Concat(ps[..k])
    ensures |Concat(ps)| == |Concat(ps[..k])| + |Concat(ps[k..])|
    ensures Dense(ps[k..]) && forall i :: 0 <= i < |qs + ps[..k]| ==> (qs + ps[..k])[i] != []
  {
    ConcatPlus(qs, ps[..k]);
    ConcatSplit(ps, k);
    if qs != [] {
      AllNonEmpty(qs);
    }
  }

  /** advance_last_with_data: on from chain `from`, as long as the next chain holds something. */
  method AdvanceLastWithData(buf: Evbuffer, ghost from: nat) returns (n: nat)
    requires from <= |buf.chains| && buf.first == At(buf.chains, 0) && List(buf.heap.cells, buf.chains, buf.parts)
    requires buf.lastWithDatap == (if from == 0 then None else Some(buf.chains[from - 1]))
    modifies buf`lastWithDatap
    ensures if from == |buf.chains| then n == 0 else from + n < |buf.chains|
    ensures buf.lastWithDatap == (if from + n == 0 then None else Some(buf.chains[from + n - 1]))
    ensures forall i :: from < i <= from + n < |buf.parts| ==> buf.parts[i] != []
    ensures from + n + 1 < |buf.chains| ==> |buf.chains| == |buf.parts| && buf.parts[from + n + 1] == []
  {
    n := 0;
    LinkAt(buf, from);
    if buf.Deref(buf.lastWithDatap) == None {
      return;
    }
    AtBoth(buf, from);
    while buf.heap.cells[buf.Deref(buf.lastWithDatap).value].next.Some?
          && buf.heap.cells[buf.heap.cells[buf.Deref(buf.lastWithDatap).value].next.value].off != 0
      invariant from + n < |buf.chains|
      invariant buf.lastWithDatap == (if from + n == 0 then None else Some(buf.chains[from + n - 1]))
      invariant |buf.chains| == |buf.parts| && forall i :: from < i <= from + n ==> buf.parts[i] != []
      invariant from + n > 0 ==> IsChain(buf.heap.cells, buf.chains[from + n - 1], Some(buf.chains[from + n]), buf.parts[from + n - 1])
      invariant IsChain(buf.heap.cells, buf.chains[from + n], At(buf.chains, from + n + 1), buf.parts[from + n])
      invariant from + n + 1 < |buf.chains| ==>
        IsChain(buf.heap.cells, buf.chains[from + n + 1], At(buf.chains, from + n + 2), buf.parts[from + n + 1])
      decreases |buf.chains| - n
    {
      buf.lastWithDatap := buf.Deref(buf.lastWithDatap);
      n := n + 1;
      AtBoth(buf, from + n);
    }
  }

  /** The link that leads to chain `j`, or ends the list. */
  lemma LinkAt(buf: Evbuffer, j: nat)
    requires List(buf.heap.cells, buf.chains, buf.parts) && j <= |buf.chains| && buf.first == At(buf.chains, 0)
    ensures j > 0 ==> buf.chains[j - 1] in buf.heap.cells
    ensures buf.Deref(if j == 0 then None else Some(buf.chains[j - 1])) == At(buf.chains, j)
  {
    if j > 0 {
      AtBoth(buf, j - 1);
    }
  }

  lemma AtBoth(buf: Evbuffer, j: nat)
    requires List(buf.heap.cells, buf.chains, buf.parts) && j < |buf.chains|
    ensures |buf.chains| == |buf.parts|
    ensures j > 0 ==> IsChain(buf.heap.cells, buf.chains[j - 1], Some(buf.chains[j]), buf.parts[j - 1])
    ensures IsChain(buf.heap.cells, buf.chains[j], At(buf.chains, j + 1), buf.parts[j])
    ensures j + 1 < |buf.chains| ==> IsChain(buf.heap.cells, buf.chains[j + 1], At(buf.chains, j + 2), buf.parts[j + 1])
  {
    SegmentAt(buf.heap.cells, buf.chains, buf.parts, None, j);
    if j > 0 {
      SegmentAt(buf.heap.cells, buf.chains, buf.parts, None, j - 1);
    }
    if j + 1 < |buf.chains| {
      SegmentAt(buf.heap.cells, buf.chains, buf.parts, None, j + 1);
    }
  }

  /** Copy the front of what is now the first chain of `src`, and step past it. */
  method CopyRest(src: Evbuffer, dst: Evbuffer, left: nat)
    requires src.Valid() && dst.Valid() && dst != src && Apart(dst, src) && !dst.freezeEnd
    requires src.chains != [] && src.parts != [] && left < |src.parts[0]|
    modifies dst`first, dst`last, dst`lastWithDatap, dst`totalLen, dst`chains, dst`parts, dst.heap
    modifies src`totalLen, src`parts
    ensures src.Valid() && dst.Valid() && Apart(dst, src) && left <= |old(src.Contents())|
    ensures dst.Contents() == old(dst.Contents()) + old(src.parts)[0][..left]
    ensures src.Contents() == old(src.Contents())[left..]
    ensures Elsewhere(dst.heap.cells, dst.chains + src.chains) == Elsewhere(old(dst.heap.cells), old(dst.chains + src.chains))
  {
    ghost var cs := dst.chains;
    var added := dst.Add(Data(src.heap.cells[src.first.value])[..left]);
    ElsewhereFrame(old(dst.heap.cells), cs, dst.heap.cells, dst.chains, src.chains, src.parts, None);
    ElsewhereWiden(old(dst.heap.cells), cs, dst.heap.cells, dst.chains, src.chains);
    StepPast(src, dst, left);
  }

  method StepPast(src: Evbuffer, dst: Evbuffer, left: nat)
    requires src.Valid() && dst.Valid() && dst != src && Apart(dst, src)
    requires src.chains != [] && src.parts != [] && left < |src.parts[0]|
    modifies src.heap, src`totalLen, src`parts
    ensures src.Valid() && dst.Valid() && left <= |old(src.Contents())|
    ensures src.Contents() == old(src.Contents())[left..]
    ensures Elsewhere(dst.heap.cells, dst.chains + src.chains) == Elsewhere(old(dst.heap.cells), dst.chains + src.chains)
  {
    var a := src.first.value;
    var c := TrimFront(src.heap.cells[a], left);
    TrimHead(src.heap.cells, src.chains, src.parts, left);
    SegmentFrame(src.heap.cells, src.heap.cells[a := c], dst.chains, dst.parts, None);
    ElsewhereSet(src.heap.cells, dst.chains + src.chains, a, c);
    src.heap.Set(a, c);
    src.totalLen := src.totalLen - left;
    src.parts := src.parts[0 := src.parts[0][left..]];
  }

  /** evbuffer_free_trailing_empty_chains: the link where new chains can go. */
  method FreeTrailingEmpty(dst: Evbuffer, ghost xs: seq<Addr>, ghost qs: seq<seq<Byte>>) returns (ch: Option<Addr>)
    requires dst.Valid() && List(dst.heap.cells, xs, qs) && forall a :: a in xs ==> a !in dst.chains
    modifies dst`first, dst`chains, dst`parts, dst.heap
    ensures List(dst.heap.cells, xs, qs) && List(dst.heap.cells, dst.chains, dst.parts)
    ensures dst.parts == [] || Concat(dst.parts) != []
    ensures dst.first == At(dst.chains, 0) && ch == LastOf(dst.chains) && dst.lastWithDatap == BeforeLast(dst.chains)
    ensures Dense(dst.parts) && dst.Contents() == old(dst.Contents()) && dst.chains <= old(dst.chains)
    ensures Elsewhere(dst.heap.cells, dst.chains + xs) == Elsewhere(old(dst.heap.cells), old(dst.chains) + xs)
  {
    ch := dst.FirstVictim();
    if dst.Deref(ch).Some? {
      ConcatOne(dst.parts[0]);
      assert dst.parts == [dst.parts[0]];
      ghost var cs := dst.chains;
      dst.heap.FreeAll(dst.Deref(ch), cs, dst.parts);
      ElsewhereFrame(old(dst.heap.cells), cs, dst.heap.cells, [], xs, qs, None);
      ElsewhereWiden(dst.heap.cells, [], old(dst.heap.cells), cs, xs);
      dst.SetLink(ch, None);
      dst.chains, dst.parts := [], [];
    }
  }
}
