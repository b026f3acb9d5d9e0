/** evbuffer: a linked list of partly filled chains that acts as one byte string. Chains here are
    mutable and unpinned, and no space is reserved ahead of the data. */
module EvBuffer {
  import opened Lists
  import opened Chains
  import opened InPieces

  /** The memory chains live in, so that allocation, freeing and dangling addresses are visible. */
  class Heap {
    var cells: Cells

    constructor ()
      ensures cells == map[]
    {
      cells := map[];
    }

    /** evbuffer_chain_new: any address not in use. */
    method Alloc(size: nat) returns (a: Addr)
      modifies this
      ensures a !in old(cells) && a in cells && cells == old(cells)[a := cells[a]]
      ensures cells[a].next == None && cells[a].misalign == 0 && cells[a].off == 0
      ensures |cells[a].block| >= size && |cells[a].block| > 0
    {
      var len := BlockSize(size);
      ghost var top := AboveAll(cells.Keys);
      a :| a !in cells;
      cells := cells[a := Chain(None, seq(len, _ => 0), 0, 0)];
    }

    method Free(a: Addr)
      requires a in cells
      modifies this
      ensures cells == old(cells) - {a}
    {
      cells := cells - {a};
    }

    /** evbuffer_free_all_chains. */
    method FreeAll(from: Option<Addr>, ghost cs: seq<Addr>, ghost parts: seq<seq<Byte>>)
      requires List(cells, cs, parts) && from == At(cs, 0)
      modifies this
      ensures Elsewhere(cells, []) == Elsewhere(old(cells), cs)
    {
      var chain := from;
      ghost var rest, qs := cs, parts;
      while chain.Some?
        invariant chain == At(rest, 0) && List(cells, rest, qs)
        invariant Elsewhere(cells, rest) == Elsewhere(old(cells), cs)
        decreases |rest|
      {
        var next := cells[chain.value].next;
        FreeHead(cells, rest, qs);
        Free(chain.value);
        chain, rest, qs := next, rest[1..], qs[1..];
      }
    }

    /** Write through a chain pointer. */
    method Set(a: Addr, c: Chain)
      requires a in cells
      modifies this
      ensures cells == old(cells)[a := c]
    {
      cells := cells[a := c];
    }
  }

  lemma {:induction false} AboveAll(s: set<nat>) returns (top: nat)
    ensures top !in s && forall x :: x in s ==> x < top
    decreases |s|
  {
    if s == {} {
      top := 0;
    } else {
      var x :| x in s;
      var t := AboveAll(s - {x});
      top := if t <= x then x + 1 else t;
      assert forall y :: y in s ==> y == x || y in s - {x};
    }
  }

  /** Freeing the first chain of a list leaves the rest of it. */
  lemma FreeHead(m: Cells, cs: seq<Addr>, parts: seq<seq<Byte>>)
    requires cs != [] && List(m, cs, parts)
    ensures List(m - {cs[0]}, cs[1..], parts[1..]) && m[cs[0]].next == At(cs[1..], 0)
    ensures Elsewhere(m - {cs[0]}, cs[1..]) == Elsewhere(m, cs)
  {
    SegmentFrame(m, m - {cs[0]}, cs[1..], parts[1..], None);
    ElsewhereFree(m, cs);
  }

  ghost predicate Dense(parts: seq<seq<Byte>>)
  {
    |parts| >= 2 ==> forall i :: 0 <= i < |parts| ==> parts[i] != []
  }

  class Evbuffer {
    const heap: Heap
    var first: Option<Addr>
    var last: Option<Addr>

    /** last_with_datap: None stands for &first, and Some(a) for the address of a's `next`. */
    var lastWithDatap: Option<Addr>

    var totalLen: nat
    var freezeStart: bool
    var freezeEnd: bool
    ghost var chains: seq<Addr>
    ghost var parts: seq<seq<Byte>>

    /** The pointers into the list are right; the last chain is the one that holds data, and only a
        chain that is alone may be empty. */
    ghost predicate Valid()
      reads this, heap
    {
      && first == At(chains, 0) && last == LastOf(chains) && lastWithDatap == BeforeLast(chains)
      && List(heap.cells, chains, parts) && Dense(parts)
      && totalLen == |Concat(parts)|
    }

    /** The byte string the buffer stands for. */
    ghost function Contents(): seq<Byte>
      reads this`parts
    {
      Concat(parts)
    }

    constructor (h: Heap)
      ensures heap == h && Valid() && Contents() == [] && chains == [] && !freezeStart && !freezeEnd
    {
      heap := h;
      first, last, lastWithDatap, totalLen := None, None, None, 0;
      freezeStart, freezeEnd := false, false;
      chains, parts := [], [];
    }

    /** What a pointer to a `next` pointer points at. */
    function Deref(ch: Option<Addr>): Option<Addr>
      requires ch.Some? ==> ch.value in heap.cells
      reads this, heap
    {
      if ch == None then first else heap.cells[ch.value].next
    }

    /** ZERO_CHAIN. */
    method Zero()
      modifies `first, `last, `lastWithDatap, `totalLen, `chains, `parts
      ensures Valid() && Contents() == [] && chains == []
    {
      first, last, lastWithDatap, totalLen := None, None, None, 0;
      chains, parts := [], [];
    }

    // ---------- Draining ----------

    method Drain(len: nat) returns (r: int)
      requires Valid()
      modifies `first, `last, `lastWithDatap, `totalLen, `chains, `parts, heap
      ensures Valid() && Elsewhere(heap.cells, chains) == Elsewhere(old(heap.cells), old(chains))
      ensures r == (if old(totalLen) > 0 && freezeStart then -1 else 0)
      ensures Contents() ==
        if r == -1 then old(Contents()) else if len >= old(totalLen) then [] else old(Contents())[len..]
    {
      if totalLen == 0 {
        return 0;
      }
      if freezeStart {
        return -1;
      }
      if len >= totalLen {
        heap.FreeAll(first, chains, parts);
        Zero();
      } else {
        DrainSome(len);
      }
      return 0;
    }

    method DrainSome(len: nat)
      requires Valid() && len < totalLen
      modifies `first, `lastWithDatap, `totalLen, `chains, `parts, heap
      ensures Valid() && Elsewhere(heap.cells, chains) == Elsewhere(old(heap.cells), old(chains))
      ensures Contents() == old(Contents())[len..]
    {
      var chain, remaining := FreeWhole(len);
      totalLen := totalLen - len;
      first := Some(chain);
      TrimHead(heap.cells, chains, parts, remaining);
      heap.Set(chain, TrimFront(heap.cells[chain], remaining));
      parts := parts[0 := parts[0][remaining..]];
    }

    /** Free the chains that lie wholly within the first `len` bytes. */
    method FreeWhole(len: nat) returns (chain: Addr, remaining: nat)
      requires Valid() && len < totalLen
      modifies `lastWithDatap, `chains, `parts, heap
      ensures chains != [] && chain == chains[0] && List(heap.cells, chains, parts) && Dense(parts)
      ensures Elsewhere(heap.cells, chains) == Elsewhere(old(heap.cells), old(chains))
      ensures last == LastOf(chains) && lastWithDatap == BeforeLast(chains)
      ensures parts != [] && remaining < |parts[0]| && len <= |old(Contents())|
      ensures Concat(parts)[remaining..] == old(Contents())[len..]
    {
      chain, remaining := first.value, len;
      while remaining >= heap.cells[chain].off
        invariant chains != [] && chain == chains[0] && List(heap.cells, chains, parts) && Dense(parts)
        invariant Elsewhere(heap.cells, chains) == Elsewhere(old(heap.cells), old(chains))
        invariant last == LastOf(chains) && lastWithDatap == BeforeLast(chains)
        invariant remaining < |Concat(parts)| && Concat(parts)[remaining..] == old(Contents())[len..]
        decreases |chains|
      {
        DropWhole(parts, remaining);
        FreeHead(heap.cells, chains, parts);
        DerefBeforeLast(heap.cells, chains, parts);
        var next := heap.cells[chain].next;
        remaining := remaining - heap.cells[chain].off;
        if Deref(lastWithDatap) == Some(chain) || lastWithDatap == Some(chain) {
          lastWithDatap := None;
        }
        heap.Free(chain);
        chains, parts := chains[1..], parts[1..];
        chain := next.value;
      }
    }

    // ---------- Copying out ----------

    method Copyout(datlen: nat) returns (r: int, data: seq<Byte>)
      requires Valid()
      ensures r == (if datlen > 0 && totalLen > 0 && freezeStart then -1 else |data|)
      ensures data <= Contents() && |data| == if r == -1 then 0 else if datlen >= totalLen then totalLen else datlen
    {
      var left: nat := if datlen >= totalLen then totalLen else datlen;
      if left == 0 {
        return 0, [];
      }
      if freezeStart {
        return -1, [];
      }
      var chain := first;
      data := [];
      ghost var rest, qs := chains, parts;
      while left > 0 && left >= heap.cells[chain.value].off
        invariant List(heap.cells, rest, qs) && chain == At(rest, 0)
        invariant left <= |Concat(qs)| && data + Concat(qs) == Contents()
        invariant |data| + left == if datlen >= totalLen then totalLen else datlen
        decreases |rest|
      {
        var c := heap.cells[chain.value];
        TakeWhole(data, qs);
        data := data + Data(c);
        left := left - c.off;
        chain, rest, qs := c.next, rest[1..], qs[1..];
      }
      if left > 0 {
        TakePart(data, qs, left);
        data := data + Data(heap.cells[chain.value])[..left];
      }
      r := |data|;
    }

    /** evbuffer_remove. */
    method Remove(datlen: nat) returns (r: int, data: seq<Byte>)
      requires Valid()
      modifies `first, `last, `lastWithDatap, `totalLen, `chains, `parts, heap
      ensures Valid() && Elsewhere(heap.cells, chains) == Elsewhere(old(heap.cells), old(chains))
      ensures r == (if datlen > 0 && old(totalLen) > 0 && freezeStart then -1 else |data|)
      ensures r == -1 ==> Contents() == old(Contents())
      ensures r >= 0 ==> data + Contents() == old(Contents()) && |data| == if datlen >= old(totalLen) then old(totalLen) else datlen
    {
      ghost var was := Contents();
      r, data := Copyout(datlen);
      if r > 0 {
        assert !freezeStart && r <= totalLen == |was|;
        var d := Drain(r);
        assert Contents() == was[r..] && data == was[..r];
      }
    }

    // ---------- Appending ----------

    /** Rewrite the last chain so that it holds `d` behind its old data. */
    method GrowLast(c: Chain, d: seq<Byte>)
      requires Valid() && last.Some? && last.value in heap.cells && Fits(heap.cells[last.value])
      requires Fits(c) && c.next == heap.cells[last.value].next && Data(c) == Data(heap.cells[last.value]) + d
      modifies `totalLen, `parts, heap
      ensures Valid() && heap.cells == old(heap.cells)[last.value := c]
      ensures Contents() == old(Contents()) + d
      ensures Elsewhere(heap.cells, chains) == Elsewhere(old(heap.cells), chains)
    {
      ghost var z := |chains| - 1;
      SegmentAt(heap.cells, chains, parts, None, z);
      SegmentSet(heap.cells, chains, parts, None, z, c);
      ElsewhereSet(heap.cells, chains, last.value, c);
      GrowLastPart(parts, d);
      heap.Set(last.value, c);
      totalLen := totalLen + |d|;
      parts := parts[z := Data(c)];
    }

    /** A new chain that is not yet in the list. */
    method NewChain(size: nat) returns (a: Addr)
      requires Valid()
      modifies heap
      ensures Valid() && a !in chains && List(heap.cells, [a], [[]])
      ensures |heap.cells[a].block| >= size && |heap.cells[a].block| > 0 && heap.cells[a].misalign == 0
      ensures Elsewhere(heap.cells, chains + [a]) == Elsewhere(old(heap.cells), chains)
      ensures forall x :: x in old(heap.cells) ==> x in heap.cells && heap.cells[x] == old(heap.cells)[x]
    {
      InMemory(heap.cells, chains, parts);
      a := heap.Alloc(size);
      SegmentFrame(old(heap.cells), heap.cells, chains, parts, None);
      ElsewhereNew(old(heap.cells), chains, a, heap.cells[a], chains + [a]);
    }

    method FillNew(a: Addr, c: Chain)
      requires Valid() && a !in chains && a in heap.cells && Fits(c) && c.next == None
      modifies heap
      ensures Valid() && List(heap.cells, [a], [Data(c)]) && heap.cells[a] == c
      ensures Elsewhere(heap.cells, chains + [a]) == Elsewhere(old(heap.cells), chains + [a])
    {
      SegmentFrame(heap.cells, heap.cells[a := c], chains, parts, None);
      ElsewhereSet(heap.cells, chains + [a], a, c);
      heap.Set(a, c);
    }

    /** evbuffer_add. */
    method Add(data: seq<Byte>) returns (r: int)
      requires Valid()
      modifies `first, `last, `lastWithDatap, `totalLen, `chains, `parts, heap
      ensures Valid() && Elsewhere(heap.cells, chains) == Elsewhere(old(heap.cells), old(chains))
      ensures r == (if freezeEnd then -1 else 0)
      ensures Contents() == if r == -1 then old(Contents()) else old(Contents()) + data
    {
      if freezeEnd {
        return -1;
      }
      if last == None {
        var a := NewChain(|data|);
        ChainInsert(a, []);
      }
      AddToChain(data);
      r := 0;
    }

    method AddToChain(data: seq<Byte>)
      requires Valid() && last.Some?
      modifies `first, `last, `lastWithDatap, `totalLen, `chains, `parts, heap
      ensures Valid() && Elsewhere(heap.cells, chains) == Elsewhere(old(heap.cells), old(chains))
      ensures Contents() == old(Contents()) + data
    {
      SegmentAt(heap.cells, chains, parts, None, |chains| - 1);
      var c := heap.cells[last.value];
      if Room(c) >= |data| {
        GrowLast(PutBack(c, data), data);
      } else if ShouldRealign(c, |data|) {
        GrowLast(PutBack(Align(c), data), data);
      } else {
        AddChain(c, data);
      }
    }

    /** Fill the last chain and put the rest in a new one. */
    method AddChain(c: Chain, data: seq<Byte>)
      requires Valid() && last.Some? && last.value in heap.cells && c == heap.cells[last.value] && Fits(c) && Room(c) < |data|
      modifies `first, `last, `lastWithDatap, `totalLen, `chains, `parts, heap
      ensures Valid() && Elsewhere(heap.cells, chains) == Elsewhere(old(heap.cells), old(chains))
      ensures Contents() == old(Contents()) + data
    {
      var remain, toAlloc := Room(c), |c.block|;
      if toAlloc <= MAX_AUTO_SIZE / 2 {
        toAlloc := 2 * toAlloc;
      }
      if |data| > toAlloc {
        toAlloc := |data|;
      }
      var tmp := NewChain(toAlloc);
      if remain > 0 {
        FillLast(tmp, c, data[..remain]);
      }
      InsertRest(tmp, data[remain..]);
      assert old(Contents()) + data[..remain] + data[remain..] == old(Contents()) + data;
    }

    /** Append to the last chain; the new chain `tmp` is not affected. */
    method FillLast(tmp: Addr, c: Chain, d: seq<Byte>)
      requires Valid() && tmp !in chains && tmp in heap.cells
      requires last.Some? && last.value in heap.cells && c == heap.cells[last.value] && Fits(c) && |d| <= Room(c)
      modifies `totalLen, `parts, heap
      ensures Valid() && tmp in heap.cells && heap.cells[tmp] == old(heap.cells)[tmp]
      ensures Elsewhere(heap.cells, chains + [tmp]) == Elsewhere(old(heap.cells), chains + [tmp])
      ensures Contents() == old(Contents()) + d
    {
      ElsewhereSet(heap.cells, chains + [tmp], last.value, PutBack(c, d));
      GrowLast(PutBack(c, d), d);
    }

    method InsertRest(tmp: Addr, rest: seq<Byte>)
      requires Valid() && chains != [] && rest != [] && tmp !in chains && tmp in heap.cells
      requires Fits(heap.cells[tmp]) && heap.cells[tmp].next == None && heap.cells[tmp].off == 0 && |rest| <= Room(heap.cells[tmp])
      modifies `first, `last, `lastWithDatap, `totalLen, `chains, `parts, heap
      ensures Valid() && Elsewhere(heap.cells, chains) == Elsewhere(old(heap.cells), old(chains) + [tmp])
      ensures Contents() == old(Contents()) + rest
    {
      FillNew(tmp, PutBack(heap.cells[tmp], rest));
      ChainInsert(tmp, rest);
    }

    // ---------- Prepending ----------

    /** evbuffer_prepend. */
    method Prepend(data: seq<Byte>) returns (r: int)
      requires Valid()
      modifies `first, `last, `lastWithDatap, `totalLen, `chains, `parts, heap
      ensures Valid() && Elsewhere(heap.cells, chains) == Elsewhere(old(heap.cells), old(chains))
      ensures r == (if freezeStart then -1 else 0)
      ensures Contents() == if r == -1 then old(Contents()) else data + old(Contents())
    {
      if freezeStart {
        return -1;
      }
      if first == None {
        var a := NewChain(|data|);
        ChainInsert(a, []);
      }
      PrependToChain(data);
      r := 0;
    }

    method PrependToChain(data: seq<Byte>)
      requires Valid() && first.Some?
      modifies `first, `last, `lastWithDatap, `totalLen, `chains, `parts, heap
      ensures Valid() && Elsewhere(heap.cells, chains) == Elsewhere(old(heap.cells), old(chains))
      ensures Contents() == data + old(Contents())
    {
      var c := heap.cells[first.value];
      if c.off == 0 {
        c := c.(misalign := |c.block|);
      }
      if c.misalign >= |data| {
        GrowFirst(PutFront(c, data), data);
      } else {
        var fit := |data| - c.misalign;
        if c.misalign > 0 {
          GrowFirst(PutFront(c, data[fit..]), data[fit..]);
        }
        assert Contents() == data[fit..] + old(Contents());
        PrependChain(data[..fit]);
        Regroup(data, fit, old(Contents()));
      }
    }

    /** Rewrite the first chain so that it holds `d` ahead of its old data. */
    method GrowFirst(c: Chain, d: seq<Byte>)
      requires Valid() && first.Some? && first.value in heap.cells && Fits(heap.cells[first.value])
      requires Fits(c) && c.next == heap.cells[first.value].next && Data(c) == d + Data(heap.cells[first.value])
      modifies `totalLen, `parts, heap
      ensures Valid() && heap.cells == old(heap.cells)[first.value := c]
      ensures Contents() == d + old(Contents())
      ensures Elsewhere(heap.cells, chains) == Elsewhere(old(heap.cells), chains)
      ensures |parts| == |old(parts)| && parts[0] == Data(c)
    {
      SegmentSet(heap.cells, chains, parts, None, 0, c);
      ElsewhereSet(heap.cells, chains, first.value, c);
      GrowFirstPart(parts, d);
      heap.Set(first.value, c);
      totalLen := totalLen + |d|;
      parts := parts[0 := Data(c)];
    }

    /** A new chain in front. */
    method PrependChain(data: seq<Byte>)
      requires Valid() && first.Some? && data != [] && parts[0] != []
      modifies `first, `last, `lastWithDatap, `totalLen, `chains, `parts, heap
      ensures Valid() && Elsewhere(heap.cells, chains) == Elsewhere(old(heap.cells), old(chains))
      ensures Contents() == data + old(Contents())
    {
      var tmp := NewChain(|data|);
      var t := heap.cells[tmp];
      t := PutFront(t.(misalign := |t.block|), data);
      FillNew(tmp, t);
      LinkFirst(tmp, data);
    }

    method LinkFirst(tmp: Addr, data: seq<Byte>)
      requires Valid() && first.Some? && data != [] && parts[0] != []
      requires tmp !in chains && List(heap.cells, [tmp], [data])
      modifies `first, `last, `lastWithDatap, `totalLen, `chains, `parts, heap
      ensures Valid() && Elsewhere(heap.cells, chains) == Elsewhere(old(heap.cells), old(chains) + [tmp])
      ensures Contents() == data + old(Contents())
    {
      PrependLink(heap.cells, chains, parts, tmp, data);
      if lastWithDatap == None {
        lastWithDatap := Some(tmp);
      }
      heap.Set(tmp, heap.cells[tmp].(next := first));
      first := Some(tmp);
      totalLen := totalLen + |data|;
      chains, parts := [tmp] + chains, [data] + parts;
    }

    /** `*ch = to`. */
    method SetLink(ch: Option<Addr>, to: Option<Addr>)
      requires ch.Some? ==> ch.value in heap.cells
      modifies `first, heap
      ensures ch == None ==> first == to && heap.cells == old(heap.cells)
      ensures ch.Some? ==> first == old(first) && heap.cells == old(heap.cells)[ch.value := old(heap.cells)[ch.value].(next := to)]
    {
      if ch == None {
        first := to;
      } else {
        heap.Set(ch.value, heap.cells[ch.value].(next := to));
      }
    }

    /** The link to the first empty chain at the end of the list, or the link that ends the list. */
    method FirstVictim() returns (ch: Option<Addr>)
      requires Valid()
      ensures ch.Some? ==> ch.value in heap.cells
      ensures if parts != [] && parts[|parts| - 1] != [] then ch == last && Deref(ch) == None else ch == None && Deref(ch) == first
    {
      ch := lastWithDatap;
      if chains != [] {
        DerefBeforeLast(heap.cells, chains, parts);
        SegmentAt(heap.cells, chains, parts, None, |chains| - 1);
      }
      while Deref(ch).Some? && heap.cells[Deref(ch).value].off != 0
        invariant ch == lastWithDatap || (ch == last && last.Some? && parts[|parts| - 1] != [])
        decreases ch == lastWithDatap
      {
        ch := Deref(ch);
      }
    }

    method InsertLast(a: Addr, ghost d: seq<Byte>)
      requires Valid() && chains != [] && a !in chains && List(heap.cells, [a], [d]) && d != []
      modifies `first, `last, `lastWithDatap, `chains, `parts, heap
      ensures first == At(chains, 0) && last == Some(a) == LastOf(chains) && lastWithDatap == BeforeLast(chains)
      ensures List(heap.cells, chains, parts) && Dense(parts) && Concat(parts) == old(Contents()) + d
      ensures Elsewhere(heap.cells, chains) == Elsewhere(old(heap.cells), old(chains) + [a])
      ensures a in heap.cells && heap.cells[a].off == |d|
    {
      var ch := FirstVictim();
      if Deref(ch) == None {
        JoinLists(heap.cells, chains, parts, [a], [d]);
        heap.Set(last.value, heap.cells[last.value].(next := Some(a)));
        if heap.cells[a].off != 0 {
          lastWithDatap := last;
        }
        chains, parts := chains + [a], parts + [d];
      } else {
        ConcatOne(parts[0]);
        assert parts == [parts[0]];
        heap.FreeAll(Deref(ch), chains, parts);
        ElsewhereFrame(old(heap.cells), chains, heap.cells, [], [a], [d], None);
        ElsewhereWiden(heap.cells, [], old(heap.cells), chains, [a]);
        SetLink(ch, Some(a));
        chains, parts := [a], [d];
        ConcatOne(d);
      }
      last := Some(a);
    }

    /** evbuffer_chain_insert. */
    method ChainInsert(a: Addr, ghost d: seq<Byte>)
      requires Valid() && a !in chains && List(heap.cells, [a], [d])
      requires chains != [] ==> d != []
      modifies `first, `last, `lastWithDatap, `totalLen, `chains, `parts, heap
      ensures Valid() && last == Some(a) && Contents() == old(Contents()) + d
      ensures Elsewhere(heap.cells, chains) == Elsewhere(old(heap.cells), old(chains) + [a])
    {
      if chains != [] {
        DerefBeforeLast(heap.cells, chains, parts);
      }
      ConcatOne(d);
      if Deref(lastWithDatap) == None {
        first, last := Some(a), Some(a);
        chains, parts := [a], [d];
      } else {
        InsertLast(a, d);
      }
      totalLen := totalLen + heap.cells[a].off;
    }
  }

  /** `*last_with_datap` is the last chain. */
  lemma DerefBeforeLast(m: Cells, cs: seq<Addr>, parts: seq<seq<Byte>>)
    requires List(m, cs, parts) && cs != []
    ensures |cs| > 1 ==> cs[|cs| - 2] in m && m[cs[|cs| - 2]].next == LastOf(cs)
    ensures |cs| > 1 ==> cs[0] != cs[|cs| - 1]
    ensures |cs| > 2 ==> cs[0] != cs[|cs| - 2]
  {
    if |cs| > 1 {
      SegmentAt(m, cs, parts, None, |cs| - 2);
      SegmentAt(m, cs, parts, None, 0);
      assert cs[|cs| - 1] in cs[1..];
      assert |cs| > 2 ==> cs[|cs| - 2] in cs[1..];
    }
  }

  lemma DropWhole(parts: seq<seq<Byte>>, k: nat)
    requires parts != [] && |parts[0]| <= k < |Concat(parts)|
    ensures |parts| > 1 && k - |parts[0]| < |Concat(parts[1..])|
    ensures Concat(parts)[k..] == Concat(parts[1..])[k - |parts[0]|..]
  {
  }

  lemma TrimHead(m: Cells, cs: seq<Addr>, parts: seq<seq<Byte>>, k: nat)
    requires List(m, cs, parts) && Dense(parts) && cs != [] && k < |parts[0]|
    ensures cs[0] in m && Fits(m[cs[0]]) && k <= m[cs[0]].off && k <= |Concat(parts)|
    ensures List(m[cs[0] := TrimFront(m[cs[0]], k)], cs, parts[0 := parts[0][k..]])
    ensures Dense(parts[0 := parts[0][k..]])
    ensures Elsewhere(m[cs[0] := TrimFront(m[cs[0]], k)], cs) == Elsewhere(m, cs)
    ensures Concat(parts[0 := parts[0][k..]]) == Concat(parts)[k..]
  {
    SegmentSet(m, cs, parts, None, 0, TrimFront(m[cs[0]], k));
    ElsewhereSet(m, cs, cs[0], TrimFront(m[cs[0]], k));
    assert parts[0 := parts[0][k..]][1..] == parts[1..];
  }

  lemma Regroup(data: seq<Byte>, k: nat, rest: seq<Byte>)
    requires k <= |data|
    ensures data[..k] + (data[k..] + rest) == data + rest
  {
  }

  lemma GrowLastPart(parts: seq<seq<Byte>>, d: seq<Byte>)
    requires parts != []
    ensures Concat(parts[|parts| - 1 := parts[|parts| - 1] + d]) == Concat(parts) + d
    ensures Dense(parts) ==> Dense(parts[|parts| - 1 := parts[|parts| - 1] + d])
  {
    var init, z := parts[..|parts| - 1], parts[|parts| - 1];
    assert parts == init + [z] && parts[|parts| - 1 := z + d] == init + [z + d];
    ConcatSnoc(init, z);
    ConcatSnoc(init, z + d);
  }

  lemma GrowFirstPart(parts: seq<seq<Byte>>, d: seq<Byte>)
    requires parts != []
    ensures Concat(parts[0 := d + parts[0]]) == d + Concat(parts)
    ensures Dense(parts) ==> Dense(parts[0 := d + parts[0]])
  {
    assert parts[0 := d + parts[0]][1..] == parts[1..];
  }

  lemma {:induction false} InMemory(m: Cells, cs: seq<Addr>, parts: seq<seq<Byte>>)
    requires List(m, cs, parts)
    ensures forall a :: a in cs ==> a in m
    decreases |cs|
  {
    if cs != [] {
      InMemory(m, cs[1..], parts[1..]);
    }
  }

  /** Linking a new chain ahead of a list. */
  lemma PrependLink(m: Cells, cs: seq<Addr>, parts: seq<seq<Byte>>, a: Addr, d: seq<Byte>)
    requires List(m, cs, parts) && List(m, [a], [d]) && a !in cs && cs != [] && d != []
    requires Dense(parts) && parts[0] != []
    ensures var r := m[a := m[a].(next := Some(cs[0]))];
      && List(r, [a] + cs, [d] + parts) && Elsewhere(r, [a] + cs) == Elsewhere(m, cs + [a])
    ensures Concat([d] + parts) == d + Concat(parts) && Dense([d] + parts)
  {
    ConcatCons(d, parts);
    JoinLists(m, [a], [d], cs, parts);
    ElsewhereSameSet(m, cs + [a], [a] + cs);
  }

  /** Linking the last chain of one list to the first of another. */
  lemma JoinLists(m: Cells, cs: seq<Addr>, parts: seq<seq<Byte>>, ds: seq<Addr>, qs: seq<seq<Byte>>)
    requires List(m, cs, parts) && List(m, ds, qs) && cs != [] && ds != []
    requires forall a :: a in cs ==> a !in ds
    ensures cs[|cs| - 1] in m && m[cs[|cs| - 1]].next == None
    ensures var z := cs[|cs| - 1]; var r := m[z := m[z].(next := Some(ds[0]))];
      && List(r, cs + ds, parts + qs) && Elsewhere(r, cs + ds) == Elsewhere(m, cs + ds)
    ensures Concat(parts + qs) == Concat(parts) + Concat(qs)
    ensures Dense(parts) && Dense(qs) && Concat(parts) != [] && Concat(qs) != [] ==> Dense(parts + qs)
  {
    var z := cs[|cs| - 1];
    SegmentAt(m, cs, parts, None, |cs| - 1);
    var r := m[z := m[z].(next := Some(ds[0]))];
    SegmentRelink(m, cs, parts, None, Some(ds[0]));
    SegmentFrame(m, r, ds, qs, None);
    SegmentJoin(r, cs, parts, Some(ds[0]), ds, qs, None);
    ElsewhereSet(m, cs + ds, z, r[z]);
    ConcatPlus(parts, qs);
    if Dense(parts) && Dense(qs) && Concat(parts) != [] && Concat(qs) != [] {
      AllNonEmpty(parts);
      AllNonEmpty(qs);
    }
  }

  /** In a buffer that holds anything, every chain holds something. */
  lemma AllNonEmpty(parts: seq<seq<Byte>>)
    requires Dense(parts) && Concat(parts) != []
    ensures forall i :: 0 <= i < |parts| ==> parts[i] != []
  {
    if |parts| == 1 {
      ConcatOne(parts[0]);
    }
  }

  lemma TakeWhole(data: seq<Byte>, qs: seq<seq<Byte>>)
    requires qs != []
    ensures data + Concat(qs) == data + qs[0] + Concat(qs[1..])
  {
  }

  lemma TakePart(data: seq<Byte>, qs: seq<seq<Byte>>, k: nat)
    requires qs != [] && k <= |qs[0]|
    ensures data + qs[0][..k] <= data + Concat(qs)
  {
  }
}
