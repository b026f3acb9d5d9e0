/** Searching an evbuffer chain by chain finds what a search of its flat contents would find. */
module EvSearch {
  import opened Lists
  import opened Chains
  import opened InPieces
  import opened EvBuffer

  const CR: Byte := 13
  const LF: Byte := 10

  /** struct evbuffer_ptr: a position, and the chain and offset it falls in. */
  datatype Ptr = Ptr(pos: int, chain: Option<Addr>, inChain: nat)

  const NOT_FOUND := Ptr(-1, None, 0)

  /** `p` stands at its position in the `k`-th chain; past the last chain it stands at the end. */
  ghost predicate Where(cs: seq<Addr>, parts: seq<seq<Byte>>, p: Ptr, k: nat)
  {
    && k <= |cs| == |parts| && p.chain == At(cs, k)
    && p.inChain <= (if k < |parts| then |parts[k]| else 0)
    && p.pos == |Concat(parts[..k])| + p.inChain
  }

  ghost predicate Placed(buf: Evbuffer, p: Ptr, k: nat)
    reads buf
  {
    Where(buf.chains, buf.parts, p, k)
  }

  /** `what` occurs in `s` at `q`. */
  predicate Occurs(s: seq<Byte>, q: int, what: seq<Byte>)
  {
    0 <= q && q + |what| <= |s| && s[q..q + |what|] == what
  }

  // ---------- Positions ----------

  /** What lies ahead of a position. */
  lemma Ahead(cs: seq<Addr>, parts: seq<seq<Byte>>, p: Ptr, k: nat)
    requires Where(cs, parts, p, k) && k < |cs|
    ensures p.pos <= |Concat(parts)|
    ensures Concat(parts)[p.pos..] == parts[k][p.inChain..] + Concat(parts[k + 1..])
    ensures |Concat(parts[..k + 1])| == p.pos + |parts[k]| - p.inChain <= |Concat(parts)|
  {
    ConcatSplit(parts, k);
    ConcatStep(parts, k);
    ConcatSplit(parts, k + 1);
  }

  lemma AtEnd(cs: seq<Addr>, parts: seq<seq<Byte>>, p: Ptr, k: nat)
    requires Where(cs, parts, p, k) && k == |cs|
    ensures p.pos == |Concat(parts)|
  {
    assert parts[..k] == parts;
  }

  /** The byte `i` places further on in the same chain. */
  lemma ByteAhead(cs: seq<Addr>, parts: seq<seq<Byte>>, p: Ptr, k: nat)
    requires Where(cs, parts, p, k) && k < |cs|
    ensures p.pos + |parts[k]| - p.inChain <= |Concat(parts)|
    ensures forall i :: p.pos <= i < p.pos + |parts[k]| - p.inChain ==> Concat(parts)[i] == parts[k][p.inChain + i - p.pos]
  {
    Ahead(cs, parts, p, k);
    var s := Concat(parts);
    forall i | p.pos <= i < p.pos + |parts[k]| - p.inChain
      ensures s[i] == parts[k][p.inChain + i - p.pos]
    {
      assert s[i] == s[p.pos..][i - p.pos];
    }
  }

  /** The start of the next chain. */
  function Onward(p: Ptr, c: Chain): Ptr
    requires p.inChain <= c.off
  {
    Ptr(p.pos + c.off - p.inChain, c.next, 0)
  }

  lemma OnwardWhere(m: Cells, cs: seq<Addr>, parts: seq<seq<Byte>>, p: Ptr, k: nat)
    requires List(m, cs, parts) && Where(cs, parts, p, k) && k < |cs|
    ensures cs[k] in m && Fits(m[cs[k]]) && Data(m[cs[k]]) == parts[k]
    ensures Where(cs, parts, Onward(p, m[cs[k]]), k + 1)
    ensures m[cs[k]].next == At(cs, k + 1)
  {
    SegmentAt(m, cs, parts, None, k);
    Ahead(cs, parts, p, k);
  }

  /** The start of the buffer, where a search without a start position begins. */
  function Start(buf: Evbuffer): Ptr
    reads buf
  {
    Ptr(0, buf.first, 0)
  }

  lemma StartPlaced(buf: Evbuffer)
    requires buf.Valid()
    ensures Placed(buf, Start(buf), 0)
  {
    if buf.chains != [] {
      SegmentAt(buf.heap.cells, buf.chains, buf.parts, None, 0);
    }
    assert buf.parts[..0] == [];
  }

  /** evbuffer_ptr_set: to an absolute position, or ahead of the current one. */
  method PtrSet(buf: Evbuffer, p: Ptr, ghost k0: nat, position: nat, add: bool) returns (ok: bool, r: Ptr, ghost k: nat)
    requires buf.Valid() && Placed(buf, p, k0)
    ensures ok <==> (if add then p.pos + position else position) < buf.totalLen
    ensures ok ==> r.pos == (if add then p.pos + position else position) && Placed(buf, r, k)
    ensures ok ==> k < |buf.parts| && r.inChain < |buf.parts[k]|
    ensures !ok ==> r.pos == -1 && r.chain == None
  {
    StartPlaced(buf);
    var at, left := if add then p else Start(buf), position;
    ghost var target := at.pos + position;
    k := if add then k0 else 0;
    if k < |buf.chains| {
      OnwardWhere(buf.heap.cells, buf.chains, buf.parts, at, k);
    }
    while at.chain.Some? && at.inChain + left >= buf.heap.cells[at.chain.value].off
      invariant Placed(buf, at, k) && left >= 0 && at.pos + left == target
      invariant k < |buf.chains| ==> buf.chains[k] in buf.heap.cells && buf.heap.cells[buf.chains[k]].off == |buf.parts[k]|
      decreases |buf.chains| - k
    {
      OnwardWhere(buf.heap.cells, buf.chains, buf.parts, at, k);
      var c := buf.heap.cells[at.chain.value];
      left := left - (c.off - at.inChain);
      at := Onward(at, c);
      k := k + 1;
      if k < |buf.chains| {
        OnwardWhere(buf.heap.cells, buf.chains, buf.parts, at, k);
      }
    }
    if at.chain.Some? {
      Ahead(buf.chains, buf.parts, at, k);
      ok, r := true, Ptr(at.pos + left, at.chain, at.inChain + left);
    } else {
      AtEnd(buf.chains, buf.parts, at, k);
      ok, r := false, NOT_FOUND;
    }
  }

  /** evbuffer_ptr_memcmp, as the searches use it: are the bytes at `p` exactly `mem`? */
  method SameAt(buf: Evbuffer, p: Ptr, ghost k0: nat, mem: seq<Byte>) returns (same: bool)
    requires buf.Valid() && Placed(buf, p, k0)
    ensures same <==> Occurs(buf.Contents(), p.pos, mem)
  {
    if p.pos + |mem| > buf.totalLen {
      return false;
    }
    var at, left := p, mem;
    ghost var k := k0;
    while left != [] && at.chain.Some?
      invariant Placed(buf, at, k) && at.pos + |left| <= buf.totalLen
      invariant Occurs(buf.Contents(), p.pos, mem) <==> Occurs(buf.Contents(), at.pos, left)
      decreases |buf.chains| - k
    {
      OnwardWhere(buf.heap.cells, buf.chains, buf.parts, at, k);
      var c := buf.heap.cells[at.chain.value];
      var n := if |left| + at.inChain > c.off then c.off - at.inChain else |left|;
      CompareStep(buf.chains, buf.parts, at, k, left, n);
      if Data(c)[at.inChain..at.inChain + n] != left[..n] {
        return false;
      }
      left := left[n..];
      at := if n == c.off - at.inChain then Onward(at, c) else at;
      if left == [] {
        return true;
      }
      k := k + 1;
    }
    if left != [] {
      AtEnd(buf.chains, buf.parts, at, k);
    }
    same := true;
  }

  lemma CompareStep(cs: seq<Addr>, parts: seq<seq<Byte>>, p: Ptr, k: nat, what: seq<Byte>, n: nat)
    requires Where(cs, parts, p, k) && k < |cs| && n <= |what| && p.inChain + n <= |parts[k]|
    requires p.pos + |what| <= |Concat(parts)|
    ensures Occurs(Concat(parts), p.pos, what) <==>
      parts[k][p.inChain..p.inChain + n] == what[..n] && Occurs(Concat(parts), p.pos + n, what[n..])
  {
    Ahead(cs, parts, p, k);
    var s := Concat(parts);
    assert s[p.pos..p.pos + n] == s[p.pos..][..n] == parts[k][p.inChain..p.inChain + n];
    assert s[p.pos..p.pos + |what|] == s[p.pos..p.pos + n] + s[p.pos + n..p.pos + |what|];
    assert what == what[..n] + what[n..];
  }

  // ---------- Searching for a string ----------

  /** The least index of a byte. */
  function Memchr(s: seq<Byte>, b: Byte): (r: Option<nat>)
    ensures r.Some? ==> r.value < |s| && s[r.value] == b && forall i :: 0 <= i < r.value ==> s[i] != b
    ensures r.None? ==> forall i :: 0 <= i < |s| ==> s[i] != b
  {
    if s == [] then None
    else if s[0] == b then Some(0)
    else match Memchr(s[1..], b) case None => None case Some(i) => Some(i + 1)
  }

  ghost predicate NoneBetween(s: seq<Byte>, from: int, to: int, what: seq<Byte>)
  {
    forall q :: from <= q < to ==> !Occurs(s, q, what)
  }

  lemma OccursHead(s: seq<Byte>, q: int, what: seq<Byte>)
    requires what != []
    ensures Occurs(s, q, what) ==> 0 <= q < |s| && s[q] == what[0]
  {
    if Occurs(s, q, what) {
      assert s[q] == s[q..q + |what|][0];
    }
  }

  /** Bytes of this chain that differ from the first byte of `what` start no occurrence. */
  lemma SkipBytes(cs: seq<Addr>, parts: seq<seq<Byte>>, p: Ptr, k: nat, n: nat, from: int, what: seq<Byte>)
    requires Where(cs, parts, p, k) && k < |cs| && p.inChain + n <= |parts[k]| && what != []
    requires NoneBetween(Concat(parts), from, p.pos, what)
    requires forall i :: p.inChain <= i < p.inChain + n ==> parts[k][i] != what[0]
    ensures NoneBetween(Concat(parts), from, p.pos + n, what)
  {
    ByteAhead(cs, parts, p, k);
    var s := Concat(parts);
    forall q | p.pos <= q < p.pos + n
      ensures !Occurs(s, q, what)
    {
      OccursHead(s, q, what);
    }
  }

  lemma PastEnd(s: seq<Byte>, from: int, at: int, what: seq<Byte>, to: int)
    requires NoneBetween(s, from, at, what) && what != [] && (at >= |s| || to <= at)
    ensures NoneBetween(s, from, to, what)
  {
  }

  lemma Different(m: Cells, cs: seq<Addr>, parts: seq<seq<Byte>>, i: nat, j: nat)
    requires List(m, cs, parts) && i < j < |cs|
    ensures cs[i] != cs[j]
  {
    SegmentAt(m, cs, parts, None, j);
    assert cs[..j][i] == cs[i];
  }

  /** Two positions in the same chain are at most its length apart. */
  lemma SameChain(m: Cells, cs: seq<Addr>, parts: seq<seq<Byte>>, p: Ptr, k: nat, q: Ptr, j: nat)
    requires List(m, cs, parts) && Where(cs, parts, p, k) && Where(cs, parts, q, j) && p.chain == q.chain && k < |cs|
    ensures k == j && q.pos <= p.pos + |parts[k]| - p.inChain
  {
    if k < j {
      Different(m, cs, parts, k, j);
    } else if j < k {
      Different(m, cs, parts, j, k);
    }
  }

  /** evbuffer_search_range: the least position from `start` on at which `what` occurs and, if `end` is
      given, ends by it. */
  method SearchRange(buf: Evbuffer, what: seq<Byte>, start: Ptr, ghost ks: nat, end: Option<Ptr>, ghost ke: nat)
    returns (r: Ptr, ghost kr: nat)
    requires buf.Valid() && Placed(buf, start, ks) && (end.Some? ==> Placed(buf, end.value, ke))
    ensures r.pos >= 0 ==> Placed(buf, r, kr)
    ensures what == [] ==> r == start
    ensures what != [] && r.pos >= 0 ==>
      && start.pos <= r.pos && Occurs(buf.Contents(), r.pos, what) && NoneBetween(buf.Contents(), start.pos, r.pos, what)
      && (end.Some? ==> r.pos + |what| <= end.value.pos)
    ensures r.pos < 0 ==> r == NOT_FOUND && NoneBetween(buf.Contents(), start.pos, if end.Some? then end.value.pos - |what| + 1 else buf.totalLen, what)
  {
    r, kr := start, ks;
    if what == [] {
      return;
    }
    ghost var limit := if end.Some? then end.value.pos - |what| + 1 else buf.totalLen;
    while r.chain.Some?
      invariant Placed(buf, r, kr) && start.pos <= r.pos
      invariant NoneBetween(buf.Contents(), start.pos, r.pos, what)
      decreases buf.totalLen - r.pos, |buf.chains| - kr
    {
      var found, at, same, next, kn := TryChain(buf, what, r, kr, start.pos);
      if found {
        if same {
          if end.Some? && at.pos + |what| > end.value.pos {
            PastEnd(buf.Contents(), start.pos, at.pos, what, limit);
            return NOT_FOUND, kr;
          }
          return at, kr;
        }
      } else if end.Some? && r.chain == end.value.chain {
        SameChain(buf.heap.cells, buf.chains, buf.parts, r, kr, end.value, ke);
        PastEnd(buf.Contents(), start.pos, next.pos, what, limit);
        return NOT_FOUND, kr;
      }
      r, kr := next, kn;
    }
    AtEnd(buf.chains, buf.parts, r, kr);
    PastEnd(buf.Contents(), start.pos, r.pos, what, limit);
    r := NOT_FOUND;
  }

  /** Look for the first byte of `what` in the chain at `r`; if it is there, compare, and otherwise or
      if the comparison fails step on. */
  method TryChain(buf: Evbuffer, what: seq<Byte>, r: Ptr, ghost kr: nat, ghost from: int)
    returns (found: bool, at: Ptr, same: bool, next: Ptr, ghost kn: nat)
    requires buf.Valid() && Placed(buf, r, kr) && r.chain.Some? && what != []
    requires NoneBetween(buf.Contents(), from, r.pos, what)
    ensures Placed(buf, next, kn) && buf.totalLen >= next.pos && (next.pos > r.pos || (next.pos == r.pos && kn > kr))
    ensures found && same ==>
      Placed(buf, at, kr) && at.pos >= r.pos && Occurs(buf.Contents(), at.pos, what) && NoneBetween(buf.Contents(), from, at.pos, what)
    ensures !(found && same) ==> NoneBetween(buf.Contents(), from, next.pos, what)
    ensures !found ==> kr < |buf.parts| && next.pos == r.pos + |buf.parts[kr]| - r.inChain
  {
    OnwardWhere(buf.heap.cells, buf.chains, buf.parts, r, kr);
    Ahead(buf.chains, buf.parts, r, kr);
    var c := buf.heap.cells[r.chain.value];
    var hit := Memchr(Data(c)[r.inChain..], what[0]);
    if hit.Some? {
      found, at := true, Ptr(r.pos + hit.value, r.chain, r.inChain + hit.value);
      SkipFound(buf, r, kr, hit.value, from, what);
      same := SameAt(buf, at, kr, what);
      if !same {
        NoneAt(buf.Contents(), from, at.pos, what);
      }
      next, kn := Ptr(at.pos + 1, at.chain, at.inChain + 1), kr;
      if next.inChain == c.off {
        next, kn := Onward(next, c), kr + 1;
      }
    } else {
      SkipFound(buf, r, kr, c.off - r.inChain, from, what);
      found, at, same, next, kn := false, r, false, Onward(r, c), kr + 1;
    }
  }

  lemma NoneAt(s: seq<Byte>, from: int, at: int, what: seq<Byte>)
    requires NoneBetween(s, from, at, what) && !Occurs(s, at, what)
    ensures NoneBetween(s, from, at + 1, what)
  {
  }

  lemma SkipFound(buf: Evbuffer, p: Ptr, k: nat, n: nat, from: int, what: seq<Byte>)
    requires buf.Valid() && Placed(buf, p, k) && k < |buf.chains| && p.inChain + n <= |buf.parts[k]| && what != []
    requires NoneBetween(buf.Contents(), from, p.pos, what)
    requires forall i :: 0 <= i < n ==> buf.parts[k][p.inChain..][i] != what[0]
    ensures NoneBetween(buf.Contents(), from, p.pos + n, what)
  {
    assert forall i :: p.inChain <= i < p.inChain + n ==> buf.parts[k][i] == buf.parts[k][p.inChain..][i - p.inChain];
    SkipBytes(buf.chains, buf.parts, p, k, n, from, what);
  }

  // ---------- Searching for the end of a line ----------

  datatype EolStyle = Any | CrLf | CrLfStrict | LfOnly

  const CHUNK: nat := 128

  predicate IsEol(b: Byte)
  {
    b == CR || b == LF
  }

  /** find_eol_char: the first CR or LF, looked for in chunks. */
  method FindEolChar(s: seq<Byte>) returns (r: Option<nat>)
    ensures r.Some? ==> r.value < |s| && IsEol(s[r.value]) && forall i :: 0 <= i < r.value ==> !IsEol(s[i])
    ensures r.None? ==> forall i :: 0 <= i < |s| ==> !IsEol(s[i])
  {
    var at: nat := 0;
    while at < |s|
      invariant forall i :: 0 <= i < at && i < |s| ==> !IsEol(s[i])
    {
      var chunk := s[at..if at + CHUNK < |s| then at + CHUNK else |s|];
      var cr, lf := Memchr(chunk, CR), Memchr(chunk, LF);
      assert forall i :: at <= i < at + |chunk| ==> s[i] == chunk[i - at];
      if cr.Some? {
        return Some(at + if lf.Some? && lf.value < cr.value then lf.value else cr.value);
      } else if lf.Some? {
        return Some(at + lf.value);
      }
      at := at + CHUNK;
    }
    r := None;
  }

  ghost predicate NoEol(s: seq<Byte>, from: int, to: int)
  {
    forall i :: from <= i < to && 0 <= i < |s| ==> !IsEol(s[i])
  }

  /** Extending a stretch without line ends by part of a chain without them. */
  lemma NoEolStep(cs: seq<Addr>, parts: seq<seq<Byte>>, p: Ptr, k: nat, n: nat, from: int)
    requires Where(cs, parts, p, k) && k < |cs| && p.inChain + n <= |parts[k]|
    requires NoEol(Concat(parts), from, p.pos)
    requires forall i :: p.inChain <= i < p.inChain + n ==> !IsEol(parts[k][i])
    ensures NoEol(Concat(parts), from, p.pos + n)
  {
    ByteAhead(cs, parts, p, k);
  }

  /** The first CR or LF in what is left of the chain at `r`. */
  method EolInChain(buf: Evbuffer, r: Ptr, ghost k: nat, ghost from: int) returns (hit: Option<nat>)
    requires buf.Valid() && Placed(buf, r, k) && r.chain.Some? && r.chain.value in buf.heap.cells
    requires Fits(buf.heap.cells[r.chain.value]) && k < |buf.parts| && buf.parts[k] == Data(buf.heap.cells[r.chain.value])
    requires NoEol(buf.Contents(), from, r.pos)
    ensures hit.Some? ==> r.inChain + hit.value < |buf.parts[k]| && r.pos + hit.value < |buf.Contents()|
    ensures hit.Some? ==> IsEol(buf.Contents()[r.pos + hit.value]) && NoEol(buf.Contents(), from, r.pos + hit.value)
    ensures hit.None? ==> NoEol(buf.Contents(), from, r.pos + |buf.parts[k]| - r.inChain)
  {
    ByteAhead(buf.chains, buf.parts, r, k);
    var rest := Data(buf.heap.cells[r.chain.value])[r.inChain..];
    hit := FindEolChar(rest);
    assert forall i :: r.inChain <= i < |buf.parts[k]| ==> buf.parts[k][i] == rest[i - r.inChain];
    NoEolStep(buf.chains, buf.parts, r, k, if hit.Some? then hit.value else |rest|, from);
  }

  /** evbuffer_find_eol_char: the first CR or LF at or after a position. */
  method FindEol(buf: Evbuffer, start: Ptr, ghost ks: nat) returns (found: bool, r: Ptr, ghost k: nat)
    requires buf.Valid() && Placed(buf, start, ks)
    ensures found ==> Placed(buf, r, k) && k < |buf.parts| && r.inChain < |buf.parts[k]| && r.pos >= start.pos
    ensures found ==> 0 <= r.pos < |buf.Contents()| && IsEol(buf.Contents()[r.pos]) && NoEol(buf.Contents(), start.pos, r.pos)
    ensures !found ==> NoEol(buf.Contents(), start.pos, buf.totalLen)
  {
    r, k := start, ks;
    while r.chain.Some?
      invariant Placed(buf, r, k) && start.pos <= r.pos && NoEol(buf.Contents(), start.pos, r.pos)
      decreases |buf.chains| - k
    {
      OnwardWhere(buf.heap.cells, buf.chains, buf.parts, r, k);
      var c := buf.heap.cells[r.chain.value];
      var hit := EolInChain(buf, r, k, start.pos);
      if hit.Some? {
        return true, Ptr(r.pos + hit.value, r.chain, r.inChain + hit.value), k;
      }
      r := Onward(r, c);
      k := k + 1;
    }
    AtEnd(buf.chains, buf.parts, r, k);
    found := false;
  }

  /** The length of the line end of the given style at `q`, if there is one. */
  ghost function EolAt(s: seq<Byte>, q: nat, style: EolStyle): nat
    requires q < |s|
  {
    match style
    case Any => Run(s, q)
    case CrLf => if s[q] == LF then 1 else if Occurs(s, q, [CR, LF]) then 2 else 0
    case CrLfStrict => if Occurs(s, q, [CR, LF]) then 2 else 0
    case LfOnly => if s[q] == LF then 1 else 0
  }

  /** How many CRs and LFs stand together from `q` on. */
  ghost function Run(s: seq<Byte>, q: int): nat
    decreases |s| - q
  {
    if 0 <= q < |s| && IsEol(s[q]) then 1 + Run(s, q + 1) else 0
  }

  /** The styles at a CR LF CR LF that follows one letter. */
  lemma EolSamples(s: seq<Byte>)
    requires s == [97, 13, 10, 13, 10]
    ensures EolAt(s, 0, Any) == EolAt(s, 0, CrLf) == EolAt(s, 0, CrLfStrict) == EolAt(s, 0, LfOnly) == 0
    ensures EolAt(s, 1, Any) == 4 && EolAt(s, 1, CrLf) == EolAt(s, 1, CrLfStrict) == 2 && EolAt(s, 1, LfOnly) == 0
    ensures EolAt(s, 2, Any) == 3 && EolAt(s, 2, CrLf) == EolAt(s, 2, LfOnly) == 1 && EolAt(s, 2, CrLfStrict) == 0
  {
    assert Run(s, 5) == 0 && Run(s, 4) == 1 && Run(s, 3) == 2 && Run(s, 2) == 3;
    assert Occurs(s, 1, [CR, LF]) && s[0] != CR && s[2] != CR;
  }

  /** evbuffer_search_eol: the least position at or after `start` with a line end of the style, and
      the length of that line end. */
  method SearchEol(buf: Evbuffer, start: Ptr, ghost ks: nat, style: EolStyle) returns (r: Ptr, eolLen: nat)
    requires buf.Valid() && Placed(buf, start, ks)
    ensures r.pos >= 0 ==> start.pos <= r.pos < |buf.Contents()| && eolLen == EolAt(buf.Contents(), r.pos, style) > 0
    ensures forall q :: 0 <= start.pos <= q < (if r.pos >= 0 then r.pos else |buf.Contents()|) ==> EolAt(buf.Contents(), q, style) == 0
    ensures r.pos < 0 ==> eolLen == 0 && r == NOT_FOUND
  {
    match style
    case Any => r, eolLen := SearchAny(buf, start, ks);
    case CrLf => r, eolLen := SearchCrLf(buf, start, ks);
    case CrLfStrict =>
      ghost var k;
      r, k := SearchRange(buf, [CR, LF], start, ks, None, 0);
      eolLen := if r.pos < 0 then 0 else 2;
    case LfOnly => r, eolLen := SearchLf(buf, start, ks);
  }

  method SearchAny(buf: Evbuffer, start: Ptr, ghost ks: nat) returns (r: Ptr, eolLen: nat)
    requires buf.Valid() && Placed(buf, start, ks)
    ensures r.pos >= 0 ==> start.pos <= r.pos < |buf.Contents()| && eolLen == Run(buf.Contents(), r.pos) > 0
    ensures forall q :: 0 <= start.pos <= q < (if r.pos >= 0 then r.pos else |buf.Contents()|) ==> Run(buf.Contents(), q) == 0
    ensures r.pos < 0 ==> eolLen == 0 && r == NOT_FOUND
  {
    var found, it, k := FindEol(buf, start, ks);
    if !found {
      return NOT_FOUND, 0;
    }
    eolLen := SpanEol(buf, it, k);
    r := it;
  }

  /** evbuffer_strspn with "\r\n". */
  method SpanEol(buf: Evbuffer, start: Ptr, ghost ks: nat) returns (count: nat)
    requires buf.Valid() && Placed(buf, start, ks) && start.chain.Some?
    ensures count == Run(buf.Contents(), start.pos)
  {
    var at := start;
    ghost var k := ks;
    count := 0;
    while true
      invariant Placed(buf, at, k) && at.chain.Some?
      invariant count + Run(buf.Contents(), at.pos) == Run(buf.Contents(), start.pos)
      decreases |buf.chains| - k
    {
      var n, whole := SpanChain(buf, at, k);
      count := count + n;
      if !whole {
        return;
      }
      OnwardWhere(buf.heap.cells, buf.chains, buf.parts, at, k);
      at := Onward(at, buf.heap.cells[at.chain.value]);
      k := k + 1;
      if at.chain == None {
        AtEnd(buf.chains, buf.parts, at, k);
        return;
      }
    }
  }

  /** Count the line-end bytes at the front of what is left of one chain. */
  method SpanChain(buf: Evbuffer, at: Ptr, ghost k: nat) returns (n: nat, whole: bool)
    requires buf.Valid() && Placed(buf, at, k) && at.chain.Some?
    ensures k < |buf.parts| && (whole ==> n == |buf.parts[k]| - at.inChain)
    ensures whole ==> Run(buf.Contents(), at.pos) == n + Run(buf.Contents(), at.pos + n)
    ensures !whole ==> Run(buf.Contents(), at.pos) == n
  {
    OnwardWhere(buf.heap.cells, buf.chains, buf.parts, at, k);
    ByteAhead(buf.chains, buf.parts, at, k);
    var data := Data(buf.heap.cells[at.chain.value]);
    n := 0;
    while at.inChain + n < |data|
      invariant at.inChain + n <= |data| && at.pos + n <= |buf.Contents()|
      invariant Run(buf.Contents(), at.pos) == n + Run(buf.Contents(), at.pos + n)
    {
      assert buf.Contents()[at.pos + n] == data[at.inChain + n];
      if !IsEol(data[at.inChain + n]) {
        return n, false;
      }
      n := n + 1;
    }
    whole := true;
  }

  method SearchCrLf(buf: Evbuffer, start: Ptr, ghost ks: nat) returns (r: Ptr, eolLen: nat)
    requires buf.Valid() && Placed(buf, start, ks)
    ensures r.pos >= 0 ==> start.pos <= r.pos < |buf.Contents()| && eolLen == EolAt(buf.Contents(), r.pos, CrLf) > 0
    ensures forall q :: 0 <= start.pos <= q < (if r.pos >= 0 then r.pos else |buf.Contents()|) ==> EolAt(buf.Contents(), q, CrLf) == 0
    ensures r.pos < 0 ==> eolLen == 0 && r == NOT_FOUND
  {
    var it := start;
    ghost var k := ks;
    while true
      invariant Placed(buf, it, k) && start.pos <= it.pos
      invariant forall q :: 0 <= start.pos <= q < it.pos && q < |buf.Contents()| ==> EolAt(buf.Contents(), q, CrLf) == 0
      decreases buf.totalLen - it.pos
    {
      var found, at, len, ka := NextEol(buf, it, k);
      if !found {
        return NOT_FOUND, 0;
      }
      if len > 0 {
        return at, len;
      }
      var ok, next, kn := PtrSet(buf, at, ka, 1, true);
      if !ok {
        return NOT_FOUND, 0;
      }
      it, k := next, kn;
    }
  }

  /** The next CR or LF, and the length of the line end it begins: none for a CR on its own. */
  method NextEol(buf: Evbuffer, it: Ptr, ghost k: nat) returns (found: bool, at: Ptr, len: nat, ghost ka: nat)
    requires buf.Valid() && Placed(buf, it, k)
    ensures found ==> Placed(buf, at, ka) && it.pos <= at.pos < |buf.Contents()| && len == EolAt(buf.Contents(), at.pos, CrLf)
    ensures forall q :: 0 <= it.pos <= q < (if found then at.pos else |buf.Contents()|) && q < |buf.Contents()| ==> EolAt(buf.Contents(), q, CrLf) == 0
  {
    found, at, ka := FindEol(buf, it, k);
    len := 0;
    NoCrLf(buf.Contents(), it.pos, if found then at.pos else |buf.Contents()|);
    if found {
      OnwardWhere(buf.heap.cells, buf.chains, buf.parts, at, ka);
      ByteAhead(buf.chains, buf.parts, at, ka);
      if Data(buf.heap.cells[at.chain.value])[at.inChain] == LF {
        len := 1;
      } else {
        var same := SameAt(buf, at, ka, [CR, LF]);
        if same {
          len := 2;
        }
      }
    }
  }

  /** A stretch without CR and LF holds no line end. */
  lemma NoCrLf(s: seq<Byte>, from: int, to: int)
    requires NoEol(s, from, to) && 0 <= from
    ensures forall q :: from <= q < to && q < |s| ==> EolAt(s, q, CrLf) == 0
  {
    forall q | from <= q < to && q < |s|
      ensures EolAt(s, q, CrLf) == 0
    {
      OccursHead(s, q, [CR, LF]);
    }
  }

  /** evbuffer_strchr for LF. */
  method SearchLf(buf: Evbuffer, start: Ptr, ghost ks: nat) returns (r: Ptr, eolLen: nat)
    requires buf.Valid() && Placed(buf, start, ks)
    ensures r.pos >= 0 ==> start.pos <= r.pos < |buf.Contents()| && eolLen == EolAt(buf.Contents(), r.pos, LfOnly) > 0
    ensures forall q :: 0 <= start.pos <= q < (if r.pos >= 0 then r.pos else |buf.Contents()|) ==> EolAt(buf.Contents(), q, LfOnly) == 0
    ensures r.pos < 0 ==> eolLen == 0 && r == NOT_FOUND
  {
    r := start;
    ghost var k := ks;
    while r.chain.Some?
      invariant Placed(buf, r, k) && start.pos <= r.pos
      invariant forall q :: 0 <= start.pos <= q < r.pos && q < |buf.Contents()| ==> buf.Contents()[q] != LF
      decreases |buf.chains| - k
    {
      OnwardWhere(buf.heap.cells, buf.chains, buf.parts, r, k);
      ByteAhead(buf.chains, buf.parts, r, k);
      var c := buf.heap.cells[r.chain.value];
      var rest := Data(c)[r.inChain..];
      var hit := Memchr(rest, LF);
      assert forall i :: r.inChain <= i < |buf.parts[k]| ==> buf.parts[k][i] == rest[i - r.inChain];
      if hit.Some? {
        return Ptr(r.pos + hit.value, r.chain, r.inChain + hit.value), 1;
      }
      r := Onward(r, c);
      k := k + 1;
    }
    AtEnd(buf.chains, buf.parts, r, k);
    return NOT_FOUND, 0;
  }
}
