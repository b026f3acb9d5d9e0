/** The chained hash table: growing it relinks every element once, by either of two paths. */
module HashTable {
  import opened Lists

  datatype Elem<K> = Elem(id: nat, key: K)

  /** The bucket array, each bucket with the elements chained from it. */
  type Buckets<K> = seq<seq<Elem<K>>>

  const PRIMES: seq<nat> := [
    53, 97, 193, 389, 769, 1543, 3079, 6151, 12289, 24593, 49157, 98317, 196613, 393241, 786433, 1572869,
    3145739, 6291469, 12582917, 25165843, 50331653, 100663319, 201326611, 402653189, 805306457, 1610612741]

  /** The load factor is one half. */
  function LoadLimit(len: nat): nat
  {
    len / 2
  }

  // ---------- What a table holds ----------

  /** Every element, as often as it is in a bucket. */
  ghost function Bag<K>(t: Buckets<K>): multiset<Elem<K>>
  {
    if t == [] then multiset{} else multiset(t[0]) + Bag(t[1..])
  }

  lemma SumUnder<T>(m: multiset<T>, a: multiset<T>, b: multiset<T>, c: multiset<T>, d: multiset<T>)
    requires a + b == c + d
    ensures m + a + b == m + c + d
  {
    assert m + a + b == m + (a + b);
  }

  lemma Cancel<T>(a: multiset<T>, b: multiset<T>, c: multiset<T>)
    requires a + c == b + c
    ensures a == b
  {
    forall e
      ensures a[e] == b[e]
    {
      assert (a + c)[e] == (b + c)[e];
    }
  }

  lemma {:induction false} BagUpdate<K>(t: Buckets<K>, b: nat, l: seq<Elem<K>>)
    requires b < |t|
    ensures Bag(t[b := l]) + multiset(t[b]) == Bag(t) + multiset(l)
    decreases |t|
  {
    if b == 0 {
      assert t[b := l][1..] == t[1..];
    } else {
      BagUpdate(t[1..], b - 1, l);
      assert t[b := l][1..] == t[1..][b - 1 := l] && t[b := l][0] == t[0];
      SumUnder(multiset(t[0]), Bag(t[1..][b - 1 := l]), multiset(t[b]), Bag(t[1..]), multiset(l));
    }
  }

  lemma {:induction false} BagHas<K>(t: Buckets<K>, e: Elem<K>)
    ensures e in Bag(t) <==> exists b :: 0 <= b < |t| && e in t[b]
    decreases |t|
  {
    if t != [] {
      BagHas(t[1..], e);
      if e in Bag(t[1..]) {
        var b :| 0 <= b < |t[1..]| && e in t[1..][b];
        assert e in t[b + 1];
      }
      if exists b :: 0 <= b < |t| && e in t[b] {
        var b :| 0 <= b < |t| && e in t[b];
        assert b > 0 ==> e in t[1..][b - 1];
      }
    }
  }

  /** Empty buckets at the end add nothing. */
  lemma {:induction false} BagPad<K>(t: Buckets<K>, pad: Buckets<K>)
    requires forall b :: 0 <= b < |pad| ==> pad[b] == []
    ensures Bag(t + pad) == Bag(t)
    decreases |t|, |pad|
  {
    if t != [] {
      BagPad(t[1..], pad);
      assert (t + pad)[1..] == t[1..] + pad;
    } else if pad != [] {
      BagPad(t, pad[1..]);
      assert (t + pad)[1..] == t + pad[1..];
    }
  }

  /** The chain with its element `j` unlinked. */
  function Unlink<K>(l: seq<Elem<K>>, j: nat): seq<Elem<K>>
    requires j < |l|
  {
    l[..j] + l[j + 1..]
  }

  lemma UnlinkOne<K>(l: seq<Elem<K>>, j: nat)
    requires j < |l|
    ensures multiset(l) == multiset(Unlink(l, j)) + multiset{l[j]}
  {
    assert l == l[..j] + [l[j]] + l[j + 1..];
  }

  function Pushed<K>(t: Buckets<K>, e: Elem<K>, b: nat): Buckets<K>
    requires b < |t|
  {
    t[b := [e] + t[b]]
  }

  lemma Regroup<T>(a: multiset<T>, b: multiset<T>, c: multiset<T>, d: multiset<T>)
    requires d == b + c
    ensures a + d == a + b + c
  {
  }

  lemma PushBag<K>(t: Buckets<K>, e: Elem<K>, b: nat)
    requires b < |t|
    ensures Bag(Pushed(t, e, b)) == Bag(t) + multiset{e}
  {
    BagUpdate(t, b, [e] + t[b]);
    Regroup(Bag(t), multiset{e}, multiset(t[b]), multiset([e] + t[b]));
    Cancel(Bag(Pushed(t, e, b)), Bag(t) + multiset{e}, multiset(t[b]));
  }

  lemma UnlinkBag<K>(t: Buckets<K>, b: nat, j: nat)
    requires b < |t| && j < |t[b]|
    ensures Bag(t[b := Unlink(t[b], j)]) + multiset{t[b][j]} == Bag(t)
  {
    var rest := Unlink(t[b], j);
    var t' := t[b := rest];
    BagUpdate(t, b, rest);
    UnlinkOne(t[b], j);
    Regroup(Bag(t'), multiset{t[b][j]}, multiset(rest), multiset(t[b]));
    Cancel(Bag(t') + multiset{t[b][j]}, Bag(t), multiset(rest));
  }

  function Moved<K>(t: Buckets<K>, from: nat, j: nat, to: nat): Buckets<K>
    requires from < |t| && to < |t| && j < |t[from]|
  {
    t[from := Unlink(t[from], j)][to := [t[from][j]] + t[to]]
  }

  /** Moving one element from one bucket to the front of another keeps what the table holds. */
  lemma BagMove<K>(t: Buckets<K>, from: nat, j: nat, to: nat)
    requires from < |t| && to < |t| && from != to && j < |t[from]|
    ensures Bag(Moved(t, from, j, to)) == Bag(t)
  {
    var rest, e := Unlink(t[from], j), t[from][j];
    var t' := t[from := rest];
    UnlinkBag(t, from, j);
    PushBag(t', e, to);
  }

  /** Everything in this bucket belongs in bucket `b` of `len`. */
  ghost predicate PlacedIn<K(!new)>(l: seq<Elem<K>>, b: nat, len: nat, hash: K -> nat)
    requires len > 0
  {
    forall e :: e in l ==> hash(e.key) % len == b
  }

  ghost predicate Placed<K(!new)>(t: Buckets<K>, hash: K -> nat)
  {
    forall b :: 0 <= b < |t| ==> PlacedIn(t[b], b, |t|, hash)
  }

  /** A bag holds exactly the elements of a finite map from keys, each of them once. */
  ghost predicate Models<K(!new)>(s: multiset<Elem<K>>, m: map<K, Elem<K>>)
  {
    && (forall e :: s[e] == if e.key in m && m[e.key] == e then 1 else 0)
    && (forall k :: k in m ==> m[k].key == k)
  }

  /** An element of the table is in the bucket its key hashes to, and in no other. */
  lemma InItsBucket<K(!new)>(t: Buckets<K>, hash: K -> nat, e: Elem<K>)
    requires |t| > 0 && Placed(t, hash)
    ensures e in Bag(t) <==> e in t[hash(e.key) % |t|]
  {
    BagHas(t, e);
    if e in Bag(t) {
      var b :| 0 <= b < |t| && e in t[b];
      assert PlacedIn(t[b], b, |t|, hash);
    }
  }

  lemma PushPlaced<K(!new)>(t: Buckets<K>, e: Elem<K>, b: nat, hash: K -> nat)
    requires b < |t| && Placed(t, hash) && hash(e.key) % |t| == b
    ensures Placed(Pushed(t, e, b), hash)
    ensures Bag(Pushed(t, e, b)) == Bag(t) + multiset{e}
  {
    var t' := Pushed(t, e, b);
    PushBag(t, e, b);
    forall c | 0 <= c < |t'|
      ensures PlacedIn(t'[c], c, |t'|, hash)
    {
      assert PlacedIn(t[c], c, |t|, hash);
    }
  }

  // ---------- Growing ----------

  /** Unlinks a whole chain from its front, pushing each element where it now belongs. */
  method PushAll<K(!new)>(t0: Buckets<K>, chain: seq<Elem<K>>, hash: K -> nat) returns (t: Buckets<K>)
    requires |t0| > 0 && Placed(t0, hash)
    ensures |t| == |t0| && Placed(t, hash) && Bag(t) == Bag(t0) + multiset(chain)
  {
    t := t0;
    var elm := chain;
    while elm != []
      invariant |t| == |t0| && Placed(t, hash)
      invariant Bag(t) + multiset(elm) == Bag(t0) + multiset(chain)
      decreases |elm|
    {
      var e, next := elm[0], elm[1..];
      var b2 := hash(e.key) % |t|;
      PushPlaced(t, e, b2, hash);
      assert elm == [e] + next;
      Regroup(Bag(t), multiset{e}, multiset(next), multiset(elm));
      t := Pushed(t, e, b2);
      elm := next;
    }
  }

  /** Path one: a fresh array. */
  method Relink<K(!new)>(oldTable: Buckets<K>, hash: K -> nat, len: nat) returns (t: Buckets<K>)
    requires len > 0
    ensures |t| == len && Placed(t, hash) && Bag(t) == Bag(oldTable)
  {
    t := seq(len, _ => []);
    BagPad<K>([], t);
    assert [] + t == t;
    var b := 0;
    assert oldTable[0..] == oldTable;
    while b < |oldTable|
      invariant 0 <= b <= |oldTable|
      invariant |t| == len && Placed(t, hash)
      invariant Bag(t) + Bag(oldTable[b..]) == Bag(oldTable)
    {
      assert oldTable[b..][1..] == oldTable[b + 1..];
      Regroup(Bag(t), multiset(oldTable[b]), Bag(oldTable[b + 1..]), Bag(oldTable[b..]));
      t := PushAll(t, oldTable[b], hash);
      b := b + 1;
    }
  }

  /** The buckets outside `b .. n` hold only what belongs there. */
  ghost predicate Settled<K(!new)>(t: Buckets<K>, b: nat, n: nat, hash: K -> nat)
  {
    forall c :: 0 <= c < |t| && (c < b || n <= c) ==> PlacedIn(t[c], c, |t|, hash)
  }

  lemma MoveSettles<K(!new)>(t: Buckets<K>, b: nat, j: nat, b2: nat, n: nat, hash: K -> nat)
    requires b < n <= |t| && j < |t[b]| && b2 == hash(t[b][j].key) % |t| && b2 != b
    requires Settled(t, b, n, hash)
    requires PlacedIn(t[b][..j], b, |t|, hash)
    ensures Settled(Moved(t, b, j, b2), b, n, hash)
    ensures Moved(t, b, j, b2)[b] == Unlink(t[b], j) && Unlink(t[b], j)[..j] == t[b][..j]
  {
    var t' := Moved(t, b, j, b2);
    forall c | 0 <= c < |t'| && (c < b || n <= c)
      ensures PlacedIn(t'[c], c, |t'|, hash)
    {
      assert PlacedIn(t[c], c, |t|, hash);
    }
  }

  /** Walks chain `b`, moving what does not belong there any more to the front of the chain where it does. */
  method Settle<K(!new)>(t0: Buckets<K>, b: nat, n: nat, hash: K -> nat) returns (t: Buckets<K>)
    requires b < n <= |t0|
    requires Settled(t0, b, n, hash)
    ensures |t| == |t0| && Settled(t, b + 1, n, hash) && Bag(t) == Bag(t0)
  {
    t := t0;
    var j := 0;
    while j < |t[b]|
      invariant |t| == |t0| && 0 <= j <= |t[b]|
      invariant Settled(t, b, n, hash)
      invariant PlacedIn(t[b][..j], b, |t|, hash)
      invariant Bag(t) == Bag(t0)
      decreases |t[b]| - j
    {
      var e := t[b][j];
      var b2 := hash(e.key) % |t|;
      if b2 == b {
        assert t[b][..j + 1] == t[b][..j] + [e];
        j := j + 1;
      } else {
        BagMove(t, b, j, b2);
        MoveSettles(t, b, j, b2, n, hash);
        t := Moved(t, b, j, b2);
      }
    }
    assert t[b][..j] == t[b];
  }

  /** Path two: the array is extended where it is, and the old buckets are walked. */
  method RelinkInPlace<K(!new)>(oldTable: Buckets<K>, hash: K -> nat, len: nat) returns (t: Buckets<K>)
    requires len > 0 && |oldTable| <= len
    ensures |t| == len && Placed(t, hash) && Bag(t) == Bag(oldTable)
  {
    var n := |oldTable|;
    var pad: Buckets<K> := seq(len - n, _ => []);
    t := oldTable + pad;
    BagPad(oldTable, pad);
    var b := 0;
    while b < n
      invariant 0 <= b <= n && |t| == len
      invariant Settled(t, b, n, hash)
      invariant Bag(t) == Bag(oldTable)
    {
      t := Settle(t, b, n, hash);
      b := b + 1;
    }
  }

  /** Some later prime in the list is large enough. */
  ghost predicate StopsInside(primes: seq<nat>, idx: int, size: nat)
  {
    exists i :: 0 <= i < |primes| && idx < i && LoadLimit(primes[i]) > size
  }

  /** A list of lengths to grow through: each is more than twice as long as a table need be for the one before. */
  ghost predicate Rising(primes: seq<nat>)
  {
    && primes != []
    && (forall i :: 0 <= i < |primes| ==> LoadLimit(primes[i]) > 0)
    && (forall i, j :: 0 <= i < j < |primes| ==> primes[i] < primes[j] && LoadLimit(primes[i]) <= LoadLimit(primes[j]))
  }

  ghost predicate RisesNext(primes: seq<nat>, i: nat)
    requires i + 1 < |primes|
  {
    1 < primes[i] < primes[i + 1]
  }

  lemma {:induction false} RisesOn(primes: seq<nat>, i: nat, j: nat)
    requires i < j < |primes|
    requires forall k :: 0 <= k < |primes| - 1 ==> RisesNext(primes, k)
    ensures 1 < primes[i] < primes[j]
    decreases j
  {
    assert RisesNext(primes, j - 1);
    if i < j - 1 {
      RisesOn(primes, i, j - 1);
    }
  }

  lemma StepwiseRising(primes: seq<nat>)
    requires |primes| > 1
    requires forall k :: 0 <= k < |primes| - 1 ==> RisesNext(primes, k)
    ensures Rising(primes)
  {
    forall i, j | 0 <= i < j < |primes|
      ensures primes[i] < primes[j] && LoadLimit(primes[i]) <= LoadLimit(primes[j])
    {
      RisesOn(primes, i, j);
    }
    forall i | 0 <= i < |primes|
      ensures LoadLimit(primes[i]) > 0
    {
      RisesOn(primes, if i == 0 then 0 else i - 1, if i == 0 then 1 else i);
    }
  }

  lemma PrimesRiseAt(k: nat)
    requires k < |PRIMES| - 1
    ensures 1 < PRIMES[k] < PRIMES[k + 1]
  {
  }

  lemma PrimesRise()
    ensures Rising(PRIMES) && LoadLimit(PRIMES[|PRIMES| - 1]) == 805306370
  {
    forall k | 0 <= k < |PRIMES| - 1
      ensures RisesNext(PRIMES, k)
    {
      PrimesRiseAt(k);
    }
    StepwiseRising(PRIMES);
  }

  /** The search for a prime stays inside the list exactly when the largest load limit exceeds the request. */
  lemma StopsInsideIff(primes: seq<nat>, idx: int, size: nat)
    requires Rising(primes) && -1 <= idx < |primes| - 1
    ensures StopsInside(primes, idx, size) <==> size < LoadLimit(primes[|primes| - 1])
  {
    var z := |primes| - 1;
    assert LoadLimit(primes[z]) > 0;
    if StopsInside(primes, idx, size) {
      var i :| 0 <= i < |primes| && idx < i && LoadLimit(primes[i]) > size;
      assert i < z ==> LoadLimit(primes[i]) <= LoadLimit(primes[z]);
    }
  }

  /** The do-while loop that picks the new length: the least later prime that is large enough. None stands for reading
      on behind the list, as the code does if there is none. */
  method PickPrime(primes: seq<nat>, idx: int, size: nat) returns (r: Option<nat>)
    requires -1 <= idx < |primes| - 1
    ensures r == None <==> !StopsInside(primes, idx, size)
    ensures r.Some? ==> idx < r.value < |primes| && LoadLimit(primes[r.value]) > size
    ensures r.Some? ==> forall k :: 0 <= k < |primes| && idx < k < r.value ==> LoadLimit(primes[k]) <= size
  {
    var i := idx + 1;
    var newLen := primes[i];
    while LoadLimit(newLen) <= size && i < |primes|
      invariant idx < i < |primes| && newLen == primes[i]
      invariant forall k :: 0 <= k < |primes| && idx < k < i ==> LoadLimit(primes[k]) <= size
      decreases |primes| - i
    {
      i := i + 1;
      if i == |primes| {
        return None;
      }
      newLen := primes[i];
    }
    r := Some(i);
  }

  /** How growing ends: well, without memory, or by reading behind the list of primes. */
  datatype Growth = Grown | NoMemory | PastPrimes

  // ---------- Walking ----------

  /** The elements in the order of the buckets, each chain from its front. */
  ghost function Flat<K>(t: Buckets<K>): seq<Elem<K>>
  {
    if t == [] then [] else t[0] + Flat(t[1..])
  }

  /** A cursor: the address of a link, by its bucket and its place in the chain. */
  datatype Cursor = Cursor(bucket: nat, place: nat)

  ghost predicate Points<K>(t: Buckets<K>, c: Cursor)
  {
    c.bucket < |t| && c.place < |t[c.bucket]|
  }

  /** What a walk standing at `c` has yet to visit, beginning with the element `c` points to. */
  ghost function Ahead<K>(t: Buckets<K>, c: Option<Cursor>): seq<Elem<K>>
    requires c.Some? ==> Points(t, c.value)
  {
    match c
    case None => []
    case Some(p) => t[p.bucket][p.place..] + Flat(t[p.bucket + 1..])
  }

  lemma {:induction false} FlatBag<K>(t: Buckets<K>)
    ensures multiset(Flat(t)) == Bag(t)
  {
    if t != [] {
      FlatBag(t[1..]);
    }
  }

  lemma Onward<T>(before: seq<T>, e: T, rest: seq<T>)
    ensures before + ([e] + rest) == before + [e] + rest
  {
  }

  lemma SliceStep<T>(l: seq<T>, j: nat, rest: seq<T>)
    requires j < |l|
    ensures l[j..] + rest == [l[j]] + (l[j + 1..] + rest)
    ensures j + 1 == |l| ==> l[j..] + rest == [l[j]] + rest
  {
  }

  /** What is ahead of a place in a chain, and in the chains after it. */
  lemma ChainStep<K>(t: Buckets<K>, c: Cursor, d: Option<Cursor>, l: seq<Elem<K>>, rest: seq<Elem<K>>)
    requires Points(t, c) && l == t[c.bucket] && rest == Flat(t[c.bucket + 1..])
    requires if c.place + 1 < |l| then d == Some(Cursor(c.bucket, c.place + 1))
             else (d.Some? ==> Points(t, d.value)) && Ahead(t, d) == rest
    ensures d.Some? ==> Points(t, d.value)
    ensures Ahead(t, Some(c)) == [l[c.place]] + Ahead(t, d)
  {
    SliceStep(l, c.place, rest);
  }

  /** The scan that HT_START and HT_NEXT share: the first chain at or after bucket `from`. */
  method FirstFrom<K>(t: Buckets<K>, from: nat) returns (c: Option<Cursor>)
    requires from <= |t|
    ensures c.Some? ==> Points(t, c.value)
    ensures Ahead(t, c) == Flat(t[from..])
  {
    var b := from;
    while b < |t|
      invariant from <= b <= |t|
      invariant Flat(t[b..]) == Flat(t[from..])
    {
      assert t[b..][1..] == t[b + 1..];
      if t[b] != [] {
        return Some(Cursor(b, 0));
      }
      b := b + 1;
    }
    c := None;
  }

  // ---------- Tables and maps ----------

  lemma ModelsMore<K(!new)>(s: multiset<Elem<K>>, s': multiset<Elem<K>>, e: Elem<K>, m: map<K, Elem<K>>)
    requires Models(s, m) && e.key !in m
    requires s' == s + multiset{e}
    ensures Models(s', m[e.key := e])
  {
  }

  lemma ModelsLess<K(!new)>(s: multiset<Elem<K>>, s': multiset<Elem<K>>, e: Elem<K>, m: map<K, Elem<K>>)
    requires Models(s, m) && e.key in m && m[e.key] == e
    requires s' + multiset{e} == s
    ensures Models(s', m - {e.key})
  {
    forall x
      ensures s'[x] == if x.key in m - {e.key} && m[x.key] == x then 1 else 0
    {
      assert (s' + multiset{e})[x] == s[x];
    }
  }

  lemma ModelsBack<K(!new)>(s: multiset<Elem<K>>, s': multiset<Elem<K>>, e: Elem<K>, m: map<K, Elem<K>>)
    requires Models(s, m - {e.key})
    requires s' == s + multiset{e}
    ensures Models(s', m[e.key := e])
  {
    ModelsMore(s, s', e, m - {e.key});
    assert (m - {e.key})[e.key := e] == m[e.key := e];
  }

  lemma MapMore<K, V>(m: map<K, V>, k: K, v: V)
    ensures |m[k := v]| == if k in m then |m| else |m| + 1
  {
    assert m[k := v].Keys == m.Keys + {k};
  }

  lemma MapLess<K, V>(m: map<K, V>, k: K)
    ensures |m - {k}| == if k in m then |m| - 1 else |m|
    ensures k !in m ==> m - {k} == m
  {
    assert (m - {k}).Keys == m.Keys - {k};
  }

  lemma SwapOne<T>(t': multiset<T>, bare: multiset<T>, rest: multiset<T>, r: multiset<T>, e: multiset<T>)
    requires t' + (rest + r) == bare + r + (rest + e)
    ensures t' == bare + e
  {
    Cancel(t', bare + e, rest + r);
  }

  lemma AppendPlaced<K(!new)>(t: Buckets<K>, e: Elem<K>, b: nat, hash: K -> nat)
    requires b < |t| && Placed(t, hash) && hash(e.key) % |t| == b
    ensures Placed(t[b := t[b] + [e]], hash)
    ensures Bag(t[b := t[b] + [e]]) == Bag(t) + multiset{e}
  {
    var t' := t[b := t[b] + [e]];
    BagUpdate(t, b, t[b] + [e]);
    Regroup(Bag(t), multiset{e}, multiset(t[b]), multiset(t[b] + [e]));
    Cancel(Bag(t'), Bag(t) + multiset{e}, multiset(t[b]));
    forall c | 0 <= c < |t'|
      ensures PlacedIn(t'[c], c, |t'|, hash)
    {
      assert PlacedIn(t[c], c, |t|, hash);
    }
  }

  lemma UnlinkPlaced<K(!new)>(t: Buckets<K>, b: nat, j: nat, hash: K -> nat)
    requires b < |t| && j < |t[b]| && Placed(t, hash)
    ensures Placed(t[b := Unlink(t[b], j)], hash)
  {
    var t' := t[b := Unlink(t[b], j)];
    forall c | 0 <= c < |t'|
      ensures PlacedIn(t'[c], c, |t'|, hash)
    {
      assert PlacedIn(t[c], c, |t|, hash);
    }
  }

  /** A bag that holds each element of a map once has as many elements as the map has keys. */
  lemma {:induction false} CountIs<K(!new)>(s: multiset<Elem<K>>, m: map<K, Elem<K>>)
    requires Models(s, m)
    ensures |s| == |m|
    decreases |m|
  {
    if m == map[] {
      assert s == multiset{};
    } else {
      var k :| k in m;
      var e := m[k];
      var s', m' := s - multiset{e}, m - {k};
      assert s[e] == 1;
      assert s == s' + multiset{e};
      ModelsLess(s, s', e, m);
      CountIs(s', m');
      assert m == m'[k := e];
    }
  }

  /** What is found in the bucket of its key is what the map has for that key. */
  lemma FoundIs<K(!new)>(t: Buckets<K>, hash: K -> nat, m: map<K, Elem<K>>, b: nat, j: nat)
    requires b < |t| && j < |t[b]| && Placed(t, hash) && Models(Bag(t), m)
    ensures t[b][j].key in m && m[t[b][j].key] == t[b][j]
  {
    var e := t[b][j];
    assert PlacedIn(t[b], b, |t|, hash);
    InItsBucket(t, hash, e);
    assert Bag(t)[e] > 0;
  }

  /** What is not in the bucket of its key is not in the map. */
  lemma MissedIs<K(!new)>(t: Buckets<K>, hash: K -> nat, m: map<K, Elem<K>>, k: K)
    requires Placed(t, hash) && Models(Bag(t), m)
    requires t != [] ==> forall e :: e in t[hash(k) % |t|] ==> e.key != k
    ensures k !in m
  {
    if k in m {
      assert Bag(t)[m[k]] == 1;
      InItsBucket(t, hash, m[k]);
    }
  }

  lemma RemovedFacts<K(!new)>(t: Buckets<K>, hash: K -> nat, m: map<K, Elem<K>>, b: nat, j: nat, k: K,
                              t': Buckets<K>)
    requires b < |t| && j < |t[b]| && Placed(t, hash) && Models(Bag(t), m) && t[b][j].key == k
    requires t' == t[b := Unlink(t[b], j)]
    ensures k in m && m[k] == t[b][j]
    ensures Placed(t', hash) && Models(Bag(t'), m - {k})
  {
    FoundIs(t, hash, m, b, j);
    UnlinkBag(t, b, j);
    UnlinkPlaced(t, b, j, hash);
    ModelsLess(Bag(t), Bag(t'), t[b][j], m);
  }

  lemma AppendedFacts<K(!new)>(t: Buckets<K>, hash: K -> nat, m: map<K, Elem<K>>, b: nat, e: Elem<K>, t': Buckets<K>)
    requires |t| > 0 && b == hash(e.key) % |t| && Placed(t, hash) && Models(Bag(t), m) && e.key !in m
    requires t' == t[b := t[b] + [e]]
    ensures Placed(t', hash) && Models(Bag(t'), m[e.key := e])
  {
    AppendPlaced(t, e, b, hash);
    ModelsMore(Bag(t), Bag(t'), e, m);
  }

  lemma ReplacedBag<K>(t: Buckets<K>, b: nat, j: nat, e: Elem<K>, bare: Buckets<K>, t': Buckets<K>)
    requires b < |t| && j < |t[b]|
    requires bare == t[b := Unlink(t[b], j)] && t' == t[b := t[b][j := e]]
    ensures Bag(t') == Bag(bare) + multiset{e}
  {
    var r, l := t[b][j], t[b][j := e];
    UnlinkBag(t, b, j);
    BagUpdate(t, b, l);
    UnlinkOne(t[b], j);
    UnlinkOne(l, j);
    assert Unlink(l, j) == Unlink(t[b], j);
    SwapOne(Bag(t'), Bag(bare), multiset(Unlink(l, j)), multiset{r}, multiset{e});
  }

  lemma ReplacedPlaced<K(!new)>(t: Buckets<K>, b: nat, j: nat, e: Elem<K>, hash: K -> nat)
    requires b < |t| && j < |t[b]| && Placed(t, hash) && b == hash(e.key) % |t|
    ensures Placed(t[b := t[b][j := e]], hash)
  {
    var t' := t[b := t[b][j := e]];
    forall c | 0 <= c < |t'|
      ensures PlacedIn(t'[c], c, |t'|, hash)
    {
      assert PlacedIn(t[c], c, |t|, hash);
    }
  }

  lemma ReplacedModels<K(!new)>(t: Buckets<K>, hash: K -> nat, m: map<K, Elem<K>>, b: nat, j: nat, e: Elem<K>,
                                bare: Buckets<K>, t': Buckets<K>)
    requires b < |t| && j < |t[b]| && Placed(t, hash) && Models(Bag(t), m) && t[b][j].key == e.key
    requires bare == t[b := Unlink(t[b], j)]
    requires Bag(t') == Bag(bare) + multiset{e}
    ensures e.key in m && m[e.key] == t[b][j]
    ensures Models(Bag(t'), m[e.key := e])
  {
    var k := e.key;
    RemovedFacts(t, hash, m, b, j, k, bare);
    ModelsBack(Bag(bare), Bag(t'), e, m);
  }

  lemma ReplacedFacts<K(!new)>(t: Buckets<K>, hash: K -> nat, m: map<K, Elem<K>>, b: nat, j: nat, e: Elem<K>,
                               t': Buckets<K>)
    requires b < |t| && j < |t[b]| && Placed(t, hash) && Models(Bag(t), m)
    requires b == hash(e.key) % |t| && t[b][j].key == e.key
    requires t' == t[b := t[b][j := e]]
    ensures e.key in m && m[e.key] == t[b][j]
    ensures Placed(t', hash) && Models(Bag(t'), m[e.key := e])
  {
    var bare := t[b := Unlink(t[b], j)];
    ReplacedBag(t, b, j, e, bare, t');
    ReplacedPlaced(t, b, j, e, hash);
    ReplacedModels(t, hash, m, b, j, e, bare, t');
  }

  // ---------- The table ----------

  class Table<K(!new, ==)> {
    const hash: K -> nat
    const primes: seq<nat>
    var table: Buckets<K>
    var nEntries: nat
    var loadLimit: nat
    var primeIdx: int
    ghost var model: map<K, Elem<K>>

    /** The load limit of the longest table: 805306370 for the list of primes. */
    ghost function MostElements(): nat
      requires Rising(primes)
    {
      LoadLimit(primes[|primes| - 1])
    }

    /** Everything but the count. */
    ghost predicate Shaped()
      reads this
    {
      && Rising(primes)
      && -1 <= primeIdx < |primes|
      && (primeIdx == -1 ==> table == [] && loadLimit == 0)
      && (primeIdx >= 0 ==> |table| == primes[primeIdx] > 0 && loadLimit == LoadLimit(|table|))
      && Placed(table, hash)
      && Models(Bag(table), model)
    }

    ghost predicate Valid()
      reads this
    {
      Shaped() && nEntries == |model|
    }

    constructor (hash: K -> nat)
      ensures Valid() && model == map[] && this.hash == hash && primes == PRIMES
    {
      this.hash, primes, table, nEntries, loadLimit, primeIdx := hash, PRIMES, [], 0, 0, -1;
      model := map[];
      new;
      PrimesRise();
    }

    /** The bucket an element is chained from. */
    function BucketOf(k: K): (b: nat)
      requires table != []
      reads this
      ensures b < |table|
    {
      hash(k) % |table|
    }

    /** HT_FIND_P on one chain: the place of the first element with key `k`, or the chain's end. */
    static method PlaceOf(l: seq<Elem<K>>, k: K) returns (j: nat)
      ensures j <= |l|
      ensures j < |l| ==> l[j].key == k
      ensures j == |l| ==> forall e :: e in l ==> e.key != k
    {
      j := 0;
      while j < |l|
        invariant 0 <= j <= |l|
        invariant forall i :: 0 <= i < j ==> l[i].key != k
      {
        if l[j].key == k {
          return;
        }
        j := j + 1;
      }
    }

    method Find(k: K) returns (r: Option<Elem<K>>)
      requires Shaped()
      ensures r == if k in model then Some(model[k]) else None
    {
      if table == [] {
        MissedIs(table, hash, model, k);
        return None;
      }
      var l := table[BucketOf(k)];
      var j := PlaceOf(l, k);
      if j < |l| {
        FoundIs(table, hash, model, BucketOf(k), j);
        r := Some(l[j]);
      } else {
        MissedIs(table, hash, model, k);
        r := None;
      }
    }

    /**
     * HT_GROW. Of the two paths the first is taken if the allocation succeeds, the other if the reallocation
     * does; without either the table stays as it was.
     */
    method Grow(size: nat, mallocOk: bool, reallocOk: bool) returns (r: Growth)
      requires Shaped()
      modifies `table, `loadLimit, `primeIdx
      ensures Shaped() && primeIdx >= old(primeIdx)
      ensures Bag(table) == old(Bag(table))
      ensures r == if old(primeIdx) == |primes| - 1 || old(loadLimit) > size then Grown
        else if size >= MostElements() then PastPrimes else if mallocOk || reallocOk then Grown else NoMemory
      ensures r == Grown && old(primeIdx) < |primes| - 1 ==> loadLimit > size && table != []
      ensures r != Grown ==> table == old(table) && primeIdx == old(primeIdx) && loadLimit == old(loadLimit)
    {
      if primeIdx == |primes| - 1 {
        return Grown;
      }
      if loadLimit > size {
        return Grown;
      }
      StopsInsideIff(primes, primeIdx, size);
      var i := PickPrime(primes, primeIdx, size);
      if i == None {
        return PastPrimes;
      }
      var newLen := primes[i.value];
      assert LoadLimit(newLen) > 0;
      assert primeIdx >= 0 ==> primes[primeIdx] < newLen;
      var ok := Resize(newLen, mallocOk, reallocOk);
      if !ok {
        return NoMemory;
      }
      primeIdx := i.value;
      loadLimit := LoadLimit(newLen);
      r := Grown;
    }

    method Resize(newLen: nat, mallocOk: bool, reallocOk: bool) returns (ok: bool)
      requires newLen > 0 && |table| <= newLen
      modifies `table
      ensures ok <==> mallocOk || reallocOk
      ensures ok ==> |table| == newLen && Placed(table, hash)
      ensures Bag(table) == old(Bag(table))
      ensures !ok ==> table == old(table)
    {
      if mallocOk {
        table := Relink(table, hash, newLen);
      } else if reallocOk {
        table := RelinkInPlace(table, hash, newLen);
      } else {
        return false;
      }
      ok := true;
    }

    /** Growing cannot read past the list of primes, and there is or will be a bucket to put the element in. */
    ghost predicate CanInsert(mallocOk: bool, reallocOk: bool)
      requires Rising(primes)
      reads this
    {
      && (primeIdx == |primes| - 1 || nEntries < loadLimit || nEntries + 1 < MostElements())
      && (table != [] || mallocOk || reallocOk)
    }

    method MakeRoom(mallocOk: bool, reallocOk: bool)
      requires Valid() && CanInsert(mallocOk, reallocOk)
      modifies `table, `loadLimit, `primeIdx
      ensures Valid() && table != []
      ensures (mallocOk || reallocOk) && primeIdx < |primes| - 1 ==> nEntries < loadLimit
    {
      if table == [] || nEntries >= loadLimit {
        var _ := Grow(nEntries + 1, mallocOk, reallocOk);
      }
    }

    /** HT_INSERT, for a key that is not in the table. */
    method Insert(e: Elem<K>, mallocOk: bool, reallocOk: bool)
      requires Valid() && e.key !in model
      requires CanInsert(mallocOk, reallocOk)
      modifies this
      ensures Valid() && model == old(model)[e.key := e]
      ensures (mallocOk || reallocOk) && primeIdx < |primes| - 1 ==> nEntries <= loadLimit
    {
      MakeRoom(mallocOk, reallocOk);
      nEntries := nEntries + 1;
      var b := BucketOf(e.key);
      PushPlaced(table, e, b, hash);
      ModelsMore(Bag(table), Bag(Pushed(table, e, b)), e, model);
      MapMore(model, e.key, e);
      table := Pushed(table, e, b);
      model := model[e.key := e];
    }

    /**
     * HT_REPLACE. The count is right afterwards exactly if the element was not itself in the table: finding the
     * very element it was given, the code counts it once more.
     */
    method Replace(e: Elem<K>, mallocOk: bool, reallocOk: bool) returns (r: Option<Elem<K>>)
      requires Valid() && CanInsert(mallocOk, reallocOk)
      modifies this
      ensures Shaped() && model == old(model)[e.key := e]
      ensures r == if e.key in old(model) && old(model)[e.key] != e then Some(old(model)[e.key]) else None
      ensures Valid() <==> !(e.key in old(model) && old(model)[e.key] == e)
    {
      MakeRoom(mallocOk, reallocOk);
      MapMore(model, e.key, e);
      r := Put(e);
      if r == None {
        nEntries := nEntries + 1;
      }
    }

    /** Over the element with this key, or at the end of the chain. */
    method Put(e: Elem<K>) returns (r: Option<Elem<K>>)
      requires Shaped() && table != []
      modifies `table, `model
      ensures Shaped() && model == old(model)[e.key := e]
      ensures r == if e.key in old(model) && old(model)[e.key] != e then Some(old(model)[e.key]) else None
    {
      var b := BucketOf(e.key);
      var l := table[b];
      var j := PlaceOf(l, e.key);
      if j < |l| {
        var oldElm, t' := l[j], table[b := l[j := e]];
        ReplacedFacts(table, hash, model, b, j, e, t');
        table := t';
        r := if oldElm != e then Some(oldElm) else None;
      } else {
        var t' := table[b := l + [e]];
        MissedIs(table, hash, model, e.key);
        AppendedFacts(table, hash, model, b, e, t');
        table := t';
        r := None;
      }
      model := model[e.key := e];
    }

    /** HT_REMOVE. */
    method Remove(k: K) returns (r: Option<Elem<K>>)
      requires Valid()
      modifies `table, `nEntries, `model
      ensures Valid() && model == old(model) - {k}
      ensures r == if k in old(model) then Some(old(model)[k]) else None
    {
      MapLess(model, k);
      if table == [] {
        MissedIs(table, hash, model, k);
        return None;
      }
      r := Take(k);
      if r != None {
        nEntries := nEntries - 1;
      }
    }

    /** Unlinks the element with this key. */
    method Take(k: K) returns (r: Option<Elem<K>>)
      requires Shaped() && table != []
      modifies `table, `model
      ensures Shaped() && model == old(model) - {k}
      ensures r == if k in old(model) then Some(old(model)[k]) else None
    {
      var b := BucketOf(k);
      var l := table[b];
      var j := PlaceOf(l, k);
      if j < |l| {
        var t' := table[b := Unlink(l, j)];
        RemovedFacts(table, hash, model, b, j, k, t');
        table := t';
        r := Some(l[j]);
      } else {
        MissedIs(table, hash, model, k);
        r := None;
      }
      model := model - {k};
    }

    /** HT_START. */
    method Start() returns (c: Option<Cursor>)
      ensures c.Some? ==> Points(table, c.value)
      ensures Ahead(table, c) == Flat(table)
    {
      c := FirstFrom(table, 0);
      assert table[0..] == table;
    }

    /** HT_NEXT: it goes on from the bucket that the element's own hash names. */
    method Next(c: Cursor) returns (d: Option<Cursor>)
      requires Placed(table, hash) && Points(table, c)
      ensures d.Some? ==> Points(table, d.value)
      ensures Ahead(table, Some(c)) == [table[c.bucket][c.place]] + Ahead(table, d)
    {
      var l := table[c.bucket];
      if c.place + 1 < |l| {
        d := Some(Cursor(c.bucket, c.place + 1));
      } else {
        assert PlacedIn(l, c.bucket, |table|, hash);
        d := FirstFrom(table, BucketOf(l[c.place].key) + 1);
      }
      ChainStep(table, c, d, l, Flat(table[c.bucket + 1..]));
    }

    /** HT_FOREACH. */
    method Walk() returns (visited: seq<Elem<K>>)
      requires Placed(table, hash)
      ensures visited == Flat(table)
    {
      visited := [];
      var c := Start();
      while c.Some?
        invariant c.Some? ==> Points(table, c.value)
        invariant visited + Ahead(table, c) == Flat(table)
        decreases |Ahead(table, c)|
      {
        var e := table[c.value.bucket][c.value.place];
        var d := Next(c.value);
        Onward(visited, e, Ahead(table, d));
        visited := visited + [e];
        c := d;
      }
    }

    /** A walk visits every element of the table exactly once, and nothing else. */
    method Visit() returns (visited: seq<Elem<K>>)
      requires Valid()
      ensures |visited| == nEntries
      ensures Models(multiset(visited), model)
    {
      visited := Walk();
      FlatBag(table);
      CountIs(multiset(visited), model);
    }
  }
}
