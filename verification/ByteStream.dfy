/** A loop that consumes what has arrived of a byte stream, one item after another, and when splitting cannot matter. */
module ByteStream {
  import opened InPieces

  /** Why such a loop ends. */
  datatype Ending =
    | Waiting // for the rest of an item
    | Closed  // the connection is
    | Dropped // what follows is not looked at before the next arrival
    | Overrun // an item does not fit the buffer it is read into

  /** What the loop does at one point: `n` is how many bytes it takes. */
  datatype Step<T> = Wait | Skip(n: nat) | Deliver(n: nat, item: T) | Stop(n: nat, ending: Ending)

  datatype Result<T> = Result(items: seq<T>, rest: seq<int>, ending: Ending)

  /** A loop body takes only what is there, and when it does not wait, bytes that come later would change nothing. */
  ghost predicate SteadyAt<T>(f: seq<int> -> Step<T>, m: seq<int>, b: seq<int>)
  {
    && !f(m).Wait?
    ==> f(m).n <= |m| && (if f(m).Stop? then f(m).ending != Waiting else f(m).n > 0) && f(m + b) == f(m)
  }

  ghost predicate Steady<T>(f: seq<int> -> Step<T>)
  {
    forall m, b :: SteadyAt(f, m, b)
  }

  /** The whole loop, on the bytes alone. */
  ghost function Served<T>(f: seq<int> -> Step<T>, m: seq<int>): Result<T>
    requires Steady(f)
    decreases |m|
  {
    assert SteadyAt(f, m, []);
    match f(m)
    case Wait => Result([], m, Waiting)
    case Skip(n) => Served(f, m[n..])
    case Deliver(n, item) => Before([item], Served(f, m[n..]))
    case Stop(n, ending) => Result([], m[n..], ending)
  }

  function Before<T>(items: seq<T>, r: Result<T>): Result<T>
  {
    r.(items := items + r.items)
  }

  lemma BeforeTwice<T>(x: seq<T>, y: seq<T>, r: Result<T>)
    ensures Before(x, Before(y, r)) == Before(x + y, r)
  {
    assert x + (y + r.items) == x + y + r.items;
  }

  lemma NothingBefore<T>(r: Result<T>)
    ensures Before([], r) == r
  {
  }

  /** What serving `a` and then `b` comes to. */
  ghost function InTwo<T>(f: seq<int> -> Step<T>, first: Result<T>, b: seq<int>): Result<T>
    requires Steady(f)
  {
    if first.ending == Waiting then Before(first.items, Served(f, first.rest + b))
    else Result(first.items, first.rest + b, first.ending)
  }

  /**
   * However a stream is split, the same items come of it in the same order: going on with `b` where `a` was waiting is
   * as good as having had all the bytes at once; and where `a` stopped, more bytes would not have been looked at.
   */
  lemma {:induction false} SplitAnywhere<T>(f: seq<int> -> Step<T>, a: seq<int>, b: seq<int>, c: seq<int>)
    requires Steady(f) && c == a + b
    ensures Served(f, c) == InTwo(f, Served(f, a), b)
    decreases |a|
  {
    assert SteadyAt(f, a, b);
    match f(a)
    case Wait =>
      NothingBefore(Served(f, c));
    case Skip(n) =>
      assert c[n..] == a[n..] + b;
      SplitAnywhere(f, a[n..], b, c[n..]);
    case Deliver(n, item) =>
      assert c[n..] == a[n..] + b;
      SplitAnywhere(f, a[n..], b, c[n..]);
      var r := Served(f, a[n..]);
      if r.ending == Waiting {
        BeforeTwice([item], r.items, Served(f, r.rest + b));
      }
    case Stop(n, ending) =>
      assert c[n..] == a[n..] + b;
  }

  // ---------- Any number of arrivals ----------

  /** A loop that ended so takes up the bytes it left when the next ones arrive. */
  predicate Resumes(e: Ending)
  {
    e == Waiting || e == Dropped
  }

  function Unread<T>(r: Result<T>, b: seq<int>): Result<T>
  {
    r.(rest := r.rest + b)
  }

  /** The next arrival is served from where the last one stopped, unless the loop stopped for good. */
  ghost function Arrive<T>(f: seq<int> -> Step<T>, r: Result<T>, b: seq<int>): Result<T>
    requires Steady(f)
  {
    if Resumes(r.ending) then Before(r.items, Served(f, r.rest + b)) else Unread(r, b)
  }

  ghost function Onwards<T>(f: seq<int> -> Step<T>, r: Result<T>, arrivals: seq<seq<int>>): Result<T>
    requires Steady(f)
    decreases |arrivals|
  {
    if arrivals == [] then r else Onwards(f, Arrive(f, r, arrivals[0]), arrivals[1..])
  }

  function Start<T>(): Result<T>
  {
    Result([], [], Waiting)
  }

  /** What comes of a stream that arrives in these parts. */
  ghost function Arrivals<T>(f: seq<int> -> Step<T>, arrivals: seq<seq<int>>): Result<T>
    requires Steady(f)
  {
    Onwards(f, Start(), arrivals)
  }

  /** Serving that would go on past every dropped item. */
  ghost function Through<T>(f: seq<int> -> Step<T>, m: seq<int>): Result<T>
    requires Steady(f)
    decreases |m|
  {
    assert SteadyAt(f, m, []);
    match f(m)
    case Wait => Result([], m, Waiting)
    case Skip(n) => Through(f, m[n..])
    case Deliver(n, item) => Before([item], Through(f, m[n..]))
    case Stop(n, ending) => if ending == Dropped && n > 0 then Through(f, m[n..]) else Result([], m[n..], ending)
  }

  ghost function ThroughFrom<T>(f: seq<int> -> Step<T>, r: Result<T>, b: seq<int>): Result<T>
    requires Steady(f)
  {
    if Resumes(r.ending) then Before(r.items, Through(f, r.rest + b)) else Unread(r, b)
  }

  lemma {:induction false} ThroughSplit<T>(f: seq<int> -> Step<T>, a: seq<int>, b: seq<int>, c: seq<int>)
    requires Steady(f) && c == a + b
    ensures Through(f, c) == ThroughFrom(f, Served(f, a), b)
    decreases |a|
  {
    assert SteadyAt(f, a, b);
    match f(a)
    case Wait =>
      NothingBefore(Through(f, c));
    case Skip(n) =>
      assert c[n..] == a[n..] + b;
      ThroughSplit(f, a[n..], b, c[n..]);
    case Deliver(n, item) =>
      assert c[n..] == a[n..] + b;
      ThroughSplit(f, a[n..], b, c[n..]);
      var r := Served(f, a[n..]);
      BeforeTwice([item], r.items, Through(f, r.rest + b));
    case Stop(n, ending) =>
      assert c[n..] == a[n..] + b;
      NothingBefore(Through(f, c[n..]));
  }

  /** What a waiting loop has left it still waits for. */
  ghost predicate Standing<T>(f: seq<int> -> Step<T>, r: Result<T>)
  {
    r.ending == Waiting ==> f(r.rest).Wait?
  }

  lemma {:induction false} ServedStands<T>(f: seq<int> -> Step<T>, m: seq<int>)
    requires Steady(f)
    ensures Standing(f, Served(f, m))
    decreases |m|
  {
    assert SteadyAt(f, m, []);
    match f(m)
    case Wait =>
    case Skip(n) => ServedStands(f, m[n..]);
    case Deliver(n, item) => ServedStands(f, m[n..]);
    case Stop(n, ending) =>
  }

  lemma OneArrival<T>(f: seq<int> -> Step<T>, r: Result<T>, a: seq<int>, b: seq<int>, c: seq<int>)
    requires Steady(f) && c == a + b && Resumes(r.ending)
    ensures Standing(f, Arrive(f, r, a))
    ensures Before(r.items, Served(f, r.rest + c)) == InTwo(f, Arrive(f, r, a), b)
    ensures ThroughFrom(f, r, c) == ThroughFrom(f, Arrive(f, r, a), b)
  {
    var s := Served(f, r.rest + a);
    assert r.rest + c == r.rest + a + b;
    ServedStands(f, r.rest + a);
    SplitAnywhere(f, r.rest + a, b, r.rest + c);
    ThroughSplit(f, r.rest + a, b, r.rest + c);
    BeforeTwice(r.items, s.items, Served(f, s.rest + b));
    BeforeTwice(r.items, s.items, Through(f, s.rest + b));
  }

  /** Arrivals deliver at least what one arrival would, and come to the same if that does not end with a dropped item. */
  lemma {:induction false} AtLeastAtOnce<T>(f: seq<int> -> Step<T>, r: Result<T>, arrivals: seq<seq<int>>, c: seq<int>)
    requires Steady(f) && Standing(f, r) && c == Concat(arrivals)
    ensures InTwo(f, r, c).items <= Onwards(f, r, arrivals).items
    ensures InTwo(f, r, c).ending != Dropped ==> InTwo(f, r, c) == Onwards(f, r, arrivals)
    decreases |arrivals|
  {
    if arrivals == [] {
      assert r.rest + c == r.rest && r.items + [] == r.items;
    } else {
      var a, b := arrivals[0], Concat(arrivals[1..]);
      if Resumes(r.ending) {
        OneArrival(f, r, a, b, c);
      } else {
        assert r.rest + a + b == r.rest + c;
      }
      AtLeastAtOnce(f, Arrive(f, r, a), arrivals[1..], b);
    }
  }

  /** And at most what serving on past every dropped item would. */
  lemma {:induction false} AtMostThrough<T>(f: seq<int> -> Step<T>, r: Result<T>, arrivals: seq<seq<int>>, c: seq<int>)
    requires Steady(f) && c == Concat(arrivals)
    ensures Onwards(f, r, arrivals).items <= ThroughFrom(f, r, c).items
    decreases |arrivals|
  {
    if arrivals != [] {
      var a, b := arrivals[0], Concat(arrivals[1..]);
      AtMostThrough(f, Arrive(f, r, a), arrivals[1..], b);
      if Resumes(r.ending) {
        OneArrival(f, r, a, b, c);
      }
    }
  }

  /** Every split delivers at least `Served` and at most `Through`, and comes to `Served` unless that ends with a dropped
      item. */
  lemma ArrivalsBetween<T>(f: seq<int> -> Step<T>, arrivals: seq<seq<int>>, m: seq<int>)
    requires Steady(f) && f([]).Wait? && m == Concat(arrivals)
    ensures Served(f, m).items <= Arrivals(f, arrivals).items <= Through(f, m).items
    ensures Served(f, m).ending != Dropped ==> Arrivals(f, arrivals) == Served(f, m)
  {
    assert [] + m == m;
    AtLeastAtOnce(f, Start(), arrivals, m);
    AtMostThrough(f, Start(), arrivals, m);
    NothingBefore(Served(f, m));
    NothingBefore(Through(f, m));
  }

  // ---------- Byte by byte ----------

  /** With the byte that ends its waiting the body takes so much that it waits again for what it left. */
  ghost predicate PromptAt<T>(f: seq<int> -> Step<T>, m: seq<int>, x: int)
  {
    && f(m).Wait? && !f(m + [x]).Wait? && !(f(m + [x]).Stop? && f(m + [x]).ending != Dropped)
    ==> f(m + [x]).n <= |m| + 1 && f((m + [x])[f(m + [x]).n..]).Wait?
  }

  ghost predicate Prompt<T>(f: seq<int> -> Step<T>)
  {
    forall m, x :: PromptAt(f, m, x)
  }

  /** Nothing would come of what was left, even after a dropped item. */
  ghost predicate Idle<T>(f: seq<int> -> Step<T>, r: Result<T>)
  {
    Resumes(r.ending) ==> f(r.rest).Wait?
  }

  function Bytewise(m: seq<int>): (r: seq<seq<int>>)
    ensures |r| == |m| && forall i :: 0 <= i < |m| ==> r[i] == [m[i]]
  {
    seq(|m|, i requires 0 <= i < |m| => [m[i]])
  }

  lemma {:induction false} BytewiseWhole(m: seq<int>)
    ensures Concat(Bytewise(m)) == m
  {
    if m != [] {
      assert Bytewise(m)[1..] == Bytewise(m[1..]);
      BytewiseWhole(m[1..]);
      assert [m[0]] + m[1..] == m;
    }
  }

  lemma ByteKeepsIdle<T>(f: seq<int> -> Step<T>, r: Result<T>, x: int)
    requires Steady(f) && Prompt(f) && Idle(f, r)
    ensures Idle(f, Arrive(f, r, [x]))
  {
    if Resumes(r.ending) {
      var m := r.rest + [x];
      assert PromptAt(f, r.rest, x) && SteadyAt(f, m, []);
      match f(m)
      case Wait =>
      case Skip(n) => assert Served(f, m[n..]) == Result([], m[n..], Waiting);
      case Deliver(n, item) => assert Served(f, m[n..]) == Result([], m[n..], Waiting);
      case Stop(n, ending) =>
    }
  }

  /** Byte by byte everything comes that could come. */
  lemma {:induction false} BytewiseIsThrough<T>(f: seq<int> -> Step<T>, r: Result<T>, m: seq<int>)
    requires Steady(f) && Prompt(f) && Idle(f, r)
    ensures Onwards(f, r, Bytewise(m)).items == ThroughFrom(f, r, m).items
    decreases |m|
  {
    if m == [] {
      assert r.rest + m == r.rest && r.items + [] == r.items;
    } else {
      var x, tail := m[0], m[1..];
      assert Bytewise(m)[1..] == Bytewise(tail);
      ByteKeepsIdle(f, r, x);
      BytewiseIsThrough(f, Arrive(f, r, [x]), tail);
      if Resumes(r.ending) {
        OneArrival(f, r, [x], tail, m);
      }
    }
  }

  ghost predicate SplitOf(arrivals: seq<seq<int>>, m: seq<int>)
  {
    Concat(arrivals) == m && forall i :: 0 <= i < |arrivals| ==> arrivals[i] != []
  }

  /** However many arrivals a stream comes in, they deliver the same items, if and only if serving it at once does not end
      with a dropped item behind which something would have come. */
  lemma EverySplitAgreesIff<T>(f: seq<int> -> Step<T>, m: seq<int>)
    requires Steady(f) && Prompt(f) && f([]).Wait?
    ensures (forall arrivals :: SplitOf(arrivals, m) ==> Arrivals(f, arrivals).items == Served(f, m).items)
       <==> Served(f, m).ending != Dropped || Through(f, Served(f, m).rest).items == []
  {
    var s := Served(f, m);
    forall arrivals | SplitOf(arrivals, m)
      ensures s.items <= Arrivals(f, arrivals).items <= Through(f, m).items
    {
      ArrivalsBetween(f, arrivals, m);
    }
    BytewiseWhole(m);
    assert SplitOf(Bytewise(m), m);
    BytewiseIsThrough(f, Start(), m);
    assert [] + m == m;
    NothingBefore(Through(f, m));
    GoneThrough(f, m);
  }

  /** Going on past the dropped items adds what comes behind the first. */
  lemma GoneThrough<T>(f: seq<int> -> Step<T>, m: seq<int>)
    requires Steady(f)
    ensures Through(f, m).items ==
      if Served(f, m).ending == Dropped then Served(f, m).items + Through(f, Served(f, m).rest).items else Served(f, m).items
  {
    var s := Served(f, m);
    assert m + [] == m && s.rest + [] == s.rest && s.items + [] == s.items;
    ThroughSplit(f, m, [], m);
    ServedStands(f, m);
  }

  // ---------- Counting pieces ----------

  /** How many of the pieces of these sizes lie wholly within the first `n` bytes. */
  function Whole(z: seq<int>, n: int): (k: nat)
    ensures k <= |z|
  {
    if z == [] || n < z[0] then 0 else 1 + Whole(z[1..], n - z[0])
  }

  /** How many of the first `n` bytes belong to none of them. */
  function Left(z: seq<int>, n: int): int
  {
    if z == [] || n < z[0] then n else Left(z[1..], n - z[0])
  }

  function Sum(z: seq<int>): int
  {
    if z == [] then 0 else z[0] + Sum(z[1..])
  }

  /** The whole stream contains every piece, and nothing is left over. */
  lemma {:induction false} WholeStream(z: seq<int>, n: int)
    requires n == Sum(z) && forall i :: 0 <= i < |z| ==> z[i] > 0
    ensures Whole(z, n) == |z| && Left(z, n) == 0
    decreases |z|
  {
    if z != [] {
      SumPositive(z[1..]);
      WholeStream(z[1..], n - z[0]);
    }
  }

  lemma {:induction false} SumPositive(z: seq<int>)
    requires forall i :: 0 <= i < |z| ==> z[i] > 0
    ensures Sum(z) >= 0
  {
    if z != [] {
      SumPositive(z[1..]);
    }
  }

  // ---------- Streams made of whole items ----------

  /** From these bytes, whatever follows them, comes this item; and any part of them is waited for. */
  ghost predicate Makes<T(!new)>(f: seq<int> -> Step<T>, e: seq<int>, item: T)
  {
    && e != []
    && (forall m :: e <= m ==> f(m) == Deliver(|e|, item))
    && (forall m :: m <= e && |m| < |e| ==> f(m).Wait?)
  }

  function Sizes(pieces: seq<seq<int>>): (z: seq<int>)
    ensures |z| == |pieces| && forall i :: 0 <= i < |z| ==> z[i] == |pieces[i]|
  {
    seq(|pieces|, i requires 0 <= i < |pieces| => |pieces[i]|)
  }

  lemma {:induction false} ConcatSizes(pieces: seq<seq<int>>, z: seq<int>)
    requires z == Sizes(pieces)
    ensures |Concat(pieces)| == Sum(z)
    decreases |pieces|
  {
    if pieces != [] {
      assert z[1..] == Sizes(pieces[1..]);
      ConcatSizes(pieces[1..], z[1..]);
    }
  }

  lemma WholePieces(pieces: seq<seq<int>>)
    requires forall i :: 0 <= i < |pieces| ==> pieces[i] != []
    ensures Whole(Sizes(pieces), |Concat(pieces)|) == |pieces|
    ensures Left(Sizes(pieces), |Concat(pieces)|) == 0
  {
    var z := Sizes(pieces);
    ConcatSizes(pieces, z);
    WholeStream(z, Sum(z));
  }

  ghost predicate AllMake<T(!new)>(f: seq<int> -> Step<T>, pieces: seq<seq<int>>, items: seq<T>)
  {
    |pieces| == |items| && forall i :: 0 <= i < |pieces| ==> Makes(f, pieces[i], items[i])
  }

  lemma AllMakeTail<T(!new)>(f: seq<int> -> Step<T>, pieces: seq<seq<int>>, items: seq<T>)
    requires AllMake(f, pieces, items) && pieces != []
    ensures AllMake(f, pieces[1..], items[1..])
  {
    forall i | 0 <= i < |pieces[1..]|
      ensures Makes(f, pieces[1..][i], items[1..][i])
    {
      assert Makes(f, pieces[i + 1], items[i + 1]);
    }
  }

  /** What comes of the first piece, when it is there. */
  lemma FirstServed<T(!new)>(f: seq<int> -> Step<T>, e: seq<int>, item: T, tail: seq<int>, m: seq<int>, rest: seq<int>)
    requires Steady(f) && Makes(f, e, item) && m <= e + tail && |e| <= |m| && rest == m[|e|..]
    ensures rest <= tail && Served(f, m) == Before([item], Served(f, rest))
  {
    assert m[..|e|] == (e + tail)[..|e|] == e;
    assert rest == tail[..|m| - |e|];
  }

  lemma FirstWaits<T(!new)>(f: seq<int> -> Step<T>, e: seq<int>, item: T, tail: seq<int>, m: seq<int>)
    requires Steady(f) && Makes(f, e, item) && m <= e + tail && |m| < |e|
    ensures Served(f, m) == Result([], m, Waiting)
  {
    assert m == (e + tail)[..|m|] == e[..|m|];
  }

  lemma OneMore<T>(items: seq<T>, w: nat, more: seq<T>)
    requires w < |items| && more == items[1..]
    ensures items[..w + 1] == [items[0]] + more[..w]
  {
  }

  /** Of such a stream, the items that have wholly arrived are delivered, and the rest is waited for. */
  lemma {:induction false} PiecesServed<T(!new)>(f: seq<int> -> Step<T>, pieces: seq<seq<int>>, items: seq<T>,
                                                 z: seq<int>, m: seq<int>)
    requires Steady(f) && f([]).Wait?
    requires AllMake(f, pieces, items) && z == Sizes(pieces) && m <= Concat(pieces)
    ensures Served(f, m).items == items[..Whole(z, |m|)] && |Served(f, m).rest| == Left(z, |m|)
    ensures Served(f, m).ending == Waiting
    decreases |pieces|
  {
    if pieces == [] {
      assert m == [];
      return;
    }
    var e, tail := pieces[0], Concat(pieces[1..]);
    assert Makes(f, e, items[0]);
    if |m| < |e| {
      FirstWaits(f, e, items[0], tail, m);
    } else {
      var rest, more := m[|e|..], items[1..];
      FirstServed(f, e, items[0], tail, m, rest);
      AllMakeTail(f, pieces, items);
      PiecesServed(f, pieces[1..], more, z[1..], rest);
      OneMore(items, Whole(z[1..], |rest|), more);
    }
  }

  /** After an item that is dropped a whole one is delivered if it arrives by itself, and left lying if both arrive
      together. */
  lemma DropThenItem<T(!new)>(f: seq<int> -> Step<T>, w: seq<int>, e: seq<int>, item: T)
    requires Steady(f) && f([]).Wait? && Makes(f, e, item)
    requires forall m :: w <= m ==> f(m) == Stop(|w|, Dropped)
    ensures Served(f, w + e) == Result([], e, Dropped)
    ensures Arrivals(f, [w, e]).items == [item]
  {
    assert w <= w + e && (w + e)[|w|..] == e;
    assert w <= w && w[|w|..] == [] && [] + w == w;
    var r := Arrive(f, Start(), w);
    assert r == Result([], [], Dropped);
    ItemArrives(f, r, e, item);
    assert [w, e][1..] == [e];
  }

  lemma ItemArrives<T(!new)>(f: seq<int> -> Step<T>, r: Result<T>, e: seq<int>, item: T)
    requires Steady(f) && f([]).Wait? && Makes(f, e, item) && r == Result([], [], Dropped)
    ensures Onwards(f, r, [e]).items == [item]
  {
    assert [] + e == e && e[|e|..] == [] && [e][1..] == [];
    assert f(e) == Deliver(|e|, item);
    assert Served(f, e).items == [item];
    assert Onwards(f, r, [e]) == Arrive(f, r, e);
  }
}
