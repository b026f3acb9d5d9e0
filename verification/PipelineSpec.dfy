/** The IO and logic threads over plain queues: the interleaving model with each ring replaced by
    the sequence of nodes waiting in it. Pipeline.dfy shows that the rings refine it. */
module PipelineSpec {
  import opened Lists

  datatype Kind = Client | Disconnect

  datatype Msg = Msg(step: nat, kind: Kind, body: int)

  /** Where the IO thread is in cb_read or close_connect. `Overflow` is push's assert branch. */
  datatype IoPc =
    | Idle
    | Filling(node: nat, kind: Kind, body: int)
    | Stamped(node: nat, kind: Kind)
    | Checked(node: nat, kind: Kind)
    | Written(node: nat, kind: Kind)
    | Overflow

  /** Where the logic thread is in handle_io. `Crashed` stands for its assert branch, for a pop that
      returned no message and for a free that found the pool full. */
  datatype LgPc =
    | Peek1
    | Slot1
    | Peek2(cg: Option<nat>)
    | Slot2(cg: Option<nat>)
    | Choose(cg: Option<nat>, gg: Option<nat>)
    | PopCheck(kind: Kind)
    | PopRead(kind: Kind)
    | PopClear(kind: Kind, node: nat)
    | PopAdvance(kind: Kind, node: nat)
    | Handle(kind: Kind, node: nat)
    | Release(kind: Kind, node: nat)
    | Crashed

  datatype Action = IoAlloc(kind: Kind, body: int) | IoDiscard | IoNext | LgNext

  /** `log` and `handled` record the messages in the order they were published and handled. */
  datatype Abs = Abs(
    mem: seq<Msg>,
    free: seq<nat>,
    clients: seq<nat>,
    discs: seq<nat>,
    lastStep: nat,
    io: IoPc,
    lg: LgPc,
    log: seq<Msg>,
    handled: seq<Msg>)

  function Node(mem: seq<Msg>, n: nat): Msg
  {
    if n < |mem| then mem[n] else Msg(0, Client, 0)
  }

  function Store(mem: seq<Msg>, n: nat, m: Msg): (r: seq<Msg>)
    ensures |r| == |mem|
    ensures forall x: nat :: x != n ==> Node(r, x) == Node(mem, x)
    ensures n < |mem| ==> Node(r, n) == m
  {
    if n < |mem| then mem[n := m] else mem
  }

  function Pend(s: Abs, k: Kind): seq<nat>
  {
    if k.Client? then s.clients else s.discs
  }

  function SetPend(s: Abs, k: Kind, q: seq<nat>): Abs
  {
    if k.Client? then s.(clients := q) else s.(discs := q)
  }

  // ---------- Steps ----------

  function AAlloc(s: Abs, k: Kind, body: int): Abs
  {
    if s.free == [] then s
    else s.(free := s.free[..|s.free| - 1], io := Filling(s.free[|s.free| - 1], k, body))
  }

  function ADiscard(s: Abs): Abs
    requires s.io.Filling?
  {
    if |s.free| == |s.mem| then s.(io := Overflow) else s.(free := s.free + [s.io.node], io := Idle)
  }

  /** A slot being taken still counts against the ring's room. */
  function Used(s: Abs, k: Kind): nat
  {
    |Pend(s, k)| + if (s.lg.PopClear? || s.lg.PopAdvance?) && s.lg.kind == k then 1 else 0
  }

  function AStamp(s: Abs, n: nat, k: Kind, body: int): Abs
  {
    s.(mem := Store(s.mem, n, Msg(s.lastStep + 1, k, body)), lastStep := s.lastStep + 1, io := Stamped(n, k))
  }

  function APublish(s: Abs, n: nat, k: Kind): Abs
  {
    SetPend(s, k, Pend(s, k) + [n]).(io := Idle, log := s.log + [Node(s.mem, n)])
  }

  function AIo(s: Abs): Abs
  {
    match s.io
    case Filling(n, k, body) => AStamp(s, n, k, body)
    case Stamped(n, k) => s.(io := if Used(s, k) == |s.mem| then Overflow else Checked(n, k))
    case Checked(n, k) => s.(io := Written(n, k))
    case Written(n, k) => APublish(s, n, k)
    case _ => s
  }

  function ChooseNext(mem: seq<Msg>, cg: Option<nat>, gg: Option<nat>): LgPc
  {
    match (cg, gg)
    case (None, None) => Peek1
    case (Some(_), None) => PopCheck(Client)
    case (None, Some(_)) => PopCheck(Disconnect)
    case (Some(c), Some(g)) =>
      if Node(mem, c).step < Node(mem, g).step then PopCheck(Client)
      else if Node(mem, g).step < Node(mem, c).step then PopCheck(Disconnect)
      else Crashed
  }

  function Head(q: seq<nat>): Option<nat>
  {
    if q == [] then None else Some(q[0])
  }

  function ARelease(s: Abs, n: nat): Abs
  {
    if |s.free| == |s.mem| then s.(lg := Crashed) else s.(lg := Peek1, free := s.free + [n])
  }

  /** pop's slot read: the node leaves the queue for the logic thread's hand. */
  function ATake(s: Abs, k: Kind): Abs
  {
    if Pend(s, k) == [] then s.(lg := Crashed) else SetPend(s, k, Pend(s, k)[1..]).(lg := PopClear(k, Pend(s, k)[0]))
  }

  /** The steps of the logic thread that only look around or tidy the ring. */
  function NextPc(s: Abs): LgPc
  {
    match s.lg
    case Peek1 => if s.clients == [] then Peek2(None) else Slot1
    case Slot1 => Peek2(Head(s.clients))
    case Peek2(cg) => if s.discs == [] then Choose(cg, None) else Slot2(cg)
    case Slot2(cg) => Choose(cg, Head(s.discs))
    case Choose(cg, gg) => ChooseNext(s.mem, cg, gg)
    case PopCheck(k) => if Pend(s, k) == [] then Crashed else PopRead(k)
    case PopClear(k, n) => PopAdvance(k, n)
    case PopAdvance(k, n) => Handle(k, n)
    case _ => s.lg
  }

  function ALg(s: Abs): Abs
  {
    if s.lg.PopRead? then ATake(s, s.lg.kind)
    else if s.lg.Handle? then s.(lg := Release(s.lg.kind, s.lg.node), handled := s.handled + [Node(s.mem, s.lg.node)])
    else if s.lg.Release? then ARelease(s, s.lg.node)
    else s.(lg := NextPc(s))
  }

  function AStep(s: Abs, a: Action): Abs
  {
    match a
    case IoAlloc(k, body) => if s.io.Idle? then AAlloc(s, k, body) else s
    case IoDiscard => if s.io.Filling? then ADiscard(s) else s
    case IoNext => AIo(s)
    case LgNext => ALg(s)
  }

  function AInit(n: nat): Abs
  {
    Abs(seq(n, _ => Msg(0, Client, 0)), seq(n, i => i), [], [], 0, Idle, Peek1, [], [])
  }

  // ---------- Conservation of nodes ----------

  function Occurrences(q: seq<nat>, x: nat): nat
  {
    multiset(q)[x]
  }

  function InIoHand(io: IoPc, x: nat): nat
  {
    if (io.Filling? || io.Stamped? || io.Checked? || io.Written?) && io.node == x then 1 else 0
  }

  function InLgHand(lg: LgPc, x: nat): nat
  {
    if (lg.PopClear? || lg.PopAdvance? || lg.Handle? || lg.Release?) && lg.node == x then 1 else 0
  }

  function Places(s: Abs, x: nat): nat
  {
    Occurrences(s.free, x) + Occurrences(s.clients, x) + Occurrences(s.discs, x) + InIoHand(s.io, x) + InLgHand(s.lg, x)
  }

  /** Every node is in exactly one place: free, waiting in one ring, or in one thread's hand. */
  ghost predicate Conserved(s: Abs)
  {
    forall x: nat :: Places(s, x) == if x < |s.mem| then 1 else 0
  }

  function AllNodes(n: nat): seq<nat>
  {
    seq(n, i => i)
  }

  lemma {:induction false} AllNodesFacts(n: nat)
    ensures |multiset(AllNodes(n))| == n
    ensures forall x: nat :: Occurrences(AllNodes(n), x) == if x < n then 1 else 0
  {
    if n > 0 {
      AllNodesFacts(n - 1);
      assert AllNodes(n) == AllNodes(n - 1) + [n - 1];
      forall x: nat
        ensures Occurrences(AllNodes(n), x) == if x < n then 1 else 0
      {
        SnocCount(AllNodes(n - 1), n - 1, x);
      }
    } else {
      assert AllNodes(0) == [];
    }
  }

  function IoBag(io: IoPc): multiset<nat>
  {
    if io.Filling? || io.Stamped? || io.Checked? || io.Written? then multiset{io.node} else multiset{}
  }

  function LgBag(lg: LgPc): multiset<nat>
  {
    if lg.PopClear? || lg.PopAdvance? || lg.Handle? || lg.Release? then multiset{lg.node} else multiset{}
  }

  /** Nobody ever finds a container full: push has room and free has room. */
  lemma NeverFull(s: Abs)
    requires Conserved(s)
    ensures |s.free| + |s.clients| + |s.discs| + |IoBag(s.io)| + |LgBag(s.lg)| == |s.mem|
  {
    AllNodesFacts(|s.mem|);
    var m := multiset(s.free) + multiset(s.clients) + multiset(s.discs) + IoBag(s.io) + LgBag(s.lg);
    forall x: nat
      ensures m[x] == multiset(AllNodes(|s.mem|))[x]
    {
      assert m[x] == Places(s, x) == Occurrences(AllNodes(|s.mem|), x);
    }
    assert m == multiset(AllNodes(|s.mem|));
  }

  /** A node in one place is in no other. */
  lemma Apart(s: Abs, n: nat)
    requires Conserved(s)
    ensures InIoHand(s.io, n) == 1 ==> n < |s.mem| && n !in s.clients && n !in s.discs && InLgHand(s.lg, n) == 0
    ensures InLgHand(s.lg, n) == 1 || n in s.clients || n in s.discs ==> n < |s.mem|
  {
    assert Places(s, n) == if n < |s.mem| then 1 else 0;
  }

  lemma SnocCount(q: seq<nat>, y: nat, x: nat)
    ensures Occurrences(q + [y], x) == Occurrences(q, x) + if x == y then 1 else 0
  {
  }

  lemma ConsCount(q: seq<nat>, x: nat)
    requires q != []
    ensures Occurrences(q, x) == Occurrences(q[1..], x) + if x == q[0] then 1 else 0
  {
    assert q == [q[0]] + q[1..];
  }

  lemma LastCount(q: seq<nat>, x: nat)
    requires q != []
    ensures Occurrences(q, x) == Occurrences(q[..|q| - 1], x) + if x == q[|q| - 1] then 1 else 0
  {
    assert q == q[..|q| - 1] + [q[|q| - 1]];
  }

  lemma IoPlaces(s: Abs, x: nat)
    requires s.io.Stamped? ==> Used(s, s.io.kind) != |s.mem|
    ensures Places(AIo(s), x) == Places(s, x)
  {
    if s.io.Written? {
      SnocCount(Pend(s, s.io.kind), s.io.node, x);
    }
  }

  lemma TakePlaces(s: Abs, k: Kind, x: nat)
    requires s.lg == PopRead(k)
    ensures Places(ATake(s, k), x) == Places(s, x)
  {
    if Pend(s, k) != [] {
      ConsCount(Pend(s, k), x);
    }
  }

  lemma ReleasePlaces(s: Abs, x: nat)
    requires s.lg.Release? && |s.free| != |s.mem|
    ensures Places(ARelease(s, s.lg.node), x) == Places(s, x)
  {
    SnocCount(s.free, s.lg.node, x);
  }

  lemma LgPlaces(s: Abs, x: nat)
    requires s.lg.Release? ==> |s.free| != |s.mem|
    ensures Places(ALg(s), x) == Places(s, x)
  {
    if s.lg.PopRead? {
      TakePlaces(s, s.lg.kind, x);
    } else if s.lg.Release? {
      ReleasePlaces(s, x);
    } else {
      assert InLgHand(ALg(s).lg, x) == InLgHand(s.lg, x);
    }
  }

  lemma PoolPlaces(s: Abs, a: Action, x: nat)
    requires a.IoAlloc? || a.IoDiscard?
    requires s.io.Filling? ==> |s.free| != |s.mem|
    ensures Places(AStep(s, a), x) == Places(s, x)
  {
    if a.IoAlloc? && s.io.Idle? && s.free != [] {
      LastCount(s.free, x);
    } else if a.IoDiscard? && s.io.Filling? {
      SnocCount(s.free, s.io.node, x);
    }
  }

  lemma PlacesStep(s: Abs, a: Action, x: nat)
    requires Conserved(s)
    ensures Places(AStep(s, a), x) == Places(s, x)
  {
    NeverFull(s);
    if a.IoNext? {
      IoPlaces(s, x);
    } else if a.LgNext? {
      LgPlaces(s, x);
    } else {
      PoolPlaces(s, a, x);
    }
  }

  /** Every step moves nodes between places, losing and doubling none. */
  lemma ConservedStep(s: Abs, a: Action)
    requires Conserved(s)
    ensures Conserved(AStep(s, a))
  {
    forall x: nat
      ensures Places(AStep(s, a), x) == if x < |AStep(s, a).mem| then 1 else 0
    {
      PlacesStep(s, a, x);
      assert Places(s, x) == if x < |s.mem| then 1 else 0;
    }
  }

  /** push never meets a full ring and free never meets a full pool. */
  lemma NeverStuckOnSpace(s: Abs, a: Action)
    requires Conserved(s)
    ensures !s.io.Overflow? ==> !AStep(s, a).io.Overflow?
    ensures s.lg.Release? && a.LgNext? ==> AStep(s, a).lg.Peek1?
  {
    NeverFull(s);
  }

  // ---------- Published, held and waiting messages ----------

  function OfKind(ms: seq<Msg>, k: Kind): seq<Msg>
  {
    if ms == [] then []
    else OfKind(ms[..|ms| - 1], k) + if ms[|ms| - 1].kind == k then [ms[|ms| - 1]] else []
  }

  lemma OfKindSnoc(ms: seq<Msg>, m: Msg, k: Kind)
    ensures OfKind(ms + [m], k) == OfKind(ms, k) + if m.kind == k then [m] else []
  {
    assert (ms + [m])[..|ms|] == ms;
  }

  lemma {:induction false} OfKindMember(ms: seq<Msg>, k: Kind)
    ensures forall m :: m in OfKind(ms, k) <==> m in ms && m.kind == k
  {
    if ms != [] {
      OfKindMember(ms[..|ms| - 1], k);
      assert ms == ms[..|ms| - 1] + [ms[|ms| - 1]];
    }
  }

  predicate Increasing(ms: seq<Msg>)
  {
    forall i, j :: 0 <= i < j < |ms| ==> ms[i].step < ms[j].step
  }

  lemma {:induction false} OfKindIncreasing(ms: seq<Msg>, k: Kind)
    requires Increasing(ms)
    ensures Increasing(OfKind(ms, k))
  {
    if ms != [] {
      var front, last := ms[..|ms| - 1], ms[|ms| - 1];
      OfKindIncreasing(front, k);
      OfKindMember(front, k);
      var r := OfKind(front, k);
      forall i | 0 <= i < |r|
        ensures r[i].step < last.step
      {
        assert r[i] in r;
        assert r[i] in front;
      }
    }
  }

  function Msgs(mem: seq<Msg>, ns: seq<nat>): seq<Msg>
  {
    seq(|ns|, i requires 0 <= i < |ns| => Node(mem, ns[i]))
  }

  /** The message the logic thread has taken out of ring `k` and not yet handled. */
  function Held(s: Abs, k: Kind): seq<Msg>
  {
    if (s.lg.PopClear? || s.lg.PopAdvance? || s.lg.Handle?) && s.lg.kind == k then [Node(s.mem, s.lg.node)] else []
  }

  /** Each ring is first in, first out: what was published on it is what was handled from it, then
      what is held, then what waits. */
  ghost predicate Fifo(s: Abs, k: Kind)
  {
    OfKind(s.log, k) == OfKind(s.handled, k) + Held(s, k) + Msgs(s.mem, Pend(s, k))
  }

  lemma FifoPrefix(s: Abs, k: Kind)
    requires Fifo(s, k)
    ensures OfKind(s.handled, k) <= OfKind(s.log, k)
  {
    assert OfKind(s.log, k) == OfKind(s.handled, k) + (Held(s, k) + Msgs(s.mem, Pend(s, k)));
  }

  /** Messages are published in the order of their steps, and a stamped message is the newest. */
  ghost predicate Stamps(s: Abs)
  {
    && Increasing(s.log)
    && (forall i :: 0 <= i < |s.log| ==> s.log[i].step <= s.lastStep)
    && (s.io.Stamped? || s.io.Checked? || s.io.Written? ==>
          Node(s.mem, s.io.node).step == s.lastStep && Node(s.mem, s.io.node).kind == s.io.kind
          && forall i :: 0 <= i < |s.log| ==> s.log[i].step < s.lastStep)
  }

  lemma StampsStep(s: Abs, a: Action)
    requires Conserved(s) && Stamps(s)
    ensures Stamps(AStep(s, a))
  {
    if s.io.Filling? {
      assert InIoHand(s.io, s.io.node) == 1;
      Apart(s, s.io.node);
    }
  }

  lemma MsgsSnoc(mem: seq<Msg>, q: seq<nat>, n: nat)
    ensures Msgs(mem, q + [n]) == Msgs(mem, q) + [Node(mem, n)]
  {
  }

  lemma MsgsTail(mem: seq<Msg>, q: seq<nat>)
    requires q != []
    ensures Msgs(mem, q) == [Node(mem, q[0])] + Msgs(mem, q[1..])
  {
  }

  /** Stamping a node in the IO thread's hand changes no message elsewhere. */
  lemma StampElsewhere(s: Abs, n: nat, k: Kind, body: int, j: Kind)
    requires Conserved(s) && s.io == Filling(n, k, body)
    ensures var r := AStamp(s, n, k, body);
      Msgs(r.mem, Pend(r, j)) == Msgs(s.mem, Pend(s, j)) && Held(r, j) == Held(s, j)
  {
    assert InIoHand(s.io, n) == 1;
    Apart(s, n);
    assert n !in Pend(s, j);
    assert (s.lg.PopClear? || s.lg.PopAdvance? || s.lg.Handle?) ==> InLgHand(s.lg, s.lg.node) == 1;
  }

  lemma FifoStamp(s: Abs, n: nat, j: Kind, body: int, k: Kind)
    requires Conserved(s) && Fifo(s, k) && s.io == Filling(n, j, body)
    ensures Fifo(AStamp(s, n, j, body), k)
  {
    StampElsewhere(s, n, j, body, k);
  }

  lemma Onto(l: seq<Msg>, a: seq<Msg>, b: seq<Msg>, c: seq<Msg>, m: Msg)
    requires l == a + b + c
    ensures l + [m] == a + b + (c + [m])
  {
  }

  lemma FifoPublish(s: Abs, n: nat, j: Kind, k: Kind)
    requires Stamps(s) && Fifo(s, k) && s.io == Written(n, j)
    ensures Fifo(APublish(s, n, j), k)
  {
    var r, m := APublish(s, n, j), Node(s.mem, n);
    OfKindSnoc(s.log, m, k);
    if j == k {
      MsgsSnoc(s.mem, Pend(s, k), n);
      Onto(OfKind(s.log, k), OfKind(s.handled, k), Held(s, k), Msgs(s.mem, Pend(s, k)), m);
    } else {
      assert OfKind(s.log, k) + [] == OfKind(s.log, k);
      assert Pend(r, k) == Pend(s, k);
    }
  }

  lemma FifoIo(s: Abs, k: Kind)
    requires Conserved(s) && Stamps(s) && Fifo(s, k)
    ensures Fifo(AIo(s), k)
  {
    match s.io
    case Filling(n, j, body) => FifoStamp(s, n, j, body, k);
    case Written(n, j) => FifoPublish(s, n, j, k);
    case _ =>
  }

  /** The held message is of the held kind. */
  lemma HeldKind(s: Abs, k: Kind)
    requires Fifo(s, k) && s.lg.Handle? && s.lg.kind == k
    ensures Node(s.mem, s.lg.node).kind == k
  {
    OfKindMember(s.log, k);
    assert Node(s.mem, s.lg.node) in OfKind(s.log, k);
  }

  lemma FifoTake(s: Abs, j: Kind, k: Kind)
    requires Fifo(s, k) && s.lg == PopRead(j) && Pend(s, j) != []
    ensures Fifo(ATake(s, j), k)
  {
    if j == k {
      MsgsTail(s.mem, Pend(s, k));
      assert OfKind(s.handled, k) + [] == OfKind(s.handled, k);
    }
  }

  lemma FifoHandle(s: Abs, k: Kind)
    requires Fifo(s, Client) && Fifo(s, Disconnect) && s.lg.Handle?
    ensures Fifo(ALg(s), k)
  {
    HeldKind(s, s.lg.kind);
    var m := Node(s.mem, s.lg.node);
    OfKindSnoc(s.handled, m, k);
    var h, w := OfKind(s.handled, k), Msgs(s.mem, Pend(s, k));
    assert h + [m] + [] == h + [m] && h + [] == h;
  }

  lemma FifoLg(s: Abs, k: Kind)
    requires Fifo(s, Client) && Fifo(s, Disconnect)
    requires s.lg.PopRead? ==> Pend(s, s.lg.kind) != []
    ensures Fifo(ALg(s), k)
  {
    if s.lg.PopRead? {
      FifoTake(s, s.lg.kind, k);
    } else if s.lg.Handle? {
      FifoHandle(s, k);
    } else {
      assert Held(ALg(s), k) == Held(s, k);
    }
  }

  lemma FifoStep(s: Abs, a: Action, k: Kind)
    requires Conserved(s) && Stamps(s) && Fifo(s, Client) && Fifo(s, Disconnect)
    requires s.lg.PopRead? ==> Pend(s, s.lg.kind) != []
    ensures Fifo(AStep(s, a), k)
  {
    if a.IoNext? {
      FifoIo(s, k);
    } else if a.LgNext? {
      FifoLg(s, k);
    }
  }

  // ---------- Where the logic thread is ----------

  ghost predicate PcOk(s: Abs)
  {
    && !s.io.Overflow? && !s.lg.Crashed?
    && (s.lg.Slot1? ==> s.clients != [])
    && ((s.lg.Peek2? || s.lg.Slot2? || s.lg.Choose?) && s.lg.cg.Some? ==> s.clients != [] && s.clients[0] == s.lg.cg.value)
    && (s.lg.Slot2? ==> s.discs != [])
    && (s.lg.Choose? && s.lg.gg.Some? ==> s.discs != [] && s.discs[0] == s.lg.gg.value)
    && (s.lg.PopCheck? || s.lg.PopRead? ==> Pend(s, s.lg.kind) != [])
  }

  lemma WaitingIsPublished(s: Abs, k: Kind, i: int)
    requires Fifo(s, k) && 0 <= i < |Pend(s, k)|
    ensures Node(s.mem, Pend(s, k)[i]) in s.log && Node(s.mem, Pend(s, k)[i]).kind == k
  {
    OfKindMember(s.log, k);
    assert Msgs(s.mem, Pend(s, k))[i] in Msgs(s.mem, Pend(s, k));
  }

  /** No two published messages share a step, so the merge never meets its assert branch. */
  lemma StepsDiffer(s: Abs)
    requires Stamps(s) && Fifo(s, Client) && Fifo(s, Disconnect) && s.clients != [] && s.discs != []
    ensures Node(s.mem, s.clients[0]).step != Node(s.mem, s.discs[0]).step
  {
    WaitingIsPublished(s, Client, 0);
    WaitingIsPublished(s, Disconnect, 0);
    var i :| 0 <= i < |s.log| && s.log[i] == Node(s.mem, s.clients[0]);
    var j :| 0 <= j < |s.log| && s.log[j] == Node(s.mem, s.discs[0]);
  }

  lemma PcStep(s: Abs, a: Action)
    requires Conserved(s) && Stamps(s) && Fifo(s, Client) && Fifo(s, Disconnect) && PcOk(s)
    ensures PcOk(AStep(s, a))
  {
    NeverStuckOnSpace(s, a);
    if s.clients != [] && s.discs != [] {
      StepsDiffer(s);
    }
    if a.IoNext? && s.io.Written? {
      assert forall q: seq<nat>, n: nat :: q != [] ==> (q + [n])[0] == q[0];
    }
  }

  // ---------- No client message overtakes an older disconnect notice ----------

  /** The messages waiting in ring `k`, oldest first. */
  function Waiting(s: Abs, k: Kind): seq<Msg>
  {
    Msgs(s.mem, Pend(s, k))
  }

  ghost predicate AllNewer(ms: seq<Msg>, m: Msg)
  {
    forall i :: 0 <= i < |ms| ==> m.step < ms[i].step
  }

  /** The client message the logic thread is bound to handle next. */
  function ChosenClient(s: Abs): Option<Msg>
  {
    if s.lg.Choose? && s.lg.cg.Some? && s.lg.gg.None? then Some(Node(s.mem, s.lg.cg.value))
    else if (s.lg == PopCheck(Client) || s.lg == PopRead(Client)) && s.clients != [] then Some(Node(s.mem, s.clients[0]))
    else if (s.lg.PopClear? || s.lg.PopAdvance? || s.lg.Handle?) && s.lg.kind == Client then Some(Node(s.mem, s.lg.node))
    else None
  }

  ghost predicate ChosenOk(chosen: Option<Msg>, notices: seq<Msg>)
  {
    chosen.Some? ==> AllNewer(notices, chosen.value)
  }

  /** Every handled client message is older than the notices that wait or are held. */
  ghost predicate HandledOk(handled: seq<Msg>, notices: seq<Msg>, held: seq<Msg>)
  {
    forall i :: 0 <= i < |handled| && handled[i].kind == Client ==> AllNewer(notices, handled[i]) && AllNewer(held, handled[i])
  }

  ghost predicate NoneOvertook(handled: seq<Msg>)
  {
    forall i, j :: 0 <= i < j < |handled| && handled[i].kind == Client && handled[j].kind == Disconnect ==>
      handled[i].step < handled[j].step
  }

  ghost predicate ClientsInOrder(s: Abs)
  {
    && ChosenOk(ChosenClient(s), Waiting(s, Disconnect))
    && HandledOk(s.handled, Waiting(s, Disconnect), Held(s, Disconnect))
    && NoneOvertook(s.handled)
  }

  /** The invariant of every reachable state. */
  ghost predicate AInv(s: Abs)
  {
    Conserved(s) && Stamps(s) && Fifo(s, Client) && Fifo(s, Disconnect) && PcOk(s) && ClientsInOrder(s)
  }

  lemma SplitIncreasing(l: seq<Msg>, a: seq<Msg>, w: seq<Msg>)
    requires Increasing(l) && l == a + w
    ensures Increasing(w) && forall h :: h in a ==> AllNewer(w, h)
  {
    assert forall i :: 0 <= i < |w| ==> l[|a| + i] == w[i];
    forall h, i | h in a && 0 <= i < |w|
      ensures h.step < w[i].step
    {
      var j :| 0 <= j < |a| && a[j] == h;
      assert l[j] == h;
    }
  }

  /** Waiting messages of one ring are in order. */
  lemma WaitingIncreasing(s: Abs, k: Kind)
    requires Stamps(s) && Fifo(s, k)
    ensures Increasing(Waiting(s, k))
    ensures forall h :: h in OfKind(s.handled, k) + Held(s, k) ==> AllNewer(Waiting(s, k), h)
  {
    OfKindIncreasing(s.log, k);
    SplitIncreasing(OfKind(s.log, k), OfKind(s.handled, k) + Held(s, k), Waiting(s, k));
  }

  /** Published messages, and messages handled or held, are in the log. */
  lemma HandledIsPublished(s: Abs, m: Msg)
    requires Fifo(s, Client) && Fifo(s, Disconnect)
    requires m in s.handled || m in Held(s, Client) || m in Held(s, Disconnect)
    ensures m in s.log
  {
    OfKindMember(s.log, Client);
    OfKindMember(s.log, Disconnect);
    OfKindMember(s.handled, m.kind);
    if m in s.handled {
      assert m in OfKind(s.handled, m.kind);
      assert m in OfKind(s.log, m.kind);
    } else if m in Held(s, Client) {
      assert m in OfKind(s.log, Client);
    } else {
      assert m in OfKind(s.log, Disconnect);
    }
  }

  /** Nothing that the order depends on has changed. */
  lemma ClientsSame(s: Abs, r: Abs)
    requires ClientsInOrder(s) && r.handled == s.handled
    requires Waiting(r, Disconnect) == Waiting(s, Disconnect) && Held(r, Disconnect) == Held(s, Disconnect)
    requires ChosenClient(r) == ChosenClient(s) || ChosenOk(ChosenClient(r), Waiting(s, Disconnect))
    ensures ClientsInOrder(r)
  {
  }

  lemma ClientsIo(s: Abs)
    requires AInv(s)
    ensures ClientsInOrder(AIo(s))
  {
    match s.io
    case Filling(n, k, body) => StampClients(s, n, k, body);
    case Written(n, k) => PublishClients(s, n, k);
    case _ => ClientsSame(s, AIo(s));
  }

  lemma StampClients(s: Abs, n: nat, k: Kind, body: int)
    requires AInv(s) && s.io == Filling(n, k, body)
    ensures ClientsInOrder(AStamp(s, n, k, body))
  {
    var r := AStamp(s, n, k, body);
    StampElsewhere(s, n, k, body, Client);
    StampElsewhere(s, n, k, body, Disconnect);
    assert s.clients != [] ==> Waiting(r, Client)[0] == Waiting(s, Client)[0];
    ChosenStays(s, r);
    ClientsSame(s, r);
  }

  /** The chosen client message does not change while others are stamped or published. */
  lemma ChosenStays(s: Abs, r: Abs)
    requires PcOk(s) && r.lg == s.lg
    requires s.clients != [] ==> r.clients != [] && r.clients[0] == s.clients[0] && Node(r.mem, r.clients[0]) == Node(s.mem, s.clients[0])
    requires Held(r, Client) == Held(s, Client)
    ensures ChosenClient(r) == ChosenClient(s)
  {
    if s.lg.PopClear? || s.lg.PopAdvance? || s.lg.Handle? {
      if s.lg.kind == Client {
        assert Held(r, Client)[0] == Held(s, Client)[0];
      }
    }
  }

  lemma ChosenIsPublished(s: Abs)
    requires AInv(s) && ChosenClient(s).Some?
    ensures ChosenClient(s).value in s.log
  {
    if s.lg.PopClear? || s.lg.PopAdvance? || s.lg.Handle? {
      assert ChosenClient(s).value in Held(s, Client);
      HandledIsPublished(s, ChosenClient(s).value);
    } else {
      WaitingIsPublished(s, Client, 0);
    }
  }

  lemma NewestLast(ms: seq<Msg>, m: Msg, h: Msg)
    requires AllNewer(ms, h) && h.step < m.step
    ensures AllNewer(ms + [m], h)
  {
  }

  /** Everything that the logic thread chose or handled is older than the message being published. */
  lemma OlderThanNew(s: Abs, h: Msg)
    requires AInv(s) && s.io.Written? && (h in s.handled || ChosenClient(s) == Some(h))
    ensures h.step < s.lastStep == Node(s.mem, s.io.node).step
  {
    if ChosenClient(s) == Some(h) {
      ChosenIsPublished(s);
    } else {
      HandledIsPublished(s, h);
    }
    var i :| 0 <= i < |s.log| && s.log[i] == h;
  }

  lemma PublishNotice(s: Abs, n: nat)
    requires AInv(s) && s.io == Written(n, Disconnect)
    ensures ClientsInOrder(APublish(s, n, Disconnect))
  {
    var r, w, m := APublish(s, n, Disconnect), Waiting(s, Disconnect), Node(s.mem, n);
    MsgsSnoc(s.mem, s.discs, n);
    assert Waiting(r, Disconnect) == w + [m];
    ChosenStays(s, r);
    if ChosenClient(s).Some? {
      OlderThanNew(s, ChosenClient(s).value);
      NewestLast(w, m, ChosenClient(s).value);
    }
    forall i | 0 <= i < |s.handled| && s.handled[i].kind == Client
      ensures AllNewer(w + [m], s.handled[i])
    {
      OlderThanNew(s, s.handled[i]);
      NewestLast(w, m, s.handled[i]);
    }
  }

  lemma PublishClients(s: Abs, n: nat, k: Kind)
    requires AInv(s) && s.io == Written(n, k)
    ensures ClientsInOrder(APublish(s, n, k))
  {
    var r := APublish(s, n, k);
    if k == Disconnect {
      PublishNotice(s, n);
    } else {
      ChosenStays(s, r);
      ClientsSame(s, r);
    }
  }

  lemma TakeNotice(s: Abs)
    requires PcOk(s) && ClientsInOrder(s) && s.lg == PopRead(Disconnect)
    ensures ClientsInOrder(ATake(s, Disconnect))
  {
    var r, w := ATake(s, Disconnect), Waiting(s, Disconnect);
    MsgsTail(s.mem, s.discs);
    assert Waiting(r, Disconnect) == w[1..] && Held(r, Disconnect) == [w[0]];
    forall i | 0 <= i < |s.handled| && s.handled[i].kind == Client
      ensures AllNewer([w[0]], s.handled[i]) && AllNewer(w[1..], s.handled[i])
    {
      assert AllNewer(w, s.handled[i]);
    }
  }

  lemma TakeClient(s: Abs)
    requires PcOk(s) && ClientsInOrder(s) && s.lg == PopRead(Client)
    ensures ClientsInOrder(ATake(s, Client))
  {
    ClientsSame(s, ATake(s, Client));
  }

  lemma HandleNotice(s: Abs)
    requires AInv(s) && s.lg.Handle? && s.lg.kind == Disconnect
    ensures ClientsInOrder(ALg(s))
  {
    HeldKind(s, Disconnect);
    var m := Node(s.mem, s.lg.node);
    assert Held(s, Disconnect) == [m];
    forall i | 0 <= i < |s.handled| && s.handled[i].kind == Client
      ensures s.handled[i].step < m.step
    {
      assert AllNewer([m], s.handled[i]);
      assert [m][0] == m;
    }
  }

  lemma HandleClient(s: Abs)
    requires AInv(s) && s.lg.Handle? && s.lg.kind == Client
    ensures ClientsInOrder(ALg(s))
  {
    HeldKind(s, Client);
    assert ChosenClient(s) == Some(Node(s.mem, s.lg.node));
  }

  /** Looking around binds the logic thread to a client message only when every waiting disconnect
      notice is newer. */
  lemma LookClients(s: Abs)
    requires AInv(s) && !s.lg.PopRead? && !s.lg.Handle? && !s.lg.Release?
    ensures ClientsInOrder(ALg(s))
  {
    match s.lg
    case Choose(_, _) => LookChoose(s);
    case Peek2(_) => LookPeek2(s);
    case Slot2(_) => LookSlot2(s);
    case _ => LookOther(s);
  }

  lemma LookChoose(s: Abs)
    requires AInv(s) && s.lg.Choose?
    ensures ClientsInOrder(ALg(s))
  {
    var w := Waiting(s, Disconnect);
    if s.lg.cg.Some? && s.lg.gg.Some? {
      WaitingIncreasing(s, Disconnect);
      assert w[0] == Node(s.mem, s.lg.gg.value);
      assert ChosenClient(ALg(s)).Some? ==> ChosenClient(ALg(s)).value.step < w[0].step;
    }
    ClientsSame(s, ALg(s));
  }

  lemma LookPeek2(s: Abs)
    requires AInv(s) && s.lg.Peek2?
    ensures ClientsInOrder(ALg(s))
  {
    assert s.discs == [] ==> Waiting(s, Disconnect) == [];
    ClientsSame(s, ALg(s));
  }

  lemma LookSlot2(s: Abs)
    requires AInv(s) && s.lg.Slot2?
    ensures ClientsInOrder(ALg(s))
  {
    ClientsSame(s, ALg(s));
  }

  lemma LookOther(s: Abs)
    requires AInv(s) && !s.lg.PopRead? && !s.lg.Handle? && !s.lg.Release?
    requires !s.lg.Choose? && !s.lg.Peek2? && !s.lg.Slot2?
    ensures ClientsInOrder(ALg(s))
  {
    ClientsSame(s, ALg(s));
  }

  lemma ClientsLg(s: Abs)
    requires AInv(s)
    ensures ClientsInOrder(ALg(s))
  {
    match s.lg
    case PopRead(Client) => TakeClient(s);
    case PopRead(Disconnect) => TakeNotice(s);
    case Handle(Client, _) => HandleClient(s);
    case Handle(Disconnect, _) => HandleNotice(s);
    case Release(_, n) => ClientsSame(s, ARelease(s, n));
    case _ => LookClients(s);
  }

  lemma ClientsPool(s: Abs, a: Action)
    requires AInv(s) && (a.IoAlloc? || a.IoDiscard?)
    ensures ClientsInOrder(AStep(s, a))
  {
    ClientsSame(s, AStep(s, a));
  }

  lemma AInvStep(s: Abs, a: Action)
    requires AInv(s)
    ensures AInv(AStep(s, a))
  {
    ConservedStep(s, a);
    StampsStep(s, a);
    FifoStep(s, a, Client);
    FifoStep(s, a, Disconnect);
    PcStep(s, a);
    if a.IoNext? {
      ClientsIo(s);
    } else if a.LgNext? {
      ClientsLg(s);
    } else {
      ClientsPool(s, a);
    }
  }

  lemma AInvInit(n: nat)
    ensures AInv(AInit(n))
  {
    AllNodesFacts(n);
    var s := AInit(n);
    assert s.free == AllNodes(n);
    forall x: nat
      ensures Places(s, x) == if x < |s.mem| then 1 else 0
    {
      assert Occurrences(AllNodes(n), x) == if x < n then 1 else 0;
    }
  }
}
