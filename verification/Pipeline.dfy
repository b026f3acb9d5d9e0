/** The IO thread and the logic thread over one node pool and two unlocked rings, as interleaved
    atomic steps: each read or write of a ring's front, back or slot is a step of its own, and the
    pool's locked operations are single steps. */
module Pipeline {
  import opened Lists
  import opened MsgQueue
  import opened PipelineSpec

  /** `log` and `handled` record the messages in the order they were published and handled. */
  datatype State = State(
    mem: seq<Msg>,
    free: seq<nat>,
    recv: Ring<nat>,
    disc: Ring<nat>,
    lastStep: nat,
    io: IoPc,
    lg: LgPc,
    log: seq<Msg>,
    handled: seq<Msg>)

  function RingOf(s: State, k: Kind): Ring<nat>
  {
    if k.Client? then s.recv else s.disc
  }

  function SetRing(s: State, k: Kind, r: Ring<nat>): State
  {
    if k.Client? then s.(recv := r) else s.(disc := r)
  }

  /** thread_logic::init sizes both rings to the pool's capacity plus one. */
  function Init(n: nat): State
  {
    State(seq(n, _ => Msg(0, Client, 0)), seq(n, i => i),
          Ring(seq(n + 1, _ => None), 0, 0), Ring(seq(n + 1, _ => None), 0, 0), 0, Idle, Peek1, [], [])
  }

  predicate Sized(s: State)
  {
    && RingOk(s.recv) && RingOk(s.disc)
    && |s.recv.slots| == |s.mem| + 1 && |s.disc.slots| == |s.mem| + 1
  }

  // ---------- The IO thread ----------

  function DoAlloc(s: State, kind: Kind, body: int): State
    requires Sized(s) && s.io.Idle?
  {
    if s.free == [] then s
    else s.(free := s.free[..|s.free| - 1], io := Filling(s.free[|s.free| - 1], kind, body))
  }

  function DoDiscard(s: State): State
    requires Sized(s) && s.io.Filling?
  {
    if |s.free| == |s.mem| then s.(io := Overflow) else s.(free := s.free + [s.io.node], io := Idle)
  }

  function DoIo(s: State): State
    requires Sized(s)
  {
    match s.io
    case Filling(n, k, body) =>
      s.(mem := Store(s.mem, n, Msg(s.lastStep + 1, k, body)), lastStep := s.lastStep + 1, io := Stamped(n, k))
    case Stamped(n, k) =>
      s.(io := if IsFull(RingOf(s, k)) then Overflow else Checked(n, k))
    case Checked(n, k) =>
      SetRing(s, k, WriteBack(RingOf(s, k), n)).(io := Written(n, k))
    case Written(n, k) =>
      SetRing(s, k, AdvanceBack(RingOf(s, k))).(io := Idle, log := s.log + [Node(s.mem, n)])
    case _ => s
  }

  // ---------- The logic thread ----------

  /** getfront and pop's emptiness test, read by read. */
  function LookPc(s: State): LgPc
    requires Sized(s)
  {
    match s.lg
    case Peek1 => if s.recv.front == s.recv.back then Peek2(None) else Slot1
    case Slot1 => Peek2(s.recv.slots[s.recv.front])
    case Peek2(cg) => if s.disc.front == s.disc.back then Choose(cg, None) else Slot2(cg)
    case Slot2(cg) => Choose(cg, s.disc.slots[s.disc.front])
    case Choose(cg, gg) => ChooseNext(s.mem, cg, gg)
    case PopCheck(k) => if RingOf(s, k).front == RingOf(s, k).back then Crashed else PopRead(k)
    case PopRead(k) =>
      var slot := RingOf(s, k).slots[RingOf(s, k).front];
      if slot.None? then Crashed else PopClear(k, slot.value)
    case _ => s.lg
  }

  function DoLg(s: State): State
    requires Sized(s)
  {
    if s.lg.PopClear? then
      SetRing(s, s.lg.kind, ClearFront(RingOf(s, s.lg.kind))).(lg := PopAdvance(s.lg.kind, s.lg.node))
    else if s.lg.PopAdvance? then
      SetRing(s, s.lg.kind, AdvanceFront(RingOf(s, s.lg.kind))).(lg := Handle(s.lg.kind, s.lg.node))
    else if s.lg.Handle? then
      s.(lg := Release(s.lg.kind, s.lg.node), handled := s.handled + [Node(s.mem, s.lg.node)])
    else if s.lg.Release? then
      if |s.free| == |s.mem| then s.(lg := Crashed) else s.(lg := Peek1, free := s.free + [s.lg.node])
    else s.(lg := LookPc(s))
  }

  function Step(s: State, a: Action): State
    requires Sized(s)
  {
    match a
    case IoAlloc(k, body) => if s.io.Idle? then DoAlloc(s, k, body) else s
    case IoDiscard => if s.io.Filling? then DoDiscard(s) else s
    case IoNext => DoIo(s)
    case LgNext => DoLg(s)
  }

  lemma StepSized(s: State, a: Action)
    requires Sized(s)
    ensures Sized(Step(s, a)) && |Step(s, a).mem| == |s.mem|
  {
  }

  // ---------- What the rings hold ----------

  /** The logic thread has taken the oldest entry of ring `k` but not yet moved its front. */
  predicate Taking(s: State, k: Kind)
  {
    (s.lg.PopClear? || s.lg.PopAdvance?) && s.lg.kind == k
  }

  /** The nodes still waiting in ring `k`. */
  function Waiting(s: State, k: Kind): seq<Option<nat>>
    requires Sized(s)
  {
    var q := Live(RingOf(s, k));
    if Taking(s, k) && q != [] then q[1..] else q
  }

  predicate AllSome(q: seq<Option<nat>>)
  {
    forall i :: 0 <= i < |q| ==> q[i].Some?
  }

  /** Rings hold real nodes, apart from the entry being taken. */
  predicate RingsOk(s: State)
    requires Sized(s)
  {
    && AllSome(Waiting(s, Client)) && AllSome(Waiting(s, Disconnect))
    && (forall k :: Taking(s, k) ==> RingOf(s, k).front != RingOf(s, k).back)
    && (s.lg.PopClear? ==> RingOf(s, s.lg.kind).slots[RingOf(s, s.lg.kind).front] == Some(s.lg.node))
    && (s.io.Checked? || s.io.Written? ==> !IsFull(RingOf(s, s.io.kind)))
    && (s.io.Written? ==> RingOf(s, s.io.kind).slots[RingOf(s, s.io.kind).back] == Some(s.io.node))
  }

  // ---------- How one step changes what the rings hold ----------

  lemma PublishWaiting(s: State, k: Kind)
    requires Sized(s) && RingsOk(s) && s.io.Written?
    ensures Sized(DoIo(s))
    ensures Waiting(DoIo(s), k) == (if s.io.kind == k then Waiting(s, k) + [Some(s.io.node)] else Waiting(s, k))
  {
    if s.io.kind == k {
      var r, q := RingOf(s, k), Live(RingOf(s, k));
      AdvanceBackLive(r);
      assert Live(AdvanceBack(r)) == q + [Some(s.io.node)];
      if Taking(s, k) {
        TailSnoc(q, Some(s.io.node));
      }
    }
  }

  lemma TailSnoc<T>(q: seq<T>, x: T)
    requires q != []
    ensures (q + [x])[1..] == q[1..] + [x]
  {
  }

  lemma WriteWaiting(s: State, k: Kind)
    requires Sized(s) && RingsOk(s) && s.io.Checked?
    ensures Sized(DoIo(s)) && Waiting(DoIo(s), k) == Waiting(s, k)
  {
    if s.io.kind == k {
      WriteBackLive(RingOf(s, k), s.io.node);
    }
  }

  lemma IoWaiting(s: State, k: Kind)
    requires Sized(s) && RingsOk(s)
    ensures Sized(DoIo(s))
    ensures Waiting(DoIo(s), k) == (if s.io.Written? && s.io.kind == k then Waiting(s, k) + [Some(s.io.node)] else Waiting(s, k))
  {
    match s.io
    case Written(_, _) => PublishWaiting(s, k);
    case Checked(_, _) => WriteWaiting(s, k);
    case _ =>
  }

  lemma ReadWaiting(s: State, k: Kind)
    requires Sized(s) && RingsOk(s) && s.lg == PopRead(k) && Waiting(s, k) != []
    ensures Sized(DoLg(s)) && Waiting(DoLg(s), k) == Waiting(s, k)[1..]
    ensures DoLg(s) == s.(lg := PopClear(k, Waiting(s, k)[0].value))
  {
    var ring := RingOf(s, k);
    assert Waiting(s, k)[0] == ring.slots[ring.front];
  }

  lemma ClearWaiting(s: State, k: Kind)
    requires Sized(s) && RingsOk(s) && s.lg.PopClear?
    ensures Sized(DoLg(s)) && Waiting(DoLg(s), k) == Waiting(s, k)
  {
    if s.lg.kind == k {
      ClearFrontLive(RingOf(s, k));
    }
  }

  lemma AdvanceWaiting(s: State, k: Kind)
    requires Sized(s) && RingsOk(s) && s.lg.PopAdvance?
    ensures Sized(DoLg(s)) && Waiting(DoLg(s), k) == Waiting(s, k)
  {
    if s.lg.kind == k {
      AdvanceFrontLive(RingOf(s, k));
    }
  }

  lemma QuietWaiting(s: State, k: Kind)
    requires Sized(s) && !s.lg.PopRead? && !s.lg.PopClear? && !s.lg.PopAdvance?
    ensures Sized(DoLg(s)) && RingOf(DoLg(s), k) == RingOf(s, k)
    ensures Waiting(DoLg(s), k) == Waiting(s, k)
  {
  }

  lemma LgWaiting(s: State, k: Kind)
    requires Sized(s) && RingsOk(s)
    requires s.lg == PopRead(k) ==> Waiting(s, k) != []
    ensures Sized(DoLg(s))
    ensures Waiting(DoLg(s), k) == (if s.lg == PopRead(k) then Waiting(s, k)[1..] else Waiting(s, k))
  {
    match s.lg
    case PopRead(j) =>
      if j == k {
        ReadWaiting(s, k);
      }
    case PopClear(_, _) => ClearWaiting(s, k);
    case PopAdvance(_, _) => AdvanceWaiting(s, k);
    case _ => QuietWaiting(s, k);
  }

  lemma IoRings(s: State)
    requires Sized(s) && RingsOk(s)
    ensures Sized(DoIo(s)) && RingsOk(DoIo(s))
  {
    IoHoldsNodes(s, Client);
    IoHoldsNodes(s, Disconnect);
    IoTaking(s);
    IoWriting(s);
  }

  /** The ring holds real nodes after a step of the IO thread. */
  lemma IoHoldsNodes(s: State, k: Kind)
    requires Sized(s) && RingsOk(s)
    ensures Sized(DoIo(s)) && AllSome(Waiting(DoIo(s), k))
  {
    IoWaiting(s, k);
    assert AllSome(Waiting(s, k));
  }

  /** What the IO thread has checked and written, it goes on with. */
  lemma IoWriting(s: State)
    requires Sized(s) && RingsOk(s)
    ensures var r := DoIo(s);
      && Sized(r)
      && (r.io.Checked? || r.io.Written? ==> !IsFull(RingOf(r, r.io.kind)))
      && (r.io.Written? ==> RingOf(r, r.io.kind).slots[RingOf(r, r.io.kind).back] == Some(r.io.node))
  {
  }

  /** The entry the logic thread is taking is out of the IO thread's reach. */
  lemma IoTaking(s: State)
    requires Sized(s) && RingsOk(s)
    ensures var r := DoIo(s);
      && Sized(r) && r.lg == s.lg
      && (forall k :: Taking(r, k) ==> RingOf(r, k).front != RingOf(r, k).back)
      && (r.lg.PopClear? ==> RingOf(r, r.lg.kind).slots[RingOf(r, r.lg.kind).front] == Some(r.lg.node))
  {
  }

  lemma LgRings(s: State)
    requires Sized(s) && RingsOk(s)
    requires s.lg.PopRead? ==> Waiting(s, s.lg.kind) != []
    ensures Sized(DoLg(s)) && RingsOk(DoLg(s))
  {
    LgWaiting(s, Client);
    LgWaiting(s, Disconnect);
    LgRoom(s);
    if s.lg.PopRead? {
      ReadWaiting(s, s.lg.kind);
    }
  }

  /** Room behind the back stays room while the reader's end moves on, and the back slot is not the reader's. */
  lemma ReaderRoom(r: Ring<nat>)
    requires RingOk(r) && r.front != r.back && !IsFull(r)
    ensures !IsFull(ClearFront(r)) && ClearFront(r).slots[r.back] == r.slots[r.back]
    ensures !IsFull(AdvanceFront(r))
  {
  }

  /** The slot the IO thread is about to publish is out of the logic thread's reach. */
  lemma LgRoom(s: State)
    requires Sized(s) && RingsOk(s)
    ensures var r := DoLg(s);
      && Sized(r) && r.io == s.io
      && (r.io.Checked? || r.io.Written? ==> !IsFull(RingOf(r, r.io.kind)))
      && (r.io.Written? ==> RingOf(r, r.io.kind).slots[RingOf(r, r.io.kind).back] == Some(r.io.node))
  {
    if s.lg.PopClear? || s.lg.PopAdvance? {
      assert Taking(s, s.lg.kind);
      if (s.io.Checked? || s.io.Written?) && s.io.kind == s.lg.kind {
        ReaderRoom(RingOf(s, s.lg.kind));
      }
    }
  }

  // ---------- The rings refine plain queues ----------

  /** The state with each ring replaced by the nodes waiting in it. */
  function View(s: State): Abs
    requires Sized(s) && RingsOk(s)
  {
    Abs(s.mem, s.free, Values(Waiting(s, Client)), Values(Waiting(s, Disconnect)), s.lastStep, s.io, s.lg, s.log, s.handled)
  }

  lemma ValuesSnoc(q: seq<Option<nat>>, x: nat)
    requires AllSome(q)
    ensures AllSome(q + [Some(x)]) && Values(q + [Some(x)]) == Values(q) + [x]
  {
  }

  lemma ValuesTail(q: seq<Option<nat>>)
    requires AllSome(q) && q != []
    ensures AllSome(q[1..]) && Values(q) == [q[0].value] + Values(q[1..])
  {
  }

  /** The index tests of push, pop and getfront decide exactly what they mean to decide. */
  lemma TestsAgree(s: State, k: Kind)
    requires Sized(s) && RingsOk(s)
    ensures IsFull(RingOf(s, k)) <==> Used(View(s), k) == |s.mem|
    ensures !Taking(s, k) ==> (RingOf(s, k).front == RingOf(s, k).back <==> Pend(View(s), k) == [])
    ensures !Taking(s, k) && RingOf(s, k).front != RingOf(s, k).back ==>
      RingOf(s, k).slots[RingOf(s, k).front] == Some(Pend(View(s), k)[0])
  {
    FullIff(RingOf(s, k));
    var q := Live(RingOf(s, k));
    assert q != [] ==> q[0] == RingOf(s, k).slots[RingOf(s, k).front];
    assert |q| == |Waiting(s, k)| + if Taking(s, k) then 1 else 0;
  }

  /** What waits in ring `k` after a step of the IO thread. */
  lemma RefinePend(s: State, k: Kind)
    requires Sized(s) && RingsOk(s)
    ensures Sized(DoIo(s)) && RingsOk(DoIo(s))
    ensures Pend(View(DoIo(s)), k) ==
      if s.io.Written? && s.io.kind == k then Pend(View(s), k) + [s.io.node] else Pend(View(s), k)
  {
    IoRings(s);
    IoWaiting(s, k);
    assert AllSome(Waiting(s, k));
    if s.io.Written? && s.io.kind == k {
      ValuesSnoc(Waiting(s, k), s.io.node);
    }
  }

  lemma RefineIo(s: State)
    requires Sized(s) && RingsOk(s)
    ensures Sized(DoIo(s)) && RingsOk(DoIo(s)) && View(DoIo(s)) == AIo(View(s))
  {
    IoRings(s);
    RefinePend(s, Client);
    RefinePend(s, Disconnect);
    if s.io.Stamped? {
      TestsAgree(s, s.io.kind);
    }
    SameView(View(DoIo(s)), AIo(View(s)));
  }

  lemma SameView(a: Abs, b: Abs)
    requires a.mem == b.mem && a.free == b.free && a.lastStep == b.lastStep && a.io == b.io && a.lg == b.lg
    requires Pend(a, Client) == Pend(b, Client) && Pend(a, Disconnect) == Pend(b, Disconnect)
    requires a.log == b.log && a.handled == b.handled
    ensures a == b
  {
  }

  lemma RefineTake(s: State, k: Kind)
    requires Sized(s) && RingsOk(s) && s.lg == PopRead(k) && Waiting(s, k) != []
    ensures Sized(DoLg(s)) && RingsOk(DoLg(s)) && View(DoLg(s)) == ATake(View(s), k)
  {
    LgRings(s);
    LgWaiting(s, Client);
    LgWaiting(s, Disconnect);
    ValuesTail(Waiting(s, k));
    ReadWaiting(s, k);
  }

  lemma RefineLook(s: State)
    requires Sized(s) && RingsOk(s) && PcOk(View(s)) && !s.lg.PopRead?
    ensures Sized(DoLg(s)) && RingsOk(DoLg(s)) && View(DoLg(s)) == ALg(View(s))
  {
    LgRings(s);
    LgWaiting(s, Client);
    LgWaiting(s, Disconnect);
    TestsAgree(s, Client);
    TestsAgree(s, Disconnect);
  }

  lemma RefinePool(s: State, a: Action)
    requires Sized(s) && RingsOk(s) && (a.IoAlloc? || a.IoDiscard?)
    ensures Sized(Step(s, a)) && RingsOk(Step(s, a)) && View(Step(s, a)) == AStep(View(s), a)
  {
    var r := Step(s, a);
    assert Waiting(r, Client) == Waiting(s, Client) && Waiting(r, Disconnect) == Waiting(s, Disconnect);
  }

  /** Whichever thread moves, the rings do what plain queues would do. */
  lemma RefineStep(s: State, a: Action)
    requires Sized(s) && RingsOk(s) && AInv(View(s))
    ensures Sized(Step(s, a)) && RingsOk(Step(s, a)) && View(Step(s, a)) == AStep(View(s), a)
  {
    if a.IoNext? {
      RefineIo(s);
    } else if !a.LgNext? {
      RefinePool(s, a);
    } else if s.lg.PopRead? {
      RefineTake(s, s.lg.kind);
    } else {
      RefineLook(s);
    }
  }

  // ---------- Every run ----------

  ghost predicate Inv(s: State)
  {
    Sized(s) && RingsOk(s) && AInv(View(s))
  }

  /** The state after the given steps, in any interleaving of the two threads. */
  function Run(s: State, acts: seq<Action>): State
    requires Sized(s)
    decreases |acts|
  {
    if acts == [] then s
    else
      StepSized(s, acts[0]);
      Run(Step(s, acts[0]), acts[1..])
  }

  function ARun(s: Abs, acts: seq<Action>): Abs
    decreases |acts|
  {
    if acts == [] then s else ARun(AStep(s, acts[0]), acts[1..])
  }

  lemma {:induction false} RunKeepsInv(s: State, acts: seq<Action>)
    requires Inv(s)
    ensures Inv(Run(s, acts)) && View(Run(s, acts)) == ARun(View(s), acts)
    decreases |acts|
  {
    if acts != [] {
      RefineStep(s, acts[0]);
      AInvStep(View(s), acts[0]);
      StepSized(s, acts[0]);
      RunKeepsInv(Step(s, acts[0]), acts[1..]);
    }
  }

  lemma InitInv(n: nat)
    ensures Inv(Init(n)) && View(Init(n)) == AInit(n)
  {
    AInvInit(n);
    var s := Init(n);
    assert Live(s.recv) == [] && Live(s.disc) == [];
    assert Values(Waiting(s, Client)) == [] && Values(Waiting(s, Disconnect)) == [];
  }

  /** In every interleaving: no push finds its ring full, no free finds the pool full, the merge
      never meets equal steps, and every node is in exactly one place. */
  lemma NoRunFails(n: nat, acts: seq<Action>)
    ensures Sized(Init(n)) && Inv(Run(Init(n), acts))
    ensures var s := Run(Init(n), acts);
      && !s.io.Overflow? && !s.lg.Crashed?
      && forall x: nat :: Places(View(s), x) == if x < |s.mem| then 1 else 0
  {
    InitInv(n);
    RunKeepsInv(Init(n), acts);
  }

  /** In every interleaving each ring is first in, first out: the messages handled from it are the
      first of those published on it, in order. */
  lemma EachRingIsFifo(n: nat, acts: seq<Action>, k: Kind)
    ensures Sized(Init(n))
    ensures var s := Run(Init(n), acts); OfKind(s.handled, k) <= OfKind(s.log, k)
  {
    InitInv(n);
    RunKeepsInv(Init(n), acts);
    FifoPrefix(View(Run(Init(n), acts)), k);
  }

  /** In every interleaving no client message is handled before an older disconnect notice, whether
      that notice is handled later or still waiting. */
  lemma ClientsNeverOvertake(n: nat, acts: seq<Action>)
    ensures Sized(Init(n)) && Inv(Run(Init(n), acts))
    ensures var s := Run(Init(n), acts);
      && (forall i, j :: 0 <= i < j < |s.handled| && s.handled[i].kind == Client && s.handled[j].kind == Disconnect ==>
            s.handled[i].step < s.handled[j].step)
      && (forall i :: 0 <= i < |s.handled| && s.handled[i].kind == Client ==>
            AllNewer(PipelineSpec.Waiting(View(s), Disconnect), s.handled[i]))
  {
    InitInv(n);
    RunKeepsInv(Init(n), acts);
  }
}
