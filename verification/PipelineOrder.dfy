/** When handle_io handles messages strictly in step order, and when it does not: exactly if no
    iteration peeks an empty client ring, lets an older client message be published, and then sees
    a newer disconnect notice. */
module PipelineOrder {
  import opened Lists
  import opened MsgQueue
  import opened PipelineSpec
  import opened Pipeline

  function Waits(s: Abs, k: Kind): seq<Msg>
  {
    PipelineSpec.Waiting(s, k)
  }

  /** The message the logic thread is bound to handle next, if it already is bound to one. */
  function Bound(s: Abs): Option<Msg>
  {
    match s.lg
    case Slot2(None) => HeadMsg(s, Disconnect)
    case Choose(None, Some(_)) => HeadMsg(s, Disconnect)
    case Choose(Some(_), None) => HeadMsg(s, Client)
    case Choose(Some(c), Some(g)) => if Node(s.mem, c).step < Node(s.mem, g).step then HeadMsg(s, Client) else HeadMsg(s, Disconnect)
    case PopCheck(k) => HeadMsg(s, k)
    case PopRead(k) => HeadMsg(s, k)
    case PopClear(_, n) => Some(Node(s.mem, n))
    case PopAdvance(_, n) => Some(Node(s.mem, n))
    case Handle(_, n) => Some(Node(s.mem, n))
    case _ => None
  }

  function HeadMsg(s: Abs, k: Kind): Option<Msg>
  {
    if Pend(s, k) == [] then None else Some(Node(s.mem, Pend(s, k)[0]))
  }

  ghost predicate NoneOlder(ms: seq<Msg>, m: Msg)
  {
    forall i :: 0 <= i < |ms| ==> m.step <= ms[i].step
  }

  /** Handled messages are strictly in step order, older than everything still waiting, and the next
      message to handle is the oldest of those left. */
  ghost predicate Ordered(s: Abs)
  {
    && Increasing(s.handled)
    && (forall h, k :: h in s.handled ==> AllNewer(Waits(s, k), h))
    && (Bound(s).Some? ==>
          (forall h :: h in s.handled ==> h.step < Bound(s).value.step)
          && forall k :: NoneOlder(Waits(s, k), Bound(s).value))
  }

  /** The second peek finds a disconnect notice although, since the first peek found the client ring
      empty, an older client message has been published. */
  predicate Torn(s: Abs, a: Action)
  {
    && a.LgNext? && s.lg == Peek2(None) && s.discs != [] && s.clients != []
    && Node(s.mem, s.clients[0]).step < Node(s.mem, s.discs[0]).step
  }

  lemma BoundIsPublished(s: Abs)
    requires AInv(s) && Bound(s).Some?
    ensures Bound(s).value in s.log
  {
    if s.lg.PopClear? || s.lg.PopAdvance? || s.lg.Handle? {
      assert Bound(s).value in Held(s, s.lg.kind);
      HandledIsPublished(s, Bound(s).value);
    } else {
      if s.clients != [] { WaitingIsPublished(s, Client, 0); }
      if s.discs != [] { WaitingIsPublished(s, Disconnect, 0); }
    }
  }

  lemma OrderedGrows(s: Abs, r: Abs, k: Kind, m: Msg)
    requires Ordered(s) && r.handled == s.handled && Bound(r) == Bound(s)
    requires Waits(r, k) == Waits(s, k) + [m]
    requires forall j :: j != k ==> Waits(r, j) == Waits(s, j)
    requires forall h :: h in s.handled ==> h.step < m.step
    requires Bound(s).Some? ==> Bound(s).value.step <= m.step
    ensures Ordered(r)
  {
  }

  lemma OrderedPublish(s: Abs, n: nat, k: Kind)
    requires AInv(s) && Ordered(s) && s.io == Written(n, k)
    ensures Ordered(APublish(s, n, k))
  {
    MsgsSnoc(s.mem, Pend(s, k), n);
    assert forall m :: m in s.log ==> m.step < s.lastStep;
    forall h | h in s.handled
      ensures h.step < s.lastStep
    {
      HandledIsPublished(s, h);
    }
    if Bound(s).Some? {
      BoundIsPublished(s);
    }
    BoundAfterPublish(s, n, k);
    OrderedGrows(s, APublish(s, n, k), k, Node(s.mem, n));
  }

  lemma BoundAfterPublish(s: Abs, n: nat, k: Kind)
    requires PcOk(s)
    ensures Bound(APublish(s, n, k)) == Bound(s)
  {
  }

  lemma HeadIsFirst(s: Abs, k: Kind)
    ensures HeadMsg(s, k).Some? <==> Waits(s, k) != []
    ensures HeadMsg(s, k).Some? ==> HeadMsg(s, k).value == Waits(s, k)[0]
  {
  }

  /** Nothing the order depends on has changed. */
  lemma OrderedSame(s: Abs, r: Abs)
    requires Ordered(s) && r.handled == s.handled && Bound(r) == Bound(s)
    requires Waits(r, Client) == Waits(s, Client) && Waits(r, Disconnect) == Waits(s, Disconnect)
    ensures Ordered(r)
  {
    assert forall k :: Waits(r, k) == Waits(s, k);
  }

  lemma OrderedStamp(s: Abs, n: nat, k: Kind, body: int)
    requires AInv(s) && Ordered(s) && s.io == Filling(n, k, body)
    ensures Ordered(AStamp(s, n, k, body))
  {
    BoundAfterStamp(s, n, k, body);
    StampElsewhere(s, n, k, body, Client);
    StampElsewhere(s, n, k, body, Disconnect);
    OrderedSame(s, AStamp(s, n, k, body));
  }

  lemma BoundAfterStamp(s: Abs, n: nat, k: Kind, body: int)
    requires AInv(s) && s.io == Filling(n, k, body)
    ensures Bound(AStamp(s, n, k, body)) == Bound(s)
  {
    var r := AStamp(s, n, k, body);
    StampElsewhere(s, n, k, body, Client);
    StampElsewhere(s, n, k, body, Disconnect);
    HeadIsFirst(s, Client);
    HeadIsFirst(s, Disconnect);
    HeadIsFirst(r, Client);
    HeadIsFirst(r, Disconnect);
    if s.lg.PopClear? || s.lg.PopAdvance? || s.lg.Handle? {
      assert Held(r, s.lg.kind)[0] == Held(s, s.lg.kind)[0];
    }
  }

  lemma OrderedTake(s: Abs, k: Kind)
    requires AInv(s) && Ordered(s) && s.lg == PopRead(k)
    ensures Ordered(ATake(s, k))
  {
    var r := ATake(s, k);
    MsgsTail(s.mem, Pend(s, k));
    assert Bound(r) == Bound(s);
    OrderedShrinks(s, r, k);
  }

  lemma OrderedShrinks(s: Abs, r: Abs, k: Kind)
    requires Ordered(s) && r.handled == s.handled && Bound(r) == Bound(s)
    requires Waits(s, k) != [] && Waits(r, k) == Waits(s, k)[1..]
    requires forall j :: j != k ==> Waits(r, j) == Waits(s, j)
    ensures Ordered(r)
  {
    forall h, j | h in s.handled
      ensures AllNewer(Waits(r, j), h)
    {
      assert AllNewer(Waits(s, j), h);
    }
    if Bound(s).Some? {
      assert forall j :: NoneOlder(Waits(s, j), Bound(s).value);
    }
  }

  /** The held message is strictly older than whatever still waits. */
  lemma HeldIsStrictlyOlder(s: Abs, k: Kind)
    requires AInv(s) && Ordered(s) && s.lg.Handle?
    ensures AllNewer(Waits(s, k), Node(s.mem, s.lg.node))
  {
    var m := Node(s.mem, s.lg.node);
    HeldKind(s, s.lg.kind);
    assert m in Held(s, s.lg.kind) && Bound(s) == Some(m);
    HandledIsPublished(s, m);
    WaitingIncreasing(s, s.lg.kind);
    forall i | 0 <= i < |Waits(s, k)|
      ensures m.step < Waits(s, k)[i].step
    {
      if k != s.lg.kind {
        WaitingIsPublished(s, k, i);
        assert NoneOlder(Waits(s, k), m);
        var a :| 0 <= a < |s.log| && s.log[a] == m;
        var b :| 0 <= b < |s.log| && s.log[b] == Waits(s, k)[i];
      } else {
        assert m in OfKind(s.handled, k) + Held(s, k);
      }
    }
  }

  lemma OrderedHandle(s: Abs)
    requires AInv(s) && Ordered(s) && s.lg.Handle?
    ensures Ordered(ALg(s))
  {
    var r, m := ALg(s), Node(s.mem, s.lg.node);
    HeldIsStrictlyOlder(s, Client);
    HeldIsStrictlyOlder(s, Disconnect);
    assert Bound(s) == Some(m);
    assert forall j :: Waits(r, j) == Waits(s, j);
    forall i | 0 <= i < |s.handled|
      ensures s.handled[i].step < m.step
    {
      assert s.handled[i] in s.handled;
    }
  }

  /** Seeing a notice on the second peek after an empty first one: in order exactly if not torn. */
  lemma SecondPeek(s: Abs)
    requires AInv(s) && Ordered(s) && s.lg == Peek2(None) && s.discs != []
    ensures Ordered(ALg(s)) <==> !Torn(s, LgNext)
  {
    var r := ALg(s);
    HeadIsFirst(s, Client);
    HeadIsFirst(s, Disconnect);
    WaitingIncreasing(s, Client);
    WaitingIncreasing(s, Disconnect);
    assert forall j :: Waits(r, j) == Waits(s, j);
    var d := Waits(s, Disconnect)[0];
    assert Bound(r) == Some(d) && NoneOlder(Waits(r, Disconnect), d);
    if s.clients != [] {
      StepsDiffer(s);
      assert NoneOlder(Waits(r, Client), d) <==> !Torn(s, LgNext);
    }
  }

  /** Being bound to the oldest message left keeps the order. */
  lemma NewBound(s: Abs, r: Abs, k: Kind)
    requires Ordered(s) && r.handled == s.handled
    requires Waits(r, Client) == Waits(s, Client) && Waits(r, Disconnect) == Waits(s, Disconnect)
    requires Bound(r).Some? ==>
      Waits(s, k) != [] && Bound(r).value == Waits(s, k)[0]
      && NoneOlder(Waits(s, Client), Bound(r).value) && NoneOlder(Waits(s, Disconnect), Bound(r).value)
    ensures Ordered(r)
  {
    assert forall j :: Waits(r, j) == Waits(s, j);
    if Bound(r).Some? {
      assert forall h :: h in s.handled ==> AllNewer(Waits(s, k), h);
    }
  }

  /** Any other look keeps the order. */
  lemma OtherLooks(s: Abs)
    requires AInv(s) && Ordered(s) && !s.lg.PopRead? && !s.lg.Handle? && !s.lg.Release?
    requires !(s.lg == Peek2(None) && s.discs != [])
    ensures Ordered(ALg(s))
  {
    var r := ALg(s);
    if Bound(r) == Bound(s) {
      OrderedSame(s, r);
    } else {
      HeadIsFirst(s, Client);
      HeadIsFirst(s, Disconnect);
      WaitingIncreasing(s, Client);
      WaitingIncreasing(s, Disconnect);
      if Bound(r).Some? {
        BoundAfterLook(s);
      }
      NewBound(s, r, if Bound(r) == HeadMsg(s, Client) then Client else Disconnect);
    }
  }

  /** A look that binds the logic thread binds it to the head of a ring, both rings having been seen. */
  lemma BoundAfterLook(s: Abs)
    requires PcOk(s) && Bound(ALg(s)).Some? && Bound(ALg(s)) != Bound(s)
    requires !s.lg.PopRead? && !s.lg.Handle? && !s.lg.Release? && !(s.lg == Peek2(None) && s.discs != [])
    ensures s.clients != [] && HeadMsg(s, Client).Some?
    ensures Bound(ALg(s)) == HeadMsg(s, Client) || Bound(ALg(s)) == HeadMsg(s, Disconnect)
    ensures s.discs != [] ==> Bound(ALg(s)).value.step <= Node(s.mem, s.discs[0]).step
    ensures Bound(ALg(s)).value.step <= Node(s.mem, s.clients[0]).step
  {
  }

  /** One step keeps the order exactly if it is not a torn second peek. */
  lemma OrderedStep(s: Abs, a: Action)
    requires AInv(s) && Ordered(s)
    ensures Ordered(AStep(s, a)) <==> !Torn(s, a)
  {
    if a.IoNext? {
      OrderedIo(s);
    } else if a.LgNext? {
      OrderedLg(s);
    } else {
      OrderedPool(s, a);
    }
  }

  lemma OrderedIo(s: Abs)
    requires AInv(s) && Ordered(s)
    ensures Ordered(AIo(s))
  {
    if s.io.Filling? {
      OrderedStamp(s, s.io.node, s.io.kind, s.io.body);
    } else if s.io.Written? {
      OrderedPublish(s, s.io.node, s.io.kind);
    } else {
      OrderedSame(s, AIo(s));
    }
  }

  lemma OrderedLg(s: Abs)
    requires AInv(s) && Ordered(s)
    ensures Ordered(ALg(s)) <==> !Torn(s, LgNext)
  {
    if s.lg.PopRead? {
      OrderedTake(s, s.lg.kind);
    } else if s.lg.Handle? {
      OrderedHandle(s);
    } else if s.lg.Release? {
      OrderedRelease(s);
    } else if s.lg == Peek2(None) && s.discs != [] {
      SecondPeek(s);
    } else {
      OtherLooks(s);
    }
  }

  lemma OrderedRelease(s: Abs)
    requires Ordered(s) && s.lg.Release?
    ensures Ordered(ALg(s))
  {
    assert forall j :: Waits(ALg(s), j) == Waits(s, j);
  }

  lemma OrderedPool(s: Abs, a: Action)
    requires Ordered(s) && (a.IoAlloc? || a.IoDiscard?)
    ensures Ordered(AStep(s, a))
  {
    OrderedSame(s, AStep(s, a));
  }

  // ---------- Whole runs ----------

  ghost predicate StaysOrdered(s: Abs, acts: seq<Action>)
    decreases |acts|
  {
    Ordered(s) && (acts != [] ==> StaysOrdered(AStep(s, acts[0]), acts[1..]))
  }

  predicate NeverTorn(s: Abs, acts: seq<Action>)
    decreases |acts|
  {
    acts != [] ==> !Torn(s, acts[0]) && NeverTorn(AStep(s, acts[0]), acts[1..])
  }

  lemma {:induction false} OrderedIffNeverTorn(s: Abs, acts: seq<Action>)
    requires AInv(s) && Ordered(s)
    ensures StaysOrdered(s, acts) <==> NeverTorn(s, acts)
    decreases |acts|
  {
    if acts != [] {
      AInvStep(s, acts[0]);
      OrderedStep(s, acts[0]);
      if !Torn(s, acts[0]) {
        OrderedIffNeverTorn(AStep(s, acts[0]), acts[1..]);
      }
    }
  }

  lemma {:induction false} EndsOrdered(s: Abs, acts: seq<Action>)
    requires StaysOrdered(s, acts)
    ensures Ordered(ARun(s, acts))
    decreases |acts|
  {
    if acts != [] {
      EndsOrdered(AStep(s, acts[0]), acts[1..]);
    }
  }

  /** From the start, every state of a run is ordered exactly if no second peek of the run is torn;
      and then the handled sequence is strictly increasing in step. */
  lemma HandledInStepOrder(n: nat, acts: seq<Action>)
    ensures StaysOrdered(AInit(n), acts) <==> NeverTorn(AInit(n), acts)
    ensures Sized(Init(n))
    ensures NeverTorn(AInit(n), acts) ==> Increasing(Run(Init(n), acts).handled)
  {
    AInvInit(n);
    OrderedIffNeverTorn(AInit(n), acts);
    InitInv(n);
    RunKeepsInv(Init(n), acts);
    if NeverTorn(AInit(n), acts) {
      EndsOrdered(AInit(n), acts);
    }
  }

  // ---------- A torn peek is never made good ----------

  /** The logic thread is on its way to handle the oldest notice. */
  predicate Committed(s: Abs)
  {
    || s.lg == Slot2(None)
    || (s.lg.Choose? && s.lg.cg == None && s.lg.gg.Some?)
    || ((s.lg.PopCheck? || s.lg.PopRead? || s.lg.PopClear? || s.lg.PopAdvance? || s.lg.Handle?) && s.lg.kind == Disconnect)
  }

  ghost predicate HandledLate(handled: seq<Msg>, c: Msg, d: Msg)
  {
    exists i, j :: 0 <= i < j < |handled| && handled[i] == d && handled[j] == c
  }

  /** The client message `c` is older than the notice `d` and cannot be handled before it any more. */
  ghost predicate Late(s: Abs, c: Msg, d: Msg)
  {
    && c.step < d.step
    && (|| (Committed(s) && Bound(s) == Some(d) && c in Waits(s, Client))
        || (d in s.handled && (c in Waits(s, Client) || c in Held(s, Client)))
        || HandledLate(s.handled, c, d))
  }

  lemma TornIsLate(s: Abs)
    requires AInv(s) && Torn(s, LgNext)
    ensures Late(ALg(s), Node(s.mem, s.clients[0]), Node(s.mem, s.discs[0]))
  {
    HeadIsFirst(s, Client);
    assert Waits(ALg(s), Client) == Waits(s, Client);
  }

  lemma LateSame(s: Abs, r: Abs, c: Msg, d: Msg)
    requires Late(s, c, d) && r.handled == s.handled && Held(r, Client) == Held(s, Client)
    requires Waits(s, Client) <= Waits(r, Client)
    requires Committed(s) ==> Committed(r) && Bound(r) == Bound(s)
    ensures Late(r, c, d)
  {
  }

  lemma LatePublish(s: Abs, n: nat, k: Kind, c: Msg, d: Msg)
    requires AInv(s) && Late(s, c, d) && s.io == Written(n, k)
    ensures Late(APublish(s, n, k), c, d)
  {
    BoundAfterPublish(s, n, k);
    MsgsSnoc(s.mem, Pend(s, k), n);
    LateSame(s, APublish(s, n, k), c, d);
  }

  lemma LateStamp(s: Abs, n: nat, k: Kind, body: int, c: Msg, d: Msg)
    requires AInv(s) && Late(s, c, d) && s.io == Filling(n, k, body)
    ensures Late(AStamp(s, n, k, body), c, d)
  {
    var r := AStamp(s, n, k, body);
    BoundAfterStamp(s, n, k, body);
    StampElsewhere(s, n, k, body, Client);
    LateSame(s, r, c, d);
  }

  lemma LateIo(s: Abs, c: Msg, d: Msg)
    requires AInv(s) && Late(s, c, d)
    ensures Late(AIo(s), c, d)
  {
    match s.io
    case Filling(n, k, body) => LateStamp(s, n, k, body, c, d);
    case Written(n, k) => LatePublish(s, n, k, c, d);
    case _ => LateSame(s, AIo(s), c, d);
  }

  lemma LateTake(s: Abs, k: Kind, c: Msg, d: Msg)
    requires AInv(s) && Late(s, c, d) && s.lg == PopRead(k)
    ensures Late(ATake(s, k), c, d)
  {
    var r := ATake(s, k);
    MsgsTail(s.mem, Pend(s, k));
    if k == Client && c in Waits(s, Client) {
      assert Waits(s, Client) == [Waits(s, Client)[0]] + Waits(r, Client);
      assert Held(r, Client) == [Waits(s, Client)[0]];
    } else if k == Disconnect {
      assert Waits(r, Client) == Waits(s, Client);
      LateSame(s, r, c, d);
    }
  }

  lemma LateHandle(s: Abs, c: Msg, d: Msg)
    requires AInv(s) && Late(s, c, d) && s.lg.Handle?
    ensures Late(ALg(s), c, d)
  {
    var r, m, h := ALg(s), Node(s.mem, s.lg.node), s.handled;
    assert Waits(r, Client) == Waits(s, Client) && r.handled == h + [m];
    if HandledLate(h, c, d) {
      var i, j :| 0 <= i < j < |h| && h[i] == d && h[j] == c;
      assert r.handled[i] == d && r.handled[j] == c;
    } else if d in h && c in Held(s, Client) {
      var i :| 0 <= i < |h| && h[i] == d;
      assert r.handled[i] == d && r.handled[|h|] == c;
    } else if d !in h {
      assert r.handled[|h|] == d;
    }
  }

  lemma LateLg(s: Abs, c: Msg, d: Msg)
    requires AInv(s) && Late(s, c, d)
    ensures Late(ALg(s), c, d)
  {
    if s.lg.PopRead? {
      LateTake(s, s.lg.kind, c, d);
    } else if s.lg.Handle? {
      LateHandle(s, c, d);
    } else {
      LateSame(s, ALg(s), c, d);
    }
  }

  lemma LateStep(s: Abs, a: Action, c: Msg, d: Msg)
    requires AInv(s) && Late(s, c, d)
    ensures Late(AStep(s, a), c, d)
  {
    if a.IoNext? {
      LateIo(s, c, d);
    } else if a.LgNext? {
      LateLg(s, c, d);
    } else {
      LateSame(s, AStep(s, a), c, d);
    }
  }

  lemma {:induction false} LateForever(s: Abs, acts: seq<Action>, c: Msg, d: Msg)
    requires AInv(s) && Late(s, c, d)
    ensures AInv(ARun(s, acts)) && Late(ARun(s, acts), c, d)
    decreases |acts|
  {
    if acts != [] {
      AInvStep(s, acts[0]);
      LateStep(s, acts[0], c, d);
      LateForever(AStep(s, acts[0]), acts[1..], c, d);
    }
  }

  /** Once the older client message is handled too, the handled messages are out of order. */
  lemma LateShows(s: Abs, c: Msg, d: Msg)
    requires AInv(s) && Late(s, c, d) && c in s.handled && c.kind == Client
    ensures !Increasing(s.handled)
  {
    if HandledLate(s.handled, c, d) {
      var i, j :| 0 <= i < j < |s.handled| && s.handled[i] == d && s.handled[j] == c;
      assert !(s.handled[i].step < s.handled[j].step);
    } else {
      NotHandledYet(s, c);
    }
  }

  lemma NotHandledYet(s: Abs, c: Msg)
    requires AInv(s) && c.kind == Client && (c in Waits(s, Client) || c in Held(s, Client))
    ensures c !in s.handled
  {
    OfKindMember(s.handled, Client);
    OfKindIncreasing(s.log, Client);
    var h, e, w := OfKind(s.handled, Client), Held(s, Client), Waits(s, Client);
    var l := OfKind(s.log, Client);
    assert l == h + (e + w);
    assert c in e + w;
    SplitIncreasing(l, h, e + w);
    var i :| 0 <= i < |e + w| && (e + w)[i] == c;
    assert c in h ==> AllNewer(e + w, c);
  }

  lemma LateEver(s: Abs, acts: seq<Action>, c: Msg, d: Msg, r: Abs)
    requires AInv(s) && Torn(s, LgNext)
    requires c == Node(s.mem, s.clients[0]) && d == Node(s.mem, s.discs[0]) && r == ARun(ALg(s), acts)
    ensures AInv(r) && Late(r, c, d) && c.kind == Client
  {
    TornIsLate(s);
    AInvStep(s, LgNext);
    WaitingIsPublished(s, Client, 0);
    LateForever(ALg(s), acts, c, d);
  }

  /** After a torn peek, in every continuation that handles the client message that was waiting, the handled messages
      are out of order. */
  lemma TornNeverRecovers(s: Abs, acts: seq<Action>, c: Msg, r: Abs)
    requires AInv(s) && Torn(s, LgNext)
    requires c == Node(s.mem, s.clients[0]) && r == ARun(AStep(s, LgNext), acts)
    requires c in r.handled
    ensures !Increasing(r.handled)
  {
    LateEver(s, acts, c, Node(s.mem, s.discs[0]), r);
    LateShows(r, c, Node(s.mem, s.discs[0]));
  }

  /** No client message waits, and the logic thread stands at the start of an iteration. */
  predicate Drained(s: Abs)
  {
    s.lg == Peek1 && s.clients == []
  }

  lemma {:induction false} TornShows(s: Abs, acts: seq<Action>, r: Abs)
    requires AInv(s) && !NeverTorn(s, acts) && r == ARun(s, acts) && Drained(r)
    ensures !Increasing(r.handled)
    decreases |acts|
  {
    var a := acts[0];
    if Torn(s, a) {
      var c, d := Node(s.mem, s.clients[0]), Node(s.mem, s.discs[0]);
      LateEver(s, acts[1..], c, d, r);
      LateDrained(r, c, d);
    } else {
      AInvStep(s, a);
      TornShows(AStep(s, a), acts[1..], r);
    }
  }

  lemma LateDrained(s: Abs, c: Msg, d: Msg)
    requires Late(s, c, d) && Drained(s)
    ensures !Increasing(s.handled)
  {
    var i, j :| 0 <= i < j < |s.handled| && s.handled[i] == d && s.handled[j] == c;
    assert !(s.handled[i].step < s.handled[j].step);
  }

  /** Of a run from the start that leaves no client message waiting, the messages were handled in step order if and
      only if no second peek was torn. */
  lemma InStepOrderIff(n: nat, acts: seq<Action>)
    requires Drained(ARun(AInit(n), acts))
    ensures Increasing(ARun(AInit(n), acts).handled) <==> NeverTorn(AInit(n), acts)
    ensures Sized(Init(n)) && Run(Init(n), acts).handled == ARun(AInit(n), acts).handled
  {
    AInvInit(n);
    InitInv(n);
    RunKeepsInv(Init(n), acts);
    OrderedIffNeverTorn(AInit(n), acts);
    if NeverTorn(AInit(n), acts) {
      EndsOrdered(AInit(n), acts);
    } else {
      TornShows(AInit(n), acts, ARun(AInit(n), acts));
    }
  }

  // ---------- The order really can fail ----------

  /** The logic thread peeks an empty client ring; a client message and then a disconnect notice are
      published; the logic thread peeks the notice and handles it. */
  function OvertakingRun(): seq<Action>
  {
    PeekThenPublishClient() + (PublishNotice() + HandleNotice())
  }

  function PeekThenPublishClient(): seq<Action>
  {
    [LgNext, IoAlloc(Client, 7), IoNext, IoNext, IoNext, IoNext]
  }

  function PublishNotice(): seq<Action>
  {
    [IoAlloc(Disconnect, 8), IoNext, IoNext, IoNext, IoNext]
  }

  function HandleNotice(): seq<Action>
  {
    [LgNext, LgNext, LgNext, LgNext, LgNext, LgNext, LgNext, LgNext]
  }

  lemma NoticeOvertakesClient()
    ensures Sized(Init(2)) && Inv(Run(Init(2), OvertakingRun()))
    ensures Run(Init(2), OvertakingRun()).handled == [Msg(2, Disconnect, 8)]
    ensures Waits(View(Run(Init(2), OvertakingRun())), Client) == [Msg(1, Client, 7)]
  {
    InitInv(2);
    RunKeepsInv(Init(2), OvertakingRun());
    NoticeOvertakesOnQueues();
  }

  lemma NoticeOvertakesOnQueues()
    ensures ARun(AInit(2), OvertakingRun()).handled == [Msg(2, Disconnect, 8)]
    ensures Waits(ARun(AInit(2), OvertakingRun()), Client) == [Msg(1, Client, 7)]
  {
    var s6 := ClientPublished();
    var s11 := NoticePublished(s6);
    var s19 := NoticeHandled(s11);
    ARunInThree(AInit(2), PeekThenPublishClient(), PublishNotice(), HandleNotice());
    assert Msgs(s19.mem, s19.clients) == [Msg(1, Client, 7)];
  }

  lemma ARunInThree(s: Abs, a: seq<Action>, b: seq<Action>, c: seq<Action>)
    ensures ARun(s, a + (b + c)) == ARun(ARun(ARun(s, a), b), c)
  {
    ARunSplit(s, a, b + c);
    ARunSplit(ARun(s, a), b, c);
  }

  lemma ClientPublished() returns (s: Abs)
    ensures s == ARun(AInit(2), PeekThenPublishClient())
    ensures s == Abs([Msg(0, Client, 0), Msg(1, Client, 7)], [0], [1], [], 1, Idle, Peek2(None), [Msg(1, Client, 7)], [])
  {
    var s1 := AInit(2).(lg := Peek2(None));
    assert AInit(2).mem == [Msg(0, Client, 0), Msg(0, Client, 0)] && AInit(2).free == [0, 1];
    var s2 := s1.(free := [0], io := Filling(1, Client, 7));
    assert [0, 1][..1] == [0];
    var s3 := s2.(mem := [Msg(0, Client, 0), Msg(1, Client, 7)], lastStep := 1, io := Stamped(1, Client));
    var s4 := s3.(io := Checked(1, Client));
    var s5 := s4.(io := Written(1, Client));
    s := s5.(clients := [1], io := Idle, log := [Msg(1, Client, 7)]);
    IsRunOf([AInit(2), s1, s2, s3, s4, s5, s], PeekThenPublishClient());
  }

  lemma NoticePublished(s6: Abs) returns (s: Abs)
    requires s6 == Abs([Msg(0, Client, 0), Msg(1, Client, 7)], [0], [1], [], 1, Idle, Peek2(None), [Msg(1, Client, 7)], [])
    ensures s == ARun(s6, PublishNotice())
    ensures s == Abs([Msg(2, Disconnect, 8), Msg(1, Client, 7)], [], [1], [0], 2, Idle, Peek2(None), [Msg(1, Client, 7), Msg(2, Disconnect, 8)], [])
  {
    var s7 := s6.(free := [], io := Filling(0, Disconnect, 8));
    var s8 := s7.(mem := [Msg(2, Disconnect, 8), Msg(1, Client, 7)], lastStep := 2, io := Stamped(0, Disconnect));
    var s9 := s8.(io := Checked(0, Disconnect));
    var s10 := s9.(io := Written(0, Disconnect));
    s := s10.(discs := [0], io := Idle, log := [Msg(1, Client, 7), Msg(2, Disconnect, 8)]);
    IsRunOf([s6, s7, s8, s9, s10, s], PublishNotice());
  }

  lemma NoticeHandled(s11: Abs) returns (s: Abs)
    requires s11 == Abs([Msg(2, Disconnect, 8), Msg(1, Client, 7)], [], [1], [0], 2, Idle, Peek2(None), [Msg(1, Client, 7), Msg(2, Disconnect, 8)], [])
    ensures s == ARun(s11, HandleNotice())
    ensures s.handled == [Msg(2, Disconnect, 8)] && s.mem == s11.mem && s.clients == [1]
  {
    var s12 := s11.(lg := Slot2(None));
    var s13 := s12.(lg := Choose(None, Some(0)));
    var s14 := s13.(lg := PopCheck(Disconnect));
    var s15 := s14.(lg := PopRead(Disconnect));
    var s16 := s15.(lg := PopClear(Disconnect, 0), discs := []);
    var s17 := s16.(lg := PopAdvance(Disconnect, 0));
    var s18 := s17.(lg := Handle(Disconnect, 0));
    s := s18.(lg := Release(Disconnect, 0), handled := [Msg(2, Disconnect, 8)]);
    IsRunOf([s11, s12, s13, s14, s15, s16, s17, s18, s], HandleNotice());
  }

  lemma {:induction false} IsRunOf(states: seq<Abs>, acts: seq<Action>)
    requires |states| == |acts| + 1 && forall k :: 0 <= k < |acts| ==> states[k + 1] == AStep(states[k], acts[k])
    ensures ARun(states[0], acts) == states[|acts|]
    decreases |acts|
  {
    if acts != [] {
      IsRunOf(states[1..], acts[1..]);
    }
  }

  lemma {:induction false} ARunSplit(s: Abs, a: seq<Action>, b: seq<Action>)
    ensures ARun(s, a + b) == ARun(ARun(s, a), b)
    decreases |a|
  {
    if a == [] {
      assert a + b == b;
    } else {
      assert (a + b)[0] == a[0] && (a + b)[1..] == a[1..] + b;
      ARunSplit(AStep(s, a[0]), a[1..], b);
    }
  }
}
