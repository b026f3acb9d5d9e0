/** What becomes of every message: it is published as it was allocated, and once the IO thread rests the logic thread handles
    all that is published in a bounded number of steps. */
module PipelineProgress {
  import opened Lists
  import opened MsgQueue
  import opened PipelineSpec
  import opened Pipeline

  // ---------- The logic thread goes on ----------

  function Waits(s: Abs): nat
  {
    |s.clients| + |s.discs|
  }

  /** How many steps the logic thread takes at most until it has handled all that waits. */
  function StepsLeft(s: Abs): int
  {
    match s.lg
    case Peek1 => 11 * Waits(s)
    case Slot1 => 11 * Waits(s) - 1
    case Peek2(cg) => if cg == None && s.discs == [] then 11 * Waits(s) + 2 else 11 * Waits(s) - 2
    case Slot2(_) => 11 * Waits(s) - 3
    case Choose(cg, gg) => if cg == None && gg == None then 11 * Waits(s) + 1 else 11 * Waits(s) - 4
    case PopCheck(_) => 11 * Waits(s) - 5
    case PopRead(_) => 11 * Waits(s) - 6
    case PopClear(_, _) => 11 * Waits(s) + 4
    case PopAdvance(_, _) => 11 * Waits(s) + 3
    case Handle(_, _) => 11 * Waits(s) + 2
    case Release(_, _) => 11 * Waits(s) + 1
    case Crashed => 0
  }

  /** The logic thread is about to look, and nothing waits. */
  predicate AtRest(s: Abs)
  {
    s.lg == Peek1 && s.clients == [] && s.discs == []
  }

  lemma StepsBounded(s: Abs)
    requires PcOk(s)
    ensures 0 <= StepsLeft(s) <= 11 * Waits(s) + 4
    ensures StepsLeft(s) == 0 <==> AtRest(s)
  {
  }

  lemma OneStepOn(s: Abs)
    requires PcOk(s) && !ALg(s).lg.Crashed? && !AtRest(s)
    ensures StepsLeft(ALg(s)) < StepsLeft(s)
  {
  }

  /** The logic thread moves `n` times. */
  function Turns(n: nat): seq<Action>
  {
    seq(n, _ => LgNext)
  }

  lemma {:induction false} Settles(s: State) returns (n: nat, r: State)
    requires Inv(s)
    ensures n <= StepsLeft(View(s))
    ensures r == Run(s, Turns(n)) && Inv(r) && AtRest(View(r)) && r.log == s.log
    decreases StepsLeft(View(s))
  {
    StepsBounded(View(s));
    if AtRest(View(s)) {
      n, r := 0, s;
    } else {
      var next := OneTurn(s);
      var k;
      k, r := Settles(next);
      n := k + 1;
      MoreTurns(s, next, k, n);
    }
  }

  lemma MoreTurns(s: State, next: State, k: nat, n: nat)
    requires Sized(s) && next == Step(s, LgNext) && n == k + 1
    ensures Sized(next) && Run(s, Turns(n)) == Run(next, Turns(k))
  {
    StepSized(s, LgNext);
    assert Turns(n)[0] == LgNext && Turns(n)[1..] == Turns(k);
  }

  lemma OneTurn(s: State) returns (next: State)
    requires Inv(s) && !AtRest(View(s))
    ensures next == Step(s, LgNext) && Inv(next) && next.log == s.log
    ensures 0 <= StepsLeft(View(next)) < StepsLeft(View(s))
  {
    next := Step(s, LgNext);
    RefineStep(s, LgNext);
    AInvStep(View(s), LgNext);
    OneStepOn(View(s));
    StepsBounded(View(next));
  }

  lemma AllHandled(s: Abs, k: Kind)
    requires AInv(s) && AtRest(s)
    ensures OfKind(s.handled, k) == OfKind(s.log, k)
  {
    assert Fifo(s, k);
    assert OfKind(s.handled, k) + [] + [] == OfKind(s.handled, k);
  }

  /** From every state a run can reach, if only the logic thread moves: at most eleven steps for each waiting message, and
      four for one it holds, and nothing waits and everything published has been handled, each ring's messages in order. */
  lemma EveryMessageIsHandled(s: State) returns (n: nat, r: State)
    requires Inv(s)
    ensures n <= 11 * (|View(s).clients| + |View(s).discs|) + 4
    ensures r == Run(s, Turns(n)) && Inv(r) && r.log == s.log
    ensures r.lg == Peek1 && r.recv.front == r.recv.back && r.disc.front == r.disc.back
    ensures forall k :: OfKind(r.handled, k) == OfKind(s.log, k)
  {
    StepsBounded(View(s));
    n, r := Settles(s);
    TestsAgree(r, Client);
    TestsAgree(r, Disconnect);
    forall k
      ensures OfKind(r.handled, k) == OfKind(s.log, k)
    {
      AllHandled(View(r), k);
    }
  }

  // ---------- The IO thread goes on ----------

  /** What one step of the IO thread does with the message in its hand. */
  ghost predicate IoMoved(s: State, r: State)
  {
    && r.handled == s.handled
    && match s.io
       case Filling(n, k, body) => r.io == Stamped(n, k) && r.log == s.log && Node(r.mem, n) == Msg(s.lastStep + 1, k, body)
       case Stamped(n, k) => r.io == Checked(n, k) && r.log == s.log && r.mem == s.mem
       case Checked(n, k) => r.io == Written(n, k) && r.log == s.log && r.mem == s.mem
       case Written(n, k) => r.io == Idle && r.log == s.log + [Node(s.mem, n)]
       case _ => true
  }

  lemma OneIo(s: State) returns (r: State)
    requires Inv(s) && !s.io.Idle?
    ensures r == Step(s, IoNext) && Inv(r) && IoMoved(s, r)
  {
    r := Step(s, IoNext);
    RefineStep(s, IoNext);
    AInvStep(View(s), IoNext);
    if s.io.Filling? {
      Apart(View(s), s.io.node);
    }
    IoCases(s, r);
  }

  lemma IoCases(s: State, r: State)
    requires Sized(s) && r == DoIo(s) && !r.io.Overflow? && (s.io.Filling? ==> s.io.node < |s.mem|)
    ensures IoMoved(s, r)
  {
  }

  /** Four steps publish an allocated message, the newest of all. */
  lemma FourStepsPublish(s: State) returns (r: State)
    requires Inv(s) && s.io.Filling?
    ensures r == Run(s, [IoNext, IoNext, IoNext, IoNext]) && Inv(r)
    ensures r.io == Idle && r.handled == s.handled && r.log == s.log + [Msg(s.lastStep + 1, s.io.kind, s.io.body)]
  {
    var s1 := OneIo(s);
    var s2 := OneIo(s1);
    var s3 := OneIo(s2);
    r := OneIo(s3);
    FourSteps(s, s1, s2, s3, r);
  }

  lemma FourSteps(s: State, s1: State, s2: State, s3: State, s4: State)
    requires Sized(s) && Sized(s1) && Sized(s2) && Sized(s3)
    requires s1 == Step(s, IoNext) && s2 == Step(s1, IoNext) && s3 == Step(s2, IoNext) && s4 == Step(s3, IoNext)
    ensures Run(s, [IoNext, IoNext, IoNext, IoNext]) == s4
  {
    assert Run(s3, [IoNext]) == s4 by {
      assert [IoNext][1..] == [];
    }
    assert Run(s2, [IoNext, IoNext]) == s4 by {
      assert [IoNext, IoNext][1..] == [IoNext];
    }
    assert Run(s1, [IoNext, IoNext, IoNext]) == s4 by {
      assert [IoNext, IoNext, IoNext][1..] == [IoNext, IoNext];
    }
    assert [IoNext, IoNext, IoNext, IoNext][1..] == [IoNext, IoNext, IoNext];
  }

  // ---------- Messages keep what they were allocated with ----------

  datatype Payload = Payload(kind: Kind, body: int)

  function PayloadOf(m: Msg): Payload
  {
    Payload(m.kind, m.body)
  }

  function PayloadsOf(ms: seq<Msg>): seq<Payload>
  {
    seq(|ms|, i requires 0 <= i < |ms| => PayloadOf(ms[i]))
  }

  /** The message in the IO thread's hand. */
  function InHand(s: State): seq<Payload>
  {
    match s.io
    case Filling(_, k, body) => [Payload(k, body)]
    case Stamped(n, _) => [PayloadOf(Node(s.mem, n))]
    case Checked(n, _) => [PayloadOf(Node(s.mem, n))]
    case Written(n, _) => [PayloadOf(Node(s.mem, n))]
    case _ => []
  }

  /** What an action adds to the messages asked for, and takes back. */
  function Asked(s: State, a: Action, sofar: seq<Payload>): seq<Payload>
  {
    if a.IoAlloc? && s.io.Idle? && s.free != [] then sofar + [Payload(a.kind, a.body)]
    else if a.IoDiscard? && s.io.Filling? && sofar != [] then sofar[..|sofar| - 1]
    else sofar
  }

  function AllAsked(s: State, acts: seq<Action>, sofar: seq<Payload>): seq<Payload>
    requires Sized(s)
    decreases |acts|
  {
    if acts == [] then sofar
    else
      StepSized(s, acts[0]);
      AllAsked(Step(s, acts[0]), acts[1..], Asked(s, acts[0], sofar))
  }

  lemma StepPayloads(s: State, a: Action)
    requires Inv(s)
    ensures Sized(Step(s, a)) && PayloadsOf(Step(s, a).log) + InHand(Step(s, a)) == Asked(s, a, PayloadsOf(s.log) + InHand(s))
  {
    StepSized(s, a);
    if a.IoDiscard? {
      NeverStuckOnSpace(View(s), a);
      PoolPayloads(s, a);
    } else if a.IoAlloc? {
      PoolPayloads(s, a);
    } else if a.IoNext? && !s.io.Idle? {
      var r := OneIo(s);
      HandStays(s, r);
    }
  }

  lemma PoolPayloads(s: State, a: Action)
    requires Sized(s) && (a.IoAlloc? || (a.IoDiscard? && (s.io.Filling? ==> |s.free| != |s.mem|)))
    ensures PayloadsOf(Step(s, a).log) + InHand(Step(s, a)) == Asked(s, a, PayloadsOf(s.log) + InHand(s))
  {
    var ps := PayloadsOf(s.log) + InHand(s);
    if a.IoDiscard? && s.io.Filling? {
      assert ps[..|ps| - 1] == PayloadsOf(s.log);
    } else if a.IoAlloc? && s.io.Idle? {
      assert ps == PayloadsOf(s.log);
    }
  }

  lemma HandStays(s: State, r: State)
    requires IoMoved(s, r) && !s.io.Idle? && !s.io.Overflow?
    requires s.io.Stamped? || s.io.Checked? || s.io.Written? ==> Node(s.mem, s.io.node).kind == s.io.kind
    ensures PayloadsOf(r.log) + InHand(r) == PayloadsOf(s.log) + InHand(s)
  {
    if s.io.Written? {
      assert PayloadsOf(r.log) == PayloadsOf(s.log) + [PayloadOf(Node(s.mem, s.io.node))];
    }
  }

  lemma {:induction false} RunPayloads(s: State, acts: seq<Action>, sofar: seq<Payload>)
    requires Inv(s) && sofar == PayloadsOf(s.log) + InHand(s)
    ensures Sized(Run(s, acts)) && PayloadsOf(Run(s, acts).log) + InHand(Run(s, acts)) == AllAsked(s, acts, sofar)
    decreases |acts|
  {
    if acts != [] {
      StepPayloads(s, acts[0]);
      RefineStep(s, acts[0]);
      AInvStep(View(s), acts[0]);
      RunPayloads(Step(s, acts[0]), acts[1..], Asked(s, acts[0], sofar));
    }
  }

  /** In every interleaving: the messages published, and behind them the one in the IO thread's hand, have the kinds and bodies
      of those that were allocated and not discarded, in order. */
  lemma PublishedAsAllocated(n: nat, acts: seq<Action>)
    ensures Sized(Init(n))
    ensures PayloadsOf(Run(Init(n), acts).log) + InHand(Run(Init(n), acts)) == AllAsked(Init(n), acts, [])
  {
    InitInv(n);
    RunPayloads(Init(n), acts, []);
  }
}
