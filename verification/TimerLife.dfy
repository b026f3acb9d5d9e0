/** Whole runs of a timer base: what every operation keeps, and what each does to the priority queue. */
module TimerLife {
  import opened Lists
  import opened TimerQueue
  import opened TimerSteps
  import opened TimerRuns

  lemma ActivateValid<E>(s: State<E>, e: E, byTimeout: bool)
    requires Valid(s) && e in s.ev
    ensures Valid(Activate(s, e, byTimeout))
  {
    ActivateWf(s, e, byTimeout);
    ActivateEffect(s, e, byTimeout);
    forall i | 0 <= i < |s.common|
      ensures Covered(Activate(s, e, byTimeout), i)
    {
      ActivateCover(s, e, byTimeout, i);
    }
  }

  /** event_active_nolock: any event may be activated; the priority queue does not notice. */
  lemma ActivateRefines<E>(s: State<E>, e: E, byTimeout: bool)
    requires Valid(s) && e in s.ev
    ensures Valid(Activate(s, e, byTimeout))
    ensures Deadlines(Activate(s, e, byTimeout).ev) == Deadlines(s.ev)
    ensures ActiveUsers(Activate(s, e, byTimeout).ev) == ActiveUsers(s.ev) + if s.ev[e].isInternal then {} else {e}
  {
    ActivateValid(s, e, byTimeout);
    ActivateEffect(s, e, byTimeout);
    ActivatedMaps(s.ev, e, Activate(s, e, byTimeout).ev[e]);
  }

  lemma ActivatedMaps<E>(ev: map<E, Info>, e: E, i: Info)
    requires e in ev && i.isInternal == ev[e].isInternal && i.armed == ev[e].armed && i.deadline == ev[e].deadline && i.active
    ensures Deadlines(ev[e := i]) == Deadlines(ev)
    ensures ActiveUsers(ev[e := i]) == ActiveUsers(ev) + if i.isInternal then {} else {e}
  {
    DeadlinesChange(ev, e, i);
  }

  // ---------- Deadline and interval name the same level ----------

  /** What event_persist_closure asserts of an event it is about to add again. */
  predicate SameLevel(i: Info)
  {
    i.persistent && Repeats(i) ==> i.common == i.intervalCommon
  }

  ghost predicate Agree<E>(ev: map<E, Info>)
  {
    forall e :: e in ev && !ev[e].isInternal ==> SameLevel(ev[e])
  }

  lemma AgreeOne<E>(ev: map<E, Info>, ev': map<E, Info>, e: E, i: Info)
    requires Agree(ev) && ev' == ev[e := i] && (i.isInternal || SameLevel(i))
    ensures Agree(ev')
  {
  }

  lemma ScheduleAgrees<E>(s: State<E>, i: int)
    requires Wf(s) && Agree(s.ev) && 0 <= i < |s.common| && s.common[i] != []
    ensures Agree(Schedule(s, i).ev)
  {
    ScheduleKeeps(s, i);
    AgreeOne(s.ev, Schedule(s, i).ev, s.timers[i], Schedule(s, i).ev[s.timers[i]]);
  }

  lemma RememberAgrees<E>(s: State<E>, e: E, when: int, c: int, absolute: bool, s0: State<E>)
    requires e in s.ev && s0 == Remember(s, e, when, c, absolute)
    ensures e in s0.ev && s0.ev == s.ev[e := s0.ev[e]] && s0.common == s.common
    ensures s0.ev[e] == if s.ev[e].persistent && !absolute then s.ev[e].(interval := when, intervalCommon := c) else s.ev[e]
  {
    assert s.ev[e := s.ev[e]] == s.ev;
  }

  /** Entering a level: with `ev` as it was before the interval was remembered. */
  lemma EnterAgrees<E>(ev: map<E, Info>, s: State<E>, e: E, d: int, c: int)
    requires Wf(s) && Agree(ev) && e in s.ev && s.ev == ev[e := s.ev[e]] && !s.ev[e].isInternal && -1 <= c < |s.common|
    requires SameLevel(s.ev[e].(common := c))
    ensures Agree(Enter(s, e, d, c).ev)
  {
    RearmWf(s, e, d, c);
    RearmEffect(s, e, d, c);
    var r := Rearm(s, e, d, c);
    assert r.ev == ev[e := r.ev[e]];
    AgreeOne(ev, r.ev, e, r.ev[e]);
    if c >= 0 && r.common[c] != [] && r.common[c][0] == e {
      ScheduleAgrees(r, c);
    }
  }

  /** event_add: by its timeout value the new interval names the level of the new deadline; a persistent event that is
      added again goes to the level of its deadline. */
  lemma AddAgrees<E>(s: State<E>, e: E, when: int, c: int, absolute: bool, now: int)
    requires Wf(s) && Agree(s.ev) && e in s.ev && !s.ev[e].isInternal && -1 <= c < |s.common|
    requires absolute ==> c == s.ev[e].common
    ensures Agree(Add(s, e, when, c, absolute, now).ev)
  {
    var s0 := Remember(s, e, when, c, absolute);
    RememberWf(s, e, when, c, absolute);
    RememberAgrees(s, e, when, c, absolute, s0);
    EnterAgrees(s.ev, s0, e, Deadline(when, absolute, now), c);
  }

  lemma DelAgrees<E>(s: State<E>, e: E)
    requires Wf(s) && Agree(s.ev) && e in s.ev
    ensures Agree(Del(s, e).ev)
  {
    DelEffect(s, e);
    AgreeOne(s.ev, Del(s, e).ev, e, Del(s, e).ev[e]);
  }

  lemma CallbackAgrees<E>(s: State<E>, i: int, now: int)
    requires Valid(s) && Agree(s.ev) && 0 <= i < |s.common|
    ensures Agree(CommonCallback(s, i, now).ev)
  {
    var s0 := s.(owed := s.owed - {s.timers[i]});
    OwedWf(s, s0);
    var r := Drain(s0, i, now);
    DrainWf(s0, i, now);
    DrainAgrees(s0, i, now);
    if r.common[i] != [] {
      ScheduleAgrees(r, i);
    }
  }

  lemma {:induction false} DrainAgrees<E>(s: State<E>, i: int, now: int)
    requires Wf(s) && Agree(s.ev) && 0 <= i < |s.common|
    ensures Agree(Drain(s, i, now).ev)
    decreases |s.common[i]|
  {
    QueueMembers(s);
    if s.common[i] != [] && s.ev[s.common[i][0]].deadline <= now {
      var head := s.common[i][0];
      FireEffect(s, head);
      AgreeOne(s.ev, Fire(s, head).ev, head, Fire(s, head).ev[head]);
      QueueAfterFire(s, i);
      DrainAgrees(Fire(s, head), i, now);
    }
  }

  // ---------- Operations ----------

  datatype Op<!E> =
    | AddOp(e: E, when: int, c: int, now: int)
    | DelOp(e: E)
    | ActivateOp(e: E, byTimeout: bool)
    | FireOp(e: E)
    | BeginTimerOp(i: int)
    | CallbackOp(i: int, now: int)
    | BeginUserOp(e: E)
    | PersistOp(e: E, now: int)
    | CorrectOp(off: int)
    | AssignOp(e: E, priority: nat, persistent: bool)
    | NewQueueOp(t: E)

  predicate User<E>(s: State<E>, e: E)
  {
    e in s.ev && !s.ev[e].isInternal
  }

  /** What callers and the loop see to: users name their own events and existing queues, and only active events run. */
  predicate Can<E>(s: State<E>, op: Op<E>)
  {
    match op
    case AddOp(e, _, c, _) => User(s, e) && -1 <= c < |s.common|
    case DelOp(e) => User(s, e)
    case ActivateOp(e, _) => e in s.ev
    case FireOp(e) => e in s.ev
    case BeginTimerOp(i) => 0 <= i < |s.common|
    case CallbackOp(i, _) => 0 <= i < |s.common|
    case BeginUserOp(e) => User(s, e) && s.ev[e].active
    case PersistOp(e, _) => User(s, e) && s.ev[e].persistent
    case CorrectOp(_) => true
    case AssignOp(e, p, _) => e !in s.ev && p < |s.active|
    case NewQueueOp(t) => t !in s.ev && |s.active| > 0
  }

  function Fresh(priority: nat, persistent: bool): Info
  {
    Info(false, priority, persistent, 0, -1, false, false, false, 0, -1)
  }

  ghost function Do<E>(s: State<E>, op: Op<E>): State<E>
    requires Valid(s) && Can(s, op)
  {
    match op
    case AddOp(e, when, c, now) => Add(s, e, when, c, false, now)
    case DelOp(e) => Del(s, e)
    case ActivateOp(e, byTimeout) => Activate(s, e, byTimeout)
    case FireOp(e) => Fire(s, e)
    case BeginTimerOp(i) => DequeueInternal(s, i); Dequeue(s, s.timers[i])
    case CallbackOp(i, now) => CommonCallback(s, i, now)
    case BeginUserOp(e) => Dequeue(s, e)
    case PersistOp(e, now) => Persist(s, e, now)
    case CorrectOp(off) => Correct(s, off)
    case AssignOp(e, p, persistent) => SetEv(s, e, Fresh(p, persistent))
    case NewQueueOp(t) => NewQueue(s, t)
  }

  /** event_persist_closure. */
  ghost function Persist<E>(s: State<E>, e: E, now: int): State<E>
    requires Wf(s) && User(s, e)
  {
    assert EventsOk(s);
    if Repeats(s.ev[e]) then Add(s, e, NextRun(s.ev[e], now), s.ev[e].common, true, now) else s
  }

  /** What an operation does to the priority queue. */
  ghost function Queue<E>(s: State<E>, op: Op<E>): map<E, int>
    requires Valid(s) && Can(s, op)
  {
    match op
    case AddOp(e, when, _, now) => Deadlines(s.ev)[e := now + when]
    case DelOp(e) => Deadlines(s.ev) - {e}
    case FireOp(e) => Deadlines(s.ev) - {e}
    case CallbackOp(i, now) => Deadlines(s.ev) - DueIn(s, i, now)
    case BeginUserOp(e) => if s.ev[e].persistent then Deadlines(s.ev) else Deadlines(s.ev) - {e}
    case PersistOp(e, now) => if Repeats(s.ev[e]) then Deadlines(s.ev)[e := NextRun(s.ev[e], now)] else Deadlines(s.ev)
    case CorrectOp(off) => map e | e in Deadlines(s.ev) :: Deadlines(s.ev)[e] - off
    case _ => Deadlines(s.ev)
  }

  /** Every operation keeps the invariant and changes the priority queue as it should. */
  lemma StepRefines<E>(s: State<E>, op: Op<E>)
    requires Valid(s) && Can(s, op)
    ensures Valid(Do(s, op)) && Deadlines(Do(s, op).ev) == Queue(s, op)
  {
    if op.AddOp? {
      StepAdd(s, op);
    } else if op.PersistOp? {
      PersistRefines(s, op.e, op.now);
    } else if op.DelOp? || op.ActivateOp? || op.FireOp? {
      StepOne(s, op);
    } else if op.BeginTimerOp? || op.CallbackOp? || op.BeginUserOp? {
      StepLoop(s, op);
    } else {
      StepBase(s, op);
    }
  }

  lemma StepAdd<E>(s: State<E>, op: Op<E>)
    requires Valid(s) && Can(s, op) && op.AddOp?
    ensures Valid(Do(s, op)) && Deadlines(Do(s, op).ev) == Queue(s, op)
  {
    var e, when, c, now, q := op.e, op.when, op.c, op.now, Queue(s, op);
    var d, r := now + when, Do(s, op);
    assert q == Deadlines(s.ev)[e := d];
    assert r == Add(s, e, when, c, false, now);
    AddNew(s, e, when, c, false, now, d, q, r);
  }

  lemma AddNew<E>(s: State<E>, e: E, when: int, c: int, absolute: bool, now: int, d: int, q: map<E, int>, r: State<E>)
    requires Valid(s) && User(s, e) && -1 <= c < |s.common| && d == Deadline(when, absolute, now)
    requires r == Add(s, e, when, c, absolute, now) && q == Deadlines(s.ev)[e := d]
    ensures Valid(r) && Deadlines(r.ev) == q
  {
    AddValid(s, e, when, c, absolute, now);
    AddRefines(s, e, when, c, absolute, now);
  }

  lemma StepOne<E>(s: State<E>, op: Op<E>)
    requires Valid(s) && Can(s, op) && (op.DelOp? || op.ActivateOp? || op.FireOp?)
    ensures Valid(Do(s, op)) && Deadlines(Do(s, op).ev) == Queue(s, op)
  {
    match op
    case DelOp(e) => DelRefines(s, e);
    case ActivateOp(e, byTimeout) => ActivateRefines(s, e, byTimeout);
    case FireOp(e) => FireRefines(s, e);
  }

  lemma StepLoop<E>(s: State<E>, op: Op<E>)
    requires Valid(s) && Can(s, op) && (op.BeginTimerOp? || op.CallbackOp? || op.BeginUserOp?)
    ensures Valid(Do(s, op)) && Deadlines(Do(s, op).ev) == Queue(s, op)
  {
    match op
    case BeginTimerOp(i) => BeginTimerRefines(s, i);
    case CallbackOp(i, now) => CallbackRefines(s, i, now);
    case BeginUserOp(e) => DequeueUser(s, e);
  }

  lemma StepBase<E>(s: State<E>, op: Op<E>)
    requires Valid(s) && Can(s, op) && (op.CorrectOp? || op.AssignOp? || op.NewQueueOp?)
    ensures Valid(Do(s, op)) && Deadlines(Do(s, op).ev) == Queue(s, op)
  {
    match op
    case CorrectOp(off) => CorrectRefines(s, off);
    case AssignOp(e, p, persistent) => AssignKeeps(s, e, Fresh(p, persistent));
    case NewQueueOp(t) => NewQueueKeeps(s, t);
  }

  lemma BeginTimerRefines<E>(s: State<E>, i: int)
    requires Valid(s) && 0 <= i < |s.common|
    ensures s.timers[i] in s.ev && Valid(Dequeue(s, s.timers[i]))
    ensures Deadlines(Dequeue(s, s.timers[i]).ev) == Deadlines(s.ev)
  {
    DequeueInternal(s, i);
    DeadlinesChange(s.ev, s.timers[i], Dequeue(s, s.timers[i]).ev[s.timers[i]]);
  }

  lemma PersistRefines<E>(s: State<E>, e: E, now: int)
    requires Valid(s) && User(s, e)
    ensures Valid(Persist(s, e, now))
    ensures Deadlines(Persist(s, e, now).ev) ==
      if Repeats(s.ev[e]) then Deadlines(s.ev)[e := NextRun(s.ev[e], now)] else Deadlines(s.ev)
  {
    assert EventsOk(s);
    AddValid(s, e, NextRun(s.ev[e], now), s.ev[e].common, true, now);
    AddRefines(s, e, NextRun(s.ev[e], now), s.ev[e].common, true, now);
  }

  lemma StepAgrees<E>(s: State<E>, op: Op<E>)
    requires Valid(s) && Can(s, op) && Agree(s.ev)
    ensures Agree(Do(s, op).ev)
  {
    match op
    case AddOp(e, when, c, now) => AddAgrees(s, e, when, c, false, now);
    case DelOp(e) => DelAgrees(s, e);
    case ActivateOp(e, byTimeout) => ActivateAgrees(s, e, byTimeout);
    case FireOp(e) =>
      FireEffect(s, e);
      AgreeOne(s.ev, Do(s, op).ev, e, Do(s, op).ev[e]);
    case BeginTimerOp(i) =>
      DequeueInternal(s, i);
      BeginTimerAgrees(s, i);
    case CallbackOp(i, now) => CallbackAgrees(s, i, now);
    case BeginUserOp(e) => BeginUserAgrees(s, e);
    case PersistOp(e, now) => PersistAgrees(s, e, now);
    case CorrectOp(off) => CorrectAgrees(s, off);
    case AssignOp(e, p, persistent) => AgreeOne(s.ev, Do(s, op).ev, e, Fresh(p, persistent));
    case NewQueueOp(t) => AgreeOne(s.ev, Do(s, op).ev, t, Do(s, op).ev[t]);
  }

  lemma ActivateAgrees<E>(s: State<E>, e: E, byTimeout: bool)
    requires Wf(s) && Agree(s.ev) && e in s.ev
    ensures Agree(Activate(s, e, byTimeout).ev)
  {
    ActivateEffect(s, e, byTimeout);
    AgreeOne(s.ev, Activate(s, e, byTimeout).ev, e, Activate(s, e, byTimeout).ev[e]);
  }

  lemma BeginTimerAgrees<E>(s: State<E>, i: int)
    requires Valid(s) && Agree(s.ev) && 0 <= i < |s.common|
    ensures s.timers[i] in s.ev && Agree(Dequeue(s, s.timers[i]).ev)
  {
    DequeueInternal(s, i);
    AgreeOne(s.ev, Dequeue(s, s.timers[i]).ev, s.timers[i], Dequeue(s, s.timers[i]).ev[s.timers[i]]);
  }

  lemma CorrectAgrees<E>(s: State<E>, off: int)
    requires Wf(s) && Agree(s.ev)
    ensures Agree(Correct(s, off).ev)
  {
  }

  lemma FiredAgrees<E>(ev: map<E, Info>, ev': map<E, Info>, fired: set<E>)
    requires Agree(ev) && FiredIn(ev, ev', fired)
    ensures Agree(ev')
  {
  }

  lemma BeginUserAgrees<E>(s: State<E>, e: E)
    requires Wf(s) && Agree(s.ev) && User(s, e)
    ensures Agree(Dequeue(s, e).ev)
  {
    if s.ev[e].persistent {
      AgreeOne(s.ev, Dequeue(s, e).ev, e, Dequeue(s, e).ev[e]);
    } else {
      DelAgrees(s, e);
    }
  }

  lemma PersistAgrees<E>(s: State<E>, e: E, now: int)
    requires Wf(s) && Agree(s.ev) && User(s, e)
    ensures Agree(Persist(s, e, now).ev)
  {
    assert EventsOk(s);
    AddAgrees(s, e, NextRun(s.ev[e], now), s.ev[e].common, true, now);
  }

  // ---------- Runs ----------

  /** A base with no events. */
  function Start<E>(priorities: nat): State<E>
  {
    State(map[], [], [], seq(priorities, _ => []), {}, 0, 0)
  }

  ghost predicate Allowed<E>(s: State<E>, ops: seq<Op<E>>)
    requires Valid(s)
    decreases |ops|
  {
    ops != [] ==> Can(s, ops[0]) && (StepRefines(s, ops[0]); Allowed(Do(s, ops[0]), ops[1..]))
  }

  ghost function After<E>(s: State<E>, ops: seq<Op<E>>): State<E>
    requires Valid(s) && Allowed(s, ops)
    decreases |ops|
  {
    if ops == [] then s else (StepRefines(s, ops[0]); After(Do(s, ops[0]), ops[1..]))
  }

  lemma {:induction false} RunKeeps<E>(s: State<E>, ops: seq<Op<E>>)
    requires Valid(s) && Allowed(s, ops) && Agree(s.ev)
    ensures Valid(After(s, ops)) && Agree(After(s, ops).ev)
    decreases |ops|
  {
    if ops != [] {
      StepRefines(s, ops[0]);
      StepAgrees(s, ops[0]);
      RunKeeps(Do(s, ops[0]), ops[1..]);
    }
  }

  lemma StartValid<E>(priorities: nat)
    ensures Valid(Start<E>(priorities))
  {
    var s := Start<E>(priorities);
    forall p | 0 <= p < |s.active|
      ensures ActiveOk(s, p)
    {
    }
  }

  /** A run of operations from a base with no events. */
  ghost predicate IsLife<E>(priorities: nat, ops: seq<Op<E>>)
  {
    StartValid<E>(priorities);
    Allowed(Start<E>(priorities), ops)
  }

  ghost function Reached<E>(priorities: nat, ops: seq<Op<E>>): State<E>
    requires IsLife(priorities, ops)
  {
    StartValid<E>(priorities);
    After(Start<E>(priorities), ops)
  }

  /** In every state that a run can reach, every common queue is sorted and stood for in the heap, and the assertion of
      event_persist_closure holds of every event. */
  lemma EveryReachableState<E>(priorities: nat, ops: seq<Op<E>>)
    requires IsLife(priorities, ops)
    ensures Valid(Reached(priorities, ops)) && Agree(Reached(priorities, ops).ev)
  {
    StartValid<E>(priorities);
    RunKeeps(Start<E>(priorities), ops);
  }
}
