/** event_base's timer half as the mutable structure it is: events, the heap of events, the
    common-timeout queues and the active lists, all updated in place. Each method is tied to the
    step of the same name on the value `Abs()`. */
module EventBase {
  import opened MinHeap
  import opened Lists
  import opened TimerQueue
  import opened TimerSteps
  import opened TimerLife
  import opened TimerOrder
  import opened TimerRuns

  lemma LevelOf(s: State<Event>, e: Event)
    requires Wf(s) && e in s.ev
    ensures -1 <= s.ev[e].common < |s.common|
  {
  }

  lemma HeapEventsChange(ev: map<Event, Info>, e: Event, i: Info)
    requires e in ev
    ensures HeapEvents(ev[e := i]) == if i.armed && i.common < 0 then HeapEvents(ev) + {e} else HeapEvents(ev) - {e}
  {
  }

  /** The event fields after the deadlines of `done` have been moved. */
  ghost function Shifted(ev: map<Event, Info>, done: set<Event>, off: int): map<Event, Info>
  {
    map e | e in ev :: if e in done then ev[e].(deadline := ev[e].deadline - off) else ev[e]
  }

  lemma ShiftOne(ev: map<Event, Info>, done: set<Event>, x: Event, off: int)
    requires x in ev && x !in done
    ensures Shifted(ev, done, off)[x := ev[x].(deadline := ev[x].deadline - off)] == Shifted(ev, done + {x}, off)
    ensures Shifted(ev, done, off)[x] == ev[x]
  {
  }

  lemma NextInList(q: seq<Event>, k: nat)
    requires k < |q| && NoDup(q)
    ensures q[k] in q && q[k] !in q[..k]
    ensures Elems(q[..k + 1]) == Elems(q[..k]) + {q[k]}
  {
    assert q[..k + 1] == q[..k] + [q[k]];
  }

  ghost function Elems(q: seq<Event>): set<Event>
  {
    set e | e in q
  }

  ghost function ArmedBelow(ev: map<Event, Info>, i: int): set<Event>
  {
    set e | e in ev && ev[e].armed && ev[e].common < i
  }

  lemma BelowNext(s: State<Event>, i: int)
    requires Wf(s) && 0 <= i < |s.common|
    ensures ArmedBelow(s.ev, i + 1) == ArmedBelow(s.ev, i) + Elems(s.common[i])
    ensures forall x :: x in s.common[i] ==> x in s.ev && x !in ArmedBelow(s.ev, i)
    ensures NoDup(s.common[i])
  {
    assert QueueOk(s, i);
    assert forall x :: x in s.common[i] ==> InQueue(s.ev, x, i);
    assert forall x :: x in s.ev && InQueue(s.ev, x, i) ==> x in s.common[i];
  }

  lemma AllBelow(s: State<Event>, off: int)
    requires Wf(s)
    ensures Shifted(s.ev, ArmedBelow(s.ev, |s.common|), off) == Correct(s, off).ev
    ensures HeapEvents(Correct(s, off).ev) == HeapEvents(s.ev)
    ensures forall e :: e in HeapEvents(s.ev) ==> Correct(s, off).ev[e].deadline == s.ev[e].deadline - off
  {
  }

  class Base {
    const heap: Heap
    /** The fields of every event assigned to this base, other than the heap's own two. */
    var ev: map<Event, Info>
    var common: seq<seq<Event>>
    var timers: seq<Event>
    var activeQueues: seq<seq<Event>>
    var eventCount: int
    var activeCount: int
    /** The clock reading of the previous loop turn. */
    var eventTv: int
    ghost var owed: set<Event>

    ghost function Abs(): State<Event>
      reads this`ev, this`common, this`timers, this`activeQueues, this`owed, this`eventCount, this`activeCount
    {
      State(ev, common, timers, activeQueues, owed, eventCount, activeCount)
    }

    /** The heap holds exactly the armed events that are in no common queue, under their deadlines. */
    ghost predicate HeapOk()
      reads this`ev, ev.Keys, heap, heap.p, heap.members
    {
      && heap.Valid() && heap.members == HeapEvents(ev)
      && (forall e :: e in heap.members ==> e.deadline == ev[e].deadline)
    }

    /** The heap and the lists are in order, every queue is stood for, and what event_persist_closure asserts holds. */
    ghost predicate Invariant()
      reads this`ev, this`common, this`timers, this`activeQueues, this`owed, this`eventCount, this`activeCount
      reads ev.Keys, heap, heap.p, heap.members
    {
      HeapOk() && Valid(Abs()) && Agree(ev)
    }

    constructor (priorities: nat)
      requires priorities >= 1
      ensures Invariant() && fresh(heap) && fresh(heap.p)
      ensures ev == map[] && common == [] && |activeQueues| == priorities
    {
      heap := new Heap();
      common, timers := [], [];
      activeQueues := seq(priorities, _ => []);
      eventCount, activeCount, eventTv := 0, 0, 0;
      ev, owed := map[], {};
    }

    // ---------- event_queue_insert / event_queue_remove ----------

    method QueueRemoveTimeout(e: Event)
      requires HeapOk() && e in ev && ev[e].armed && ev[e].common < |common|
      modifies this`common, this`eventCount, this`ev, heap, heap.p, heap.members`heapIdx
      ensures HeapOk() && Abs() == RemoveTimeout(old(Abs()), e)
      ensures heap.p == old(heap.p)
    {
      eventCount := eventCount - Weight(ev[e]);
      if ev[e].common >= 0 {
        LeaveCommon(e);
      } else {
        LeaveHeap(e);
      }
    }

    method LeaveHeap(e: Event)
      requires HeapOk() && e in ev && ev[e].armed && ev[e].common < 0
      modifies this`ev, heap, heap.p, heap.members`heapIdx
      ensures HeapOk() && ev == old(ev)[e := old(ev)[e].(armed := false)]
      ensures heap.p == old(heap.p)
    {
      HeapEventsChange(ev, e, ev[e].(armed := false));
      ev := ev[e := ev[e].(armed := false)];
      var found := heap.Erase(e);
    }

    method LeaveCommon(e: Event)
      requires HeapOk() && e in ev && ev[e].armed && 0 <= ev[e].common < |common|
      modifies this`ev, this`common
      ensures HeapOk() && ev == old(ev)[e := old(ev)[e].(armed := false)]
      ensures common == old(common)[ev[e].common := Remove(old(common)[ev[e].common], e)]
    {
      HeapEventsChange(ev, e, ev[e].(armed := false));
      ev := ev[e := ev[e].(armed := false)];
      common := common[ev[e].common := Remove(common[ev[e].common], e)];
    }

    method QueueInsertTimeout(e: Event)
      requires HeapOk() && e in ev && !ev[e].armed && ev[e].common < |common|
      requires ev[e].common < 0 ==> e.deadline == ev[e].deadline
      requires forall i, x :: 0 <= i < |common| && x in common[i] ==> x in ev
      modifies this`common, this`eventCount, this`ev, heap, heap.p, heap.members`heapIdx, e`heapIdx
      ensures HeapOk() && Abs() == InsertTimeout(old(Abs()), e)
      ensures heap.p == old(heap.p) || fresh(heap.p)
    {
      eventCount := eventCount + Weight(ev[e]);
      if ev[e].common >= 0 {
        EnterCommon(e);
      } else {
        EnterHeap(e);
      }
    }

    method EnterCommon(e: Event)
      requires HeapOk() && e in ev && !ev[e].armed && 0 <= ev[e].common < |common|
      requires forall i, x :: 0 <= i < |common| && x in common[i] ==> x in ev
      modifies this`common, this`ev
      ensures HeapOk() && ev == old(ev)[e := old(ev)[e].(armed := true)]
      ensures common == old(common)[old(ev)[e].common := InsertInOrder(old(common)[old(ev)[e].common], e, old(ev))]
    {
      InsertCommonInOrder(e);
      HeapEventsChange(ev, e, ev[e].(armed := true));
      ev := ev[e := ev[e].(armed := true)];
    }

    method EnterHeap(e: Event)
      requires HeapOk() && e in ev && !ev[e].armed && ev[e].common < 0 && e.deadline == ev[e].deadline
      modifies this`ev, heap, heap.p, heap.members`heapIdx, e`heapIdx
      ensures HeapOk() && ev == old(ev)[e := old(ev)[e].(armed := true)]
      ensures heap.p == old(heap.p) || fresh(heap.p)
    {
      HeapEventsChange(ev, e, ev[e].(armed := true));
      ev := ev[e := ev[e].(armed := true)];
      heap.Push(e);
    }

    /** insert_common_timeout_inorder: walk back from the tail of the queue. */
    method InsertCommonInOrder(e: Event)
      requires e in ev && 0 <= ev[e].common < |common|
      requires forall x :: x in common[ev[e].common] ==> x in ev
      modifies this`common
      ensures common == old(common)[ev[e].common := InsertInOrder(old(common)[ev[e].common], e, ev)]
    {
      var q := common[ev[e].common];
      var k := |q|;
      assert q[..k] == q;
      while k > 0 && !(ev[e].deadline >= ev[q[k - 1]].deadline)
        invariant 0 <= k <= |q| && common == old(common)
        invariant InsertInOrder(q, e, ev) == InsertInOrder(q[..k], e, ev) + q[k..]
      {
        k := k - 1;
        assert q[..k + 1][..k] == q[..k] && q[k..] == [q[k]] + q[k + 1..];
      }
      assert InsertInOrder(q[..k], e, ev) == q[..k] + [e];
      common := common[ev[e].common := q[..k] + [e] + q[k..]];
    }

    method QueueRemoveActive(e: Event)
      requires HeapOk() && e in ev && ev[e].active && ev[e].priority < |activeQueues|
      modifies this`activeQueues, this`eventCount, this`activeCount, this`ev
      ensures HeapOk() && Abs() == RemoveActive(old(Abs()), e)
    {
      HeapEventsChange(ev, e, ev[e].(active := false));
      var i := ev[e];
      eventCount := eventCount - Weight(i);
      ev := ev[e := i.(active := false)];
      activeCount := activeCount - 1;
      activeQueues := activeQueues[i.priority := Remove(activeQueues[i.priority], e)];
    }

    method QueueInsertActive(e: Event)
      requires HeapOk() && e in ev && !ev[e].active && ev[e].priority < |activeQueues|
      modifies this`activeQueues, this`eventCount, this`activeCount, this`ev
      ensures HeapOk() && Abs() == InsertActive(old(Abs()), e)
    {
      HeapEventsChange(ev, e, ev[e].(active := true));
      var i := ev[e];
      eventCount := eventCount + Weight(i);
      ev := ev[e := i.(active := true)];
      activeCount := activeCount + 1;
      activeQueues := activeQueues[i.priority := activeQueues[i.priority] + [e]];
    }

    // ---------- event_add_internal, event_del_internal, event_active_nolock ----------

    method LeaveLists(e: Event)
      requires HeapOk() && Wf(Abs()) && e in ev
      modifies this`common, this`activeQueues, this`eventCount, this`activeCount, this`ev, heap, heap.p, heap.members`heapIdx
      ensures HeapOk() && Abs() == Leave(old(Abs()), e)
      ensures heap.p == old(heap.p)
    {
      if ev[e].armed {
        QueueRemoveTimeout(e);
      }
      if ev[e].active && ev[e].byTimeout {
        QueueRemoveActive(e);
      }
    }

    method Rearm(e: Event, d: int, c: int)
      requires HeapOk() && Wf(Abs()) && e in ev && -1 <= c < |common| && (ev[e].isInternal ==> c == -1)
      modifies this, heap, heap.p, heap.members, e
      ensures HeapOk() && Abs() == TimerSteps.Rearm(old(Abs()), e, d, c)
      ensures heap.p == old(heap.p) || fresh(heap.p)
    {
      LeaveEffect(Abs(), e);
      QueueMembers(Leave(Abs(), e));
      LeaveLists(e);
      SetDeadline(e, d, c);
      QueueInsertTimeout(e);
    }

    /** Only an event that is in neither level changes its deadline this way. */
    method SetDeadline(e: Event, d: int, c: int)
      requires HeapOk() && e in ev && !ev[e].armed
      modifies this`ev, e`deadline
      ensures HeapOk() && ev == old(ev)[e := old(ev)[e].(deadline := d, common := c)] && e.deadline == d
    {
      HeapEventsChange(ev, e, ev[e].(deadline := d, common := c));
      ev := ev[e := ev[e].(deadline := d, common := c)];
      e.deadline := d;
    }

    /** Change fields of an event that neither level looks at. */
    method Update(e: Event, i: Info)
      requires HeapOk() && e in ev
      requires i.armed == ev[e].armed && i.common == ev[e].common && i.deadline == ev[e].deadline
      modifies this`ev
      ensures HeapOk() && ev == old(ev)[e := i]
    {
      HeapEventsChange(ev, e, i);
      ev := ev[e := i];
    }

    method CommonTimeoutSchedule(i: int)
      requires HeapOk() && Wf(Abs()) && 0 <= i < |common| && common[i] != []
      modifies this, heap, heap.p, ev.Keys
      ensures HeapOk() && Abs() == Schedule(old(Abs()), i)
      ensures old(common)[i][0] in old(ev) && timers[i] in ev && ev[timers[i]].armed
      ensures ev[timers[i]].deadline == old(ev)[old(common)[i][0]].deadline
      ensures heap.p == old(heap.p) || fresh(heap.p)
    {
      QueueMembers(Abs());
      var head := common[i][0];
      Rearm(timers[i], ev[head].deadline, -1);
    }

    /** event_add. `c` names the common queue of the timeout value, or -1. */
    method EventAdd(e: Event, when: int, c: int, now: int)
      requires Invariant() && e in ev && !ev[e].isInternal && -1 <= c < |common|
      modifies this, heap, heap.p, ev.Keys
      ensures Invariant() && Abs() == Add(old(Abs()), e, when, c, false, now)
      ensures Deadlines(ev) == Deadlines(old(ev))[e := now + when]
      ensures heap.p == old(heap.p) || fresh(heap.p)
    {
      AddAgrees(Abs(), e, when, c, false, now);
      AddInternal(e, when, c, false, now);
    }

    /** event_add_internal, which also adds a persistent event again, at an absolute time. */
    method AddInternal(e: Event, when: int, c: int, absolute: bool, now: int)
      requires HeapOk() && Valid(Abs()) && e in ev && !ev[e].isInternal && -1 <= c < |common|
      modifies this, heap, heap.p, ev.Keys
      ensures HeapOk() && Valid(Abs()) && Abs() == Add(old(Abs()), e, when, c, absolute, now)
      ensures Deadlines(ev) == Deadlines(old(ev))[e := if absolute then when else now + when]
      ensures heap.p == old(heap.p) || fresh(heap.p)
    {
      AddValid(Abs(), e, when, c, absolute, now);
      AddRefines(Abs(), e, when, c, absolute, now);
      RememberWf(Abs(), e, when, c, absolute);
      RememberInterval(e, when, c, absolute);
      EnterLevel(e, if absolute then when else now + when, c);
    }

    method RememberInterval(e: Event, when: int, c: int, absolute: bool)
      requires HeapOk() && e in ev
      modifies this`ev
      ensures HeapOk() && Abs() == Remember(old(Abs()), e, when, c, absolute)
    {
      if ev[e].persistent && !absolute {
        Update(e, ev[e].(interval := when, intervalCommon := c));
      }
    }

    method EnterLevel(e: Event, d: int, c: int)
      requires HeapOk() && Wf(Abs()) && e in ev && !ev[e].isInternal && -1 <= c < |common|
      modifies this, heap, heap.p, ev.Keys
      ensures HeapOk() && Abs() == Enter(old(Abs()), e, d, c)
      ensures heap.p == old(heap.p) || fresh(heap.p)
    {
      RearmWf(Abs(), e, d, c);
      RearmEffect(Abs(), e, d, c);
      Rearm(e, d, c);
      if c >= 0 && common[c] != [] && common[c][0] == e {
        CommonTimeoutSchedule(c);
      }
    }

    method DelInternal(e: Event)
      requires HeapOk() && Wf(Abs()) && e in ev
      modifies this`common, this`activeQueues, this`eventCount, this`activeCount, this`ev, heap, heap.p, heap.members`heapIdx
      ensures HeapOk() && Abs() == Del(old(Abs()), e)
      ensures heap.p == old(heap.p)
    {
      if ev[e].armed {
        QueueRemoveTimeout(e);
      }
      if ev[e].active {
        QueueRemoveActive(e);
      }
    }

    method EventDel(e: Event)
      requires Invariant() && e in ev && !ev[e].isInternal
      modifies this, heap, heap.p, ev.Keys
      ensures Invariant() && Abs() == Del(old(Abs()), e)
      ensures Deadlines(ev) == Deadlines(old(ev)) - {e} && e !in ActiveUsers(ev)
      ensures heap.p == old(heap.p)
    {
      DelRefines(Abs(), e);
      DelAgrees(Abs(), e);
      DelInternal(e);
    }

    method ActiveNolock(e: Event, byTimeout: bool)
      requires HeapOk() && Wf(Abs()) && e in ev
      modifies this`activeQueues, this`eventCount, this`activeCount, this`ev
      ensures HeapOk() && Abs() == Activate(old(Abs()), e, byTimeout)
      ensures activeQueues ==
        if old(ev[e].active) then old(activeQueues)
        else old(activeQueues)[ev[e].priority := old(activeQueues)[ev[e].priority] + [e]]
      ensures ev[e].active && ev[e].byTimeout == (byTimeout || (old(ev[e].active) && old(ev[e].byTimeout)))
    {
      if ev[e].active {
        Update(e, ev[e].(byTimeout := ev[e].byTimeout || byTimeout));
      } else {
        Update(e, ev[e].(byTimeout := byTimeout));
        QueueInsertActive(e);
      }
    }

    /** event_active. */
    method EventActive(e: Event, byTimeout: bool)
      requires Invariant() && e in ev
      modifies this`activeQueues, this`eventCount, this`activeCount, this`ev
      ensures Invariant() && Deadlines(ev) == Deadlines(old(ev))
      ensures ActiveUsers(ev) == ActiveUsers(old(ev)) + if old(ev)[e].isInternal then {} else {e}
    {
      ActivateRefines(Abs(), e, byTimeout);
      ActivateAgrees(Abs(), e, byTimeout);
      ActiveNolock(e, byTimeout);
    }

    method FireEvent(e: Event)
      requires HeapOk() && Wf(Abs()) && e in ev
      modifies this`common, this`activeQueues, this`eventCount, this`activeCount, this`ev, heap, heap.p, heap.members`heapIdx
      ensures HeapOk() && Abs() == Fire(old(Abs()), e)
      ensures heap.p == old(heap.p)
    {
      DelEffect(Abs(), e);
      DelInternal(e);
      ActiveNolock(e, true);
    }

    // ---------- The loop's timer work ----------

    /** How long dispatch may sleep: None when no event is armed. */
    method TimeoutNext(now: int) returns (wait: Option<nat>)
      requires Invariant()
      ensures activeCount == 0 && owed == {} && wait == None ==> Deadlines(ev) == map[]
      ensures activeCount == 0 && owed == {} && wait.Some? ==>
        forall e :: e in Deadlines(ev) ==> wait.value == 0 || now + wait.value <= Deadlines(ev)[e]
      ensures wait.Some? && wait.value > 0 ==> exists e :: e in HeapEvents(ev) && ev[e].deadline == now + wait.value
      ensures wait == Some(0) ==> exists e :: e in HeapEvents(ev) && ev[e].deadline <= now
    {
      var top := heap.Top();
      ghost var s := Abs();
      if activeCount == 0 && owed == {} {
        forall e | e in Deadlines(ev)
          ensures top != null && top.deadline <= Deadlines(ev)[e]
        {
          var h := HeapCoversAll(s, e);
        }
      }
      if top == null {
        wait := None;
      } else if top.deadline <= now {
        wait := Some(0);
      } else {
        wait := Some(top.deadline - now);
      }
    }

    method ProcessTop(top: Event, now: int, ghost s0: State<Event>, ghost fired0: set<Event>) returns (ghost fired: set<Event>)
      requires HeapOk() && Processing(s0, Abs(), now, fired0) && top in heap.members && top.deadline <= now
      requires Wf(s0) && InOrder(s0, Abs(), fired0) && forall h :: h in heap.members ==> top.deadline <= h.deadline
      modifies this`common, this`activeQueues, this`eventCount, this`activeCount, this`ev, heap, heap.p, heap.members`heapIdx
      ensures HeapOk() && Processing(s0, Abs(), now, fired) && InOrder(s0, Abs(), fired) && heap.p == old(heap.p)
      ensures heap.members == old(heap.members) - {top} && ev.Keys == old(ev.Keys)
    {
      ProcessStep(s0, Abs(), now, fired0, top);
      ProcessInOrder(s0, Abs(), now, fired0, top);
      FireEffect(Abs(), top);
      HeapEventsChange(ev, top, Fired(ev[top]));
      FireEvent(top);
      fired := fired0 + {top};
    }

    /** timeout_process: fire every due heap event, which puts them behind all others on the active lists, earliest first. */
    method TimeoutProcess(now: int) returns (ghost fired: set<Event>)
      requires Invariant()
      modifies this, heap, heap.p, ev.Keys
      ensures Invariant() && heap.p == old(heap.p)
      ensures Processing(old(Abs()), Abs(), now, fired) && DueHeap(Abs(), now) == {}
      ensures Deadlines(ev) == Deadlines(old(ev)) - DueHeap(old(Abs()), now)
      ensures fired == DueHeap(old(Abs()), now) && AllFiredLast(old(activeQueues), activeQueues, fired, fired, ev)
    {
      ghost var s0 := Abs();
      fired := ProcessLoop(now, s0);
      ProcessRefines(s0, Abs(), now, fired);
      FiredAgrees(s0.ev, ev, fired);
    }

    method ProcessLoop(now: int, ghost s0: State<Event>) returns (ghost fired: set<Event>)
      requires HeapOk() && Valid(s0) && Abs() == s0
      modifies this`common, this`activeQueues, this`eventCount, this`activeCount, this`ev, heap, heap.p, heap.members`heapIdx
      ensures HeapOk() && heap.p == old(heap.p)
      ensures Processing(s0, Abs(), now, fired) && InOrder(s0, Abs(), fired) && DueHeap(Abs(), now) == {}
    {
      fired := {};
      NothingYet(s0);
      while true
        invariant HeapOk() && Processing(s0, Abs(), now, fired) && InOrder(s0, Abs(), fired) && heap.p == old(heap.p)
        invariant heap.members <= old(heap.members)
        decreases heap.members
      {
        var top := heap.Top();
        if top == null || top.deadline > now {
          break;
        }
        fired := ProcessTop(top, now, s0, fired);
      }
    }

    /** Take an event off the active list to run its callback. */
    method DequeueActive(e: Event)
      requires HeapOk() && Wf(Abs()) && e in ev && ev[e].active
      modifies this, heap, heap.p, ev.Keys
      ensures HeapOk() && Abs() == Dequeue(old(Abs()), e)
      ensures heap.p == old(heap.p)
    {
      LeaveActive(e);
      if ev[e].isInternal {
        owed := owed + {e};
      }
    }

    method LeaveActive(e: Event)
      requires HeapOk() && Wf(Abs()) && e in ev && ev[e].active
      modifies this`common, this`activeQueues, this`eventCount, this`activeCount, this`ev, heap, heap.p, heap.members`heapIdx
      ensures HeapOk() && Abs() == if old(ev[e].persistent) then RemoveActive(old(Abs()), e) else Del(old(Abs()), e)
      ensures heap.p == old(heap.p) && e in ev && ev[e].isInternal == old(ev[e].isInternal)
    {
      if ev[e].persistent {
        QueueRemoveActive(e);
      } else {
        DelEffect(Abs(), e);
        DelInternal(e);
      }
    }

    /** A user event is about to run its callback. */
    method BeginUser(e: Event)
      requires Invariant() && e in ev && ev[e].active && !ev[e].isInternal
      modifies this, heap, heap.p, ev.Keys
      ensures Invariant() && Abs() == Dequeue(old(Abs()), e)
      ensures e !in ActiveUsers(ev)
      ensures Deadlines(ev) == if old(ev[e].persistent) then Deadlines(old(ev)) else Deadlines(old(ev)) - {e}
    {
      DequeueUser(Abs(), e);
      BeginUserAgrees(Abs(), e);
      DequeueActive(e);
    }

    /** common_timeout_callback of queue `i`. */
    method CommonTimeoutCallback(i: int, now: int)
      requires Invariant() && 0 <= i < |common|
      modifies this, heap, heap.p, ev.Keys
      ensures Invariant() && Abs() == CommonCallback(old(Abs()), i, now)
      ensures Deadlines(ev) == Deadlines(old(ev)) - DueIn(old(Abs()), i, now)
      ensures var due := DueIn(old(Abs()), i, now);
        AllFiredLast(old(activeQueues), activeQueues, Gone(due, old(timers)[i], ev), due, ev)
      ensures heap.p == old(heap.p) || fresh(heap.p)
    {
      CallbackRefines(Abs(), i, now);
      CallbackInOrder(Abs(), i, now);
      CallbackAgrees(Abs(), i, now);
      CallbackInPlace(i, now);
    }

    method CallbackInPlace(i: int, now: int)
      requires HeapOk() && Wf(Abs()) && 0 <= i < |common|
      modifies this, heap, heap.p, ev.Keys
      ensures HeapOk() && Abs() == CommonCallback(old(Abs()), i, now)
      ensures heap.p == old(heap.p) || fresh(heap.p)
    {
      ghost var s0 := Abs().(owed := owed - {timers[i]});
      OwedWf(Abs(), s0);
      DrainWf(s0, i, now);
      owed := owed - {timers[i]};
      DrainInPlace(i, now);
      if common[i] != [] {
        CommonTimeoutSchedule(i);
      }
    }

    method DrainInPlace(i: int, now: int)
      requires HeapOk() && Wf(Abs()) && 0 <= i < |common|
      modifies this, heap, heap.p, ev.Keys
      ensures HeapOk() && Abs() == Drain(old(Abs()), i, now) && ev.Keys == old(ev.Keys)
      ensures heap.p == old(heap.p)
    {
      ghost var s0 := Abs();
      QueueMembers(Abs());
      while common[i] != [] && ev[common[i][0]].deadline <= now
        invariant HeapOk() && Wf(Abs()) && |common| == |s0.common| && heap.p == old(heap.p)
        invariant common[i] != [] ==> common[i][0] in ev
        invariant Drain(Abs(), i, now) == Drain(s0, i, now)
        invariant ev.Keys == s0.ev.Keys
        decreases |common[i]|
      {
        DrainOne(i, now);
      }
    }

    method DrainOne(i: int, now: int)
      requires HeapOk() && Wf(Abs()) && 0 <= i < |common| && common[i] != []
      requires common[i][0] in ev && ev[common[i][0]].deadline <= now
      modifies this, heap, heap.p, ev.Keys
      ensures HeapOk() && Wf(Abs()) && |common| == |old(common)| && |common[i]| < |old(common)[i]|
      ensures Drain(Abs(), i, now) == Drain(old(Abs()), i, now)
      ensures ev.Keys == old(ev.Keys) && (common[i] != [] ==> common[i][0] in ev)
      ensures heap.p == old(heap.p)
    {
      FireHead(Abs(), i, now);
      QueueMembers(Fire(Abs(), common[i][0]));
      FireEvent(common[i][0]);
    }

    /** timeout_correct: when the clock has gone back, every deadline moves back with it. */
    method TimeoutCorrect(now: int)
      requires Invariant()
      modifies this, ev.Keys
      ensures Invariant() && eventTv == now
      ensures now >= old(eventTv) ==> Abs() == old(Abs())
      ensures now < old(eventTv) ==> Abs() == Correct(old(Abs()), old(eventTv) - now)
    {
      if now < eventTv {
        StepBack(eventTv - now);
      }
      SetClock(now);
    }

    method SetClock(now: int)
      requires Invariant()
      modifies this`eventTv
      ensures Invariant() && Abs() == old(Abs()) && eventTv == now
    {
      eventTv := now;
    }

    method StepBack(off: int)
      requires Invariant()
      modifies this`ev, heap.members`deadline
      ensures Invariant() && Abs() == Correct(old(Abs()), off)
    {
      CorrectRefines(Abs(), off);
      CorrectAgrees(Abs(), off);
      CorrectInPlace(off);
    }

    method CorrectInPlace(off: int)
      requires HeapOk() && Wf(Abs())
      modifies this`ev, heap.members`deadline
      ensures HeapOk() && Abs() == Correct(old(Abs()), off)
    {
      ghost var s0 := Abs();
      CorrectHeap(off);
      assert HeapEvents(s0.ev) == ArmedBelow(s0.ev, 0);
      CorrectQueues(off, s0);
      AllBelow(s0, off);
    }

    /** The common queues, one after the other. */
    method CorrectQueues(off: int, ghost s0: State<Event>)
      requires Wf(s0) && common == s0.common && ev == Shifted(s0.ev, ArmedBelow(s0.ev, 0), off)
      modifies this`ev
      ensures ev == Shifted(s0.ev, ArmedBelow(s0.ev, |common|), off)
    {
      ghost var done := ArmedBelow(s0.ev, 0);
      for i := 0 to |common|
        invariant done == ArmedBelow(s0.ev, i) && ev == Shifted(s0.ev, done, off)
      {
        done := CorrectOneQueue(i, off, s0, done);
      }
    }

    /** The heap's own events. */
    method CorrectHeap(off: int)
      requires HeapOk()
      modifies this`ev, heap.members`deadline
      ensures heap.Valid() && heap.members == HeapEvents(old(ev))
      ensures ev == Shifted(old(ev), HeapEvents(old(ev)), off)
      ensures forall e :: e in heap.members ==> e.deadline == old(ev)[e].deadline - off
    {
      heap.ShiftAll(off);
      ev := map e | e in ev :: if ev[e].armed && ev[e].common < 0 then ev[e].(deadline := ev[e].deadline - off) else ev[e];
    }

    /** The events of one common queue. */
    method CorrectOneQueue(i: int, off: int, ghost s0: State<Event>, ghost done0: set<Event>) returns (ghost done: set<Event>)
      requires Wf(s0) && common == s0.common && 0 <= i < |common|
      requires done0 == ArmedBelow(s0.ev, i) && ev == Shifted(s0.ev, done0, off)
      modifies this`ev
      ensures done == ArmedBelow(s0.ev, i + 1) && ev == Shifted(s0.ev, done, off)
    {
      BelowNext(s0, i);
      done := done0 + Elems(common[i]);
      CorrectList(i, off, s0.ev, done0);
    }

    method CorrectList(i: int, off: int, ghost ev0: map<Event, Info>, ghost done0: set<Event>)
      requires 0 <= i < |common| && NoDup(common[i])
      requires forall x :: x in common[i] ==> x in ev0 && x !in done0
      requires ev == Shifted(ev0, done0, off)
      modifies this`ev
      ensures ev == Shifted(ev0, done0 + Elems(common[i]), off)
    {
      ghost var done := done0;
      for k := 0 to |common[i]|
        invariant done == done0 + Elems(common[i][..k])
        invariant ev == Shifted(ev0, done, off)
      {
        var x := common[i][k];
        NextInList(common[i], k);
        ShiftOne(ev0, done, x, off);
        ev := ev[x := ev[x].(deadline := ev[x].deadline - off)];
        done := done + {x};
      }
      assert common[i][..|common[i]|] == common[i];
    }

    // ---------- Assigning, creating queues, persistent events, a whole turn ----------

    method Assign(e: Event, priority: nat, persistent: bool)
      requires Invariant() && e !in ev && priority < |activeQueues|
      modifies this`ev, e`heapIdx
      ensures e.heapIdx == -1
      ensures Invariant() && Abs() == SetEv(old(Abs()), e, Info(false, priority, persistent, 0, -1, false, false, false, 0, -1))
    {
      var i := Info(false, priority, persistent, 0, -1, false, false, false, 0, -1);
      AssignKeeps(Abs(), e, i);
      AgreeOne(ev, ev[e := i], e, i);
      e.heapIdx := -1;
      ev := ev[e := i];
    }

    method InitCommonTimeout() returns (i: Option<nat>)
      requires Invariant() && |activeQueues| > 0
      modifies this`ev, this`common, this`timers
      ensures Invariant()
      ensures i == None <==> |old(common)| >= 256
      ensures i == None ==> Abs() == old(Abs())
      ensures i.Some? ==> i.value == |old(common)| && |timers| > 0 && fresh(timers[|timers| - 1]) && Abs() == NewQueue(old(Abs()), timers[|timers| - 1])
    {
      if |common| >= 256 {
        return None;
      }
      var t := new Event();
      NewQueueKeeps(Abs(), t);
      AgreeOne(ev, NewQueue(Abs(), t).ev, t, NewQueue(Abs(), t).ev[t]);
      i := Some(|common|);
      AppendQueue(t);
    }

    method AppendQueue(t: Event)
      requires HeapOk() && t !in ev && t.heapIdx == -1
      modifies this`ev, this`common, this`timers
      ensures HeapOk() && Abs() == NewQueue(old(Abs()), t)
    {
      ev := ev[t := Info(true, 0, false, 0, -1, false, false, false, 0, -1)];
      common := common + [[]];
      timers := timers + [t];
    }

    /** event_persist_closure, up to the user callback. */
    method PersistClosure(e: Event, now: int)
      requires Invariant() && e in ev && ev[e].persistent && !ev[e].isInternal
      modifies this, heap, heap.p, ev.Keys
      ensures Invariant()
      ensures !Repeats(old(ev[e])) ==> Abs() == old(Abs())
      ensures Repeats(old(ev[e])) ==> Deadlines(ev) == Deadlines(old(ev))[e := NextRun(old(ev[e]), now)]
    {
      var i := ev[e];
      LevelOf(Abs(), e);
      if i.interval != 0 || i.intervalCommon >= 0 {
        assert i.common == i.intervalCommon;
        var runAt := NextRunAt(i, now);
        AddAgrees(Abs(), e, runAt, i.common, true, now);
        AddInternal(e, runAt, i.common, true, now);
      }
    }

    method NextRunAt(i: Info, now: int) returns (runAt: int)
      ensures runAt == NextRun(i, now)
    {
      var from := if i.byTimeout then i.deadline else now;
      runAt := from + i.interval;
      if runAt < now {
        runAt := now + i.interval;
      }
    }

    /** timeout_process and then the callbacks of the queues' timers: between them they fire exactly
        the events that are due at `now`, whichever level they are on. */
    method RunDue(now: int)
      requires Invariant() && owed == {}
      modifies this, heap, heap.p, ev.Keys
      ensures Invariant() && owed == {}
      ensures Deadlines(ev) == Deadlines(old(ev)) - DueAll(old(Abs()), now)
      ensures ActiveUsers(ev) == ActiveUsers(old(ev)) + DueAll(old(Abs()), now)
    {
      ghost var s0 := Abs();
      ghost var fired := TimeoutProcess(now);
      ghost var run, order := RunTimers(now);
      TwoLevelsAreOneQueue(s0, run, fired, order, now);
    }

    /** event_process_active on the internal timers, taken in the order of their queues. */
    method RunTimers(now: int) returns (ghost run: seq<State<Event>>, ghost order: seq<int>)
      requires Invariant() && owed == {}
      modifies this, heap, heap.p, ev.Keys
      ensures Invariant() && owed == {}
      ensures IsRun(run, order, now) && run[0] == old(Abs()) && run[|order|] == Abs()
      ensures InRange(order, |run[0].common|) && forall i :: 0 <= i < |run[0].common| ==> i in order
    {
      ghost var s := Abs();
      run, order := [s], [];
      for i := 0 to |common|
        invariant Invariant() && owed == {} && (heap.p == old(heap.p) || fresh(heap.p))
        invariant |common| == |s.common| && ev.Keys == s.ev.Keys
        invariant RunUpTo(run, order, now, |s.common|, i, s, Abs())
      {
        ghost var before := Abs();
        RunOneTimer(i, now);
        RunUpToNext(run, order, now, |s.common|, i, s, before, Abs());
        run, order := run + [Abs()], order + [i];
      }
    }

    method RunOneTimer(i: int, now: int)
      requires Invariant() && owed == {} && 0 <= i < |common|
      modifies this, heap, heap.p, ev.Keys
      ensures Invariant() && Abs() == RunNext(old(Abs()), i, now)
      ensures owed == {} && |common| == |old(common)| && ev.Keys == old(ev.Keys)
      ensures heap.p == old(heap.p) || fresh(heap.p)
    {
      RunInternalRefines(Abs(), i, now);
      if timers[i] in ev && ev[timers[i]].active {
        DequeueInternal(Abs(), i);
        BeginTimerAgrees(Abs(), i);
        DequeueActive(timers[i]);
        CommonTimeoutCallback(i, now);
      }
    }
  }
}
