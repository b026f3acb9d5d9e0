/** Whole turns of the event loop over the two-level structure: processing the due heap events,
    running the internal callbacks of the due queues, clock correction, and persistent events. */
module TimerRuns {
  import opened Lists
  import opened TimerQueue
  import opened TimerSteps

  // ---------- Firing a set of events ----------

  function Fired(i: Info): Info
  {
    i.(armed := false, active := true, byTimeout := true)
  }

  /** Exactly the events of `due` were fired. */
  ghost predicate FiredIn<E>(ev: map<E, Info>, ev': map<E, Info>, due: set<E>)
  {
    ev'.Keys == ev.Keys && forall e :: e in ev ==> ev'[e] == if e in due then Fired(ev[e]) else ev[e]
  }

  lemma FiredTwice<E>(a: map<E, Info>, b: map<E, Info>, c: map<E, Info>, d: set<E>, d': set<E>)
    requires FiredIn(a, b, d) && FiredIn(b, c, d')
    ensures FiredIn(a, c, d + d')
  {
  }

  ghost function Users<E>(ev: map<E, Info>, es: set<E>): set<E>
  {
    set e | e in es && e in ev && !ev[e].isInternal
  }

  /** Firing a set of events takes its user events out of the abstract queue and makes them active. */
  lemma FiredRefines<E>(ev: map<E, Info>, ev': map<E, Info>, due: set<E>)
    requires FiredIn(ev, ev', due)
    ensures Deadlines(ev') == Deadlines(ev) - due
    ensures ActiveUsers(ev') == ActiveUsers(ev) + Users(ev, due)
  {
  }

  ghost predicate SameOutside<E>(ev: map<E, Info>, ev': map<E, Info>, xs: set<E>)
  {
    ev'.Keys == ev.Keys && forall e :: e in ev && e !in xs ==> ev'[e] == ev[e]
  }

  // ---------- Draining one common queue ----------

  ghost function DueIn<E>(s: State<E>, i: int, now: int): set<E>
    requires 0 <= i < |s.common|
  {
    set e | e in s.common[i] && e in s.ev && s.ev[e].deadline <= now
  }

  lemma NoneDue<E>(s: State<E>, i: int, now: int)
    requires Wf(s) && 0 <= i < |s.common|
    requires s.common[i] != [] ==> s.common[i][0] in s.ev && s.ev[s.common[i][0]].deadline > now
    ensures DueIn(s, i, now) == {}
  {
    assert QueueOk(s, i);
    var q := s.common[i];
    forall e | e in q && e in s.ev
      ensures s.ev[e].deadline > now
    {
      var k :| 0 <= k < |q| && q[k] == e;
      assert k > 0 ==> s.ev[q[0]].deadline <= s.ev[q[k]].deadline;
    }
  }

  lemma HeadIsUser<E>(s: State<E>, i: int)
    requires Wf(s) && 0 <= i < |s.common| && s.common[i] != []
    ensures InQueue(s.ev, s.common[i][0], i) && !s.ev[s.common[i][0]].isInternal
  {
    assert QueueOk(s, i);
    assert s.common[i][0] in s.common[i];
  }

  lemma FireHead<E>(s: State<E>, i: int, now: int)
    requires Wf(s) && 0 <= i < |s.common| && s.common[i] != []
    requires s.common[i][0] in s.ev && s.ev[s.common[i][0]].deadline <= now
    ensures var head := s.common[i][0]; var r := Fire(s, head);
      && Wf(r) && OnlyEv(s, r, head, Fired(s.ev[head])) && r.common == s.common[i := s.common[i][1..]]
      && DueIn(s, i, now) == {head} + DueIn(r, i, now)
  {
    var head := s.common[i][0];
    FireEffect(s, head);
    QueueAfterFire(s, i);
    DueTail(s, i, now);
    var r := Fire(s, head);
    assert DueIn(r, i, now) == set e | e in s.common[i][1..] && e in s.ev && s.ev[e].deadline <= now;
  }

  lemma DueTail<E>(s: State<E>, i: int, now: int)
    requires Wf(s) && 0 <= i < |s.common| && s.common[i] != []
    requires s.common[i][0] in s.ev && s.ev[s.common[i][0]].deadline <= now
    ensures s.common[i][0] !in s.common[i][1..]
    ensures DueIn(s, i, now) == {s.common[i][0]} + (set e | e in s.common[i][1..] && e in s.ev && s.ev[e].deadline <= now)
  {
    assert QueueOk(s, i);
    var q := s.common[i];
    assert q == [q[0]] + q[1..];
  }

  ghost predicate CoveredBut<E>(s: State<E>, i: int)
    requires Wf(s)
  {
    forall j :: 0 <= j < |s.common| && j != i ==> Covered(s, j)
  }

  /** `r` is `s` with exactly `due`, all taken from queue `i`, fired. */
  ghost predicate Drained<E>(s: State<E>, r: State<E>, i: int, due: set<E>)
  {
    && r.timers == s.timers && r.owed == s.owed && |r.common| == |s.common|
    && (forall j :: 0 <= j < |s.common| && j != i ==> r.common[j] == s.common[j])
    && FiredIn(s.ev, r.ev, due)
  }

  /** Draining fires exactly the due part of queue `i`, whether or not that queue is covered
      meanwhile, and touches nothing else. */
  lemma {:induction false} DrainRefines<E>(s: State<E>, i: int, now: int)
    requires Wf(s) && 0 <= i < |s.common| && CoveredBut(s, i)
    ensures Wf(Drain(s, i, now)) && CoveredBut(Drain(s, i, now), i)
    ensures Drained(s, Drain(s, i, now), i, DueIn(s, i, now))
    ensures DueIn(Drain(s, i, now), i, now) == {}
    decreases |s.common[i]|
  {
    QueueMembers(s);
    if s.common[i] == [] || s.ev[s.common[i][0]].deadline > now {
      NoneDue(s, i, now);
    } else {
      var m := DrainStep(s, i, now);
      DrainRefines(m, i, now);
      DrainedTwice(s, m, Drain(m, i, now), i, {s.common[i][0]}, DueIn(m, i, now));
    }
  }

  lemma DrainStep<E>(s: State<E>, i: int, now: int) returns (m: State<E>)
    requires Wf(s) && 0 <= i < |s.common| && CoveredBut(s, i) && s.common[i] != []
    requires s.common[i][0] in s.ev && s.ev[s.common[i][0]].deadline <= now
    ensures m == Fire(s, s.common[i][0])
    ensures Wf(m) && CoveredBut(m, i) && Drained(s, m, i, {s.common[i][0]})
    ensures |m.common| == |s.common| && |m.common[i]| < |s.common[i]|
    ensures DueIn(s, i, now) == {s.common[i][0]} + DueIn(m, i, now)
  {
    var head := s.common[i][0];
    FireHead(s, i, now);
    m := Fire(s, head);
    forall j | 0 <= j < |m.common| && j != i
      ensures Covered(m, j)
    {
      FireCover(s, head, j);
    }
  }

  lemma DrainedTwice<E>(s: State<E>, m: State<E>, r: State<E>, i: int, d: set<E>, d': set<E>)
    requires Drained(s, m, i, d) && Drained(m, r, i, d')
    ensures Drained(s, r, i, d + d')
  {
    FiredTwice(s.ev, m.ev, r.ev, d, d');
  }

  lemma DueAreUsers<E>(s: State<E>, i: int, now: int)
    requires Wf(s) && 0 <= i < |s.common|
    ensures forall e :: e in DueIn(s, i, now) ==> e in s.ev && !s.ev[e].isInternal && s.ev[e].armed && s.ev[e].common == i
  {
    assert QueueOk(s, i);
    assert forall e :: e in s.common[i] ==> InQueue(s.ev, e, i);
  }

  lemma ScheduleKeeps<E>(s: State<E>, i: int)
    requires Wf(s) && 0 <= i < |s.common| && s.common[i] != []
    ensures OnlyEv(s, Schedule(s, i), s.timers[i], Schedule(s, i).ev[s.timers[i]]) && Schedule(s, i).common == s.common
    ensures Schedule(s, i).ev[s.timers[i]].isInternal
  {
    QueueMembers(s);
    var t := s.timers[i];
    assert t in s.timers;
    RearmEffect(s, t, s.ev[s.common[i][0]].deadline, -1);
    ScheduleCover(s, i);
  }

  /** `r` follows `s` when queue `i`'s internal callback fired exactly `due`. */
  ghost predicate Ran<E>(s: State<E>, r: State<E>, i: int, due: set<E>)
    requires 0 <= i < |s.timers|
  {
    && r.timers == s.timers && |r.common| == |s.common|
    && (forall j :: 0 <= j < |s.common| && j != i ==> r.common[j] == s.common[j])
    && Deadlines(r.ev) == Deadlines(s.ev) - due
    && ActiveUsers(r.ev) == ActiveUsers(s.ev) + due
    && SameOutside(s.ev, r.ev, due + {s.timers[i]})
  }

  /** common_timeout_callback, entered with the queue's timer owed: every due event of the queue is
      fired, no other event is, and the queue is covered again when the callback returns. */
  lemma CallbackRefines<E>(s: State<E>, i: int, now: int)
    requires Valid(s) && 0 <= i < |s.common|
    ensures var r := CommonCallback(s, i, now);
      Valid(r) && r.owed == s.owed - {s.timers[i]} && Ran(s, r, i, DueIn(s, i, now)) && DueIn(r, i, now) == {}
  {
    var t := s.timers[i];
    var s0 := s.(owed := s.owed - {t});
    OwedWf(s, s0);
    assert CoveredBut(s0, i) by {
      forall j | 0 <= j < |s.common| && j != i
        ensures Covered(s0, j)
      {
        assert Covered(s, j) && s.timers[j] != t;
      }
    }
    DrainRefines(s0, i, now);
    var d := Drain(s0, i, now);
    DueAreUsers(s, i, now);
    assert t in s.timers;
    assert DueIn(s0, i, now) == DueIn(s, i, now);
    FiredRefines(s.ev, d.ev, DueIn(s, i, now));
    assert Users(s.ev, DueIn(s, i, now)) == DueIn(s, i, now);
    CallbackEnds(d, i);
    NotInQueue(d, t, i);
  }

  lemma CallbackEnds<E>(d: State<E>, i: int)
    requires Wf(d) && 0 <= i < |d.common| && CoveredBut(d, i)
    ensures var r := if d.common[i] == [] then d else Schedule(d, i);
      && Valid(r) && r.timers == d.timers && r.owed == d.owed && r.common == d.common
      && Deadlines(r.ev) == Deadlines(d.ev) && ActiveUsers(r.ev) == ActiveUsers(d.ev)
      && SameOutside(d.ev, r.ev, {d.timers[i]})
  {
    if d.common[i] != [] {
      ScheduleCover(d, i);
      ScheduleDeadlines(d, i);
      ScheduleKeeps(d, i);
    }
  }

  // ---------- timeout_process ----------

  ghost function DueHeap<E>(s: State<E>, now: int): set<E>
  {
    set e | e in HeapSet(s) && s.ev[e].deadline <= now
  }

  /** The state `s` reached from `s0` by firing the events of `fired`, all of them due heap events. */
  ghost predicate Processing<E>(s0: State<E>, s: State<E>, now: int, fired: set<E>)
  {
    && Valid(s)
    && s.timers == s0.timers && s.owed == s0.owed && s.common == s0.common
    && FiredIn(s0.ev, s.ev, fired) && fired <= DueHeap(s0, now)
  }

  lemma HeapFired<E>(s0: State<E>, s: State<E>, now: int, fired: set<E>)
    requires FiredIn(s0.ev, s.ev, fired)
    ensures HeapSet(s) == HeapSet(s0) - fired
    ensures DueHeap(s, now) == DueHeap(s0, now) - fired
  {
  }

  /** One turn of the loop of timeout_process. */
  lemma ProcessStep<E>(s0: State<E>, s: State<E>, now: int, fired: set<E>, e: E)
    requires Processing(s0, s, now, fired) && e in DueHeap(s, now)
    ensures Processing(s0, Fire(s, e), now, fired + {e})
  {
    FireRefines(s, e);
    FireKeepsQueues(s, e);
    HeapFired(s0, s, now, fired);
    FiredTwice(s0.ev, s.ev, Fire(s, e).ev, fired, {e});
  }

  lemma FireKeepsQueues<E>(s: State<E>, e: E)
    requires Wf(s) && e in HeapSet(s)
    ensures Fire(s, e).common == s.common && Fire(s, e).timers == s.timers && Fire(s, e).owed == s.owed
    ensures FiredIn(s.ev, Fire(s, e).ev, {e})
  {
    FireEffect(s, e);
    NotThere(s, e);
  }

  /** After timeout_process nothing in the heap is due; the due heap-level user events, and only
      those, have left the abstract queue and are active. */
  lemma ProcessRefines<E>(s0: State<E>, s: State<E>, now: int, fired: set<E>)
    requires Processing(s0, s, now, fired) && DueHeap(s, now) == {}
    ensures fired == DueHeap(s0, now)
    ensures Deadlines(s.ev) == Deadlines(s0.ev) - DueHeap(s0, now)
    ensures ActiveUsers(s.ev) == ActiveUsers(s0.ev) + Users(s0.ev, DueHeap(s0, now))
  {
    HeapFired(s0, s, now, fired);
    FiredRefines(s0.ev, s.ev, fired);
  }

  // ---------- One loop iteration: heap, then the internal callbacks ----------

  /** An internal timer leaves the active list and its callback is owed: every queue stays covered. */
  lemma DequeueInternal<E>(s: State<E>, i: int)
    requires Valid(s) && 0 <= i < |s.common|
    ensures s.timers[i] in s.ev
    ensures var r := Dequeue(s, s.timers[i]);
      && Valid(r) && r.timers == s.timers && r.owed == s.owed + {s.timers[i]} && r.common == s.common
      && OnlyEv(s, r.(owed := s.owed), s.timers[i], s.ev[s.timers[i]].(armed := false, active := false))
  {
    var t := s.timers[i];
    assert t in s.timers;
    DelEffect(s, t);
    NotThere(s, t);
    var d := Del(s, t);
    forall j | 0 <= j < |s.common|
      ensures d.common[j] == s.common[j]
    {
      NotInQueue(s, t, j);
    }
    assert d.common == s.common;
    var r := d.(owed := d.owed + {t});
    OwedWf(d, r);
    forall j | 0 <= j < |s.common|
      ensures Covered(r, j)
    {
      assert Covered(s, j);
      QueueMembers(s);
      if s.timers[j] != t {
        if s.common[j] != [] {
          HeadIsUser(s, j);
        }
        KeepCover(s, r, j);
      }
    }
  }

  lemma NotInQueue<E>(s: State<E>, t: E, j: int)
    requires Wf(s) && t in s.timers && 0 <= j < |s.common|
    ensures t !in s.common[j] && Remove(s.common[j], t) == s.common[j]
  {
    assert QueueOk(s, j);
    assert t in s.common[j] ==> InQueue(s.ev, t, j);
    assert t in s.ev;
  }

  /** event_process_active for queue `i`'s timer: dequeue it and run its callback. */
  function RunInternal<E>(s: State<E>, i: int, now: int): State<E>
    requires Valid(s) && 0 <= i < |s.common|
  {
    DequeueInternal(s, i);
    CommonCallback(Dequeue(s, s.timers[i]), i, now)
  }

  lemma RunInternalRefines<E>(s: State<E>, i: int, now: int)
    requires Valid(s) && 0 <= i < |s.common| && s.owed == {}
    ensures var r := RunInternal(s, i, now);
      Valid(r) && r.owed == {} && Ran(s, r, i, DueIn(s, i, now)) && DueIn(r, i, now) == {}
  {
    DequeueInternal(s, i);
    var m := Dequeue(s, s.timers[i]);
    CallbackRefines(m, i, now);
    DueAfterDequeue(s, m, i, now);
    RanAfterDequeue(s, m, RunInternal(s, i, now), i, DueIn(s, i, now));
  }

  lemma DueAfterDequeue<E>(s: State<E>, m: State<E>, i: int, now: int)
    requires Wf(s) && 0 <= i < |s.common| && m.common == s.common
    requires s.timers[i] in s.ev && m.ev == s.ev[s.timers[i] := s.ev[s.timers[i]].(armed := false, active := false)]
    ensures DueIn(m, i, now) == DueIn(s, i, now)
  {
    assert s.timers[i] in s.timers;
    NotInQueue(s, s.timers[i], i);
  }

  lemma RanAfterDequeue<E>(s: State<E>, m: State<E>, r: State<E>, i: int, due: set<E>)
    requires 0 <= i < |s.timers| && s.timers[i] in s.ev && s.ev[s.timers[i]].isInternal
    requires m.timers == s.timers && m.common == s.common
    requires m.ev == s.ev[s.timers[i] := s.ev[s.timers[i]].(armed := false, active := false)]
    requires Ran(m, r, i, due)
    ensures Ran(s, r, i, due)
  {
    DeadlinesChange(s.ev, s.timers[i], m.ev[s.timers[i]]);
  }

  ghost function DueQueued<E>(s: State<E>, now: int): set<E>
  {
    set e | e in s.ev && s.ev[e].armed && s.ev[e].common >= 0 && s.ev[e].deadline <= now
  }

  lemma DueInIsQueued<E>(s: State<E>, i: int, now: int)
    requires Wf(s) && 0 <= i < |s.common|
    ensures DueIn(s, i, now) == set e | e in DueQueued(s, now) && s.ev[e].common == i
  {
    assert QueueOk(s, i);
    DueAreUsers(s, i, now);
    assert forall e :: e in s.ev && InQueue(s.ev, e, i) ==> e in s.common[i];
  }

  /** After one internal callback the due part of its queue is gone and every other queue, with
      its timer, is as before. */
  lemma RanOthers<E>(s: State<E>, r: State<E>, i: int, j: int, now: int)
    requires Wf(s) && Wf(r) && 0 <= i < |s.common| && 0 <= j < |s.common| && j != i
    requires Ran(s, r, i, DueIn(s, i, now))
    ensures DueIn(r, j, now) == DueIn(s, j, now)
    ensures s.timers[j] in s.ev && s.timers[j] in r.ev && r.ev[s.timers[j]] == s.ev[s.timers[j]]
  {
    DueAreUsers(s, i, now);
    assert s.timers[j] in s.timers && s.timers[j] != s.timers[i];
    NotInQueue(s, s.timers[i], j);
    assert QueueOk(s, j);
    forall e | e in s.common[j]
      ensures e in s.ev && e in r.ev && r.ev[e] == s.ev[e]
    {
      assert InQueue(s.ev, e, j);
    }
  }

  lemma RanDue<E>(s: State<E>, r: State<E>, i: int, now: int)
    requires Wf(s) && Wf(r) && 0 <= i < |s.common|
    requires Ran(s, r, i, DueIn(s, i, now)) && DueIn(r, i, now) == {}
    ensures DueQueued(s, now) == DueIn(s, i, now) + DueQueued(r, now)
  {
    RanDueBack(s, r, i, now);
    DueInIsQueued(s, i, now);
    forall e | e in DueQueued(s, now) && e !in DueIn(s, i, now)
      ensures e in DueQueued(r, now)
    {
      RanDueForth(s, r, i, now, e);
    }
  }

  lemma RanDueForth<E>(s: State<E>, r: State<E>, i: int, now: int, e: E)
    requires Wf(s) && Wf(r) && 0 <= i < |s.common|
    requires Ran(s, r, i, DueIn(s, i, now))
    requires e in DueQueued(s, now) && e !in DueIn(s, i, now)
    ensures e in DueQueued(r, now)
  {
    var j := s.ev[e].common;
    DueInIsQueued(s, j, now);
    RanOthers(s, r, i, j, now);
    DueInIsQueued(r, j, now);
  }

  lemma RanDueBack<E>(s: State<E>, r: State<E>, i: int, now: int)
    requires Wf(s) && Wf(r) && 0 <= i < |s.common|
    requires Ran(s, r, i, DueIn(s, i, now)) && DueIn(r, i, now) == {}
    ensures DueQueued(r, now) <= DueQueued(s, now)
  {
    forall e | e in DueQueued(r, now)
      ensures e in DueQueued(s, now)
    {
      var j := r.ev[e].common;
      DueInIsQueued(r, j, now);
      assert e in DueIn(r, j, now);
      RanOthers(s, r, i, j, now);
      DueInIsQueued(s, j, now);
    }
  }

  predicate InRange(order: seq<int>, n: int)
  {
    forall k :: 0 <= k < |order| ==> 0 <= order[k] < n
  }

  function RunNext<E>(s: State<E>, i: int, now: int): State<E>
    requires Valid(s) && 0 <= i < |s.common|
  {
    if s.timers[i] in s.ev && s.ev[s.timers[i]].active then RunInternal(s, i, now) else s
  }

  lemma RunNextRefines<E>(s: State<E>, i: int, now: int)
    requires Valid(s) && 0 <= i < |s.common| && s.owed == {}
    ensures var r := RunNext(s, i, now);
      && Valid(r) && r.owed == {} && |r.common| == |s.common|
      && (s.timers[i] in s.ev && s.ev[s.timers[i]].active ==> Ran(s, r, i, DueIn(s, i, now)) && DueIn(r, i, now) == {})
  {
    RunInternalRefines(s, i, now);
  }

  /** Every queue with a due event is listed in `order`, and its timer is active. */
  ghost predicate Scheduled<E>(s: State<E>, order: seq<int>, now: int)
    requires Wf(s)
  {
    forall i :: 0 <= i < |s.common| && DueIn(s, i, now) != {} ==> i in order && s.timers[i] in s.ev && s.ev[s.timers[i]].active
  }

  lemma StillScheduled<E>(s: State<E>, r: State<E>, order: seq<int>, now: int)
    requires Wf(s) && Wf(r) && order != [] && InRange(order, |s.common|) && Scheduled(s, order, now)
    requires Ran(s, r, order[0], DueIn(s, order[0], now)) && DueIn(r, order[0], now) == {}
    ensures Scheduled(r, order[1..], now)
  {
    forall j | 0 <= j < |r.common| && DueIn(r, j, now) != {}
      ensures j in order[1..] && r.timers[j] in r.ev && r.ev[r.timers[j]].active
    {
      RanOthers(s, r, order[0], j, now);
    }
  }

  lemma ScheduledTail<E>(s: State<E>, order: seq<int>, now: int) returns (r: State<E>)
    requires Valid(s) && s.owed == {} && order != [] && InRange(order, |s.common|)
    requires Scheduled(s, order, now)
    ensures r == RunNext(s, order[0], now) && InRange(order[1..], |r.common|)
    ensures Valid(r) && r.owed == {} && |r.common| == |s.common| && Scheduled(r, order[1..], now)
    ensures DueQueued(s, now) == DueIn(s, order[0], now) + DueQueued(r, now)
    ensures Deadlines(r.ev) == Deadlines(s.ev) - DueIn(s, order[0], now)
    ensures ActiveUsers(r.ev) == ActiveUsers(s.ev) + DueIn(s, order[0], now)
  {
    var i := order[0];
    assert InRange(order[1..], |s.common|);
    RunNextRefines(s, i, now);
    r := RunNext(s, i, now);
    if s.timers[i] in s.ev && s.ev[s.timers[i]].active {
      RanDue(s, r, i, now);
      StillScheduled(s, r, order, now);
    } else {
      assert DueIn(s, i, now) == {};
      MinusNothing(Deadlines(s.ev));
    }
  }

  lemma NoneScheduled<E>(s: State<E>, now: int)
    requires Wf(s) && Scheduled(s, [], now)
    ensures DueQueued(s, now) == {}
  {
    forall e | e in s.ev && s.ev[e].armed && s.ev[e].common >= 0
      ensures s.ev[e].deadline > now
    {
      DueInIsQueued(s, s.ev[e].common, now);
      assert e !in DueIn(s, s.ev[e].common, now);
    }
  }

  /** A run of internal callbacks: one after the other, for the queues listed in `order`. */
  ghost predicate IsRun<E>(run: seq<State<E>>, order: seq<int>, now: int)
  {
    |run| == |order| + 1 && forall k :: 0 <= k < |order| ==> NextInRun(run, order, now, k)
  }

  ghost predicate NextInRun<E>(run: seq<State<E>>, order: seq<int>, now: int, k: int)
    requires 0 <= k < |order| < |run|
  {
    Valid(run[k]) && 0 <= order[k] < |run[k].common| && run[k + 1] == RunNext(run[k], order[k], now)
  }

  lemma RunSnoc<E>(run: seq<State<E>>, order: seq<int>, now: int, i: int, r: State<E>)
    requires IsRun(run, order, now)
    requires Valid(run[|order|]) && 0 <= i < |run[|order|].common| && r == RunNext(run[|order|], i, now)
    ensures IsRun(run + [r], order + [i], now)
  {
    forall k | 0 <= k < |order + [i]|
      ensures NextInRun(run + [r], order + [i], now, k)
    {
      assert k < |order| ==> NextInRun(run, order, now, k);
    }
  }

  /** A run from `s` to `cur` that took the first `i` of `n` queues in turn. */
  ghost predicate RunUpTo<E>(run: seq<State<E>>, order: seq<int>, now: int, n: int, i: int, s: State<E>, cur: State<E>)
  {
    && IsRun(run, order, now) && |order| == i && run[0] == s && run[i] == cur
    && InRange(order, n)
    && forall k :: 0 <= k < i ==> k in order
  }

  lemma RunUpToNext<E>(run: seq<State<E>>, order: seq<int>, now: int, n: int, i: int, s: State<E>, cur: State<E>,
                       r: State<E>)
    requires RunUpTo(run, order, now, n, i, s, cur) && 0 <= i < n
    requires Valid(cur) && i < |cur.common| && r == RunNext(cur, i, now)
    ensures RunUpTo(run + [r], order + [i], now, n, i + 1, s, r)
  {
    RunSnoc(run, order, now, i, r);
  }

  /** What every state of a run keeps: the abstract queue without the due queued events, and the
      active events together with them. */
  ghost predicate RunKeeps<E>(s: State<E>, r: State<E>, now: int)
  {
    && Deadlines(r.ev) - DueQueued(r, now) == Deadlines(s.ev) - DueQueued(s, now)
    && ActiveUsers(r.ev) + DueQueued(r, now) == ActiveUsers(s.ev) + DueQueued(s, now)
  }

  lemma RunKeepsStep<E>(s: State<E>, m: State<E>, r: State<E>, i: int, now: int)
    requires RunKeeps(s, m, now) && 0 <= i < |m.common|
    requires DueQueued(m, now) == DueIn(m, i, now) + DueQueued(r, now)
    requires Deadlines(r.ev) == Deadlines(m.ev) - DueIn(m, i, now)
    requires ActiveUsers(r.ev) == ActiveUsers(m.ev) + DueIn(m, i, now)
    ensures RunKeeps(s, r, now)
  {
    MinusTwice(Deadlines(m.ev), DueIn(m, i, now), DueQueued(r, now), DueQueued(m, now));
  }

  lemma {:induction false} RunPrefix<E>(run: seq<State<E>>, order: seq<int>, now: int, k: nat)
    requires IsRun(run, order, now) && k <= |order| && InRange(order, |run[0].common|)
    requires Valid(run[0]) && run[0].owed == {} && Scheduled(run[0], order, now)
    ensures Valid(run[k]) && run[k].owed == {} && RunKeeps(run[0], run[k], now) && |run[k].common| == |run[0].common| && Scheduled(run[k], order[k..], now)
  {
    if k == 0 {
      assert order[0..] == order;
    } else {
      RunPrefix(run, order, now, k - 1);
      assert NextInRun(run, order, now, k - 1);
      assert order[k - 1..][0] == order[k - 1] && order[k - 1..][1..] == order[k..];
      var r := ScheduledTail(run[k - 1], order[k - 1..], now);
      RunKeepsStep(run[0], run[k - 1], r, order[k - 1], now);
    }
  }

  /** However the internal callbacks are ordered, running them fires every due queued event and
      nothing else. */
  lemma RunRefines<E>(run: seq<State<E>>, order: seq<int>, now: int)
    requires IsRun(run, order, now) && InRange(order, |run[0].common|)
    requires Valid(run[0]) && run[0].owed == {} && Scheduled(run[0], order, now)
    ensures Valid(run[|order|]) && run[|order|].owed == {}
    ensures Deadlines(run[|order|].ev) == Deadlines(run[0].ev) - DueQueued(run[0], now)
    ensures ActiveUsers(run[|order|].ev) == ActiveUsers(run[0].ev) + DueQueued(run[0], now)
  {
    RunPrefix(run, order, now, |order|);
    assert order[|order|..] == [];
    NoneScheduled(run[|order|], now);
    MinusNothing(Deadlines(run[|order|].ev));
  }

  lemma MinusNothing<E>(m: map<E, int>)
    ensures m - {} == m
  {
  }

  /** When the heap holds nothing due, every queue with due events has an active timer. */
  lemma QuietHeapSchedules<E>(s: State<E>, order: seq<int>, now: int)
    requires Valid(s) && s.owed == {} && DueHeap(s, now) == {}
    requires forall i :: 0 <= i < |s.common| && s.ev[s.timers[i]].active ==> i in order
    ensures Scheduled(s, order, now)
  {
    forall i | 0 <= i < |s.common| && DueIn(s, i, now) != {}
      ensures s.timers[i] in s.ev && s.ev[s.timers[i]].active
    {
      assert Covered(s, i);
      if s.common[i] != [] {
        HeadIsUser(s, i);
        if s.ev[s.common[i][0]].deadline > now {
          NoneDue(s, i, now);
        }
        assert s.timers[i] in s.timers && s.timers[i] !in DueHeap(s, now);
      }
    }
  }

  ghost function DueAll<E>(s: State<E>, now: int): set<E>
  {
    set e | e in Deadlines(s.ev) && Deadlines(s.ev)[e] <= now
  }

  /** The two levels are one priority queue: timeout_process at `now` followed by the callbacks of
      the internal timers, in any order, removes from the abstract queue exactly the events due at
      `now` and activates exactly those. */
  lemma TwoLevelsAreOneQueue<E>(s0: State<E>, run: seq<State<E>>, fired: set<E>, order: seq<int>, now: int)
    requires Valid(s0) && s0.owed == {}
    requires IsRun(run, order, now) && InRange(order, |run[0].common|)
    requires Processing(s0, run[0], now, fired) && DueHeap(run[0], now) == {}
    requires forall i :: 0 <= i < |run[0].common| && run[0].ev[run[0].timers[i]].active ==> i in order
    ensures Valid(run[|order|]) && run[|order|].owed == {}
    ensures Deadlines(run[|order|].ev) == Deadlines(s0.ev) - DueAll(s0, now)
    ensures ActiveUsers(run[|order|].ev) == ActiveUsers(s0.ev) + DueAll(s0, now)
  {
    QuietHeapSchedules(run[0], order, now);
    RunRefines(run, order, now);
    ProcessSplit(s0, run[0], now, fired);
  }

  lemma ProcessSplit<E>(s0: State<E>, s: State<E>, now: int, fired: set<E>)
    requires Valid(s0) && Processing(s0, s, now, fired) && DueHeap(s, now) == {}
    ensures Deadlines(s.ev) - DueQueued(s, now) == Deadlines(s0.ev) - DueAll(s0, now)
    ensures ActiveUsers(s.ev) + DueQueued(s, now) == ActiveUsers(s0.ev) + DueAll(s0, now)
  {
    ProcessRefines(s0, s, now, fired);
    QueuedUnfired(s0, s, now, fired);
    DueSplit(s0, now);
    var d, h, q, a := Deadlines(s0.ev), DueHeap(s0, now), DueQueued(s0, now), DueAll(s0, now);
    MinusTwice(d, h, q, a);
    PlusTwice(ActiveUsers(s0.ev), Users(s0.ev, h), q, a);
  }

  lemma PlusTwice<E>(s: set<E>, a: set<E>, b: set<E>, c: set<E>)
    requires c == a + b
    ensures s + a + b == s + c
  {
  }

  lemma MinusTwice<E>(m: map<E, int>, a: set<E>, b: set<E>, c: set<E>)
    requires forall e :: e in m ==> (e in c <==> e in a || e in b)
    ensures m - a - b == m - c
  {
  }

  lemma QueuedUnfired<E>(s0: State<E>, s: State<E>, now: int, fired: set<E>)
    requires FiredIn(s0.ev, s.ev, fired) && fired <= DueHeap(s0, now)
    ensures DueQueued(s, now) == DueQueued(s0, now)
  {
  }

  lemma DueSplit<E>(s: State<E>, now: int)
    requires Wf(s)
    ensures DueAll(s, now) == Users(s.ev, DueHeap(s, now)) + DueQueued(s, now)
    ensures forall e :: e in Deadlines(s.ev) ==> (e in DueAll(s, now) <==> e in DueHeap(s, now) || e in DueQueued(s, now))
  {
  }

  // ---------- Clock correction ----------

  /** timeout_correct moves every deadline of the abstract queue by the same amount and keeps both
      levels in step. */
  lemma CorrectRefines<E>(s: State<E>, off: int)
    requires Valid(s)
    ensures Valid(Correct(s, off))
    ensures Deadlines(Correct(s, off).ev) == map e | e in Deadlines(s.ev) :: Deadlines(s.ev)[e] - off
    ensures ActiveUsers(Correct(s, off).ev) == ActiveUsers(s.ev)
  {
    CorrectWf(s, off);
    CorrectDeadlines(s, off);
    forall i | 0 <= i < |s.common|
      ensures Covered(Correct(s, off), i)
    {
      assert Covered(s, i);
      if s.common[i] != [] {
        HeadIsUser(s, i);
      }
    }
  }

  lemma CorrectDeadlines<E>(s: State<E>, off: int)
    ensures Deadlines(Correct(s, off).ev) == map e | e in Deadlines(s.ev) :: Deadlines(s.ev)[e] - off
  {
    var d, d' := Deadlines(s.ev), Deadlines(Correct(s, off).ev);
    assert d'.Keys == d.Keys;
    assert forall e :: e in d ==> d'[e] == d[e] - off;
  }

  lemma CorrectWf<E>(s: State<E>, off: int)
    requires Wf(s)
    ensures Wf(Correct(s, off))
  {
    var r := Correct(s, off);
    assert ArmedUsers(r.ev) == ArmedUsers(s.ev);
    assert ActiveUsers(r.ev) == ActiveUsers(s.ev);
    assert ActiveAll(r.ev) == ActiveAll(s.ev);
    forall i | 0 <= i < |r.common|
      ensures QueueOk(r, i)
    {
      CorrectQueue(s, off, i);
    }
    forall p | 0 <= p < |r.active|
      ensures ActiveOk(r, p)
    {
      assert ActiveOk(s, p);
      assert forall x :: x in s.ev ==> (InActive(s.ev, x, p) <==> InActive(r.ev, x, p));
    }
  }

  lemma CorrectQueue<E>(s: State<E>, off: int, i: int)
    requires Wf(s) && 0 <= i < |s.common|
    ensures QueueOk(Correct(s, off), i)
  {
    var r := Correct(s, off);
    assert QueueOk(s, i);
    assert forall x :: x in s.ev ==> (InQueue(s.ev, x, i) <==> InQueue(r.ev, x, i));
    assert forall x :: x in s.common[i] ==> x in s.ev && s.ev[x].armed && r.ev[x].deadline == s.ev[x].deadline - off;
  }

  // ---------- Persistent events ----------

  /** A user event leaves the active list before its callback: a persistent one keeps its timeout,
      any other is deleted outright. */
  lemma DequeueUser<E>(s: State<E>, e: E)
    requires Valid(s) && e in s.ev && !s.ev[e].isInternal && s.ev[e].active
    ensures Valid(Dequeue(s, e))
    ensures Deadlines(Dequeue(s, e).ev) == if s.ev[e].persistent then Deadlines(s.ev) else Deadlines(s.ev) - {e}
    ensures ActiveUsers(Dequeue(s, e).ev) == ActiveUsers(s.ev) - {e}
  {
    if s.ev[e].persistent {
      RemoveActiveKeeps(s, e);
      DeadlinesChange(s.ev, e, s.ev[e].(active := false));
    } else {
      DelRefines(s, e);
    }
  }

  lemma RemoveActiveKeeps<E>(s: State<E>, e: E)
    requires Valid(s) && e in s.ev && !s.ev[e].isInternal && s.ev[e].active
    ensures Valid(RemoveActive(s, e))
  {
    RemoveActiveWf(s, e);
    var r := RemoveActive(s, e);
    forall i | 0 <= i < |s.common|
      ensures Covered(r, i)
    {
      assert Covered(s, i) && s.timers[i] in s.timers;
      if s.common[i] != [] {
        HeadIsUser(s, i);
      }
      KeepCover(s, r, i);
    }
  }

  /** A persistent event has a remembered timeout to repeat. */
  predicate Repeats(i: Info)
  {
    i.interval != 0 || i.intervalCommon >= 0
  }

  /** The deadline event_persist_closure gives a persistent event that is about to run. */
  function NextRun(i: Info, now: int): (d: int)
    ensures i.interval >= 0 ==> d >= now
    ensures i.byTimeout && i.deadline + i.interval >= now ==> d == i.deadline + i.interval
    ensures !i.byTimeout && i.interval >= 0 ==> d == now + i.interval
    ensures i.byTimeout && i.deadline + i.interval < now ==> d == now + i.interval
    ensures i.interval >= 0 && i.deadline <= now ==> d <= now + i.interval
  {
    var from := if i.byTimeout then i.deadline else now;
    if from + i.interval < now then now + i.interval else from + i.interval
  }

  // ---------- Assigning events and creating queues ----------

  /** event_assign: a fresh event belongs to the base, on no list. */
  lemma AssignKeeps<E>(s: State<E>, e: E, i: Info)
    requires Valid(s) && e !in s.ev && !i.isInternal && !i.armed && !i.active
    requires -1 <= i.common < |s.common| && i.priority < |s.active|
    ensures Valid(SetEv(s, e, i)) && Deadlines(SetEv(s, e, i).ev) == Deadlines(s.ev)
    ensures HeapEvents(SetEv(s, e, i).ev) == HeapEvents(s.ev)
  {
    var r := SetEv(s, e, i);
    assert r.ev[e] == i;
    GrowMaps(s.ev, r.ev, e, i);
    GrowWf(s, r, e);
    GrowCover(s, r, e);
  }

  lemma GrowMaps<E>(ev: map<E, Info>, ev': map<E, Info>, e: E, i: Info)
    requires e !in ev && ev' == ev[e := i] && !i.armed
    ensures Deadlines(ev') == Deadlines(ev) && HeapEvents(ev') == HeapEvents(ev)
  {
  }

  lemma GrowCover<E>(s: State<E>, r: State<E>, e: E)
    requires Valid(s) && Wf(r) && e !in s.ev && e in r.ev && r.ev == s.ev[e := r.ev[e]] && r == s.(ev := r.ev)
    ensures Valid(r)
  {
    forall k | 0 <= k < |s.common|
      ensures Covered(r, k)
    {
      assert Covered(s, k);
      if s.common[k] != [] {
        HeadIsUser(s, k);
      }
      KeepCover(s, r, k);
    }
  }

  lemma GrowWf<E>(s: State<E>, r: State<E>, e: E)
    requires Wf(s) && e !in s.ev && e in r.ev && r.ev == s.ev[e := r.ev[e]]
    requires r == s.(ev := r.ev)
    requires var i := r.ev[e]; !i.isInternal && !i.armed && !i.active && -1 <= i.common < |s.common| && i.priority < |s.active|
    ensures Wf(r)
  {
    assert ArmedUsers(r.ev) == ArmedUsers(s.ev) && ActiveUsers(r.ev) == ActiveUsers(s.ev) && ActiveAll(r.ev) == ActiveAll(s.ev);
    forall k | 0 <= k < |r.common|
      ensures QueueOk(r, k)
    {
      assert QueueOk(s, k);
      assert forall x :: x in s.ev ==> (InQueue(s.ev, x, k) <==> InQueue(r.ev, x, k));
    }
    forall p | 0 <= p < |r.active|
      ensures ActiveOk(r, p)
    {
      assert ActiveOk(s, p);
      assert forall x :: x in s.ev ==> (InActive(s.ev, x, p) <==> InActive(r.ev, x, p));
    }
  }

  /** event_base_init_common_timeout: an empty queue with its own idle timer. */
  function NewQueue<E>(s: State<E>, t: E): State<E>
  {
    s.(ev := s.ev[t := Info(true, 0, false, 0, -1, false, false, false, 0, -1)], common := s.common + [[]], timers := s.timers + [t])
  }

  lemma NewQueueKeeps<E>(s: State<E>, t: E)
    requires Valid(s) && t !in s.ev && |s.active| > 0
    ensures Valid(NewQueue(s, t)) && Deadlines(NewQueue(s, t).ev) == Deadlines(s.ev)
    ensures HeapEvents(NewQueue(s, t).ev) == HeapEvents(s.ev)
  {
    NewQueueWf(s, t);
    NewQueueCover(s, t);
    GrowMaps(s.ev, NewQueue(s, t).ev, t, NewQueue(s, t).ev[t]);
  }

  lemma NewQueueCover<E>(s: State<E>, t: E)
    requires Valid(s) && t !in s.ev && Wf(NewQueue(s, t))
    ensures Valid(NewQueue(s, t))
  {
    var r := NewQueue(s, t);
    forall k | 0 <= k < |r.common|
      ensures Covered(r, k)
    {
      if k < |s.common| {
        assert Covered(s, k);
        if s.common[k] != [] {
          HeadIsUser(s, k);
        }
        KeepCover(s, r, k);
      }
    }
  }

  lemma NewQueueWf<E>(s: State<E>, t: E)
    requires Wf(s) && t !in s.ev && |s.active| > 0
    ensures Wf(NewQueue(s, t))
  {
    var r := NewQueue(s, t);
    assert ArmedUsers(r.ev) == ArmedUsers(s.ev) && ActiveUsers(r.ev) == ActiveUsers(s.ev) && ActiveAll(r.ev) == ActiveAll(s.ev);
    assert r.timers[|s.timers|] == t && forall x :: x in r.timers <==> x in s.timers || x == t;
    forall k | 0 <= k < |r.common|
      ensures QueueOk(r, k)
    {
      if k < |s.common| {
        assert QueueOk(s, k);
      }
      assert forall x :: x in s.ev ==> (InQueue(s.ev, x, k) <==> InQueue(r.ev, x, k));
    }
    forall p | 0 <= p < |r.active|
      ensures ActiveOk(r, p)
    {
      assert ActiveOk(s, p);
      assert forall x :: x in s.ev ==> (InActive(s.ev, x, p) <==> InActive(r.ev, x, p));
    }
  }
}
