/** The operations of event.c as steps on the two-level structure, and the proof that the two
    levels together behave like one priority queue of deadlines. */
module TimerSteps {
  import opened Lists
  import opened TimerQueue

  // ---------- Operations ----------

  /** First half of event_add_internal's timeout part: leave the old timeout level, and leave the
      active list if the pending activation came from a timeout. */
  function Leave<E>(s: State<E>, e: E): State<E>
    requires e in s.ev
  {
    var s1 := if s.ev[e].armed then RemoveTimeout(s, e) else s;
    if s1.ev[e].active && s1.ev[e].byTimeout then RemoveActive(s1, e) else s1
  }

  /** Second half: set the new deadline and enter the level chosen by `c`. */
  function Rearm<E>(s: State<E>, e: E, d: int, c: int): State<E>
    requires Wf(s) && e in s.ev
  {
    var s2 := Leave(s, e);
    LeaveEffect(s, e);
    QueueMembers(s2);
    InsertTimeout(SetEv(s2, e, s2.ev[e].(deadline := d, common := c)), e)
  }

  /** common_timeout_schedule */
  function Schedule<E>(s: State<E>, i: int): State<E>
    requires Wf(s) && 0 <= i < |s.common| && s.common[i] != []
  {
    QueueMembers(s);
    Rearm(s, s.timers[i], s.ev[s.common[i][0]].deadline, -1)
  }

  function Deadline(when: int, absolute: bool, now: int): int
  {
    if absolute then when else now + when
  }

  /** event_add_internal with a timeout; `c` is the common queue the timeout value names, or -1. */
  function Add<E>(s: State<E>, e: E, when: int, c: int, absolute: bool, now: int): State<E>
    requires Wf(s) && e in s.ev && -1 <= c < |s.common| && !s.ev[e].isInternal
  {
    RememberWf(s, e, when, c, absolute);
    Enter(Remember(s, e, when, c, absolute), e, Deadline(when, absolute, now), c)
  }

  /** Rearm, and if the event now heads a common queue, move that queue's timer to its deadline. */
  function Enter<E>(s: State<E>, e: E, d: int, c: int): State<E>
    requires Wf(s) && e in s.ev && -1 <= c < |s.common| && !s.ev[e].isInternal
  {
    var r := Rearm(s, e, d, c);
    RearmWf(s, e, d, c);
    if c >= 0 && r.common[c] != [] && r.common[c][0] == e then Schedule(r, c) else r
  }

  /** A persistent event remembers the interval it was added with. */
  function Remember<E>(s: State<E>, e: E, when: int, c: int, absolute: bool): State<E>
    requires e in s.ev
  {
    if s.ev[e].persistent && !absolute then SetEv(s, e, s.ev[e].(interval := when, intervalCommon := c)) else s
  }

  /** event_del_internal */
  function Del<E>(s: State<E>, e: E): State<E>
    requires e in s.ev
  {
    var s1 := if s.ev[e].armed then RemoveTimeout(s, e) else s;
    if s1.ev[e].active then RemoveActive(s1, e) else s1
  }

  /** event_active_nolock */
  function Activate<E>(s: State<E>, e: E, byTimeout: bool): State<E>
    requires e in s.ev
  {
    if s.ev[e].active then SetEv(s, e, s.ev[e].(byTimeout := s.ev[e].byTimeout || byTimeout))
    else InsertActive(SetEv(s, e, s.ev[e].(byTimeout := byTimeout)), e)
  }

  /** What a due event goes through: deleted everywhere, then activated with EV_TIMEOUT. */
  function Fire<E>(s: State<E>, e: E): State<E>
    requires e in s.ev
  {
    Activate(Del(s, e), e, true)
  }

  /** The loop of common_timeout_callback. */
  function Drain<E>(s: State<E>, i: int, now: int): State<E>
    requires Wf(s) && 0 <= i < |s.common|
    decreases |s.common[i]|
  {
    if s.common[i] == [] then s
    else
      QueueMembers(s);
      var head := s.common[i][0];
      if s.ev[head].deadline > now then s
      else
        FireWf(s, head);
        QueueAfterFire(s, i);
        Drain(Fire(s, head), i, now)
  }

  /** common_timeout_callback */
  function CommonCallback<E>(s: State<E>, i: int, now: int): State<E>
    requires Wf(s) && 0 <= i < |s.common|
  {
    var s0 := s.(owed := s.owed - {s.timers[i]});
    OwedWf(s, s0);
    var r := Drain(s0, i, now);
    DrainWf(s0, i, now);
    if r.common[i] == [] then r else Schedule(r, i)
  }

  /** event_process_active_single_queue takes a non-persistent event off all lists before its callback. */
  function Dequeue<E>(s: State<E>, e: E): State<E>
    requires e in s.ev
  {
    var r := if s.ev[e].persistent then RemoveActive(s, e) else Del(s, e);
    if s.ev[e].isInternal then r.(owed := r.owed + {e}) else r
  }

  /** timeout_correct after the clock moved back by `off`: every armed deadline moves with it. */
  function Correct<E>(s: State<E>, off: int): State<E>
  {
    s.(ev := map e | e in s.ev :: if s.ev[e].armed then s.ev[e].(deadline := s.ev[e].deadline - off) else s.ev[e])
  }

  // ---------- Structural invariant ----------

  lemma OwedWf<E>(s: State<E>, r: State<E>)
    requires Wf(s) && r == s.(owed := r.owed) && forall x :: x in r.owed ==> x in s.timers
    ensures Wf(r)
  {
    forall i | 0 <= i < |r.common|
      ensures QueueOk(r, i)
    {
      assert QueueOk(s, i);
    }
    forall p | 0 <= p < |r.active|
      ensures ActiveOk(r, p)
    {
      assert ActiveOk(s, p);
    }
  }

  /** Fields other than flags, priority and the deadline of a queued event are free. */
  lemma SetEvWf<E>(s: State<E>, e: E, i: Info)
    requires Wf(s) && e in s.ev
    requires i.isInternal == s.ev[e].isInternal && i.priority == s.ev[e].priority && i.persistent == s.ev[e].persistent
    requires i.armed == s.ev[e].armed && i.active == s.ev[e].active
    requires s.ev[e].armed ==> i.deadline == s.ev[e].deadline && i.common == s.ev[e].common
    requires -1 <= i.common < |s.common| && (i.isInternal ==> i.common == -1)
    ensures Wf(SetEv(s, e, i))
  {
    var r := SetEv(s, e, i);
    ArmedChange(s.ev, e, i);
    ActiveChange(s.ev, e, i);
    forall k | 0 <= k < |r.common|
      ensures QueueOk(r, k)
    {
      assert QueueOk(s, k);
      QueueFrame(s, r, e, k);
    }
    forall p | 0 <= p < |r.active|
      ensures ActiveOk(r, p)
    {
      assert ActiveOk(s, p);
      ActiveFrame(s, r, e, p);
    }
  }

  lemma RememberWf<E>(s: State<E>, e: E, when: int, c: int, absolute: bool)
    requires Wf(s) && e in s.ev
    ensures Wf(Remember(s, e, when, c, absolute))
  {
    SetEvWf(s, e, s.ev[e].(interval := when, intervalCommon := c));
  }

  lemma RearmWf<E>(s: State<E>, e: E, d: int, c: int)
    requires Wf(s) && e in s.ev && -1 <= c < |s.common| && (s.ev[e].isInternal ==> c == -1)
    ensures Wf(Rearm(s, e, d, c))
  {
    LeaveEffect(s, e);
    var s2 := Leave(s, e);
    SetEvWf(s2, e, s2.ev[e].(deadline := d, common := c));
    InsertTimeoutWf(SetEv(s2, e, s2.ev[e].(deadline := d, common := c)), e);
  }

  /** `r` differs from `s` in event `e`, which became `i`, and possibly in the lists. */
  ghost predicate OnlyEv<E>(s: State<E>, r: State<E>, e: E, i: Info)
  {
    r.timers == s.timers && r.owed == s.owed && |r.common| == |s.common| && r.ev == s.ev[e := i]
  }

  lemma OnlyEvTwice<E>(s: State<E>, m: State<E>, r: State<E>, e: E, i: Info, j: Info)
    requires OnlyEv(s, m, e, i) && OnlyEv(m, r, e, j)
    ensures OnlyEv(s, r, e, j)
  {
    assert s.ev[e := i][e := j] == s.ev[e := j];
  }

  /** An event that is not armed in queue `i` is not in its list. */
  lemma NotThere<E>(s: State<E>, e: E)
    requires Wf(s) && e in s.ev
    ensures forall i :: 0 <= i < |s.common| && !(s.ev[e].armed && s.ev[e].common == i) ==> Remove(s.common[i], e) == s.common[i]
  {
    forall i | 0 <= i < |s.common| && !(s.ev[e].armed && s.ev[e].common == i)
      ensures Remove(s.common[i], e) == s.common[i]
    {
      assert QueueOk(s, i);
      assert e in s.common[i] ==> InQueue(s.ev, e, i);
    }
  }

  lemma UnarmEffect<E>(s: State<E>, e: E) returns (r: State<E>)
    requires Wf(s) && e in s.ev
    ensures r == if s.ev[e].armed then RemoveTimeout(s, e) else s
    ensures Wf(r) && OnlyEv(s, r, e, s.ev[e].(armed := false)) && r.active == s.active
    ensures forall i :: 0 <= i < |s.common| ==> r.common[i] == Remove(s.common[i], e)
  {
    NotThere(s, e);
    if s.ev[e].armed {
      RemoveTimeoutWf(s, e);
      r := RemoveTimeout(s, e);
    } else {
      r := s;
      assert s.ev[e := s.ev[e]] == s.ev;
    }
  }

  lemma LeaveEffect<E>(s: State<E>, e: E)
    requires Wf(s) && e in s.ev
    ensures Wf(Leave(s, e)) && !Leave(s, e).ev[e].armed
    ensures OnlyEv(s, Leave(s, e), e, s.ev[e].(armed := false, active := s.ev[e].active && !s.ev[e].byTimeout))
    ensures forall i :: 0 <= i < |s.common| ==> Leave(s, e).common[i] == Remove(s.common[i], e)
  {
    var s1 := UnarmEffect(s, e);
    if s1.ev[e].active && s1.ev[e].byTimeout {
      RemoveActiveWf(s1, e);
      OnlyEvTwice(s, s1, RemoveActive(s1, e), e, s1.ev[e], s1.ev[e].(active := false));
    }
  }

  lemma ActivateWf<E>(s: State<E>, e: E, byTimeout: bool)
    requires Wf(s) && e in s.ev
    ensures Wf(Activate(s, e, byTimeout))
  {
    if s.ev[e].active {
      SetEvWf(s, e, s.ev[e].(byTimeout := s.ev[e].byTimeout || byTimeout));
    } else {
      SetEvWf(s, e, s.ev[e].(byTimeout := byTimeout));
      InsertActiveWf(SetEv(s, e, s.ev[e].(byTimeout := byTimeout)), e);
    }
  }

  lemma FireWf<E>(s: State<E>, e: E)
    requires Wf(s) && e in s.ev
    ensures Wf(Fire(s, e))
  {
    DelEffect(s, e);
    ActivateWf(Del(s, e), e, true);
  }

  lemma QueueAfterFire<E>(s: State<E>, i: int)
    requires Wf(s) && 0 <= i < |s.common| && s.common[i] != []
    ensures s.common[i][0] in s.ev && s.ev[s.common[i][0]].armed
    ensures Fire(s, s.common[i][0]).common == s.common[i := s.common[i][1..]]
  {
    assert QueueOk(s, i);
    var head := s.common[i][0];
    assert InQueue(s.ev, head, i);
  }

  lemma {:induction false} DrainWf<E>(s: State<E>, i: int, now: int)
    requires Wf(s) && 0 <= i < |s.common|
    ensures Wf(Drain(s, i, now)) && |Drain(s, i, now).common| == |s.common|
    decreases |s.common[i]|
  {
    QueueMembers(s);
    if s.common[i] != [] && s.ev[s.common[i][0]].deadline <= now {
      FireWf(s, s.common[i][0]);
      QueueAfterFire(s, i);
      DrainWf(Fire(s, s.common[i][0]), i, now);
    }
  }

  // ---------- Coverage: the heap stands for every queue ----------

  ghost predicate Covered<E>(s: State<E>, i: int)
    requires Wf(s) && 0 <= i < |s.common|
  {
    QueueMembers(s);
    s.common[i] == [] ||
    var t := s.timers[i];
    (s.ev[t].armed && s.ev[t].deadline <= s.ev[s.common[i][0]].deadline) || s.ev[t].active || t in s.owed
  }

  /** The invariant of every reachable state. */
  ghost predicate Valid<E>(s: State<E>)
  {
    Wf(s) && forall i :: 0 <= i < |s.common| ==> Covered(s, i)
  }

  /** The abstract priority queue: every armed user event and its deadline. */
  ghost function Deadlines<E>(ev: map<E, Info>): map<E, int>
  {
    map e | e in ev && ev[e].armed && !ev[e].isInternal :: ev[e].deadline
  }

  lemma DeadlinesChange<E>(ev: map<E, Info>, e: E, i: Info)
    requires e in ev && i.isInternal == ev[e].isInternal
    ensures Deadlines(ev[e := i])
         == if i.isInternal then Deadlines(ev) else if i.armed then Deadlines(ev)[e := i.deadline] else Deadlines(ev) - {e}
    ensures ActiveUsers(ev[e := i])
         == if i.isInternal then ActiveUsers(ev) else if i.active then ActiveUsers(ev) + {e} else ActiveUsers(ev) - {e}
  {
  }

  /** The queue heads did not move earlier, and the queue's own timer is untouched. */
  lemma KeepCover<E>(s: State<E>, r: State<E>, i: int)
    requires Wf(s) && Wf(r) && 0 <= i < |s.common| && i < |r.common| && Covered(s, i)
    requires r.timers[i] == s.timers[i] && r.ev[s.timers[i]] == s.ev[s.timers[i]]
    requires s.timers[i] in s.owed ==> s.timers[i] in r.owed
    requires r.common[i] != [] ==>
      (s.common[i] != [] && r.common[i][0] in r.ev && s.common[i][0] in s.ev
       && s.ev[s.common[i][0]].deadline <= r.ev[r.common[i][0]].deadline)
    ensures Covered(r, i)
  {
  }

  ghost predicate HeadIsOneOf<E>(q: seq<E>, e: E, rest: seq<E>)
  {
    q != [] && (q[0] == e || (rest != [] && q[0] == rest[0]))
  }

  lemma InsertEffect<E>(s: State<E>, e: E)
    requires Wf(s) && e in s.ev && !s.ev[e].armed
    requires forall i, x :: 0 <= i < |s.common| && x in s.common[i] ==> x in s.ev
    ensures var r := InsertTimeout(s, e); var c := s.ev[e].common;
      && OnlyEv(s, r, e, s.ev[e].(armed := true))
      && (forall i :: 0 <= i < |s.common| && i != c ==> r.common[i] == s.common[i])
      && (c >= 0 ==> HeadIsOneOf(r.common[c], e, s.common[c]))
  {
    var c := s.ev[e].common;
    if c >= 0 {
      assert QueueOk(s, c);
      var k := InsertAt(s.common[c], e, s.ev);
    }
  }

  /** What Rearm changes. */
  lemma RearmEffect<E>(s: State<E>, e: E, d: int, c: int)
    requires Wf(s) && e in s.ev && -1 <= c < |s.common| && (s.ev[e].isInternal ==> c == -1)
    ensures var r := Rearm(s, e, d, c);
      && OnlyEv(s, r, e, s.ev[e].(armed := true, deadline := d, common := c, active := s.ev[e].active && !s.ev[e].byTimeout))
      && (forall i :: 0 <= i < |s.common| && i != c ==> r.common[i] == Remove(s.common[i], e))
      && (c >= 0 ==> HeadIsOneOf(r.common[c], e, Remove(s.common[c], e)))
  {
    LeaveEffect(s, e);
    var s2 := Leave(s, e);
    var i3 := s2.ev[e].(deadline := d, common := c);
    var s3 := SetEv(s2, e, i3);
    SetEvWf(s2, e, i3);
    QueueMembers(s2);
    InsertEffect(s3, e);
    OnlyEvTwice(s, s2, s3, e, s2.ev[e], i3);
    OnlyEvTwice(s, s3, Rearm(s, e, d, c), e, i3, i3.(armed := true));
  }

  lemma HeadAfterRemove<E>(s: State<E>, e: E, i: int)
    requires Wf(s) && 0 <= i < |s.common| && Remove(s.common[i], e) != []
    ensures s.common[i] != [] && s.common[i][0] in s.ev
    ensures Remove(s.common[i], e)[0] in s.ev && Remove(s.common[i], e)[0] in s.common[i]
    ensures Remove(s.common[i], e)[0] == e ==> false
    ensures s.ev[s.common[i][0]].deadline <= s.ev[Remove(s.common[i], e)[0]].deadline
  {
    assert QueueOk(s, i);
    QueueMembers(s);
    RemoveFacts(s.common[i], e);
    RemoveSorted(s.common[i], e, s.ev);
    assert Remove(s.common[i], e)[0] in Remove(s.common[i], e);
  }

  /** A user event moving elsewhere cannot uncover a queue it is not the head of. */
  lemma RearmCover<E>(s: State<E>, e: E, d: int, c: int, i: int)
    requires Wf(s) && e in s.ev && !s.ev[e].isInternal && -1 <= c < |s.common|
    requires 0 <= i < |s.common| && Covered(s, i)
    ensures Wf(Rearm(s, e, d, c)) && |Rearm(s, e, d, c).common| == |s.common|
    ensures i != c || Rearm(s, e, d, c).common[i] == [] || Rearm(s, e, d, c).common[i][0] != e ==> Covered(Rearm(s, e, d, c), i)
  {
    RearmWf(s, e, d, c);
    RearmEffect(s, e, d, c);
    var r := Rearm(s, e, d, c);
    assert s.timers[i] in s.timers;
    if Remove(s.common[i], e) != [] {
      HeadAfterRemove(s, e, i);
    }
    if i != c || r.common[i] == [] || r.common[i][0] != e {
      KeepCover(s, r, i);
    }
  }

  /** Rescheduling a queue's timer covers that queue and leaves every other one covered. */
  lemma ScheduleCover<E>(s: State<E>, i: int)
    requires Wf(s) && 0 <= i < |s.common| && s.common[i] != []
    ensures var r := Schedule(s, i);
      && Wf(r) && |r.common| == |s.common| && r.common == s.common
      && Covered(r, i)
      && (forall j :: 0 <= j < |s.common| && j != i && Covered(s, j) ==> Covered(r, j))
  {
    QueueMembers(s);
    var t := s.timers[i];
    assert t in s.timers;
    var d := s.ev[s.common[i][0]].deadline;
    RearmWf(s, t, d, -1);
    RearmEffect(s, t, d, -1);
    var r := Schedule(s, i);
    assert QueueOk(s, i) && InQueue(s.ev, s.common[i][0], i);
    forall j | 0 <= j < |s.common|
      ensures r.common[j] == s.common[j]
    {
      assert QueueOk(s, j);
      assert t in s.common[j] ==> InQueue(s.ev, t, j);
    }
    assert r.common == s.common;
    forall j | 0 <= j < |s.common| && j != i && Covered(s, j)
      ensures Covered(r, j)
    {
      assert s.timers[j] != t;
      if s.common[j] != [] {
        assert QueueOk(s, j) && InQueue(s.ev, s.common[j][0], j);
      }
      KeepCover(s, r, j);
    }
  }

  // ---------- Every operation keeps the invariant and acts on the priority queue ----------

  lemma ScheduleDeadlines<E>(s: State<E>, i: int)
    requires Wf(s) && 0 <= i < |s.common| && s.common[i] != []
    ensures Deadlines(Schedule(s, i).ev) == Deadlines(s.ev)
    ensures ActiveUsers(Schedule(s, i).ev) == ActiveUsers(s.ev)
  {
    QueueMembers(s);
    var t := s.timers[i];
    assert t in s.timers;
    RearmEffect(s, t, s.ev[s.common[i][0]].deadline, -1);
    DeadlinesChange(s.ev, t, Schedule(s, i).ev[t]);
  }

  lemma RememberCover<E>(s: State<E>, e: E, when: int, c: int, absolute: bool)
    requires Valid(s) && e in s.ev && !s.ev[e].isInternal
    ensures Valid(Remember(s, e, when, c, absolute))
  {
    var s0 := Remember(s, e, when, c, absolute);
    RememberWf(s, e, when, c, absolute);
    forall i | 0 <= i < |s.common|
      ensures Covered(s0, i)
    {
      assert s.timers[i] in s.timers;
      if s.common[i] != [] {
        assert QueueOk(s, i) && InQueue(s.ev, s.common[i][0], i);
      }
      KeepCover(s, s0, i);
    }
  }

  lemma RearmCoverAll<E>(s: State<E>, e: E, d: int, c: int)
    requires Valid(s) && e in s.ev && !s.ev[e].isInternal && -1 <= c < |s.common|
    ensures var r := Rearm(s, e, d, c);
      && Wf(r) && |r.common| == |s.common|
      && forall i :: 0 <= i < |s.common| && (i != c || r.common[i] == [] || r.common[i][0] != e) ==> Covered(r, i)
  {
    RearmWf(s, e, d, c);
    RearmEffect(s, e, d, c);
    forall i | 0 <= i < |s.common| && (i != c || Rearm(s, e, d, c).common[i] == [] || Rearm(s, e, d, c).common[i][0] != e)
      ensures Covered(Rearm(s, e, d, c), i)
    {
      RearmCover(s, e, d, c, i);
    }
  }

  lemma EnterStraight<E>(s: State<E>, e: E, d: int, c: int, r: State<E>)
    requires Valid(s) && e in s.ev && !s.ev[e].isInternal && -1 <= c < |s.common|
    requires r == Rearm(s, e, d, c) && (c >= 0 && c < |r.common| && r.common[c] != [] ==> r.common[c][0] != e)
    ensures Valid(r)
  {
    RearmCoverAll(s, e, d, c);
  }

  lemma EnterAsHead<E>(s: State<E>, e: E, d: int, c: int, r: State<E>)
    requires Valid(s) && e in s.ev && !s.ev[e].isInternal && 0 <= c < |s.common| && r == Rearm(s, e, d, c)
    requires c < |r.common| && r.common[c] != []
    ensures Wf(r) && Valid(Schedule(r, c))
  {
    RearmCoverAll(s, e, d, c);
    ScheduleCover(r, c);
  }

  /** event_add: whatever level the event was on and whatever level it goes to, the invariant is kept. */
  lemma AddValid<E>(s: State<E>, e: E, when: int, c: int, absolute: bool, now: int)
    requires Valid(s) && e in s.ev && !s.ev[e].isInternal && -1 <= c < |s.common|
    ensures Valid(Add(s, e, when, c, absolute, now))
  {
    RememberCover(s, e, when, c, absolute);
    var s0, d := Remember(s, e, when, c, absolute), Deadline(when, absolute, now);
    var r := Rearm(s0, e, d, c);
    RearmWf(s0, e, d, c);
    if c >= 0 && r.common[c] != [] && r.common[c][0] == e {
      EnterAsHead(s0, e, d, c, r);
    } else {
      EnterStraight(s0, e, d, c, r);
    }
  }

  lemma RememberDeadlines<E>(s: State<E>, e: E, when: int, c: int, absolute: bool)
    requires e in s.ev
    ensures Deadlines(Remember(s, e, when, c, absolute).ev) == Deadlines(s.ev)
    ensures ActiveUsers(Remember(s, e, when, c, absolute).ev) == ActiveUsers(s.ev)
    ensures Remember(s, e, when, c, absolute).ev.Keys == s.ev.Keys
    ensures Remember(s, e, when, c, absolute).ev[e].byTimeout == s.ev[e].byTimeout
  {
    DeadlinesChange(s.ev, e, s.ev[e].(interval := when, intervalCommon := c));
  }

  lemma RearmDeadlines<E>(s: State<E>, e: E, d: int, c: int)
    requires Wf(s) && e in s.ev && !s.ev[e].isInternal && -1 <= c < |s.common|
    ensures Deadlines(Rearm(s, e, d, c).ev) == Deadlines(s.ev)[e := d]
    ensures ActiveUsers(Rearm(s, e, d, c).ev) == if s.ev[e].byTimeout then ActiveUsers(s.ev) - {e} else ActiveUsers(s.ev)
  {
    RearmEffect(s, e, d, c);
    DeadlinesChange(s.ev, e, Rearm(s, e, d, c).ev[e]);
  }

  /** event_add on the abstract queue: exactly this deadline is entered or replaced, and an
      activation that came from the old timeout is withdrawn. */
  lemma AddRefines<E>(s: State<E>, e: E, when: int, c: int, absolute: bool, now: int)
    requires Valid(s) && e in s.ev && !s.ev[e].isInternal && -1 <= c < |s.common|
    ensures Deadlines(Add(s, e, when, c, absolute, now).ev) == Deadlines(s.ev)[e := Deadline(when, absolute, now)]
    ensures ActiveUsers(Add(s, e, when, c, absolute, now).ev)
         == if s.ev[e].byTimeout then ActiveUsers(s.ev) - {e} else ActiveUsers(s.ev)
  {
    var s0 := Remember(s, e, when, c, absolute);
    RememberWf(s, e, when, c, absolute);
    RememberDeadlines(s, e, when, c, absolute);
    var d := Deadline(when, absolute, now);
    RearmWf(s0, e, d, c);
    RearmDeadlines(s0, e, d, c);
    var r := Rearm(s0, e, d, c);
    if c >= 0 && r.common[c] != [] && r.common[c][0] == e {
      ScheduleDeadlines(r, c);
    }
  }

  lemma DelEffect<E>(s: State<E>, e: E)
    requires Wf(s) && e in s.ev
    ensures Wf(Del(s, e)) && OnlyEv(s, Del(s, e), e, s.ev[e].(armed := false, active := false))
    ensures forall i :: 0 <= i < |s.common| ==> Del(s, e).common[i] == Remove(s.common[i], e)
  {
    var s1 := UnarmEffect(s, e);
    if s1.ev[e].active {
      RemoveActiveWf(s1, e);
      OnlyEvTwice(s, s1, RemoveActive(s1, e), e, s1.ev[e], s1.ev[e].(active := false));
    }
  }

  lemma DelCover<E>(s: State<E>, e: E, i: int)
    requires Wf(s) && e in s.ev && 0 <= i < |s.common| && Covered(s, i) && s.timers[i] != e
    ensures Wf(Del(s, e)) && i < |Del(s, e).common| && Covered(Del(s, e), i)
  {
    DelEffect(s, e);
    var r := Del(s, e);
    if r.common[i] != [] {
      HeadAfterRemove(s, e, i);
    }
    KeepCover(s, r, i);
  }

  /** event_del: the invariant survives even when the deleted event headed its queue. */
  lemma DelRefines<E>(s: State<E>, e: E)
    requires Valid(s) && e in s.ev && !s.ev[e].isInternal
    ensures Valid(Del(s, e))
    ensures Deadlines(Del(s, e).ev) == Deadlines(s.ev) - {e}
    ensures ActiveUsers(Del(s, e).ev) == ActiveUsers(s.ev) - {e}
  {
    DelEffect(s, e);
    DeadlinesChange(s.ev, e, Del(s, e).ev[e]);
    forall i | 0 <= i < |s.common|
      ensures Covered(Del(s, e), i)
    {
      assert s.timers[i] in s.timers;
      DelCover(s, e, i);
    }
  }

  lemma ActivateEffect<E>(s: State<E>, e: E, byTimeout: bool)
    requires Wf(s) && e in s.ev
    ensures OnlyEv(s, Activate(s, e, byTimeout), e, s.ev[e].(active := true, byTimeout := (s.ev[e].active && s.ev[e].byTimeout) || byTimeout))
    ensures Activate(s, e, byTimeout).common == s.common
  {
    if !s.ev[e].active {
      var m := SetEv(s, e, s.ev[e].(byTimeout := byTimeout));
      OnlyEvTwice(s, m, InsertActive(m, e), e, m.ev[e], m.ev[e].(active := true));
    }
  }

  lemma ActivateCover<E>(s: State<E>, e: E, byTimeout: bool, i: int)
    requires Wf(s) && e in s.ev && 0 <= i < |s.common| && (Covered(s, i) || s.timers[i] == e)
    ensures Wf(Activate(s, e, byTimeout)) && i < |Activate(s, e, byTimeout).common| && Covered(Activate(s, e, byTimeout), i)
  {
    ActivateWf(s, e, byTimeout);
    ActivateEffect(s, e, byTimeout);
    QueueMembers(s);
    var r := Activate(s, e, byTimeout);
    if s.timers[i] != e {
      if s.common[i] != [] {
        assert s.common[i][0] in s.common[i];
      }
      KeepCover(s, r, i);
    }
  }

  lemma FireEffect<E>(s: State<E>, e: E)
    requires Wf(s) && e in s.ev
    ensures Wf(Fire(s, e)) && OnlyEv(s, Fire(s, e), e, s.ev[e].(armed := false, active := true, byTimeout := true))
    ensures forall i :: 0 <= i < |s.common| ==> Fire(s, e).common[i] == Remove(s.common[i], e)
  {
    DelEffect(s, e);
    var m := Del(s, e);
    ActivateWf(m, e, true);
    ActivateEffect(m, e, true);
    OnlyEvTwice(s, m, Fire(s, e), e, m.ev[e], m.ev[e].(active := true, byTimeout := true));
  }

  /** Firing one heap event: a user event leaves the priority queue and becomes active; a queue's
      timer becomes active and so keeps covering its queue. */
  lemma FireRefines<E>(s: State<E>, e: E)
    requires Valid(s) && e in s.ev
    ensures Valid(Fire(s, e))
    ensures Deadlines(Fire(s, e).ev) == Deadlines(s.ev) - {e}
    ensures ActiveUsers(Fire(s, e).ev) == ActiveUsers(s.ev) + (if s.ev[e].isInternal then {} else {e})
  {
    FireEffect(s, e);
    DelEffect(s, e);
    DeadlinesChange(s.ev, e, Fire(s, e).ev[e]);
    assert s.ev[e].isInternal ==> e !in Deadlines(s.ev);
    forall i | 0 <= i < |s.common|
      ensures Covered(Fire(s, e), i)
    {
      FireCover(s, e, i);
    }
  }

  lemma FireCover<E>(s: State<E>, e: E, i: int)
    requires Wf(s) && e in s.ev && 0 <= i < |s.common| && Covered(s, i)
    ensures Wf(Fire(s, e)) && i < |Fire(s, e).common| && Covered(Fire(s, e), i)
  {
    DelEffect(s, e);
    if s.timers[i] != e {
      DelCover(s, e, i);
    }
    ActivateCover(Del(s, e), e, true, i);
  }

  // ---------- Waiting: the heap top is early enough ----------

  /** When nothing is active and no internal callback is pending, some heap event is due no later
      than any given armed event, so the heap top bounds the wait for both levels. */
  lemma HeapCoversAll<E>(s: State<E>, e: E) returns (h: E)
    requires Valid(s) && e in s.ev && s.ev[e].armed
    requires s.activeCount == 0 && s.owed == {}
    ensures h in HeapSet(s) && s.ev[h].deadline <= s.ev[e].deadline
  {
    var c := s.ev[e].common;
    if c < 0 {
      h := e;
    } else {
      assert QueueOk(s, c) && Covered(s, c);
      assert InQueue(s.ev, e, c);
      var k :| 0 <= k < |s.common[c]| && s.common[c][k] == e;
      QueueMembers(s);
      assert s.ev[s.common[c][0]].deadline <= s.ev[e].deadline;
      h := s.timers[c];
      assert h in s.timers;
      if s.ev[h].active {
        assert false;
      }
    }
  }
}
