/** The order in which fired events come to stand on the active lists: behind all others, earliest deadline first. */
module TimerOrder {
  import opened Lists
  import opened TimerQueue
  import opened TimerSteps
  import opened TimerRuns

  /** A list without some of its members. */
  ghost function Without<E>(q: seq<E>, xs: set<E>): seq<E>
  {
    if q == [] then []
    else if q[0] in xs then Without(q[1..], xs)
    else [q[0]] + Without(q[1..], xs)
  }

  /** Events of `fired` only, none of them behind one with a later deadline. */
  ghost predicate EarliestFirst<E>(t: seq<E>, fired: set<E>, ev: map<E, Info>)
  {
    && (forall i :: 0 <= i < |t| ==> t[i] in fired && t[i] in ev)
    && forall i, j :: 0 <= i < j < |t| && t[i] in ev && t[j] in ev ==> ev[t[i]].deadline <= ev[t[j]].deadline
  }

  /** A list that was `was`: the events not in `gone` stand first, in their old order, and behind them stand the fired ones. */
  ghost predicate FiredLast<E>(was: seq<E>, q: seq<E>, gone: set<E>, fired: set<E>, ev: map<E, Info>)
  {
    var k := |Without(was, gone)|;
    k <= |q| && q[..k] == Without(was, gone) && EarliestFirst(q[k..], fired, ev)
  }

  ghost predicate AllFiredLast<E>(was: seq<seq<E>>, active: seq<seq<E>>, gone: set<E>, fired: set<E>, ev: map<E, Info>)
  {
    |active| == |was| && forall p :: 0 <= p < |was| ==> FiredLast(was[p], active[p], gone, fired, ev)
  }

  lemma {:induction false} WithoutNone<E>(q: seq<E>)
    ensures Without(q, {}) == q
  {
    if q != [] {
      WithoutNone(q[1..]);
    }
  }

  lemma {:induction false} WithoutMembers<E>(q: seq<E>, xs: set<E>)
    ensures forall x :: x in Without(q, xs) <==> x in q && x !in xs
  {
    if q != [] {
      WithoutMembers(q[1..], xs);
      assert forall x :: x in q <==> x == q[0] || x in q[1..];
    }
  }

  /** Unlinking one more member. */
  lemma {:induction false} WithoutMore<E>(q: seq<E>, xs: set<E>, e: E)
    requires NoDup(q)
    ensures Remove(Without(q, xs), e) == Without(q, xs + {e})
  {
    if q != [] {
      WithoutMore(q[1..], xs, e);
      WithoutMembers(q[1..], xs);
      assert forall x :: x in q[1..] ==> x != q[0];
      if q[0] == e && e !in xs {
        assert ([e] + Without(q[1..], xs))[1..] == Without(q[1..], xs);
        RemoveAbsent(Without(q[1..], xs), e);
      } else if q[0] !in xs {
        assert ([q[0]] + Without(q[1..], xs))[1..] == Without(q[1..], xs);
      }
    }
  }

  lemma RemoveAbsent<E>(q: seq<E>, e: E)
    requires e !in q
    ensures Remove(q, e) == q
  {
  }

  lemma {:induction false} RemoveFront<E>(a: seq<E>, b: seq<E>, e: E)
    requires e !in b
    ensures Remove(a + b, e) == Remove(a, e) + b
  {
    if a == [] {
      assert a + b == b;
    } else {
      assert (a + b)[1..] == a[1..] + b;
      if a[0] != e {
        RemoveFront(a[1..], b, e);
      }
    }
  }

  // ---------- One event ----------

  /** Firing takes an event off its list, if it is there, and puts it at the end. */
  lemma FireAppends<E>(s: State<E>, e: E)
    requires Wf(s) && e in s.ev
    ensures s.ev[e].priority < |s.active|
    ensures Fire(s, e).active == s.active[s.ev[e].priority := Remove(s.active[s.ev[e].priority], e) + [e]]
  {
    assert EventsOk(s);
    var p := s.ev[e].priority;
    assert ActiveOk(s, p);
    if !s.ev[e].active {
      assert e in s.active[p] ==> InActive(s.ev, e, p);
      RemoveAbsent(s.active[p], e);
    }
  }

  /** One more event fired that is no earlier than all that were fired before it. */
  lemma OneMoreLast<E>(was: seq<E>, q: seq<E>, gone: set<E>, fired: set<E>, ev: map<E, Info>, e: E, ev': map<E, Info>)
    requires FiredLast(was, q, gone, fired, ev) && NoDup(was) && e in ev && e !in fired
    requires forall x :: x in fired && x in ev ==> ev[x].deadline <= ev[e].deadline
    requires ev'.Keys == ev.Keys && forall x :: x in ev ==> ev'[x].deadline == ev[x].deadline
    ensures FiredLast(was, Remove(q, e) + [e], gone + {e}, fired + {e}, ev')
  {
    var tail := q[|Without(was, gone)|..];
    assert e !in tail;
    MovedLast(was, q, gone, tail, e);
    var r := Without(was, gone + {e});
    OneMoreInOrder(tail, fired, ev, e, ev');
    Joined(was, r, tail + [e], gone + {e}, fired + {e}, ev');
  }

  lemma MovedLast<E>(was: seq<E>, q: seq<E>, gone: set<E>, tail: seq<E>, e: E)
    requires q == Without(was, gone) + tail && NoDup(was) && e !in tail
    ensures Remove(q, e) == Without(was, gone + {e}) + tail
    ensures Remove(q, e) + [e] == Without(was, gone + {e}) + (tail + [e])
  {
    RemoveFront(Without(was, gone), tail, e);
    WithoutMore(was, gone, e);
  }

  lemma OneMoreInOrder<E>(t: seq<E>, fired: set<E>, ev: map<E, Info>, e: E, ev': map<E, Info>)
    requires EarliestFirst(t, fired, ev) && e in ev && forall x :: x in fired && x in ev ==> ev[x].deadline <= ev[e].deadline
    requires ev'.Keys == ev.Keys && forall x :: x in ev ==> ev'[x].deadline == ev[x].deadline
    ensures EarliestFirst(t + [e], fired + {e}, ev')
  {
  }

  lemma Joined<E>(was: seq<E>, r: seq<E>, t: seq<E>, gone: set<E>, fired: set<E>, ev: map<E, Info>)
    requires r == Without(was, gone) && EarliestFirst(t, fired, ev)
    ensures FiredLast(was, r + t, gone, fired, ev)
  {
    assert (r + t)[..|r|] == r && (r + t)[|r|..] == t;
  }

  /** Lists on which the event is not. */
  lemma OthersLast<E>(was: seq<E>, q: seq<E>, gone: set<E>, fired: set<E>, ev: map<E, Info>, e: E, ev': map<E, Info>)
    requires FiredLast(was, q, gone, fired, ev) && NoDup(was) && e !in was
    requires ev'.Keys == ev.Keys && forall x :: x in ev ==> ev'[x].deadline == ev[x].deadline
    ensures FiredLast(was, q, gone + {e}, fired + {e}, ev')
  {
    WithoutMore(was, gone, e);
    WithoutMembers(was, gone);
    RemoveAbsent(Without(was, gone), e);
  }

  /** The lists as they were, and where their members belong. */
  ghost predicate OwnLists<E>(was: seq<seq<E>>, ev: map<E, Info>)
  {
    forall p :: 0 <= p < |was| ==> NoDup(was[p]) && forall x :: x in was[p] ==> x in ev && ev[x].priority == p
  }

  lemma ActiveLists<E>(s: State<E>)
    requires Wf(s)
    ensures OwnLists(s.active, s.ev)
  {
    forall p | 0 <= p < |s.active|
      ensures NoDup(s.active[p]) && forall x :: x in s.active[p] ==> x in s.ev && s.ev[x].priority == p
    {
      assert ActiveOk(s, p);
      assert forall x :: x in s.active[p] ==> InActive(s.ev, x, p);
    }
  }

  ghost predicate NoLater<E>(fired: set<E>, e: E, ev: map<E, Info>)
    requires e in ev
  {
    forall x :: x in fired && x in ev ==> ev[x].deadline <= ev[e].deadline
  }

  /** Firing one more event that is no earlier than all that were fired before. */
  lemma FireLast<E>(was: seq<seq<E>>, s: State<E>, fired: set<E>, e: E)
    requires Wf(s) && e in s.ev && e !in fired && NoLater(fired, e, s.ev)
    requires OwnLists(was, s.ev) && AllFiredLast(was, s.active, fired, fired, s.ev)
    ensures AllFiredLast(was, Fire(s, e).active, fired + {e}, fired + {e}, Fire(s, e).ev)
    ensures OwnLists(was, Fire(s, e).ev)
  {
    FireEffect(s, e);
    FireAppends(s, e);
    var r := Fire(s, e);
    assert SameTimes(s.ev, r.ev);
    forall p | 0 <= p < |was|
      ensures FiredLast(was[p], r.active[p], fired + {e}, fired + {e}, r.ev)
    {
      if p == s.ev[e].priority {
        OneMoreLast(was[p], s.active[p], fired, fired, s.ev, e, r.ev);
      } else {
        OthersLast(was[p], s.active[p], fired, fired, s.ev, e, r.ev);
      }
    }
  }

  ghost predicate SameTimes<E>(ev: map<E, Info>, ev': map<E, Info>)
  {
    ev'.Keys == ev.Keys && forall x :: x in ev ==> ev'[x].deadline == ev[x].deadline && ev'[x].priority == ev[x].priority
  }

  lemma NoneFired<E>(active: seq<seq<E>>, ev: map<E, Info>)
    ensures AllFiredLast(active, active, {}, {}, ev)
  {
    forall p | 0 <= p < |active|
      ensures FiredLast(active[p], active[p], {}, {}, ev)
    {
      WithoutNone(active[p]);
    }
  }

  // ---------- timeout_process ----------

  /** What the loop over the heap keeps: the lists are in order, and nothing left in the heap is earlier than what was fired. */
  ghost predicate InOrder<E>(s0: State<E>, s: State<E>, fired: set<E>)
  {
    && AllFiredLast(s0.active, s.active, fired, fired, s.ev)
    && forall h :: h in HeapSet(s) ==> h in s.ev && NoLater(fired, h, s.ev)
  }

  lemma NothingYet<E>(s: State<E>)
    ensures InOrder(s, s, {})
  {
    NoneFired(s.active, s.ev);
  }

  lemma ProcessInOrder<E>(s0: State<E>, s: State<E>, now: int, fired: set<E>, e: E)
    requires Wf(s0) && Processing(s0, s, now, fired) && InOrder(s0, s, fired)
    requires e in HeapSet(s) && forall h :: h in HeapSet(s) ==> h in s.ev && s.ev[e].deadline <= s.ev[h].deadline
    ensures InOrder(s0, Fire(s, e), fired + {e})
  {
    ActiveLists(s0);
    assert SameTimes(s0.ev, s.ev);
    OwnListsStay(s0.active, s0.ev, s.ev);
    FireEffect(s, e);
    HeapFired(s0, s, now, fired);
    FireLast(s0.active, s, fired, e);
    HeapShrinks(s, e, fired);
  }

  lemma OwnListsStay<E>(was: seq<seq<E>>, ev: map<E, Info>, ev': map<E, Info>)
    requires OwnLists(was, ev) && SameTimes(ev, ev')
    ensures OwnLists(was, ev')
  {
  }

  lemma HeapShrinks<E>(s: State<E>, e: E, fired: set<E>)
    requires Wf(s) && e in HeapSet(s) && forall h :: h in HeapSet(s) ==> h in s.ev && s.ev[e].deadline <= s.ev[h].deadline
    requires forall h :: h in HeapSet(s) ==> h in s.ev && NoLater(fired, h, s.ev)
    ensures forall h :: h in HeapSet(Fire(s, e)) ==> h in Fire(s, e).ev && NoLater(fired + {e}, h, Fire(s, e).ev)
  {
    FireEffect(s, e);
    var r := Fire(s, e);
    forall h | h in HeapSet(r)
      ensures h in r.ev && NoLater(fired + {e}, h, r.ev)
    {
      assert h in HeapSet(s);
    }
  }

  // ---------- common_timeout_callback ----------

  /** Nothing left in the queue is earlier than what was fired from it. */
  ghost predicate StillLater<E>(s: State<E>, i: int, fired: set<E>)
    requires 0 <= i < |s.common|
  {
    forall x :: x in s.common[i] ==> x in s.ev && x !in fired && NoLater(fired, x, s.ev)
  }

  lemma {:induction false} DrainInOrder<E>(was: seq<seq<E>>, s: State<E>, i: int, now: int, fired: set<E>, all: set<E>)
    requires Wf(s) && 0 <= i < |s.common| && OwnLists(was, s.ev) && AllFiredLast(was, s.active, fired, fired, s.ev)
    requires StillLater(s, i, fired) && all == fired + DueIn(s, i, now)
    ensures AllFiredLast(was, Drain(s, i, now).active, all, all, Drain(s, i, now).ev)
    decreases |s.common[i]|
  {
    QueueMembers(s);
    if s.common[i] == [] || s.ev[s.common[i][0]].deadline > now {
      NoneDue(s, i, now);
      assert all == fired;
    } else {
      var m, head := DrainOneInOrder(was, s, i, now, fired);
      DrainInOrder(was, m, i, now, fired + {head}, all);
    }
  }

  lemma DrainOneInOrder<E>(was: seq<seq<E>>, s: State<E>, i: int, now: int, fired: set<E>) returns (m: State<E>, head: E)
    requires Wf(s) && 0 <= i < |s.common| && OwnLists(was, s.ev) && AllFiredLast(was, s.active, fired, fired, s.ev)
    requires StillLater(s, i, fired) && s.common[i] != [] && s.common[i][0] in s.ev && s.ev[s.common[i][0]].deadline <= now
    ensures head == s.common[i][0] && m == Fire(s, head) && Wf(m) && |m.common| == |s.common| && |m.common[i]| < |s.common[i]|
    ensures OwnLists(was, m.ev) && AllFiredLast(was, m.active, fired + {head}, fired + {head}, m.ev)
    ensures StillLater(m, i, fired + {head}) && fired + DueIn(s, i, now) == fired + {head} + DueIn(m, i, now)
  {
    head := s.common[i][0];
    m := Fire(s, head);
    FireHead(s, i, now);
    assert head in s.common[i];
    FireLast(was, s, fired, head);
    QueueShrinks(s, i, fired);
  }

  lemma QueueShrinks<E>(s: State<E>, i: int, fired: set<E>)
    requires Wf(s) && 0 <= i < |s.common| && s.common[i] != [] && s.common[i][0] in s.ev
    requires StillLater(s, i, fired)
    requires var head := s.common[i][0]; var r := Fire(s, head);
      OnlyEv(s, r, head, Fired(s.ev[head])) && r.common == s.common[i := s.common[i][1..]]
    ensures StillLater(Fire(s, s.common[i][0]), i, fired + {s.common[i][0]})
  {
    var q, head, r := s.common[i], s.common[i][0], Fire(s, s.common[i][0]);
    assert QueueOk(s, i);
    forall x | x in r.common[i]
      ensures x in r.ev && x !in fired + {head} && NoLater(fired + {head}, x, r.ev)
    {
      var k :| 0 <= k < |q[1..]| && q[1..][k] == x;
      assert q[k + 1] == x && s.ev[q[0]].deadline <= s.ev[q[k + 1]].deadline;
    }
  }

  /** The timer of a queue leaves its active list when it is set again. */
  lemma ScheduleLists<E>(s: State<E>, i: int)
    requires Wf(s) && 0 <= i < |s.common| && s.common[i] != []
    ensures s.timers[i] in s.ev && |s.active| > 0
    ensures var t := s.timers[i];
      Schedule(s, i).active == if s.ev[t].active && s.ev[t].byTimeout then s.active[0 := Remove(s.active[0], t)] else s.active
    ensures var t := s.timers[i]; t in Schedule(s, i).ev && Schedule(s, i).ev[t].active == (s.ev[t].active && !s.ev[t].byTimeout)
  {
    QueueMembers(s);
    assert EventsOk(s) && s.timers[i] in s.timers;
  }

  /** Which members the lists lose at their old places: the events fired, and the timer unless it is active. */
  ghost function Gone<E>(due: set<E>, t: E, ev: map<E, Info>): set<E>
  {
    if t in ev && ev[t].active then due else due + {t}
  }

  /** An event that was not fired leaves its list, or was on none. */
  lemma LeavesLast<E>(was: seq<E>, q: seq<E>, fired: set<E>, ev: map<E, Info>, t: E, ev': map<E, Info>)
    requires FiredLast(was, q, fired, fired, ev) && NoDup(was) && t !in fired
    requires ev'.Keys == ev.Keys && forall x :: x in ev && x != t ==> ev'[x].deadline == ev[x].deadline
    ensures FiredLast(was, Remove(q, t), fired + {t}, fired, ev')
    ensures t !in was ==> FiredLast(was, q, fired + {t}, fired, ev')
  {
    var tail := q[|Without(was, fired)|..];
    assert t !in tail;
    MovedLast(was, q, fired, tail, t);
    assert EarliestFirst(tail, fired, ev');
    Joined(was, Without(was, fired + {t}), tail, fired + {t}, fired, ev');
    if t !in was {
      WithoutMore(was, fired, t);
      WithoutMembers(was, fired);
      RemoveAbsent(Without(was, fired), t);
    }
  }

  lemma TimerStays<E>(was: seq<E>, q: seq<E>, fired: set<E>, ev: map<E, Info>, t: E, ev': map<E, Info>)
    requires FiredLast(was, q, fired, fired, ev) && t !in fired
    requires ev'.Keys == ev.Keys && forall x :: x in ev && x != t ==> ev'[x].deadline == ev[x].deadline
    ensures FiredLast(was, q, fired, fired, ev')
  {
  }

  /** Setting the timer again keeps the order of the lists. */
  lemma ScheduleInOrder<E>(was: seq<seq<E>>, d: State<E>, i: int, due: set<E>)
    requires Wf(d) && 0 <= i < |d.common| && d.common[i] != [] && OwnLists(was, d.ev) && AllFiredLast(was, d.active, due, due, d.ev)
    requires d.timers[i] in d.ev && d.timers[i] !in due
    requires forall p :: 0 <= p < |was| && d.timers[i] in was[p] ==> d.ev[d.timers[i]].active
    ensures AllFiredLast(was, Schedule(d, i).active, Gone(due, d.timers[i], Schedule(d, i).ev), due, Schedule(d, i).ev)
  {
    var t, r := d.timers[i], Schedule(d, i);
    ScheduleLists(d, i);
    ScheduleKeeps(d, i);
    assert EventsOk(d) && d.ev[t].priority == 0;
    forall p | 0 <= p < |was|
      ensures FiredLast(was[p], r.active[p], Gone(due, t, r.ev), due, r.ev)
    {
      LeavesLast(was[p], d.active[p], due, d.ev, t, r.ev);
      TimerStays(was[p], d.active[p], due, d.ev, t, r.ev);
    }
  }

  lemma UnscheduledInOrder<E>(was: seq<seq<E>>, d: State<E>, t: E, due: set<E>)
    requires OwnLists(was, d.ev) && AllFiredLast(was, d.active, due, due, d.ev) && t in d.ev && t !in due
    requires forall p :: 0 <= p < |was| && t in was[p] ==> d.ev[t].active
    ensures AllFiredLast(was, d.active, Gone(due, t, d.ev), due, d.ev)
  {
    forall p | 0 <= p < |was|
      ensures FiredLast(was[p], d.active[p], Gone(due, t, d.ev), due, d.ev)
    {
      LeavesLast(was[p], d.active[p], due, d.ev, t, d.ev);
    }
  }

  /** The callback of a queue leaves the events it fires behind all others, earliest first. */
  lemma CallbackInOrder<E>(s: State<E>, i: int, now: int)
    requires Valid(s) && 0 <= i < |s.common|
    ensures var r := CommonCallback(s, i, now);
      AllFiredLast(s.active, r.active, Gone(DueIn(s, i, now), s.timers[i], r.ev), DueIn(s, i, now), r.ev)
  {
    var t, due := s.timers[i], DueIn(s, i, now);
    var s0 := s.(owed := s.owed - {t});
    OwedWf(s, s0);
    var d := Drain(s0, i, now);
    DrainedInOrder(s, s0, i, now, due);
    if d.common[i] == [] {
      UnscheduledInOrder(s.active, d, t, due);
    } else {
      ScheduleInOrder(s.active, d, i, due);
    }
  }

  lemma DrainedInOrder<E>(s: State<E>, s0: State<E>, i: int, now: int, due: set<E>)
    requires Valid(s) && 0 <= i < |s.common| && Wf(s0) && s0 == s.(owed := s0.owed) && s.timers[i] !in s0.owed
    requires due == DueIn(s, i, now) && forall x :: x in s.owed && x != s.timers[i] ==> x in s0.owed
    ensures var d := Drain(s0, i, now);
      && Wf(d) && |d.common| == |s.common| && d.timers == s.timers && OwnLists(s.active, d.ev)
      && AllFiredLast(s.active, d.active, due, due, d.ev)
      && s.timers[i] in d.ev && s.timers[i] !in due
      && forall p :: 0 <= p < |s.active| && s.timers[i] in s.active[p] ==> d.ev[s.timers[i]].active
  {
    var t, d := s.timers[i], Drain(s0, i, now);
    ActiveLists(s0);
    NoneFired(s0.active, s0.ev);
    QueueMembers(s0);
    DrainInOrder(s0.active, s0, i, now, {}, due);
    StillCovered(s, s0, i);
    DrainRefines(s0, i, now);
    DueAreUsers(s0, i, now);
    assert t in s.timers && EventsOk(s0);
    assert SameTimes(s0.ev, d.ev);
    OwnListsStay(s0.active, s0.ev, d.ev);
    forall p | 0 <= p < |s.active| && t in s.active[p]
      ensures d.ev[t].active
    {
      assert ActiveOk(s, p) && InActive(s.ev, t, p);
    }
  }

  lemma StillCovered<E>(s: State<E>, s0: State<E>, i: int)
    requires Valid(s) && 0 <= i < |s.common| && Wf(s0) && s0 == s.(owed := s0.owed)
    requires forall x :: x in s.owed && x != s.timers[i] ==> x in s0.owed
    ensures CoveredBut(s0, i)
  {
    forall j | 0 <= j < |s.common| && j != i
      ensures Covered(s0, j)
    {
      assert Covered(s, j) && s.timers[j] != s.timers[i];
    }
  }
}
