/** The two-level timer structure as a value, and the steps event.c makes on it.
    An armed event sits either in the heap (`common == -1`) or in one common-timeout queue;
    each queue is represented in the heap by its internal event `timers[i]`. */
module TimerQueue {
  import opened Lists

  datatype Info = Info(
    isInternal: bool, priority: nat, persistent: bool,
    deadline: int, common: int, armed: bool,
    active: bool, byTimeout: bool,
    interval: int, intervalCommon: int)

  /** `owed` holds an internal event that has left the active list but whose callback has not
      yet taken the base lock. */
  datatype State<!E(==)> = State(
    ev: map<E, Info>,
    common: seq<seq<E>>,
    timers: seq<E>,
    active: seq<seq<E>>,
    owed: set<E>,
    eventCount: int,
    activeCount: int)

  // ---------- Primitive queue steps ----------

  function SetEv<E>(s: State<E>, e: E, i: Info): State<E>
  {
    s.(ev := s.ev[e := i])
  }

  function Weight(i: Info): int
  {
    if i.isInternal then 0 else 1
  }

  /** event_queue_remove(EVLIST_TIMEOUT) */
  function RemoveTimeout<E>(s: State<E>, e: E): State<E>
    requires e in s.ev
  {
    var i := s.ev[e];
    var q := if 0 <= i.common < |s.common| then s.common[i.common := Remove(s.common[i.common], e)] else s.common;
    s.(ev := s.ev[e := i.(armed := false)], common := q, eventCount := s.eventCount - Weight(i))
  }

  /** insert_common_timeout_inorder: search from the tail for the first event not later than `e`. */
  function InsertInOrder<E>(q: seq<E>, e: E, ev: map<E, Info>): seq<E>
    requires e in ev && forall x :: x in q ==> x in ev
  {
    if q == [] then [e]
    else if ev[q[|q| - 1]].deadline <= ev[e].deadline then q + [e]
    else InsertInOrder(q[..|q| - 1], e, ev) + [q[|q| - 1]]
  }

  /** event_queue_insert(EVLIST_TIMEOUT) */
  function InsertTimeout<E>(s: State<E>, e: E): State<E>
    requires e in s.ev
    requires forall i, x :: 0 <= i < |s.common| && x in s.common[i] ==> x in s.ev
  {
    var i := s.ev[e];
    var q := if 0 <= i.common < |s.common| then s.common[i.common := InsertInOrder(s.common[i.common], e, s.ev)] else s.common;
    s.(ev := s.ev[e := i.(armed := true)], common := q, eventCount := s.eventCount + Weight(i))
  }

  /** event_queue_remove(EVLIST_ACTIVE) */
  function RemoveActive<E>(s: State<E>, e: E): State<E>
    requires e in s.ev
  {
    var i := s.ev[e];
    var a := if i.priority < |s.active| then s.active[i.priority := Remove(s.active[i.priority], e)] else s.active;
    s.(ev := s.ev[e := i.(active := false)], active := a, eventCount := s.eventCount - Weight(i), activeCount := s.activeCount - 1)
  }

  /** event_queue_insert(EVLIST_ACTIVE) */
  function InsertActive<E>(s: State<E>, e: E): State<E>
    requires e in s.ev
  {
    var i := s.ev[e];
    var a := if i.priority < |s.active| then s.active[i.priority := s.active[i.priority] + [e]] else s.active;
    s.(ev := s.ev[e := i.(active := true)], active := a, eventCount := s.eventCount + Weight(i), activeCount := s.activeCount + 1)
  }

  // ---------- Structural invariant ----------

  ghost predicate Sorted<E>(q: seq<E>, ev: map<E, Info>)
  {
    forall i, j :: 0 <= i < j < |q| && q[i] in ev && q[j] in ev ==> ev[q[i]].deadline <= ev[q[j]].deadline
  }

  ghost predicate InQueue<E>(ev: map<E, Info>, x: E, i: int)
  {
    x in ev && ev[x].armed && ev[x].common == i
  }

  ghost predicate QueueOk<E>(s: State<E>, i: int)
    requires 0 <= i < |s.common|
  {
    && (forall x :: x in s.common[i] ==> InQueue(s.ev, x, i))
    && (forall x :: x in s.ev && InQueue(s.ev, x, i) ==> x in s.common[i])
    && NoDup(s.common[i])
    && Sorted(s.common[i], s.ev)
  }

  ghost predicate InActive<E>(ev: map<E, Info>, x: E, p: int)
  {
    x in ev && ev[x].active && ev[x].priority == p
  }

  ghost predicate ActiveOk<E>(s: State<E>, p: int)
    requires 0 <= p < |s.active|
  {
    && (forall x :: x in s.active[p] ==> InActive(s.ev, x, p))
    && (forall x :: x in s.ev && InActive(s.ev, x, p) ==> x in s.active[p])
    && NoDup(s.active[p])
  }

  ghost function HeapEvents<E>(ev: map<E, Info>): set<E>
  {
    set x | x in ev && ev[x].armed && ev[x].common < 0
  }

  ghost function HeapSet<E>(s: State<E>): set<E>
  {
    HeapEvents(s.ev)
  }

  ghost function ArmedUsers<E>(ev: map<E, Info>): set<E>
  {
    set x | x in ev && ev[x].armed && !ev[x].isInternal
  }

  ghost function ActiveUsers<E>(ev: map<E, Info>): set<E>
  {
    set x | x in ev && ev[x].active && !ev[x].isInternal
  }

  ghost function ActiveAll<E>(ev: map<E, Info>): set<E>
  {
    set x | x in ev && ev[x].active
  }

  ghost predicate EventsOk<E>(s: State<E>)
  {
    forall x :: x in s.ev ==>
      && -1 <= s.ev[x].common < |s.common|
      && s.ev[x].priority < |s.active|
      && (s.ev[x].isInternal <==> x in s.timers)
      && (s.ev[x].isInternal ==> s.ev[x].common == -1 && s.ev[x].priority == 0 && !s.ev[x].persistent)
  }

  ghost predicate TimersOk<E>(s: State<E>)
  {
    && |s.timers| == |s.common|
    && NoDup(s.timers)
    && (forall i :: 0 <= i < |s.timers| ==> s.timers[i] in s.ev)
    && (forall x :: x in s.owed ==> x in s.timers)
  }

  ghost predicate CountsOk<E>(s: State<E>)
  {
    && s.eventCount == |ArmedUsers(s.ev)| + |ActiveUsers(s.ev)|
    && s.activeCount == |ActiveAll(s.ev)|
  }

  ghost predicate Wf<E>(s: State<E>)
  {
    && EventsOk(s)
    && TimersOk(s)
    && (forall i :: 0 <= i < |s.common| ==> QueueOk(s, i))
    && (forall p :: 0 <= p < |s.active| ==> ActiveOk(s, p))
    && CountsOk(s)
  }

  // ---------- The primitive steps keep it ----------

  lemma ArmedChange<E>(ev: map<E, Info>, e: E, i: Info)
    requires e in ev && i.isInternal == ev[e].isInternal
    ensures |ArmedUsers(ev[e := i])| == |ArmedUsers(ev)| + (if i.armed then Weight(i) else 0) - (if ev[e].armed then Weight(i) else 0)
  {
    assert ArmedUsers(ev[e := i]) == if i.armed && !i.isInternal then ArmedUsers(ev) + {e} else ArmedUsers(ev) - {e};
  }

  lemma ActiveChange<E>(ev: map<E, Info>, e: E, i: Info)
    requires e in ev && i.isInternal == ev[e].isInternal
    ensures |ActiveUsers(ev[e := i])| == |ActiveUsers(ev)| + (if i.active then Weight(i) else 0) - (if ev[e].active then Weight(i) else 0)
    ensures |ActiveAll(ev[e := i])| == |ActiveAll(ev)| + (if i.active then 1 else 0) - (if ev[e].active then 1 else 0)
  {
    assert ActiveUsers(ev[e := i]) == if i.active && !i.isInternal then ActiveUsers(ev) + {e} else ActiveUsers(ev) - {e};
    assert ActiveAll(ev[e := i]) == if i.active then ActiveAll(ev) + {e} else ActiveAll(ev) - {e};
  }

  /** A queue that neither holds nor gains `e` does not notice a change to `e`. */
  lemma QueueFrame<E>(s: State<E>, r: State<E>, e: E, i: int)
    requires 0 <= i < |s.common| && i < |r.common| && r.common[i] == s.common[i] && QueueOk(s, i)
    requires e in s.ev && e in r.ev && r.ev == s.ev[e := r.ev[e]]
    requires InQueue(s.ev, e, i) <==> InQueue(r.ev, e, i)
    requires InQueue(s.ev, e, i) ==> r.ev[e].deadline == s.ev[e].deadline
    ensures QueueOk(r, i)
  {
    assert forall x :: x in s.ev ==> (InQueue(s.ev, x, i) <==> InQueue(r.ev, x, i));
    assert forall x :: x in s.common[i] ==> x in s.ev && r.ev[x].deadline == s.ev[x].deadline;
  }

  lemma ActiveFrame<E>(s: State<E>, r: State<E>, e: E, p: int)
    requires 0 <= p < |s.active| && p < |r.active| && r.active[p] == s.active[p] && ActiveOk(s, p)
    requires e in s.ev && e in r.ev && r.ev == s.ev[e := r.ev[e]]
    requires InActive(s.ev, e, p) <==> InActive(r.ev, e, p)
    ensures ActiveOk(r, p)
  {
    assert forall x :: x in s.ev ==> (InActive(s.ev, x, p) <==> InActive(r.ev, x, p));
  }

  lemma {:induction false} RemoveSorted<E>(q: seq<E>, e: E, ev: map<E, Info>)
    requires Sorted(q, ev)
    ensures Sorted(Remove(q, e), ev)
    ensures Remove(q, e) != [] && (forall x :: x in q ==> x in ev) ==> ev[q[0]].deadline <= ev[Remove(q, e)[0]].deadline
  {
    if e in q {
      var k := RemoveAt(q, e);
    }
  }

  lemma {:induction false} InsertAt<E>(q: seq<E>, e: E, ev: map<E, Info>) returns (k: nat)
    requires e in ev && forall x :: x in q ==> x in ev
    ensures k <= |q| && InsertInOrder(q, e, ev) == q[..k] + [e] + q[k..]
    ensures k > 0 ==> ev[q[k - 1]].deadline <= ev[e].deadline
    ensures forall j :: k <= j < |q| ==> ev[e].deadline < ev[q[j]].deadline
  {
    if q == [] {
      k := 0;
    } else if ev[q[|q| - 1]].deadline <= ev[e].deadline {
      k := |q|;
    } else {
      var front := q[..|q| - 1];
      k := InsertAt(front, e, ev);
      assert q[..k] == front[..k] && q[k..] == front[k..] + [q[|q| - 1]];
    }
  }

  lemma InsertFacts<E>(q: seq<E>, e: E, ev: map<E, Info>)
    requires e in ev && e !in q && NoDup(q) && Sorted(q, ev) && forall x :: x in q ==> x in ev
    ensures NoDup(InsertInOrder(q, e, ev)) && Sorted(InsertInOrder(q, e, ev), ev)
    ensures forall x :: x in InsertInOrder(q, e, ev) <==> x in q || x == e
    ensures InsertInOrder(q, e, ev)[0] == e || (q != [] && InsertInOrder(q, e, ev)[0] == q[0] && ev[q[0]].deadline <= ev[e].deadline)
  {
    var k := InsertAt(q, e, ev);
    InsertMembers(q, e, k);
    InsertSorted(q, e, ev, k);
  }

  lemma InsertSorted<E>(q: seq<E>, e: E, ev: map<E, Info>, k: nat)
    requires e in ev && Sorted(q, ev) && k <= |q| && forall x :: x in q ==> x in ev
    requires k > 0 ==> ev[q[k - 1]].deadline <= ev[e].deadline
    requires forall j :: k <= j < |q| ==> ev[e].deadline < ev[q[j]].deadline
    ensures Sorted(q[..k] + [e] + q[k..], ev)
  {
    var r := q[..k] + [e] + q[k..];
    forall i, j | 0 <= i < j < |r| && r[i] in ev && r[j] in ev
      ensures ev[r[i]].deadline <= ev[r[j]].deadline
    {
      assert i < k ==> r[i] == q[i] && q[i] in ev;
      assert i > k ==> r[i] == q[i - 1];
      assert j < k ==> r[j] == q[j];
      assert j > k ==> r[j] == q[j - 1] && q[j - 1] in ev;
      if i < k {
        assert ev[q[i]].deadline <= ev[q[k - 1]].deadline;
      }
    }
  }

  lemma InsertMembers<E>(q: seq<E>, e: E, k: nat)
    requires k <= |q|
    ensures forall x :: x in q[..k] + [e] + q[k..] <==> x in q || x == e
    ensures NoDup(q) && e !in q ==> NoDup(q[..k] + [e] + q[k..])
  {
    var r := q[..k] + [e] + q[k..];
    assert r[k] == e;
    assert q == q[..k] + q[k..];
  }

  lemma RemoveTimeoutWf<E>(s: State<E>, e: E)
    requires Wf(s) && e in s.ev && s.ev[e].armed
    ensures Wf(RemoveTimeout(s, e))
  {
    var r := RemoveTimeout(s, e);
    ArmedChange(s.ev, e, r.ev[e]);
    ActiveChange(s.ev, e, r.ev[e]);
    forall i | 0 <= i < |r.common|
      ensures QueueOk(r, i)
    {
      assert QueueOk(s, i);
      if i == s.ev[e].common {
        RemoveFacts(s.common[i], e);
        RemoveSorted(s.common[i], e, s.ev);
        QueueLoses(s, r, e, i);
      } else {
        QueueFrame(s, r, e, i);
      }
    }
    forall p | 0 <= p < |r.active|
      ensures ActiveOk(r, p)
    {
      assert ActiveOk(s, p);
      ActiveFrame(s, r, e, p);
    }
  }

  lemma QueueLoses<E>(s: State<E>, r: State<E>, e: E, i: int)
    requires 0 <= i < |s.common| == |r.common| && QueueOk(s, i) && e in s.ev
    requires r.ev == s.ev[e := s.ev[e].(armed := false)]
    requires NoDup(r.common[i]) && Sorted(r.common[i], s.ev)
    requires forall x :: x in r.common[i] <==> x in s.common[i] && x != e
    ensures QueueOk(r, i)
  {
    assert forall x :: x in s.ev && x != e ==> (InQueue(s.ev, x, i) <==> InQueue(r.ev, x, i));
    assert !InQueue(r.ev, e, i);
  }

  lemma ActiveLoses<E>(s: State<E>, r: State<E>, e: E, p: int)
    requires 0 <= p < |s.active| == |r.active| && ActiveOk(s, p) && e in s.ev
    requires r.ev == s.ev[e := s.ev[e].(active := false)]
    requires NoDup(r.active[p]) && forall x :: x in r.active[p] <==> x in s.active[p] && x != e
    ensures ActiveOk(r, p)
  {
    assert forall x :: x in s.ev && x != e ==> (InActive(s.ev, x, p) <==> InActive(r.ev, x, p));
    assert !InActive(r.ev, e, p);
  }

  lemma QueueGains<E>(s: State<E>, r: State<E>, e: E, i: int)
    requires 0 <= i < |s.common| == |r.common| && QueueOk(s, i) && e in s.ev && s.ev[e].common == i
    requires r.ev == s.ev[e := s.ev[e].(armed := true)]
    requires NoDup(r.common[i]) && Sorted(r.common[i], s.ev)
    requires forall x :: x in r.common[i] <==> x in s.common[i] || x == e
    ensures QueueOk(r, i)
  {
    assert forall x :: x in s.ev && x != e ==> (InQueue(s.ev, x, i) <==> InQueue(r.ev, x, i));
    assert InQueue(r.ev, e, i);
  }

  lemma InsertTimeoutWf<E>(s: State<E>, e: E)
    requires Wf(s) && e in s.ev && !s.ev[e].armed
    ensures forall i, x :: 0 <= i < |s.common| && x in s.common[i] ==> x in s.ev
    ensures Wf(InsertTimeout(s, e))
  {
    QueueMembers(s);
    var r := InsertTimeout(s, e);
    ArmedChange(s.ev, e, r.ev[e]);
    ActiveChange(s.ev, e, r.ev[e]);
    forall i | 0 <= i < |r.common|
      ensures QueueOk(r, i)
    {
      assert QueueOk(s, i);
      if i == s.ev[e].common {
        assert !InQueue(s.ev, e, i);
        InsertFacts(s.common[i], e, s.ev);
        QueueGains(s, r, e, i);
      } else {
        QueueFrame(s, r, e, i);
      }
    }
    forall p | 0 <= p < |r.active|
      ensures ActiveOk(r, p)
    {
      assert ActiveOk(s, p);
      ActiveFrame(s, r, e, p);
    }
  }

  lemma QueueMembers<E>(s: State<E>)
    requires Wf(s)
    ensures forall i, x :: 0 <= i < |s.common| && x in s.common[i] ==> x in s.ev
  {
    forall i, x | 0 <= i < |s.common| && x in s.common[i]
      ensures x in s.ev
    {
      assert QueueOk(s, i);
    }
  }

  lemma RemoveActiveWf<E>(s: State<E>, e: E)
    requires Wf(s) && e in s.ev && s.ev[e].active
    ensures Wf(RemoveActive(s, e))
  {
    var r := RemoveActive(s, e);
    ArmedChange(s.ev, e, r.ev[e]);
    ActiveChange(s.ev, e, r.ev[e]);
    forall i | 0 <= i < |r.common|
      ensures QueueOk(r, i)
    {
      assert QueueOk(s, i);
      QueueFrame(s, r, e, i);
    }
    forall p | 0 <= p < |r.active|
      ensures ActiveOk(r, p)
    {
      assert ActiveOk(s, p);
      if p == s.ev[e].priority {
        RemoveFacts(s.active[p], e);
        ActiveLoses(s, r, e, p);
      } else {
        ActiveFrame(s, r, e, p);
      }
    }
  }

  lemma InsertActiveWf<E>(s: State<E>, e: E)
    requires Wf(s) && e in s.ev && !s.ev[e].active
    ensures Wf(InsertActive(s, e))
  {
    var r := InsertActive(s, e);
    ArmedChange(s.ev, e, r.ev[e]);
    ActiveChange(s.ev, e, r.ev[e]);
    forall i | 0 <= i < |r.common|
      ensures QueueOk(r, i)
    {
      assert QueueOk(s, i);
      QueueFrame(s, r, e, i);
    }
    forall p | 0 <= p < |r.active|
      ensures ActiveOk(r, p)
    {
      assert ActiveOk(s, p);
      if p == s.ev[e].priority {
        assert !InActive(s.ev, e, p);
        assert forall x :: x in s.ev && x != e ==> (InActive(s.ev, x, p) <==> InActive(r.ev, x, p));
        assert InActive(r.ev, e, p);
      } else {
        ActiveFrame(s, r, e, p);
      }
    }
  }
}
