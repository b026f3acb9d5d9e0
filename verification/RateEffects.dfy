/** What each operation on a rate-limited group does, once its pass over the members has ended. */
module RateEffects {
  import opened Lists
  import opened RateGroup

  /** Nothing but the limit, the flags and what is noted about the group may differ. */
  predicate SameMembers(s: State, r: State)
  {
    && r.members == s.members && r.owner == s.owner && r.group == s.group && r.captured == s.captured && r.leaving == s.leaving
    && r.minShare == s.minShare && r.pass == NoPass
  }

  /** Exactly the members whose locks thread `t` gets have gained the flag. */
  ghost predicate AllGained(s: State, r: State, t: Tid)
  {
    forall b :: b in r.flagged <==> b in s.flagged || (b in s.members && TryLock(s, t, b))
  }

  /** Exactly the members whose locks thread `t` gets have lost the flag, and another pass is asked for iff one was missed. */
  ghost predicate AllLost(s: State, r: State, t: Tid)
  {
    && (forall b :: b in r.flagged <==> b in s.flagged && !(b in s.members && TryLock(s, t, b)))
    && (r.pending <==> exists b :: b in s.members && !TryLock(s, t, b))
  }

  /** A suspend pass flags exactly the members whose locks it gets. */
  lemma {:induction false} SuspendPass(s: State, t: Tid)
    requires s.pass.Suspending?
    ensures var r := Finish(s, t);
      && SameMembers(s, r) && r.limit == s.limit && r.suspended == s.suspended && r.pending == s.pending
      && forall b :: b in r.flagged <==> b in s.flagged || (b in s.pass.todo && TryLock(s, t, b))
    decreases |s.pass.todo|
  {
    if s.pass.todo == [] {
      assert Finish(s, t) == DoVisit(s, t);
    } else {
      var x, todo := s.pass.todo[0], s.pass.todo;
      var u := DoVisit(s, t);
      assert todo == [x] + todo[1..];
      SuspendPass(u, t);
      assert forall b :: TryLock(u, t, b) == TryLock(s, t, b);
    }
  }

  lemma {:induction false} PassKeeps(s: State, t: Tid)
    requires s.pass.Unsuspending?
    ensures SameMembers(s, Finish(s, t)) && Finish(s, t).limit == s.limit
    decreases |s.pass.todo|
  {
    if s.pass.todo != [] {
      PassKeeps(DoVisit(s, t), t);
    }
  }

  /** From the beginning of an unsuspend pass to its end. */
  lemma Unsuspends(s: State, u: State, start: nat, t: Tid)
    requires s.pass == NoPass && u.pass == Unsuspending(Rotated(s.members, start), false) && !u.suspended
    requires u.members == s.members && u.owner == s.owner && u.flagged == s.flagged
    ensures var r := Finish(u, t); SameMembers(u, r) && r.limit == u.limit && !r.suspended && AllLost(s, r, t)
  {
    RotatedSame(s.members, start);
    UnsuspendPass(u, t);
    PassKeeps(u, t);
    assert forall b :: TryLock(u, t, b) == TryLock(s, t, b);
  }

  /** Charging a group: with its limit used up it is suspended, and so is every member whose lock can be had; with something
      left a suspended group is let go; and otherwise only the limit goes down. */
  lemma ChargeEffect(s: State, t: Tid, n: int, start: nat)
    requires Inv(s) && InGroup(s, t)
    ensures var r := Finish(Step(s, t, Charge(n, start)), t);
      && SameMembers(s, r) && r.limit == s.limit - n
      && (s.limit - n <= 0 ==> r.suspended && !r.pending && AllGained(s, r, t))
      && (s.limit - n > 0 && s.suspended ==> !r.suspended && AllLost(s, r, t))
      && (s.limit - n > 0 && !s.suspended ==> r == s.(limit := s.limit - n))
  {
    var u := Step(s, t, Charge(n, start));
    if s.limit - n <= 0 {
      SuspendPass(u, t);
      assert forall b :: TryLock(u, t, b) == TryLock(s, t, b);
    } else if s.suspended {
      Unsuspends(s, u, start, t);
    }
  }

  /** A refill: a group that still owes a pass, or is suspended and has its minimum share again, is let go; otherwise only the
      limit changes. */
  lemma RefillEffect(s: State, t: Tid, limit: int, start: nat)
    requires Inv(s) && InGroup(s, t)
    ensures var r := Finish(Step(s, t, Refill(limit, start)), t);
      && SameMembers(s, r) && r.limit == limit
      && (s.pending || (s.suspended && limit >= s.minShare) ==> !r.suspended && AllLost(s, r, t))
      && (!s.pending && !(s.suspended && limit >= s.minShare) ==> r == s.(limit := limit))
  {
    var u := Step(s, t, Refill(limit, start));
    if s.pending || (s.suspended && limit >= s.minShare) {
      Unsuspends(s, u, start, t);
    }
  }

  /** A member that finds its group suspended is flagged, whether it was missed by the pass or not. */
  lemma NoticeEffect(s: State, t: Tid, b: Bev)
    requires InGroup(s, t) && Owns(s, t, b) && b in s.members
    ensures Step(s, t, Notice(b)) == s.(flagged := if s.suspended then s.flagged + {b} else s.flagged)
  {
    assert s.(flagged := s.flagged) == s;
  }

  // ---------- Joining and leaving, with other threads in between ----------

  predicate ByOthers(acts: seq<(Tid, Action)>, t: Tid)
  {
    forall i :: 0 <= i < |acts| ==> acts[i].0 != t
  }

  /** What no other thread touches of a bufferevent whose lock `t` holds. */
  predicate SameFor(s: State, r: State, b: Bev)
  {
    && (b in r.owner <==> b in s.owner) && (b in s.owner ==> r.owner[b] == s.owner[b])
    && (b in r.captured <==> b in s.captured) && (b in s.captured ==> r.captured[b] == s.captured[b])
    && (b in r.leaving <==> b in s.leaving) && (b in r.flagged <==> b in s.flagged) && (b in r.members <==> b in s.members)
  }

  lemma OtherStep(s: State, t: Tid, b: Bev, u: Tid, a: Action)
    requires NoDup(s.members) && Owns(s, t, b) && u != t
    ensures SameFor(s, Step(s, u, a), b)
  {
    if a.Leave? && InGroup(s, u) && Owns(s, u, a.b) && a.b in s.members {
      RemoveFacts(s.members, a.b);
    }
  }

  lemma {:induction false} OtherSteps(s: State, t: Tid, b: Bev, acts: seq<(Tid, Action)>)
    requires Inv(s) && Owns(s, t, b) && ByOthers(acts, t)
    ensures SameFor(s, Run(s, acts), b)
    decreases |acts|
  {
    if acts != [] {
      OtherStep(s, t, b, acts[0].0, acts[0].1);
      StepKeepsInv(s, acts[0].0, acts[0].1);
      OtherSteps(Step(s, acts[0].0, acts[0].1), t, b, acts[1..]);
    }
  }

  /** Joining is two steps, with the group's lock given up in between: whatever other threads do there, the new member ends up
      flagged exactly if the group was suspended when it joined. */
  lemma JoinEffect(s: State, t: Tid, b: Bev, acts: seq<(Tid, Action)>)
    requires Inv(s) && InGroup(s, t) && Owns(s, t, b) && b !in s.members && b !in s.leaving && ByOthers(acts, t)
    ensures var r := Step(Run(Step(s, t, Join(b)), acts), t, ApplyCaptured(b));
      b in r.members && b !in r.captured && (b in r.flagged <==> s.suspended)
  {
    var j := Step(s, t, Join(b));
    StepKeepsInv(s, t, Join(b));
    assert j.members[|s.members|] == b;
    OtherSteps(j, t, b, acts);
  }

  /** And a member that leaves ends up without the flag. */
  lemma LeaveEffect(s: State, t: Tid, b: Bev, acts: seq<(Tid, Action)>)
    requires Inv(s) && InGroup(s, t) && Owns(s, t, b) && b in s.members && ByOthers(acts, t)
    ensures var r := Step(Run(Step(s, t, Leave(b)), acts), t, ClearLeft(b));
      b !in r.members && b !in r.leaving && b !in r.flagged
  {
    var l := Step(s, t, Leave(b));
    StepKeepsInv(s, t, Leave(b));
    RemoveFacts(s.members, b);
    OtherSteps(l, t, b, acts);
  }
}
