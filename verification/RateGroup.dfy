/** A rate-limiting group and its members, as interleaved atomic steps of any number of threads. The
    group lock nests inside the members' locks, so passes over the group only try the members' locks;
    no interleaving leaves a member suspended for good. One direction (reading); writing is the same
    with its own fields. */
module RateGroup {
  import opened Lists

  type Bev = nat
  type Tid = nat

  /** What the holder of the group lock is in the middle of. */
  datatype Pass = NoPass | Suspending(todo: seq<Bev>) | Unsuspending(todo: seq<Bev>, again: bool)

  /** `flagged` are the bufferevents that carry BEV_SUSPEND_BW_GROUP; `captured` those being added,
      between the group's unlocking and the use of the flag read under its lock; `leaving` those
      removed whose flag is still to be cleared. */
  datatype State = State(
    members: seq<Bev>,
    limit: int,
    minShare: int,
    suspended: bool,
    pending: bool,
    flagged: set<Bev>,
    owner: map<Bev, Tid>,
    group: Option<Tid>,
    pass: Pass,
    captured: map<Bev, bool>,
    leaving: set<Bev>)

  datatype Action =
    | LockBev(b: Bev)
    | UnlockBev(b: Bev)
    | LockGroup
    | UnlockGroup
    | Charge(bytes: int, start: nat)
    | Refill(limit: int, start: nat)
    | Visit
    | Notice(b: Bev)
    | Join(b: Bev)
    | ApplyCaptured(b: Bev)
    | Leave(b: Bev)
    | ClearLeft(b: Bev)

  // ---------- FOREACH_RANDOM_ORDER ----------

  /** From a chosen member to the end of the list, then from its start up to that member. */
  function Rotated<T>(s: seq<T>, start: nat): seq<T>
  {
    if s == [] then [] else s[start % |s|..] + s[..start % |s|]
  }

  lemma RotatedSame<T>(s: seq<T>, start: nat)
    ensures multiset(Rotated(s, start)) == multiset(s)
    ensures forall x :: x in Rotated(s, start) <==> x in s
  {
    if s != [] {
      assert s == s[..start % |s|] + s[start % |s|..];
    }
    assert forall x :: x in Rotated(s, start) <==> x in multiset(Rotated(s, start));
  }

  /** The two loops of the macro visit every member exactly once, whatever the random element. */
  method ForEachRandomOrder(members: seq<Bev>, random: nat) returns (visited: seq<Bev>)
    ensures visited == Rotated(members, random)
    ensures multiset(visited) == multiset(members)
  {
    visited := [];
    if members != [] {
      var which := random % |members|;
      var i := which;
      while i < |members|
        invariant which <= i <= |members| && visited == members[which..i]
      {
        visited := visited + [members[i]];
        i := i + 1;
      }
      i := 0;
      while i < |members| && i != which
        invariant 0 <= i <= which && visited == members[which..] + members[..i]
      {
        visited := visited + [members[i]];
        i := i + 1;
      }
    }
    RotatedSame(members, random);
  }

  // ---------- Steps ----------

  predicate Owns(s: State, t: Tid, b: Bev)
  {
    b in s.owner && s.owner[b] == t
  }

  /** Locks are recursive: a try succeeds on a free lock and on one's own. */
  predicate TryLock(s: State, t: Tid, b: Bev)
  {
    b !in s.owner || s.owner[b] == t
  }

  predicate InGroup(s: State, t: Tid)
  {
    s.group == Some(t) && s.pass == NoPass
  }

  /** _bev_group_suspend_reading. */
  function BeginSuspend(s: State): State
  {
    s.(suspended := true, pending := false, pass := Suspending(s.members))
  }

  /** _bev_group_unsuspend_reading. */
  function BeginUnsuspend(s: State, start: nat): State
  {
    s.(suspended := false, pass := Unsuspending(Rotated(s.members, start), false))
  }

  /** The group's share of _bufferevent_decrement_read_buckets. */
  function DoCharge(s: State, bytes: int, start: nat): State
  {
    var r := s.(limit := s.limit - bytes);
    if r.limit <= 0 then BeginSuspend(r)
    else if r.suspended then BeginUnsuspend(r, start)
    else r
  }

  /** _bev_group_refill_callback, once the bucket has been updated. */
  function DoRefill(s: State, limit: int, start: nat): State
  {
    var r := s.(limit := limit);
    if r.pending || (r.suspended && r.limit >= r.minShare) then BeginUnsuspend(r, start) else r
  }

  /** One member of a pass, or its end. */
  function DoVisit(s: State, t: Tid): State
  {
    match s.pass
    case NoPass => s
    case Suspending(todo) =>
      if todo == [] then s.(pass := NoPass)
      else if TryLock(s, t, todo[0]) then s.(flagged := s.flagged + {todo[0]}, pass := Suspending(todo[1..]))
      else s.(pass := Suspending(todo[1..]))
    case Unsuspending(todo, again) =>
      if todo == [] then s.(pending := again, pass := NoPass)
      else if TryLock(s, t, todo[0]) then s.(flagged := s.flagged - {todo[0]}, pass := Unsuspending(todo[1..], again))
      else s.(pass := Unsuspending(todo[1..], true))
  }

  /** bufferevent_add_to_rate_limit_group, up to the unlocking of the group. */
  function DoJoin(s: State, b: Bev): State
  {
    s.(members := s.members + [b], captured := s.captured[b := s.suspended], group := None)
  }

  function DoApply(s: State, b: Bev): State
    requires b in s.captured
  {
    s.(flagged := if s.captured[b] then s.flagged + {b} else s.flagged, captured := s.captured - {b})
  }

  /** bufferevent_remove_from_rate_limit_group, up to the unlocking of the group. */
  function DoLeave(s: State, b: Bev): State
  {
    s.(members := Remove(s.members, b), leaving := s.leaving + {b}, group := None)
  }

  /** A thread in bufferevent_add_to_rate_limit_group past its critical section does nothing else with
      the group until it has used what it read there. */
  predicate Busy(s: State, t: Tid)
  {
    exists b :: b in s.captured && Owns(s, t, b)
  }

  /** One step of thread `t`; a step that cannot be taken changes nothing. */
  function Step(s: State, t: Tid, a: Action): State
  {
    match a
    case LockBev(b) => if b !in s.owner then s.(owner := s.owner[b := t]) else s
    case UnlockBev(b) =>
      if Owns(s, t, b) && b !in s.captured && b !in s.leaving then s.(owner := s.owner - {b}) else s
    case LockGroup => if s.group == None && !Busy(s, t) then s.(group := Some(t)) else s
    case UnlockGroup => if InGroup(s, t) then s.(group := None) else s
    case Charge(bytes, start) => if InGroup(s, t) then DoCharge(s, bytes, start) else s
    case Refill(limit, start) => if InGroup(s, t) then DoRefill(s, limit, start) else s
    case Visit => if s.group == Some(t) then DoVisit(s, t) else s
    case Notice(b) =>
      if InGroup(s, t) && Owns(s, t, b) && b in s.members && s.suspended then s.(flagged := s.flagged + {b}) else s
    case Join(b) =>
      if InGroup(s, t) && Owns(s, t, b) && b !in s.members && b !in s.leaving then DoJoin(s, b) else s
    case ApplyCaptured(b) => if b in s.captured && Owns(s, t, b) then DoApply(s, b) else s
    case Leave(b) => if InGroup(s, t) && Owns(s, t, b) && b in s.members then DoLeave(s, b) else s
    case ClearLeft(b) =>
      if b in s.leaving && Owns(s, t, b) then s.(flagged := s.flagged - {b}, leaving := s.leaving - {b}) else s
  }

  // ---------- The invariant ----------

  /** The group will still get to member `b`: it is suspended as a whole or has a pass to repeat; or, in
      the middle of an unsuspend pass, the pass has yet to reach `b` or knows it must be repeated. */
  predicate WillReach(s: State, b: Bev)
  {
    if s.pass.Unsuspending? then b in s.pass.todo || s.pass.again else s.suspended || s.pending
  }

  /** `b` carries the group's flag, or is about to. */
  predicate Marked(s: State, b: Bev)
  {
    b in s.flagged || (b in s.captured && s.captured[b])
  }

  ghost predicate NoneStranded(s: State)
  {
    forall b :: b in s.members && Marked(s, b) ==> WillReach(s, b)
  }

  /** A bufferevent being added is locked by a thread outside the group's critical section. */
  ghost predicate CapturedLocked(s: State)
  {
    forall b :: b in s.captured ==> b in s.members && b in s.owner && s.group != Some(s.owner[b])
  }

  ghost predicate FlagsHeld(s: State)
  {
    && (forall b :: b in s.flagged ==> b in s.members || b in s.leaving)
    && (forall b :: b in s.leaving ==> b !in s.members && b in s.owner)
    && NoDup(s.members)
  }

  ghost predicate PassHeld(s: State)
  {
    && (s.pass.Suspending? ==> s.suspended)
    && (s.pass != NoPass ==> s.group.Some? && forall b :: b in s.pass.todo ==> b in s.members)
  }

  ghost predicate Inv(s: State)
  {
    NoneStranded(s) && CapturedLocked(s) && FlagsHeld(s) && PassHeld(s)
  }

  lemma LockKeeps(s: State, t: Tid, a: Action)
    requires Inv(s) && (a.LockBev? || a.UnlockBev? || a.LockGroup? || a.UnlockGroup?)
    ensures Inv(Step(s, t, a))
  {
    var r := Step(s, t, a);
    assert forall b :: Marked(r, b) == Marked(s, b) && WillReach(r, b) == WillReach(s, b);
    if a.LockGroup? && !Busy(s, t) {
      assert forall b :: b in s.captured ==> s.owner[b] != t by {
        assert forall b :: b in s.captured ==> !Owns(s, t, b);
      }
    }
  }

  lemma SuspendKeeps(s: State)
    requires Inv(s) && s.group.Some? && s.pass == NoPass
    ensures Inv(BeginSuspend(s))
  {
  }

  lemma UnsuspendKeeps(s: State, start: nat)
    requires Inv(s) && s.group.Some? && s.pass == NoPass
    ensures Inv(BeginUnsuspend(s, start))
  {
    RotatedSame(s.members, start);
  }

  lemma BeginKeeps(s: State, t: Tid, a: Action)
    requires Inv(s) && (a.Charge? || a.Refill?)
    ensures Inv(Step(s, t, a))
  {
    if InGroup(s, t) {
      var r := s.(limit := if a.Charge? then s.limit - a.bytes else a.limit);
      assert Inv(r) by {
        assert forall b :: Marked(r, b) == Marked(s, b) && WillReach(r, b) == WillReach(s, b);
      }
      SuspendKeeps(r);
      UnsuspendKeeps(r, a.start);
    }
  }

  lemma VisitKeeps(s: State, t: Tid)
    requires Inv(s)
    ensures Inv(Step(s, t, Visit))
  {
    if s.group == Some(t) && s.pass != NoPass {
      if s.pass.todo == [] {
        PassEndKeeps(s, t);
      } else if s.pass.Suspending? {
        SuspendOneKeeps(s, t);
      } else {
        UnsuspendOneKeeps(s, t);
      }
    }
  }

  lemma PassEndKeeps(s: State, t: Tid)
    requires Inv(s) && s.pass != NoPass && s.pass.todo == []
    ensures Inv(DoVisit(s, t))
  {
    var r := DoVisit(s, t);
    assert forall b :: Marked(r, b) == Marked(s, b) && (WillReach(s, b) ==> WillReach(r, b));
  }

  lemma SuspendOneKeeps(s: State, t: Tid)
    requires Inv(s) && s.pass.Suspending? && s.pass.todo != []
    ensures Inv(DoVisit(s, t))
  {
    var r, todo := DoVisit(s, t), s.pass.todo;
    assert todo[0] in todo && forall b :: b in todo[1..] ==> b in todo;
    assert forall b :: WillReach(r, b);
  }

  /** A visit that gets the lock clears the flag, and no add can be about to set it again, since it would
      hold the lock; a visit that does not get the lock makes the pass one to repeat. */
  lemma UnsuspendOneKeeps(s: State, t: Tid)
    requires Inv(s) && s.pass.Unsuspending? && s.pass.todo != [] && s.group == Some(t)
    ensures Inv(DoVisit(s, t))
  {
    var r, x, todo := DoVisit(s, t), s.pass.todo[0], s.pass.todo;
    assert todo == [x] + todo[1..];
    assert x in s.captured ==> !TryLock(s, t, x);
    forall b | b in r.members && Marked(r, b)
      ensures WillReach(r, b)
    {
      assert Marked(s, b) && WillReach(s, b);
    }
  }

  lemma MembershipKeeps(s: State, t: Tid, a: Action)
    requires Inv(s) && (a.Join? || a.Leave?)
    ensures Inv(Step(s, t, a))
  {
    var r := Step(s, t, a);
    if a.Leave? {
      RemoveFacts(s.members, a.b);
      forall b | b in r.members && Marked(r, b)
        ensures WillReach(r, b)
      {
        assert b in s.members && Marked(s, b);
      }
    } else {
      forall b | b in r.members && Marked(r, b)
        ensures WillReach(r, b)
      {
        assert b in s.members || b == a.b;
      }
    }
  }

  lemma FlagKeeps(s: State, t: Tid, a: Action)
    requires Inv(s) && (a.Notice? || a.ApplyCaptured? || a.ClearLeft?)
    ensures Inv(Step(s, t, a))
  {
    var r := Step(s, t, a);
    assert forall b :: WillReach(r, b) == WillReach(s, b);
    forall b | b in r.members && Marked(r, b)
      ensures WillReach(r, b)
    {
      assert Marked(s, b) || s.suspended;
    }
  }

  lemma StepKeepsInv(s: State, t: Tid, a: Action)
    requires Inv(s)
    ensures Inv(Step(s, t, a))
  {
    if a.Charge? || a.Refill? {
      BeginKeeps(s, t, a);
    } else if a.Visit? {
      VisitKeeps(s, t);
    } else if a.Join? || a.Leave? {
      MembershipKeeps(s, t, a);
    } else if a.Notice? || a.ApplyCaptured? || a.ClearLeft? {
      FlagKeeps(s, t, a);
    } else {
      LockKeeps(s, t, a);
    }
  }

  // ---------- Every run ----------

  function Init(limit: int, minShare: int): State
  {
    State([], limit, minShare, false, false, {}, map[], None, NoPass, map[], {})
  }

  function Run(s: State, acts: seq<(Tid, Action)>): State
    decreases |acts|
  {
    if acts == [] then s else Run(Step(s, acts[0].0, acts[0].1), acts[1..])
  }

  lemma {:induction false} RunKeepsInv(s: State, acts: seq<(Tid, Action)>)
    requires Inv(s)
    ensures Inv(Run(s, acts))
    decreases |acts|
  {
    if acts != [] {
      StepKeepsInv(s, acts[0].0, acts[0].1);
      RunKeepsInv(Step(s, acts[0].0, acts[0].1), acts[1..]);
    }
  }

  /** In every interleaving, whenever no pass is under way, a member that carries the group's flag, or
      is about to, belongs to a group that is suspended or has an unsuspend pass still to repeat. */
  lemma NoStrandedMember(limit: int, minShare: int, acts: seq<(Tid, Action)>, b: Bev)
    ensures var s := Run(Init(limit, minShare), acts);
      s.pass == NoPass && b in s.members && Marked(s, b) ==> s.suspended || s.pending
  {
    var s := Run(Init(limit, minShare), acts);
    RunKeepsInv(Init(limit, minShare), acts);
    assert b in s.members && Marked(s, b) ==> WillReach(s, b);
  }

  // ---------- What repeating a pass achieves ----------

  /** The holder of the group lock visits the rest of the members, no other thread moving. */
  function Finish(s: State, t: Tid): State
    decreases if s.pass.NoPass? then 0 else 1 + |s.pass.todo|
  {
    if s.pass == NoPass then s else Finish(DoVisit(s, t), t)
  }

  /** An unsuspend pass clears exactly the members whose locks it gets, and asks for another pass if
      and only if it missed one. */
  lemma {:induction false} UnsuspendPass(s: State, t: Tid)
    requires s.pass.Unsuspending?
    ensures var r := Finish(s, t);
      && r.pass == NoPass && r.members == s.members && r.suspended == s.suspended && r.owner == s.owner
      && (forall b :: b in r.flagged <==> b in s.flagged && !(b in s.pass.todo && TryLock(s, t, b)))
      && (r.pending <==> s.pass.again || exists b :: b in s.pass.todo && !TryLock(s, t, b))
    decreases |s.pass.todo|
  {
    if s.pass.todo == [] {
      assert Finish(s, t) == DoVisit(s, t);
    } else {
      var x, todo := s.pass.todo[0], s.pass.todo;
      var u := DoVisit(s, t);
      assert todo == [x] + todo[1..];
      UnsuspendPass(u, t);
      assert forall b :: TryLock(u, t, b) == TryLock(s, t, b);
    }
  }

  /** A refill that reaches the minimum share, while no other thread holds a member's lock, leaves no
      member flagged and nothing pending, whichever member the pass starts from. */
  lemma QuietRefillUnsuspendsAll(s: State, t: Tid, limit: int, start: nat)
    requires Inv(s) && InGroup(s, t) && limit >= s.minShare
    requires forall b :: b in s.members ==> TryLock(s, t, b)
    ensures var r := Finish(DoRefill(s, limit, start), t);
      !r.suspended && !r.pending && forall b :: b in s.members ==> b !in r.flagged
  {
    RotatedSame(s.members, start);
    var u := DoRefill(s, limit, start);
    if u.pass.Unsuspending? {
      UnsuspendPass(u, t);
    } else {
      assert forall b :: b in s.members && Marked(s, b) ==> WillReach(s, b);
    }
  }
}
