/** How soon a suspended group comes back: its bucket and its refill callback together. */
module RateRecovery {
  import opened Lists
  import opened RateGroup
  import TokenBucket

  type Cfg = TokenBucket.Cfg

  /** The refill callback when `n` ticks have gone by, run to its end. */
  function Callback(cfg: Cfg, s: State, t: Tid, n: int, start: nat): State
    requires n > 0
  {
    Finish(DoRefill(s, TokenBucket.Refill(cfg, s.limit, n), start), t)
  }

  /** One callback after another; `ticks` says how many ticks each one sees, `starts` where its pass begins. */
  function Callbacks(cfg: Cfg, s: State, t: Tid, ticks: seq<int>, starts: seq<nat>): State
    requires |starts| == |ticks| && Positive(ticks)
    decreases |ticks|
  {
    if ticks == [] then s
    else
      var k := |ticks| - 1;
      Callback(cfg, Callbacks(cfg, s, t, ticks[..k], starts[..k]), t, ticks[k], starts[k])
  }

  predicate Positive(ticks: seq<int>)
  {
    forall i :: 0 <= i < |ticks| ==> 0 < ticks[i] <= TokenBucket.INT_MAX
  }

  function Sum(ticks: seq<int>): int
  {
    if ticks == [] then 0 else Sum(ticks[..|ticks| - 1]) + ticks[|ticks| - 1]
  }

  /** The group's lock is this thread's, and no other thread holds a member's. */
  ghost predicate Quiet(s: State, t: Tid)
  {
    Inv(s) && InGroup(s, t) && forall b :: b in s.members ==> TryLock(s, t, b)
  }

  /** Only the flags and the limit differ. */
  predicate SameGroup(s: State, r: State)
  {
    r.members == s.members && r.owner == s.owner && r.minShare == s.minShare && r.group == s.group
  }

  ghost predicate AllFree(s: State)
  {
    !s.suspended && !s.pending && forall b :: b in s.members ==> b !in s.flagged
  }

  lemma {:induction false} FinishKeeps(s: State, t: Tid)
    requires Inv(s) && s.group == Some(t)
    ensures Inv(Finish(s, t)) && SameGroup(s, Finish(s, t)) && Finish(s, t).pass == NoPass && Finish(s, t).limit == s.limit
    decreases if s.pass.NoPass? then 0 else 1 + |s.pass.todo|
  {
    if s.pass != NoPass {
      var r := OneVisit(s, t);
      FinishKeeps(r, t);
    }
  }

  lemma OneVisit(s: State, t: Tid) returns (r: State)
    requires Inv(s) && s.group == Some(t) && s.pass != NoPass
    ensures Inv(r) && Visited(s, r) && Finish(s, t) == Finish(r, t)
  {
    r := Step(s, t, Visit);
    VisitKeeps(s, t);
    VisitIs(s, t, r);
  }

  predicate Visited(s: State, r: State)
    requires s.pass != NoPass
  {
    && SameGroup(s, r) && r.limit == s.limit
    && (r.pass == NoPass || (s.pass.todo != [] && |r.pass.todo| < |s.pass.todo|))
  }

  lemma VisitIs(s: State, t: Tid, r: State)
    requires s.group == Some(t) && s.pass != NoPass && r == Step(s, t, Visit)
    ensures Visited(s, r) && Finish(s, t) == Finish(r, t)
  {
    assert r == DoVisit(s, t);
  }

  /** One callback: below the minimum share a group with nothing pending stays as it is, and otherwise all of it is freed. */
  lemma OneCallback(cfg: Cfg, s: State, t: Tid, n: int, start: nat, limit: int)
    requires n > 0 && limit == TokenBucket.Refill(cfg, s.limit, n) && Quiet(s, t)
    ensures var r := Callback(cfg, s, t, n, start);
      && Quiet(r, t) && SameGroup(s, r) && r.limit == limit
      && (limit >= s.minShare ==> AllFree(r))
      && (limit < s.minShare && !s.pending ==> r == s.(limit := limit))
  {
    var u := DoRefill(s, limit, start);
    BeginKeeps(s, t, Refill(limit, start));
    FinishKeeps(u, t);
    if limit >= s.minShare {
      QuietRefillUnsuspendsAll(s, t, limit, start);
    }
  }

  /** The group as one callback after another finds it. */
  ghost predicate Recovering(cfg: Cfg, s: State, r: State, t: Tid, total: int)
  {
    && Quiet(r, t) && SameGroup(s, r)
    && r.limit == TokenBucket.Min(cfg.maximum, s.limit + total * cfg.rate)
    && (r.limit >= s.minShare && total > 0 ==> AllFree(r))
    && (r.limit < s.minShare ==> r == s.(limit := r.limit))
  }

  lemma Total(cfg: Cfg, limit: int, total: int, n: int, next: int)
    requires cfg.rate >= 0 && total >= 0 && n >= 0
    requires next == TokenBucket.Min(cfg.maximum, TokenBucket.Min(cfg.maximum, limit + total * cfg.rate) + n * cfg.rate)
    ensures next == TokenBucket.Min(cfg.maximum, limit + (total + n) * cfg.rate)
  {
    assert (total + n) * cfg.rate == total * cfg.rate + n * cfg.rate && n * cfg.rate >= 0;
  }

  lemma {:induction false} SumPositive(ticks: seq<int>)
    requires Positive(ticks)
    ensures Sum(ticks) >= |ticks|
    decreases |ticks|
  {
    if ticks != [] {
      SumPositive(ticks[..|ticks| - 1]);
    }
  }

  lemma {:induction false} CallbacksRecover(cfg: Cfg, s: State, t: Tid, ticks: seq<int>, starts: seq<nat>)
    requires |starts| == |ticks| && Positive(ticks) && TokenBucket.CfgOk(cfg) && Quiet(s, t) && !s.pending
    requires -TokenBucket.SSIZE_MAX - 1 <= s.limit <= cfg.maximum
    ensures Recovering(cfg, s, Callbacks(cfg, s, t, ticks, starts), t, Sum(ticks))
    decreases |ticks|
  {
    if ticks != [] {
      var k := |ticks| - 1;
      var m, total, n := Callbacks(cfg, s, t, ticks[..k], starts[..k]), Sum(ticks[..k]), ticks[k];
      CallbacksRecover(cfg, s, t, ticks[..k], starts[..k]);
      SumPositive(ticks[..k]);
      NextRecovers(cfg, s, m, t, total, n, starts[k]);
    }
  }

  lemma NextRecovers(cfg: Cfg, s: State, m: State, t: Tid, total: int, n: int, start: nat)
    requires TokenBucket.CfgOk(cfg) && 0 < n <= TokenBucket.INT_MAX && total >= 0 && !s.pending
    requires -TokenBucket.SSIZE_MAX - 1 <= s.limit <= cfg.maximum && Recovering(cfg, s, m, t, total)
    ensures Recovering(cfg, s, Callback(cfg, m, t, n, start), t, total + n)
  {
    var next := TokenBucket.Refill(cfg, m.limit, n);
    assert total * cfg.rate >= 0;
    TokenBucket.RefillIsClippedSum(cfg, m.limit, n);
    Total(cfg, s.limit, total, n, next);
    assert n * cfg.rate >= 0;
    OneCallback(cfg, m, t, n, start, next);
  }

  /** A suspended group on which nothing is charged comes back as soon as the ticks make up for what its limit lacks of the
      minimum share, and not before: once they do, whatever number of callbacks they are spread over, no member carries
      the flag. */
  lemma RecoveryIff(cfg: Cfg, s: State, t: Tid, ticks: seq<int>, starts: seq<nat>)
    requires |starts| == |ticks| > 0 && Positive(ticks) && TokenBucket.CfgOk(cfg) && s.minShare <= cfg.rate
    requires Quiet(s, t) && s.suspended && !s.pending && -TokenBucket.SSIZE_MAX - 1 <= s.limit <= cfg.maximum
    ensures var r := Callbacks(cfg, s, t, ticks, starts);
      if Sum(ticks) * cfg.rate >= s.minShare - s.limit then AllFree(r)
      else r == s.(limit := s.limit + Sum(ticks) * cfg.rate)
  {
    CallbacksRecover(cfg, s, t, ticks, starts);
    SumPositive(ticks);
  }

  /** In whole ticks: the deficit divided by the rate, rounded up, is enough. */
  lemma RecoversWithin(cfg: Cfg, s: State, t: Tid, ticks: seq<int>, starts: seq<nat>)
    requires |starts| == |ticks| > 0 && Positive(ticks) && TokenBucket.CfgOk(cfg) && s.minShare <= cfg.rate
    requires Quiet(s, t) && s.suspended && !s.pending && -TokenBucket.SSIZE_MAX - 1 <= s.limit <= cfg.maximum
    requires Sum(ticks) >= (s.minShare - s.limit + cfg.rate - 1) / cfg.rate
    ensures AllFree(Callbacks(cfg, s, t, ticks, starts))
  {
    RoundedUp(s.minShare - s.limit, cfg.rate, Sum(ticks));
    RecoveryIff(cfg, s, t, ticks, starts);
  }

  lemma RoundedUp(lack: int, rate: int, n: int)
    requires rate > 0 && n >= (lack + rate - 1) / rate
    ensures n * rate >= lack
  {
    var q := (lack + rate - 1) / rate;
    assert lack + rate - 1 == q * rate + (lack + rate - 1) % rate;
    assert n * rate >= q * rate;
  }
}
