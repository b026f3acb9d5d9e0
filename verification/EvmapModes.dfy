/** The trigger mode of what the backend watches: it, too, ends up where making every change at once would take it. */
module EvmapModes {
  import opened Lists
  import opened EvmapSpec

  /** Per kind: not watched, or watched edge-triggered or not. */
  datatype Modes = Modes(read: Option<bool>, write: Option<bool>)

  function ModesAt(k: map<int, Modes>, fd: int): Modes
  {
    if fd in k then k[fd] else Modes(None, None)
  }

  /** A change carries the flag of the add that asked for it. */
  function Moded(op: Op, was: Option<bool>): Option<bool>
  {
    match op
    case Keep => was
    case Enable(et) => Some(et)
    case Disable => None
  }

  function MadeModes(c: Change, was: Modes): Modes
  {
    Modes(Moded(c.read, was.read), Moded(c.write, was.write))
  }

  /** The backend makes every pending change, in order. */
  function MakeModes(k: map<int, Modes>, cs: seq<Change>): map<int, Modes>
  {
    if cs == [] then k
    else
      var rest, c := MakeModes(k, cs[..|cs| - 1]), cs[|cs| - 1];
      rest[c.fd := MadeModes(c, ModesAt(rest, c.fd))]
  }

  /** These are the modes of what the backend watches. */
  ghost predicate ModesOf(s: State, k: map<int, Modes>)
  {
    forall fd {:trigger KernelAt(s, fd)} {:trigger ModesAt(k, fd)} ::
      KernelAt(s, fd) == Mask(ModesAt(k, fd).read.Some?, ModesAt(k, fd).write.Some?)
  }

  /** The modes of an fd once its pending change, if there is one, is made. */
  function Due(s: State, k: map<int, Modes>, fd: int): Modes
    requires SlotOf(s, fd).idxplus1 <= |s.changes|
  {
    if SlotOf(s, fd).idxplus1 == 0 then ModesAt(k, fd) else MadeModes(s.changes[SlotOf(s, fd).idxplus1 - 1], ModesAt(k, fd))
  }

  /** What an action does to the modes of its own fd, by the fd's list alone. */
  function NextModes(sl: Slot, m: Modes, a: Action): Modes
    requires !a.FlushAll?
  {
    if a.e.fd < 0 || (a.Add? && Refused(sl, a.e, a.debug)) then m
    else if a.Add? then
      Modes(if FirstOf(sl, a.e).read then Some(a.e.et) else m.read, if FirstOf(sl, a.e).write then Some(a.e.et) else m.write)
    else
      Modes(if LastOf(sl, a.e).read then None else m.read, if LastOf(sl, a.e).write then None else m.write)
  }

  lemma OthersDue(s: State, t: State, k: map<int, Modes>, fd: int, x: int)
    requires Inv(s) && OnlyAt(s, t, fd) && x != fd
    ensures SlotOf(s, x).idxplus1 <= |s.changes| <= |t.changes| && Due(t, k, x) == Due(s, k, x)
  {
    assert Coalesced(s, x);
  }

  /** Adding to the changelist sets the modes of the kinds added. */
  lemma AddedDue(s: State, k: map<int, Modes>, fd: int, before: Mask, res: Mask, et: bool)
    requires Inv(s) && before == Wanted(SlotOf(s, fd).events)
    ensures SlotOf(s, fd).idxplus1 <= |s.changes|
    ensures var t, m := ChangelistAdd(s, fd, before, res, et), Due(s, k, fd);
      && SlotOf(t, fd).idxplus1 <= |t.changes|
      && Due(t, k, fd) == Modes(if res.read then Some(et) else m.read, if res.write then Some(et) else m.write)
  {
    assert Coalesced(s, fd);
    Constructed(s, fd, before);
    var t := GetOrConstruct(s, fd, before);
    Rewritten(s, t, fd, AddTo(t.changes[Index(t, fd)], res, et));
  }

  /** Deleting leaves no mode, by withdrawing an add only where nothing was watched before. */
  lemma DeletedDue(s: State, k: map<int, Modes>, fd: int, before: Mask, res: Mask)
    requires Inv(s) && ModesOf(s, k) && before == Wanted(SlotOf(s, fd).events)
    ensures SlotOf(s, fd).idxplus1 <= |s.changes|
    ensures var t, m := ChangelistDel(s, fd, before, res), Due(s, k, fd);
      && SlotOf(t, fd).idxplus1 <= |t.changes|
      && Due(t, k, fd) == Modes(if res.read then None else m.read, if res.write then None else m.write)
  {
    assert Coalesced(s, fd);
    Constructed(s, fd, before);
    var t := GetOrConstruct(s, fd, before);
    assert t.changes[Index(t, fd)].before == KernelAt(s, fd);
    Rewritten(s, t, fd, DelFrom(t.changes[Index(t, fd)], res));
  }

  lemma SlotDue(t: State, k: map<int, Modes>, fd: int, sl: Slot, x: int)
    requires SlotOf(t, x).idxplus1 <= |t.changes| && sl.idxplus1 == SlotOf(t, fd).idxplus1
    ensures SlotOf(SetSlot(t, fd, sl), x).idxplus1 <= |t.changes| && Due(SetSlot(t, fd, sl), k, x) == Due(t, k, x)
  {
  }

  lemma AddDue(s: State, k: map<int, Modes>, a: Action, x: int)
    requires Inv(s) && Allowed(s, a) && a.Add? && a.e.fd >= 0 && !Refused(SlotOf(s, a.e.fd), a.e, a.debug)
    ensures SlotOf(s, a.e.fd).idxplus1 <= |s.changes| && SlotOf(s, x).idxplus1 <= |s.changes|
    ensures var r := IoAdd(s, a.e, a.debug);
      && SlotOf(r, x).idxplus1 <= |r.changes|
      && Due(r, k, x) == if x == a.e.fd then NextModes(SlotOf(s, x), Due(s, k, x), a) else Due(s, k, x)
  {
    var e, sl := a.e, SlotOf(s, a.e.fd);
    InvAt(s, e.fd);
    InvAt(s, x);
    AddChanged(s, e);
    var t := AddChange(s, e);
    AddedSlot(sl, e, SlotOf(t, e.fd).idxplus1);
    AddedDue(s, k, e.fd, OldMask(sl), FirstOf(sl, e), e.et);
    if x != e.fd {
      OthersDue(s, t, k, e.fd, x);
    }
    SlotDue(t, k, e.fd, AddedTo(sl, e, SlotOf(t, e.fd).idxplus1), x);
  }

  lemma DelDue(s: State, k: map<int, Modes>, a: Action, x: int)
    requires Inv(s) && ModesOf(s, k) && Allowed(s, a) && a.Del? && a.e.fd >= 0
    ensures SlotOf(s, a.e.fd).idxplus1 <= |s.changes| && SlotOf(s, x).idxplus1 <= |s.changes|
    ensures One(a.e.read) <= SlotOf(s, a.e.fd).nread && One(a.e.write) <= SlotOf(s, a.e.fd).nwrite
    ensures var r := IoDel(s, a.e);
      && SlotOf(r, x).idxplus1 <= |r.changes|
      && Due(r, k, x) == if x == a.e.fd then NextModes(SlotOf(s, x), Due(s, k, x), a) else Due(s, k, x)
  {
    var e, sl := a.e, SlotOf(s, a.e.fd);
    InvAt(s, e.fd);
    InvAt(s, x);
    DelChanged(s, e);
    var t := DelChange(s, e);
    RemovedSlot(sl, e, SlotOf(t, e.fd).idxplus1);
    DeletedDue(s, k, e.fd, OldMask(sl), LastOf(sl, e));
    if x != e.fd {
      OthersDue(s, t, k, e.fd, x);
    }
    SlotDue(t, k, e.fd, RemovedFrom(sl, e, SlotOf(t, e.fd).idxplus1), x);
  }

  // ---------- Whole runs ----------

  /** What the backend has been told after a step. */
  function Told(s: State, k: map<int, Modes>, a: Action): map<int, Modes>
  {
    if a.FlushAll? then MakeModes(k, s.changes) else k
  }

  lemma {:induction false} MadeModesAt(k: map<int, Modes>, cs: seq<Change>, fd: int)
    requires forall i, j :: 0 <= i < j < |cs| ==> cs[i].fd != cs[j].fd
    ensures forall i :: 0 <= i < |cs| && cs[i].fd == fd ==> ModesAt(MakeModes(k, cs), fd) == MadeModes(cs[i], ModesAt(k, fd))
    ensures (forall i :: 0 <= i < |cs| ==> cs[i].fd != fd) ==> ModesAt(MakeModes(k, cs), fd) == ModesAt(k, fd)
    decreases |cs|
  {
    if cs != [] {
      MadeModesAt(k, cs[..|cs| - 1], fd);
    }
  }

  lemma MadeMask(c: Change, m: Modes)
    requires c.before == Mask(m.read.Some?, m.write.Some?)
    ensures Made(c) == Mask(MadeModes(c, m).read.Some?, MadeModes(c, m).write.Some?)
  {
  }

  lemma FlushDueAt(s: State, k: map<int, Modes>, x: int)
    requires Inv(s) && ModesOf(s, k)
    ensures SlotOf(s, x).idxplus1 <= |s.changes| && ModesAt(MakeModes(k, s.changes), x) == Due(s, k, x)
    ensures Wanted(SlotOf(s, x).events) == Mask(Due(s, k, x).read.Some?, Due(s, k, x).write.Some?)
  {
    var m := ModesAt(k, x);
    assert Coalesced(s, x) && KernelAt(s, x) == Mask(m.read.Some?, m.write.Some?);
    IndexBijection(s);
    MadeModesAt(k, s.changes, x);
    if SlotOf(s, x).idxplus1 != 0 {
      MadeMask(s.changes[SlotOf(s, x).idxplus1 - 1], m);
    }
  }

  lemma FlushDue(s: State, k: map<int, Modes>)
    requires Inv(s) && ModesOf(s, k)
    ensures Inv(Flush(s)) && ModesOf(Flush(s), MakeModes(k, s.changes))
    ensures forall x :: SlotOf(s, x).idxplus1 <= |s.changes| && ModesAt(MakeModes(k, s.changes), x) == Due(s, k, x)
  {
    FlushIsExact(s);
    forall x
      ensures SlotOf(s, x).idxplus1 <= |s.changes| && ModesAt(MakeModes(k, s.changes), x) == Due(s, k, x)
      ensures Wanted(SlotOf(s, x).events) == Mask(Due(s, k, x).read.Some?, Due(s, k, x).write.Some?)
    {
      FlushDueAt(s, k, x);
    }
  }

  /** Two runs that have the same lists and will have the same modes. */
  ghost predicate Together(s: State, k: map<int, Modes>, t: State, l: map<int, Modes>)
  {
    && Inv(s) && Inv(t) && ModesOf(s, k) && ModesOf(t, l) && SameLists(s, t)
    && forall x :: SameDue(s, k, t, l, x)
  }

  ghost predicate SameDue(s: State, k: map<int, Modes>, t: State, l: map<int, Modes>, x: int)
  {
    SlotOf(s, x).idxplus1 <= |s.changes| && SlotOf(t, x).idxplus1 <= |t.changes| && Due(s, k, x) == Due(t, l, x)
  }

  lemma SameNext(s: State, t: State, a: Action, m: Modes)
    requires SameLists(s, t) && !a.FlushAll?
    ensures NextModes(SlotOf(s, a.e.fd), m, a) == NextModes(SlotOf(t, a.e.fd), m, a)
  {
    assert SlotOf(t, a.e.fd).(idxplus1 := 0) == SlotOf(s, a.e.fd).(idxplus1 := 0);
  }

  lemma OneDue(s: State, k: map<int, Modes>, a: Action, x: int)
    requires Inv(s) && ModesOf(s, k) && Allowed(s, a) && !a.FlushAll?
    ensures var r := Step(s, a);
      && SlotOf(s, x).idxplus1 <= |s.changes| && SlotOf(r, x).idxplus1 <= |r.changes|
      && Due(r, k, x) == if x == a.e.fd then NextModes(SlotOf(s, x), Due(s, k, x), a) else Due(s, k, x)
  {
    InvAt(s, a.e.fd);
    InvAt(s, x);
    if a.Del? && a.e.fd >= 0 {
      DelDue(s, k, a, x);
    } else if a.Add? && a.e.fd >= 0 && !Refused(SlotOf(s, a.e.fd), a.e, a.debug) {
      AddDue(s, k, a, x);
    }
  }

  lemma KernelStays(s: State, k: map<int, Modes>, a: Action)
    requires Inv(s) && ModesOf(s, k) && Allowed(s, a) && !a.FlushAll?
    ensures ModesOf(Step(s, a), k)
  {
    StepKeepsInv(s, a);
    assert Step(s, a).kernel == s.kernel;
    assert forall x :: KernelAt(Step(s, a), x) == KernelAt(s, x);
  }

  lemma StepTogether(s: State, k: map<int, Modes>, t: State, l: map<int, Modes>, a: Action)
    requires Together(s, k, t, l) && Allowed(s, a)
    ensures Allowed(t, a) && Together(Step(s, a), Told(s, k, a), Step(t, a), Told(t, l, a))
  {
    StepSameLists(s, t, a);
    StepKeepsInv(s, a);
    StepKeepsInv(t, a);
    var s', t', k', l' := Step(s, a), Step(t, a), Told(s, k, a), Told(t, l, a);
    if a.FlushAll? {
      FlushDue(s, k);
      FlushDue(t, l);
      forall x
        ensures SameDue(s', k', t', l', x)
      {
        assert SameDue(s, k, t, l, x);
        FlushIsExact(s);
        FlushIsExact(t);
      }
    } else {
      KernelStays(s, k, a);
      KernelStays(t, l, a);
      forall x
        ensures SameDue(s', k', t', l', x)
      {
        assert SameDue(s, k, t, l, x);
        OneDue(s, k, a, x);
        OneDue(t, l, a, x);
        SameNext(s, t, a, Due(s, k, x));
      }
    }
  }

  lemma FlushTogether(s: State, k: map<int, Modes>, t: State, l: map<int, Modes>)
    requires Together(s, k, t, l)
    ensures Together(s, k, Flush(t), MakeModes(l, t.changes))
  {
    FlushDue(t, l);
    FlushIsExact(t);
    forall x
      ensures SameDue(s, k, Flush(t), MakeModes(l, t.changes), x)
      ensures SlotOf(Flush(t), x).(idxplus1 := 0) == SlotOf(s, x).(idxplus1 := 0)
    {
      assert SameDue(s, k, t, l, x);
      assert SlotOf(t, x).(idxplus1 := 0) == SlotOf(s, x).(idxplus1 := 0);
    }
  }

  /** The modes after a run and a last flush, as the run flushes itself. */
  ghost function Lazily(s: State, k: map<int, Modes>, acts: seq<Action>): map<int, Modes>
    requires Inv(s) && Runs(s, acts)
    decreases |acts|
  {
    if acts == [] then MakeModes(k, s.changes)
    else
      StepKeepsInv(s, acts[0]);
      Lazily(Step(s, acts[0]), Told(s, k, acts[0]), acts[1..])
  }

  /** The modes after the same run with every change made at once. */
  ghost function Eagerly(s: State, k: map<int, Modes>, acts: seq<Action>): map<int, Modes>
    requires Inv(s) && Runs(s, acts)
    decreases |acts|
  {
    if acts == [] then MakeModes(k, s.changes)
    else
      var u, told := Step(s, acts[0]), Told(s, k, acts[0]);
      StepKeepsInv(s, acts[0]);
      FlushIsExact(u);
      RunsFromFlushed(u, Flush(u), acts[1..]);
      Eagerly(Flush(u), MakeModes(told, u.changes), acts[1..])
  }

  lemma {:induction false} TogetherToTheEnd(s: State, k: map<int, Modes>, t: State, l: map<int, Modes>, acts: seq<Action>)
    requires Together(s, k, t, l) && Runs(s, acts) && Runs(t, acts)
    ensures forall fd :: ModesAt(Lazily(s, k, acts), fd) == ModesAt(Eagerly(t, l, acts), fd)
    decreases |acts|
  {
    if acts == [] {
      FlushDue(s, k);
      FlushDue(t, l);
      forall fd
        ensures ModesAt(MakeModes(k, s.changes), fd) == ModesAt(MakeModes(l, t.changes), fd)
      {
        assert SameDue(s, k, t, l, fd);
      }
    } else {
      var a := acts[0];
      StepTogether(s, k, t, l, a);
      var u, told := Step(t, a), Told(t, l, a);
      FlushTogether(Step(s, a), Told(s, k, a), u, told);
      RunsFromFlushed(u, Flush(u), acts[1..]);
      TogetherToTheEnd(Step(s, a), Told(s, k, a), Flush(u), MakeModes(told, u.changes), acts[1..]);
    }
  }

  /** However adds, deletes and flushes are interleaved, what the backend ends up watching it watches in the trigger mode that
      making every change at once would have given it. */
  lemma LazyModesAreEager(s: State, k: map<int, Modes>, acts: seq<Action>)
    requires Inv(s) && ModesOf(s, k) && Runs(s, acts)
    ensures forall fd :: ModesAt(Lazily(s, k, acts), fd) == ModesAt(Eagerly(s, k, acts), fd)
  {
    forall x
      ensures SameDue(s, k, s, k, x)
    {
      assert Coalesced(s, x);
    }
    TogetherToTheEnd(s, k, s, k, acts);
  }
}
