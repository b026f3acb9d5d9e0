/** The fd map and its changelist, as steps on values: per-fd reader and writer counts, and a lazy
    list of changes for the backend that must agree with making each change at once. */
module EvmapSpec {
  import opened Lists

  datatype Ev = Ev(id: nat, fd: int, read: bool, write: bool, et: bool)

  datatype Mask = Mask(read: bool, write: bool)

  /** read_change and write_change: 0, EV_CHANGE_ADD (with its edge-trigger flag) or EV_CHANGE_DEL. */
  datatype Op = Keep | Enable(et: bool) | Disable

  datatype Change = Change(fd: int, before: Mask, read: Op, write: Op)

  /** struct evmap_io with its fdinfo. */
  datatype Slot = Slot(nread: nat, nwrite: nat, events: seq<Ev>, idxplus1: nat)

  /** `kernel` is what the backend has been told to watch. */
  datatype State = State(io: map<int, Slot>, changes: seq<Change>, kernel: map<int, Mask>)

  const MAX_EVENTS: nat := 0xffff

  const NO_EVENTS := Mask(false, false)

  function SlotOf(s: State, fd: int): Slot
  {
    if fd in s.io then s.io[fd] else Slot(0, 0, [], 0)
  }

  function KernelAt(s: State, fd: int): Mask
  {
    if fd in s.kernel then s.kernel[fd] else NO_EVENTS
  }

  // ---------- What the lists ask for ----------

  function Readers(es: seq<Ev>): nat
  {
    if es == [] then 0 else (if es[0].read then 1 else 0) + Readers(es[1..])
  }

  function Writers(es: seq<Ev>): nat
  {
    if es == [] then 0 else (if es[0].write then 1 else 0) + Writers(es[1..])
  }

  /** The events an fd's list asks the backend to watch for. */
  ghost function Wanted(es: seq<Ev>): Mask
  {
    Mask(exists e :: e in es && e.read, exists e :: e in es && e.write)
  }

  lemma {:induction false} CountsAreWanted(es: seq<Ev>)
    ensures Readers(es) > 0 <==> Wanted(es).read
    ensures Writers(es) > 0 <==> Wanted(es).write
  {
    if es != [] {
      CountsAreWanted(es[1..]);
      assert es == [es[0]] + es[1..];
    }
  }

  lemma {:induction false} CountSnoc(es: seq<Ev>, e: Ev)
    ensures Readers(es + [e]) == Readers(es) + if e.read then 1 else 0
    ensures Writers(es + [e]) == Writers(es) + if e.write then 1 else 0
  {
    if es == [] {
      assert [] + [e] == [e] && [e][1..] == [];
    } else {
      CountSnoc(es[1..], e);
      assert (es + [e])[1..] == es[1..] + [e];
    }
  }

  lemma {:induction false} CountRemove(es: seq<Ev>, e: Ev)
    requires e in es
    ensures Readers(es) == Readers(Remove(es, e)) + if e.read then 1 else 0
    ensures Writers(es) == Writers(Remove(es, e)) + if e.write then 1 else 0
  {
    if es[0] != e {
      CountRemove(es[1..], e);
      assert Remove(es, e)[1..] == Remove(es[1..], e);
    }
  }

  // ---------- The changelist ----------

  predicate After(op: Op, was: bool)
  {
    match op
    case Keep => was
    case Enable(_) => true
    case Disable => false
  }

  /** What the backend will watch once a change is made. */
  function Made(c: Change): Mask
  {
    Mask(After(c.read, c.before.read), After(c.write, c.before.write))
  }

  function SetSlot(s: State, fd: int, sl: Slot): State
  {
    s.(io := s.io[fd := sl])
  }

  /** event_changelist_get_or_construct. */
  function GetOrConstruct(s: State, fd: int, before: Mask): State
  {
    if SlotOf(s, fd).idxplus1 == 0
    then SetSlot(s, fd, SlotOf(s, fd).(idxplus1 := |s.changes| + 1)).(changes := s.changes + [Change(fd, before, Keep, Keep)])
    else s
  }

  function AddTo(c: Change, res: Mask, et: bool): Change
  {
    c.(read := if res.read then Enable(et) else c.read, write := if res.write then Enable(et) else c.write)
  }

  function DelOp(was: bool, op: Op): Op
  {
    if !was && op.Enable? then Keep else Disable
  }

  function DelFrom(c: Change, res: Mask): Change
  {
    c.(read := if res.read then DelOp(c.before.read, c.read) else c.read,
       write := if res.write then DelOp(c.before.write, c.write) else c.write)
  }

  function Index(s: State, fd: int): int
  {
    SlotOf(s, fd).idxplus1 - 1
  }

  /** event_changelist_add. */
  function ChangelistAdd(s: State, fd: int, before: Mask, res: Mask, et: bool): State
    requires SlotOf(s, fd).idxplus1 <= |s.changes|
  {
    var t := GetOrConstruct(s, fd, before);
    t.(changes := t.changes[Index(t, fd) := AddTo(t.changes[Index(t, fd)], res, et)])
  }

  /** event_changelist_del. */
  function ChangelistDel(s: State, fd: int, before: Mask, res: Mask): State
    requires SlotOf(s, fd).idxplus1 <= |s.changes|
  {
    var t := GetOrConstruct(s, fd, before);
    t.(changes := t.changes[Index(t, fd) := DelFrom(t.changes[Index(t, fd)], res)])
  }

  // ---------- Adding, deleting, flushing ----------

  function OldMask(sl: Slot): Mask
  {
    Mask(sl.nread > 0, sl.nwrite > 0)
  }

  function One(b: bool): nat
  {
    if b then 1 else 0
  }

  /** Which of its kinds an event is the first of its fd to ask for. */
  function FirstOf(sl: Slot, e: Ev): Mask
  {
    Mask(e.read && sl.nread == 0, e.write && sl.nwrite == 0)
  }

  function LastOf(sl: Slot, e: Ev): Mask
  {
    Mask(e.read && sl.nread == 1, e.write && sl.nwrite == 1)
  }

  /** evmap_io_add refuses an event that would overflow a count or, in debug mode, mix trigger modes. */
  predicate Refused(sl: Slot, e: Ev, debug: bool)
  {
    || sl.nread + One(e.read) > MAX_EVENTS || sl.nwrite + One(e.write) > MAX_EVENTS
    || (debug && sl.events != [] && sl.events[0].et != e.et)
  }

  /** That is: 65535 readers and 65535 writers go, and with debugging on every event must have the mode of
      the list's first. */
  lemma RefusedIff(sl: Slot, e: Ev, debug: bool)
    requires sl.nread == Readers(sl.events) && sl.nwrite == Writers(sl.events)
    ensures Refused(sl, e, debug) <==>
      || Readers(sl.events + [e]) > 65535 || Writers(sl.events + [e]) > 65535
      || (debug && sl.events != [] && !(sl.events[0].et <==> e.et))
  {
    CountSnoc(sl.events, e);
  }

  function AddedTo(sl: Slot, e: Ev, idx: nat): Slot
  {
    Slot(sl.nread + One(e.read), sl.nwrite + One(e.write), sl.events + [e], idx)
  }

  function RemovedFrom(sl: Slot, e: Ev, idx: nat): Slot
    requires One(e.read) <= sl.nread && One(e.write) <= sl.nwrite
  {
    Slot(sl.nread - One(e.read), sl.nwrite - One(e.write), Remove(sl.events, e), idx)
  }

  /** The backend is told only of a change in what the fd as a whole asks for. */
  function AddChange(s: State, e: Ev): State
    requires SlotOf(s, e.fd).idxplus1 <= |s.changes|
  {
    var sl := SlotOf(s, e.fd);
    if FirstOf(sl, e) == NO_EVENTS then s else ChangelistAdd(s, e.fd, OldMask(sl), FirstOf(sl, e), e.et)
  }

  function DelChange(s: State, e: Ev): State
    requires SlotOf(s, e.fd).idxplus1 <= |s.changes|
  {
    var sl := SlotOf(s, e.fd);
    if LastOf(sl, e) == NO_EVENTS then s else ChangelistDel(s, e.fd, OldMask(sl), LastOf(sl, e))
  }

  /** evmap_io_add. */
  function IoAdd(s: State, e: Ev, debug: bool): State
    requires SlotOf(s, e.fd).idxplus1 <= |s.changes|
  {
    var sl := SlotOf(s, e.fd);
    if e.fd < 0 || Refused(sl, e, debug) then s
    else
      var t := AddChange(s, e);
      SetSlot(t, e.fd, AddedTo(sl, e, SlotOf(t, e.fd).idxplus1))
  }

  /** evmap_io_del. */
  function IoDel(s: State, e: Ev): State
    requires SlotOf(s, e.fd).idxplus1 <= |s.changes|
    requires e.fd >= 0 ==> One(e.read) <= SlotOf(s, e.fd).nread && One(e.write) <= SlotOf(s, e.fd).nwrite
  {
    var sl := SlotOf(s, e.fd);
    if e.fd < 0 then s
    else
      var t := DelChange(s, e);
      SetSlot(t, e.fd, RemovedFrom(sl, e, SlotOf(t, e.fd).idxplus1))
  }

  /** The backend makes every pending change, in order. */
  function MakeAll(kernel: map<int, Mask>, cs: seq<Change>): map<int, Mask>
  {
    if cs == [] then kernel
    else MakeAll(kernel, cs[..|cs| - 1])[cs[|cs| - 1].fd := Made(cs[|cs| - 1])]
  }

  function ClearIndices(io: map<int, Slot>): map<int, Slot>
  {
    map fd | fd in io :: io[fd].(idxplus1 := 0)
  }

  /** The backend makes the changes, and event_changelist_remove_all forgets them. */
  function Flush(s: State): State
  {
    State(ClearIndices(s.io), [], MakeAll(s.kernel, s.changes))
  }

  // ---------- The invariant ----------

  ghost predicate CountsOk(sl: Slot, fd: int)
  {
    && sl.nread == Readers(sl.events) <= MAX_EVENTS && sl.nwrite == Writers(sl.events) <= MAX_EVENTS
    && NoDup(sl.events) && forall e :: e in sl.events ==> e.fd == fd
  }

  /** A change only disables what was enabled before it: no needless deletion reaches the backend. */
  predicate NoNeedless(c: Change)
  {
    (c.read == Disable ==> c.before.read) && (c.write == Disable ==> c.before.write)
  }

  /** The backend's view of an fd, once its pending change if any is made, is what its list asks for. */
  ghost predicate Coalesced(s: State, fd: int)
  {
    var sl := SlotOf(s, fd);
    && sl.idxplus1 <= |s.changes|
    && if sl.idxplus1 == 0 then KernelAt(s, fd) == Wanted(sl.events)
       else
         var c := s.changes[sl.idxplus1 - 1];
         c.fd == fd && c.before == KernelAt(s, fd) && Made(c) == Wanted(sl.events) && NoNeedless(c)
  }

  /** Every pending change belongs to the fd whose slot points back at it. */
  ghost predicate Indexed(s: State)
  {
    forall i :: 0 <= i < |s.changes| ==> SlotOf(s, s.changes[i].fd).idxplus1 == i + 1
  }

  ghost predicate Inv(s: State)
  {
    && Indexed(s)
    && (forall fd {:trigger Coalesced(s, fd)} :: Coalesced(s, fd))
    && (forall fd {:trigger CountsOk(SlotOf(s, fd), fd)} :: CountsOk(SlotOf(s, fd), fd))
  }

  /** idxplus1 is a bijection between pending changes and the fds that have one. */
  lemma IndexBijection(s: State)
    requires Inv(s)
    ensures forall i, j :: 0 <= i < j < |s.changes| ==> s.changes[i].fd != s.changes[j].fd
    ensures forall fd :: SlotOf(s, fd).idxplus1 != 0 ==>
      SlotOf(s, fd).idxplus1 <= |s.changes| && s.changes[SlotOf(s, fd).idxplus1 - 1].fd == fd
    ensures forall i :: 0 <= i < |s.changes| ==> SlotOf(s, s.changes[i].fd).idxplus1 == i + 1
  {
    forall fd | SlotOf(s, fd).idxplus1 != 0
      ensures SlotOf(s, fd).idxplus1 <= |s.changes| && s.changes[SlotOf(s, fd).idxplus1 - 1].fd == fd
    {
      assert Coalesced(s, fd);
    }
  }

  lemma InitInv()
    ensures Inv(State(map[], [], map[]))
  {
    var s := State(map[], [], map[]);
    forall fd
      ensures Coalesced(s, fd) && CountsOk(SlotOf(s, fd), fd)
    {
      CountsAreWanted([]);
    }
  }

  // ---------- One step ----------

  /** Only the change of `fd` may differ; it is at its slot's index, and other slots are the same. */
  ghost predicate OnlyAt(s: State, t: State, fd: int)
  {
    && t.kernel == s.kernel && |s.changes| <= |t.changes|
    && (forall x :: x != fd ==> SlotOf(t, x) == SlotOf(s, x))
    && (forall i :: 0 <= i < |s.changes| && s.changes[i].fd != fd ==> t.changes[i] == s.changes[i])
    && (forall i :: 0 <= i < |s.changes| ==> t.changes[i].fd == s.changes[i].fd)
  }

  lemma OthersCoalesced(s: State, t: State, fd: int)
    requires Inv(s) && OnlyAt(s, t, fd)
    ensures forall x {:trigger Coalesced(t, x)} :: x != fd ==> Coalesced(t, x)
    ensures forall x {:trigger CountsOk(SlotOf(t, x), x)} :: x != fd ==> CountsOk(SlotOf(t, x), x)
  {
    forall x | x != fd
      ensures Coalesced(t, x) && CountsOk(SlotOf(t, x), x)
    {
      assert Coalesced(s, x) && CountsOk(SlotOf(s, x), x);
    }
  }

  /** A pending change of `fd` whose outcome is what the list of `fd` will ask for. */
  ghost predicate Pends(t: State, fd: int, before: Mask, wanted: Mask)
  {
    var sl := SlotOf(t, fd);
    && 0 < sl.idxplus1 <= |t.changes|
    && var c := t.changes[sl.idxplus1 - 1];
       c.fd == fd && c.before == before && Made(c) == wanted && NoNeedless(c)
  }

  lemma Constructed(s: State, fd: int, before: Mask)
    requires Inv(s) && before == Wanted(SlotOf(s, fd).events)
    ensures var t := GetOrConstruct(s, fd, before);
      && OnlyAt(s, t, fd) && Indexed(t) && Pends(t, fd, KernelAt(s, fd), before)
      && SlotOf(t, fd) == SlotOf(s, fd).(idxplus1 := SlotOf(t, fd).idxplus1)
  {
    assert Coalesced(s, fd);
    var t := GetOrConstruct(s, fd, before);
    if SlotOf(s, fd).idxplus1 == 0 {
      forall i | 0 <= i < |t.changes|
        ensures SlotOf(t, t.changes[i].fd).idxplus1 == i + 1
      {
        assert i < |s.changes| ==> s.changes[i].fd != fd;
      }
    }
  }

  /** Rewriting the pending change of `fd`. */
  lemma Rewritten(s: State, t: State, fd: int, c: Change)
    requires OnlyAt(s, t, fd) && Indexed(t) && c.fd == fd
    requires 0 <= Index(t, fd) < |t.changes| && t.changes[Index(t, fd)].fd == fd
    ensures var r := t.(changes := t.changes[Index(t, fd) := c]);
      OnlyAt(s, r, fd) && Indexed(r) && forall x :: SlotOf(r, x) == SlotOf(t, x)
  {
    var r := t.(changes := t.changes[Index(t, fd) := c]);
    assert forall x :: SlotOf(r, x) == SlotOf(t, x);
  }

  lemma AddMade(c: Change, res: Mask, et: bool)
    requires NoNeedless(c)
    ensures var r := AddTo(c, res, et);
      Made(r) == Mask(Made(c).read || res.read, Made(c).write || res.write) && NoNeedless(r)
  {
  }

  lemma DelMade(c: Change, res: Mask)
    requires NoNeedless(c) && (res.read ==> Made(c).read) && (res.write ==> Made(c).write)
    ensures var r := DelFrom(c, res);
      Made(r) == Mask(Made(c).read && !res.read, Made(c).write && !res.write) && NoNeedless(r)
  {
  }

  lemma AddPends(s: State, fd: int, before: Mask, res: Mask, et: bool)
    requires Inv(s) && before == Wanted(SlotOf(s, fd).events)
    ensures SlotOf(s, fd).idxplus1 <= |s.changes|
    ensures var t := ChangelistAdd(s, fd, before, res, et);
      && OnlyAt(s, t, fd) && Indexed(t)
      && Pends(t, fd, KernelAt(s, fd), Mask(before.read || res.read, before.write || res.write))
      && SlotOf(t, fd) == SlotOf(s, fd).(idxplus1 := SlotOf(t, fd).idxplus1)
  {
    assert Coalesced(s, fd);
    Constructed(s, fd, before);
    var t := GetOrConstruct(s, fd, before);
    var c := t.changes[Index(t, fd)];
    AddMade(c, res, et);
    Rewritten(s, t, fd, AddTo(c, res, et));
  }

  lemma DelPends(s: State, fd: int, before: Mask, res: Mask)
    requires Inv(s) && before == Wanted(SlotOf(s, fd).events) && (res.read ==> before.read) && (res.write ==> before.write)
    ensures SlotOf(s, fd).idxplus1 <= |s.changes|
    ensures var t := ChangelistDel(s, fd, before, res);
      && OnlyAt(s, t, fd) && Indexed(t)
      && Pends(t, fd, KernelAt(s, fd), Mask(before.read && !res.read, before.write && !res.write))
      && SlotOf(t, fd) == SlotOf(s, fd).(idxplus1 := SlotOf(t, fd).idxplus1)
  {
    assert Coalesced(s, fd);
    Constructed(s, fd, before);
    var t := GetOrConstruct(s, fd, before);
    var c := t.changes[Index(t, fd)];
    DelMade(c, res);
    Rewritten(s, t, fd, DelFrom(c, res));
  }

  /** The counts of a list grown or shrunk by one event, and what the list then asks for. */
  lemma AddedSlot(sl: Slot, e: Ev, idx: nat)
    requires CountsOk(sl, e.fd) && e !in sl.events && !Refused(sl, e, false)
    ensures CountsOk(AddedTo(sl, e, idx), e.fd)
    ensures OldMask(sl) == Wanted(sl.events)
    ensures Wanted(sl.events + [e]) ==
      Mask(OldMask(sl).read || FirstOf(sl, e).read, OldMask(sl).write || FirstOf(sl, e).write)
  {
    CountsAreWanted(sl.events);
    CountsAreWanted(sl.events + [e]);
    CountSnoc(sl.events, e);
  }

  lemma RemovedSlot(sl: Slot, e: Ev, idx: nat)
    requires CountsOk(sl, e.fd) && e in sl.events
    ensures One(e.read) <= sl.nread && One(e.write) <= sl.nwrite
    ensures CountsOk(RemovedFrom(sl, e, idx), e.fd)
    ensures OldMask(sl) == Wanted(sl.events)
    ensures Wanted(Remove(sl.events, e)) ==
      Mask(OldMask(sl).read && !LastOf(sl, e).read, OldMask(sl).write && !LastOf(sl, e).write)
  {
    CountsAreWanted(sl.events);
    CountsAreWanted(Remove(sl.events, e));
    CountRemove(sl.events, e);
    RemoveFacts(sl.events, e);
  }

  /** The changelist of `t` is right for `fd` once its list asks for `wanted`. */
  ghost predicate ChangedFor(s: State, t: State, fd: int, wanted: Mask)
  {
    && OnlyAt(s, t, fd) && Indexed(t)
    && SlotOf(t, fd) == SlotOf(s, fd).(idxplus1 := SlotOf(t, fd).idxplus1)
    && if SlotOf(t, fd).idxplus1 == 0 then KernelAt(s, fd) == wanted else Pends(t, fd, KernelAt(s, fd), wanted)
  }

  /** Rewriting a slot's counts and list once its pending change is right. */
  lemma SlotWritten(s: State, t: State, fd: int, sl: Slot)
    requires Inv(s) && ChangedFor(s, t, fd, Wanted(sl.events)) && CountsOk(sl, fd)
    requires sl.idxplus1 == SlotOf(t, fd).idxplus1
    ensures Inv(SetSlot(t, fd, sl))
  {
    var r := SetSlot(t, fd, sl);
    OthersCoalesced(s, r, fd);
    assert Coalesced(r, fd) && CountsOk(SlotOf(r, fd), fd);
  }

  lemma AddChanged(s: State, e: Ev)
    requires Inv(s) && !Refused(SlotOf(s, e.fd), e, false) && e !in SlotOf(s, e.fd).events
    ensures SlotOf(s, e.fd).idxplus1 <= |s.changes|
    ensures ChangedFor(s, AddChange(s, e), e.fd, Wanted(SlotOf(s, e.fd).events + [e]))
  {
    assert Coalesced(s, e.fd) && CountsOk(SlotOf(s, e.fd), e.fd);
    AddedSlot(SlotOf(s, e.fd), e, 0);
    AddPends(s, e.fd, OldMask(SlotOf(s, e.fd)), FirstOf(SlotOf(s, e.fd), e), e.et);
  }

  lemma DelChanged(s: State, e: Ev)
    requires Inv(s) && e in SlotOf(s, e.fd).events
    ensures SlotOf(s, e.fd).idxplus1 <= |s.changes|
    ensures ChangedFor(s, DelChange(s, e), e.fd, Wanted(Remove(SlotOf(s, e.fd).events, e)))
  {
    assert Coalesced(s, e.fd) && CountsOk(SlotOf(s, e.fd), e.fd);
    RemovedSlot(SlotOf(s, e.fd), e, 0);
    DelPends(s, e.fd, OldMask(SlotOf(s, e.fd)), LastOf(SlotOf(s, e.fd), e));
  }

  lemma InvAt(s: State, fd: int)
    requires Inv(s)
    ensures SlotOf(s, fd).idxplus1 <= |s.changes| && CountsOk(SlotOf(s, fd), fd)
  {
    assert Coalesced(s, fd);
  }

  /** Constructing an empty slot changes nothing that matters. */
  lemma FreshSlot(s: State, fd: int)
    requires Inv(s) && fd !in s.io
    ensures var t := SetSlot(s, fd, Slot(0, 0, [], 0));
      Inv(t) && forall x :: SlotOf(t, x) == SlotOf(s, x)
  {
    var t := SetSlot(s, fd, Slot(0, 0, [], 0));
    forall x
      ensures SlotOf(t, x) == SlotOf(s, x) && Coalesced(t, x) && CountsOk(SlotOf(t, x), x)
    {
      assert Coalesced(s, x) && CountsOk(SlotOf(s, x), x);
    }
  }

  lemma FreshSame(s: State, e: Ev, debug: bool)
    requires SlotOf(s, e.fd).idxplus1 <= |s.changes| && e.fd !in s.io && !Refused(SlotOf(s, e.fd), e, debug)
    ensures e.fd >= 0 ==> IoAdd(SetSlot(s, e.fd, Slot(0, 0, [], 0)), e, debug) == IoAdd(s, e, debug)
  {
    if e.fd >= 0 {
      assert IoAdd(SetSlot(s, e.fd, Slot(0, 0, [], 0)), e, debug).io == IoAdd(s, e, debug).io;
    }
  }

  lemma IoAddKeepsInv(s: State, e: Ev, debug: bool)
    requires Inv(s) && e !in SlotOf(s, e.fd).events
    ensures SlotOf(s, e.fd).idxplus1 <= |s.changes| && Inv(IoAdd(s, e, debug))
  {
    var sl := SlotOf(s, e.fd);
    InvAt(s, e.fd);
    if e.fd >= 0 && !Refused(sl, e, debug) {
      var t := AddChange(s, e);
      AddChanged(s, e);
      AddedSlot(sl, e, SlotOf(t, e.fd).idxplus1);
      SlotWritten(s, t, e.fd, AddedTo(sl, e, SlotOf(t, e.fd).idxplus1));
    }
  }

  lemma IoDelKeepsInv(s: State, e: Ev)
    requires Inv(s) && (e.fd >= 0 ==> e in SlotOf(s, e.fd).events)
    ensures SlotOf(s, e.fd).idxplus1 <= |s.changes|
    ensures e.fd >= 0 ==> One(e.read) <= SlotOf(s, e.fd).nread && One(e.write) <= SlotOf(s, e.fd).nwrite
    ensures Inv(IoDel(s, e))
  {
    var sl := SlotOf(s, e.fd);
    InvAt(s, e.fd);
    if e.fd >= 0 {
      var t := DelChange(s, e);
      DelChanged(s, e);
      RemovedSlot(sl, e, SlotOf(t, e.fd).idxplus1);
      SlotWritten(s, t, e.fd, RemovedFrom(sl, e, SlotOf(t, e.fd).idxplus1));
    }
  }

  // ---------- Flushing ----------

  lemma {:induction false} MadeAt(kernel: map<int, Mask>, cs: seq<Change>, fd: int)
    requires forall i, j :: 0 <= i < j < |cs| ==> cs[i].fd != cs[j].fd
    ensures forall i :: 0 <= i < |cs| && cs[i].fd == fd ==> fd in MakeAll(kernel, cs) && MakeAll(kernel, cs)[fd] == Made(cs[i])
    ensures (forall i :: 0 <= i < |cs| ==> cs[i].fd != fd) ==>
      (fd in MakeAll(kernel, cs) <==> fd in kernel) && (fd in kernel ==> MakeAll(kernel, cs)[fd] == kernel[fd])
    decreases |cs|
  {
    if cs != [] {
      MadeAt(kernel, cs[..|cs| - 1], fd);
    }
  }

  lemma FlushedAt(s: State, fd: int)
    requires Inv(s)
    ensures SlotOf(Flush(s), fd) == SlotOf(s, fd).(idxplus1 := 0)
    ensures KernelAt(Flush(s), fd) == Wanted(SlotOf(s, fd).events)
    ensures Coalesced(Flush(s), fd) && CountsOk(SlotOf(Flush(s), fd), fd)
  {
    IndexBijection(s);
    assert Coalesced(s, fd) && CountsOk(SlotOf(s, fd), fd);
    MadeAt(s.kernel, s.changes, fd);
  }

  /** After a flush nothing is pending and the backend watches exactly what the lists ask for. */
  lemma FlushIsExact(s: State)
    requires Inv(s)
    ensures Inv(Flush(s)) && Flush(s).changes == []
    ensures forall fd :: SlotOf(Flush(s), fd) == SlotOf(s, fd).(idxplus1 := 0)
    ensures forall fd :: KernelAt(Flush(s), fd) == Wanted(SlotOf(s, fd).events)
  {
    var r := Flush(s);
    forall fd
      ensures SlotOf(r, fd) == SlotOf(s, fd).(idxplus1 := 0) && KernelAt(r, fd) == Wanted(SlotOf(s, fd).events)
      ensures Coalesced(r, fd) && CountsOk(SlotOf(r, fd), fd)
    {
      FlushedAt(s, fd);
    }
  }

  // ---------- Whole runs ----------

  datatype Action = Add(e: Ev, debug: bool) | Del(e: Ev) | FlushAll

  /** An event is added only while it is on no list, and deleted only while it is on its list. */
  predicate Allowed(s: State, a: Action)
  {
    match a
    case Add(e, _) => e !in SlotOf(s, e.fd).events
    case Del(e) => e.fd >= 0 ==> e in SlotOf(s, e.fd).events
    case FlushAll => true
  }

  lemma StepKeepsInv(s: State, a: Action)
    requires Inv(s) && Allowed(s, a)
    ensures Coalesced(s, if a.FlushAll? then 0 else a.e.fd)
    ensures a.Del? && a.e.fd >= 0 ==> One(a.e.read) <= SlotOf(s, a.e.fd).nread && One(a.e.write) <= SlotOf(s, a.e.fd).nwrite
    ensures Inv(Step(s, a))
  {
    match a
    case Add(e, debug) => IoAddKeepsInv(s, e, debug); assert Coalesced(s, e.fd);
    case Del(e) => IoDelKeepsInv(s, e); assert Coalesced(s, e.fd);
    case FlushAll => FlushIsExact(s); assert Coalesced(s, 0);
  }

  ghost function Step(s: State, a: Action): State
    requires Inv(s) && Allowed(s, a)
  {
    match a
    case Add(e, debug) => assert Coalesced(s, e.fd); IoAdd(s, e, debug)
    case Del(e) => IoDelKeepsInv(s, e); IoDel(s, e)
    case FlushAll => Flush(s)
  }

  ghost predicate Runs(s: State, acts: seq<Action>)
    requires Inv(s)
    decreases |acts|
  {
    acts == [] || (Allowed(s, acts[0]) && (StepKeepsInv(s, acts[0]); Runs(Step(s, acts[0]), acts[1..])))
  }

  ghost function Run(s: State, acts: seq<Action>): (r: State)
    requires Inv(s) && Runs(s, acts)
    ensures Inv(r)
    decreases |acts|
  {
    if acts == [] then s else (StepKeepsInv(s, acts[0]); Run(Step(s, acts[0]), acts[1..]))
  }

  /** Two states whose fds have the same lists and counts; they may differ in what is pending. */
  ghost predicate SameLists(s: State, t: State)
  {
    forall fd {:trigger SlotOf(s, fd)} {:trigger SlotOf(t, fd)} :: SlotOf(t, fd).(idxplus1 := 0) == SlotOf(s, fd).(idxplus1 := 0)
  }

  lemma StepSameLists(s: State, t: State, a: Action)
    requires Inv(s) && Inv(t) && SameLists(s, t) && Allowed(s, a)
    ensures Allowed(t, a) && SameLists(Step(s, a), Step(t, a))
  {
    if !a.FlushAll? {
      assert SlotOf(t, a.e.fd).(idxplus1 := 0) == SlotOf(s, a.e.fd).(idxplus1 := 0);
      StepLists(s, a);
      StepLists(t, a);
    } else {
      FlushIsExact(s);
      FlushIsExact(t);
    }
  }

  /** What a step does to the list and counts of its own fd, whatever is pending; other fds stay. */
  lemma StepLists(s: State, a: Action)
    requires Inv(s) && Allowed(s, a) && !a.FlushAll?
    ensures forall fd :: fd != a.e.fd ==> SlotOf(Step(s, a), fd) == SlotOf(s, fd)
    ensures a.Del? && a.e.fd >= 0 ==> One(a.e.read) <= SlotOf(s, a.e.fd).nread && One(a.e.write) <= SlotOf(s, a.e.fd).nwrite
    ensures SlotOf(Step(s, a), a.e.fd).(idxplus1 := 0) ==
      var sl := SlotOf(s, a.e.fd);
      if a.e.fd < 0 then sl.(idxplus1 := 0)
      else if a.Del? then RemovedFrom(sl, a.e, 0)
      else if Refused(sl, a.e, a.debug) then sl.(idxplus1 := 0)
      else AddedTo(sl, a.e, 0)
  {
    InvAt(s, a.e.fd);
    if a.Del? && a.e.fd >= 0 {
      RemovedSlot(SlotOf(s, a.e.fd), a.e, 0);
    }
  }

  /** The same run with every change made at once. */
  ghost function RunEagerly(s: State, acts: seq<Action>): State
    requires Inv(s) && Runs(s, acts)
    decreases |acts|
  {
    if acts == [] then Flush(s)
    else
      StepKeepsInv(s, acts[0]);
      FlushIsExact(Step(s, acts[0]));
      RunsFromFlushed(Step(s, acts[0]), Flush(Step(s, acts[0])), acts[1..]);
      RunEagerly(Flush(Step(s, acts[0])), acts[1..])
  }

  lemma {:induction false} RunsFromFlushed(s: State, t: State, acts: seq<Action>)
    requires Inv(s) && Inv(t) && SameLists(s, t) && Runs(s, acts)
    ensures Runs(t, acts) && SameLists(Run(s, acts), Run(t, acts))
    decreases |acts|
  {
    if acts != [] {
      StepSameLists(s, t, acts[0]);
      StepKeepsInv(s, acts[0]);
      StepKeepsInv(t, acts[0]);
      RunsFromFlushed(Step(s, acts[0]), Step(t, acts[0]), acts[1..]);
    }
  }

  lemma {:induction false} EagerRunIsExact(s: State, t: State, acts: seq<Action>)
    requires Inv(s) && Inv(t) && SameLists(s, t) && Runs(s, acts) && Runs(t, acts)
    ensures forall fd :: KernelAt(RunEagerly(t, acts), fd) == Wanted(SlotOf(Run(s, acts), fd).events)
    decreases |acts|
  {
    if acts == [] {
      FlushIsExact(t);
      forall fd
        ensures KernelAt(Flush(t), fd) == Wanted(SlotOf(s, fd).events)
      {
        assert SlotOf(t, fd).(idxplus1 := 0) == SlotOf(s, fd).(idxplus1 := 0);
      }
    } else {
      StepSameLists(s, t, acts[0]);
      StepKeepsInv(s, acts[0]);
      StepKeepsInv(t, acts[0]);
      var u := Step(t, acts[0]);
      FlushIsExact(u);
      RunsFromFlushed(u, Flush(u), acts[1..]);
      EagerRunIsExact(Step(s, acts[0]), Flush(u), acts[1..]);
    }
  }

  /** However adds, deletes and flushes are interleaved, the backend ends up where making every change
      at once would have taken it. */
  lemma LazyIsEager(s: State, acts: seq<Action>)
    requires Inv(s) && Runs(s, acts)
    ensures forall fd :: KernelAt(Flush(Run(s, acts)), fd) == KernelAt(RunEagerly(s, acts), fd)
  {
    FlushIsExact(Run(s, acts));
    EagerRunIsExact(s, s, acts);
  }
}
