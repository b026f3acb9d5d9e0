/** The fd map and changelist as the code updates them in place; every method is proved to make the
    step that EvmapSpec defines. */
module Evmap {
  import opened Lists
  import opened EvmapSpec

  class Base {
    var io: map<int, Slot>
    var changes: seq<Change>

    /** What the backend watches. */
    ghost var kernel: map<int, Mask>

    ghost function View(): State
      reads this
    {
      State(io, changes, kernel)
    }

    ghost predicate Valid()
      reads this
    {
      Inv(View())
    }

    constructor ()
      ensures Valid() && View() == State(map[], [], map[])
    {
      io, changes, kernel := map[], [], map[];
      new;
      InitInv();
    }

    /** event_changelist_get_or_construct: the index of the fd's pending change. */
    method GetOrConstruct(fd: int, before: Mask) returns (idx: nat)
      requires fd in io && io[fd].idxplus1 <= |changes|
      modifies `io, `changes
      ensures View() == EvmapSpec.GetOrConstruct(old(View()), fd, before)
      ensures idx == Index(View(), fd) && idx < |changes|
    {
      if io[fd].idxplus1 == 0 {
        idx := |changes|;
        changes := changes + [Change(fd, before, Keep, Keep)];
        io := io[fd := io[fd].(idxplus1 := idx + 1)];
      } else {
        idx := io[fd].idxplus1 - 1;
      }
    }

    /** event_changelist_add. */
    method ChangelistAdd(fd: int, before: Mask, res: Mask, et: bool)
      requires fd in io && io[fd].idxplus1 <= |changes|
      modifies `io, `changes
      ensures View() == EvmapSpec.ChangelistAdd(old(View()), fd, before, res, et)
    {
      var idx := GetOrConstruct(fd, before);
      var c := changes[idx];
      if res.read {
        c := c.(read := Enable(et));
      }
      if res.write {
        c := c.(write := Enable(et));
      }
      changes := changes[idx := c];
    }

    /** event_changelist_del. */
    method ChangelistDel(fd: int, before: Mask, res: Mask)
      requires fd in io && io[fd].idxplus1 <= |changes|
      modifies `io, `changes
      ensures View() == EvmapSpec.ChangelistDel(old(View()), fd, before, res)
    {
      var idx := GetOrConstruct(fd, before);
      var c := changes[idx];
      if res.read {
        if !c.before.read && c.read.Enable? {
          c := c.(read := Keep);
        } else {
          c := c.(read := Disable);
        }
      }
      if res.write {
        if !c.before.write && c.write.Enable? {
          c := c.(write := Keep);
        } else {
          c := c.(write := Disable);
        }
      }
      changes := changes[idx := c];
    }

    /** GET_IO_SLOT_AND_CTOR. */
    method Slot0(fd: int)
      requires Valid()
      modifies `io
      ensures Valid() && fd in io && (forall x :: SlotOf(View(), x) == SlotOf(old(View()), x))
      ensures io == if fd in old(io) then old(io) else old(io)[fd := Slot(0, 0, [], 0)]
    {
      if fd !in io {
        FreshSlot(View(), fd);
        io := io[fd := Slot(0, 0, [], 0)];
      }
    }

    /** evmap_io_add: -1 if refused, 1 if the backend was told, 0 if it need not be. */
    method IoAdd(e: Ev, debug: bool) returns (r: int)
      requires Valid() && e !in SlotOf(View(), e.fd).events
      modifies `io, `changes
      ensures Valid()
      ensures e.fd < 0 ==> r == 0 && View() == old(View())
      ensures e.fd >= 0 && Refused(SlotOf(old(View()), e.fd), e, debug) ==>
        r == -1 && changes == old(changes) && forall x :: SlotOf(View(), x) == SlotOf(old(View()), x)
      ensures e.fd >= 0 && !Refused(SlotOf(old(View()), e.fd), e, debug) ==>
        && r == (if FirstOf(SlotOf(old(View()), e.fd), e) == NO_EVENTS then 0 else 1)
        && SlotOf(old(View()), e.fd).idxplus1 <= |old(changes)|
        && View() == EvmapSpec.IoAdd(old(View()), e, debug)
    {
      if e.fd < 0 {
        return 0;
      }
      InvAt(View(), e.fd);
      if e.fd !in io && !Refused(SlotOf(View(), e.fd), e, debug) {
        FreshSame(View(), e, debug);
      }
      Slot0(e.fd);
      InvAt(View(), e.fd);
      IoAddKeepsInv(View(), e, debug);
      r := AddToSlot(e, debug);
    }

    method AddToSlot(e: Ev, debug: bool) returns (r: int)
      requires e.fd >= 0 && e.fd in io && io[e.fd].idxplus1 <= |changes|
      modifies `io, `changes
      ensures SlotOf(old(View()), e.fd).idxplus1 <= |old(changes)|
      ensures View() == EvmapSpec.IoAdd(old(View()), e, debug)
      ensures r == if Refused(SlotOf(old(View()), e.fd), e, debug) then -1
                   else if FirstOf(SlotOf(old(View()), e.fd), e) == NO_EVENTS then 0 else 1
    {
      var ctx := io[e.fd];
      var before, nread, nwrite := Mask(ctx.nread > 0, ctx.nwrite > 0), ctx.nread, ctx.nwrite;
      var res := Mask(false, false);
      if e.read {
        nread := nread + 1;
        res := res.(read := nread == 1);
      }
      if e.write {
        nwrite := nwrite + 1;
        res := res.(write := nwrite == 1);
      }
      if nread > MAX_EVENTS || nwrite > MAX_EVENTS {
        return -1;
      }
      if debug && ctx.events != [] && ctx.events[0].et != e.et {
        return -1;
      }
      r := 0;
      if res != NO_EVENTS {
        ChangelistAdd(e.fd, before, res, e.et);
        r := 1;
      }
      io := io[e.fd := io[e.fd].(nread := nread, nwrite := nwrite, events := ctx.events + [e])];
    }

    /** evmap_io_del, of an event on its fd's list. */
    method IoDel(e: Ev) returns (r: int)
      requires Valid() && (e.fd >= 0 ==> e in SlotOf(View(), e.fd).events)
      modifies `io, `changes
      ensures Valid() && SlotOf(old(View()), e.fd).idxplus1 <= |old(changes)|
      ensures e.fd >= 0 ==> One(e.read) <= SlotOf(old(View()), e.fd).nread && One(e.write) <= SlotOf(old(View()), e.fd).nwrite
      ensures View() == EvmapSpec.IoDel(old(View()), e)
      ensures r == if e.fd < 0 || LastOf(SlotOf(old(View()), e.fd), e) == NO_EVENTS then 0 else 1
    {
      InvAt(View(), e.fd);
      IoDelKeepsInv(View(), e);
      if e.fd < 0 {
        return 0;
      }
      r := DelFromSlot(e);
    }

    method DelFromSlot(e: Ev) returns (r: int)
      requires e.fd >= 0 && e.fd in io && io[e.fd].idxplus1 <= |changes|
      requires One(e.read) <= io[e.fd].nread && One(e.write) <= io[e.fd].nwrite
      modifies `io, `changes
      ensures SlotOf(old(View()), e.fd).idxplus1 <= |old(changes)|
      ensures One(e.read) <= SlotOf(old(View()), e.fd).nread && One(e.write) <= SlotOf(old(View()), e.fd).nwrite
      ensures View() == EvmapSpec.IoDel(old(View()), e)
      ensures r == if LastOf(SlotOf(old(View()), e.fd), e) == NO_EVENTS then 0 else 1
    {
      var ctx := io[e.fd];
      var before, nread, nwrite := Mask(ctx.nread > 0, ctx.nwrite > 0), ctx.nread, ctx.nwrite;
      var res := Mask(false, false);
      if e.read {
        nread := nread - 1;
        res := res.(read := nread == 0);
      }
      if e.write {
        nwrite := nwrite - 1;
        res := res.(write := nwrite == 0);
      }
      r := 0;
      if res != NO_EVENTS {
        ChangelistDel(e.fd, before, res);
        r := 1;
      }
      io := io[e.fd := io[e.fd].(nread := nread, nwrite := nwrite, events := Remove(ctx.events, e))];
    }

    /** The backend makes every pending change; event_changelist_remove_all then clears the list. */
    method Flush()
      requires Valid()
      modifies `io, `changes, `kernel
      ensures Valid() && View() == EvmapSpec.Flush(old(View()))
      ensures changes == [] && forall fd :: KernelAt(View(), fd) == Wanted(SlotOf(View(), fd).events)
    {
      FlushIsExact(View());
      IndexBijection(View());
      assert forall fd :: fd in io ==> SlotOf(View(), fd) == io[fd];
      kernel := MakeAll(kernel, changes);
      RemoveAll();
    }

    /** event_changelist_remove_all. */
    method RemoveAll()
      requires Indexed(View())
      requires forall fd :: fd in io && io[fd].idxplus1 != 0 ==>
        io[fd].idxplus1 <= |changes| && changes[io[fd].idxplus1 - 1].fd == fd
      modifies `io, `changes
      ensures io == ClearIndices(old(io)) && changes == []
    {
      var i := 0;
      while i < |changes|
        invariant i <= |changes| && Cleared(old(io), io, i)
        modifies `io
      {
        var fd := changes[i].fd;
        assert SlotOf(old(View()), fd).idxplus1 == i + 1;
        io := io[fd := io[fd].(idxplus1 := 0)];
        i := i + 1;
      }
      ClearedAll(old(io), io, i);
      changes := [];
    }
  }

  /** The first `n` indices have been reset. */
  ghost predicate Cleared(was: map<int, Slot>, io: map<int, Slot>, n: nat)
  {
    && io.Keys == was.Keys
    && forall fd :: fd in io ==> io[fd] == if was[fd].idxplus1 <= n then was[fd].(idxplus1 := 0) else was[fd]
  }

  lemma ClearedAll(was: map<int, Slot>, io: map<int, Slot>, n: nat)
    requires Cleared(was, io, n) && forall fd :: fd in was ==> was[fd].idxplus1 <= n
    ensures io == ClearIndices(was)
  {
    assert ClearIndices(was).Keys == was.Keys;
    assert forall fd :: fd in io ==> io[fd] == ClearIndices(was)[fd];
  }
}
