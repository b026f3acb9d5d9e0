/** The indexed binary min-heap that holds an event base's timeouts.
    Every event stores its own slot number, so erase works in place from any position. */
module MinHeap {

  /** The part of a libevent event that the heap reads and writes. */
  class Event {
    var deadline: int
    var heapIdx: int

    constructor ()
      ensures heapIdx == -1
    {
      deadline, heapIdx := 0, -1;
    }
  }

  function Parent(i: int): int
  {
    (i - 1) / 2
  }

  class Heap {
    var p: array<Event?>
    var n: nat
    ghost var members: set<Event>

    /** Slots and back-indices agree, ignoring slot `hole`. */
    ghost predicate IndexedExcept(hole: int)
      reads this, p, members
    {
      && n <= p.Length
      && (forall e :: e in members ==> 0 <= e.heapIdx < n && e.heapIdx != hole && p[e.heapIdx] == e)
      && (forall i :: 0 <= i < n && i != hole ==> p[i] != null && p[i] in members && p[i].heapIdx == i)
    }

    /** Heap order between all occupied slots other than `hole`, including from the parent of
        `hole` to its children. */
    ghost predicate OrderedExcept(hole: int)
      requires IndexedExcept(hole)
      reads this, p, members
    {
      && (forall i :: 1 <= i < n && i != hole && Parent(i) != hole ==> p[Parent(i)].deadline <= p[i].deadline)
      && (hole >= 1 ==> forall i :: 1 <= i < n && i != hole && Parent(i) == hole ==> p[Parent(hole)].deadline <= p[i].deadline)
    }

    ghost predicate Valid()
      reads this, p, members
    {
      IndexedExcept(-1) && OrderedExcept(-1)
    }

    constructor ()
      ensures Valid() && members == {} && fresh(p)
    {
      p := new Event?[0];
      n := 0;
      members := {};
    }

    /** The array grows by doubling, from 8. */
    method Reserve(want: nat)
      requires n <= p.Length
      modifies this`p
      ensures n <= p.Length && want <= p.Length
      ensures p == old(p) || fresh(p)
      ensures forall i :: 0 <= i < n ==> p[i] == old(p[i])
    {
      if p.Length < want {
        var a := if p.Length == 0 then 8 else p.Length * 2;
        if a < want {
          a := want;
        }
        var q := new Event?[a];
        for i := 0 to n
          invariant p == old(p) && n <= p.Length
          invariant forall j :: 0 <= j < i ==> q[j] == p[j]
        {
          q[i] := p[i];
        }
        p := q;
      }
    }

    /** Slide the element in slot `from` into the hole; the hole is then at `from`. */
    method MoveInto(hole: nat, from: nat)
      requires hole < n && from < n && hole != from && IndexedExcept(hole)
      modifies p, members`heapIdx
      ensures IndexedExcept(from)
      ensures p[hole] == old(p[from]) && forall i :: 0 <= i < p.Length && i != hole ==> p[i] == old(p[i])
    {
      p[hole] := p[from];
      p[hole].heapIdx := hole;
    }

    method MoveDown(hole: nat, child: nat)
      requires hole < child < n && Parent(child) == hole
      requires IndexedExcept(hole) && OrderedExcept(hole)
      requires forall i :: 1 <= i < n && Parent(i) == hole ==> p[child].deadline <= p[i].deadline
      modifies p, members`heapIdx
      ensures IndexedExcept(child) && OrderedExcept(child)
      ensures p[hole] == old(p[child])
    {
      MoveInto(hole, child);
    }

    method MoveUp(hole: nat, parent: nat)
      requires 1 <= hole < n && parent == Parent(hole)
      requires IndexedExcept(hole) && OrderedExcept(hole)
      modifies p, members`heapIdx
      ensures IndexedExcept(parent) && OrderedExcept(parent)
      ensures forall i :: 1 <= i < n && Parent(i) == parent ==> old(p[parent]).deadline <= p[i].deadline
    {
      MoveInto(hole, parent);
    }

    /** `right` is one past or equal to the right child; pick the child with the earlier deadline. */
    method LesserChild(hole: nat, right: nat) returns (child: nat)
      requires right == 2 * (hole + 1) <= n
      requires IndexedExcept(hole)
      ensures hole < child < n && Parent(child) == hole
      ensures forall i :: 1 <= i < n && Parent(i) == hole ==> p[child].deadline <= p[i].deadline
    {
      child := right;
      if right == n || p[right].deadline > p[right - 1].deadline {
        child := right - 1;
      }
    }

    /** Write `e` into the hole. A hole just past the end is not a live slot. */
    method Fill(hole: nat, e: Event)
      requires hole <= n && hole < p.Length && IndexedExcept(hole) && OrderedExcept(hole)
      requires e !in members
      requires 1 <= hole < n ==> p[Parent(hole)].deadline <= e.deadline
      requires forall i :: 1 <= i < n && Parent(i) == hole ==> e.deadline <= p[i].deadline
      modifies this`members, p, e`heapIdx
      ensures Valid() && members == old(members) + (if hole < n then {e} else {})
    {
      Write(hole, e);
      forall i | 1 <= i < n
        ensures p[Parent(i)].deadline <= p[i].deadline
      {
        assert i == hole || Parent(i) == hole || (i != hole && Parent(i) != hole);
      }
    }

    method Write(hole: nat, e: Event)
      requires hole <= n && hole < p.Length && IndexedExcept(hole)
      requires e !in members
      modifies this`members, p, e`heapIdx
      ensures IndexedExcept(-1) && members == old(members) + (if hole < n then {e} else {})
      ensures p[hole] == e && forall i :: 0 <= i < p.Length && i != hole ==> p[i] == old(p[i])
    {
      p[hole] := e;
      e.heapIdx := hole;
      if hole < n {
        members := members + {e};
      }
    }

    method ShiftUp(hole0: nat, e: Event)
      requires hole0 < n && IndexedExcept(hole0) && OrderedExcept(hole0)
      requires e !in members
      requires forall i :: 1 <= i < n && Parent(i) == hole0 ==> e.deadline <= p[i].deadline
      modifies this`members, p, members`heapIdx, e`heapIdx
      ensures Valid() && members == old(members) + {e}
    {
      var hole := RaiseHole(hole0, e);
      Fill(hole, e);
    }

    /** Move the hole towards the root, past every ancestor later than `e`. */
    method RaiseHole(hole0: nat, e: Event) returns (hole: nat)
      requires hole0 < n && IndexedExcept(hole0) && OrderedExcept(hole0)
      requires forall i :: 1 <= i < n && Parent(i) == hole0 ==> e.deadline <= p[i].deadline
      modifies p, members`heapIdx
      ensures hole < n && IndexedExcept(hole) && OrderedExcept(hole)
      ensures hole >= 1 ==> p[Parent(hole)].deadline <= e.deadline
      ensures forall i :: 1 <= i < n && Parent(i) == hole ==> e.deadline <= p[i].deadline
    {
      hole := hole0;
      var parent := Parent(hole);
      while hole != 0 && p[parent].deadline > e.deadline
        invariant 0 <= hole < n && parent == Parent(hole)
        invariant IndexedExcept(hole) && OrderedExcept(hole)
        invariant forall i :: 1 <= i < n && Parent(i) == hole ==> e.deadline <= p[i].deadline
        decreases hole
      {
        MoveUp(hole, parent);
        hole := parent;
        parent := Parent(hole);
      }
    }

    /** With `hole0 == n` (the removed element was the last one) nothing below the size moves. */
    method ShiftDown(hole0: nat, e: Event)
      requires hole0 <= n < p.Length && IndexedExcept(hole0) && OrderedExcept(hole0)
      requires e !in members
      requires 1 <= hole0 < n ==> p[Parent(hole0)].deadline <= e.deadline
      modifies this`members, p, members`heapIdx, e`heapIdx
      ensures Valid() && members == old(members) + (if hole0 < n then {e} else {})
    {
      var hole := SinkHole(hole0, e);
      Fill(hole, e);
    }

    /** One turn of the loop: the hole moves to its earlier child, or stays if neither child is earlier than `e`. */
    method SinkStep(hole: nat, right: nat, e: Event) returns (next: nat)
      requires right == 2 * (hole + 1) <= n && IndexedExcept(hole) && OrderedExcept(hole)
      requires hole >= 1 ==> p[Parent(hole)].deadline <= e.deadline
      modifies p, members`heapIdx
      ensures IndexedExcept(next) && OrderedExcept(next)
      ensures next >= 1 ==> next < n && p[Parent(next)].deadline <= e.deadline
      ensures next == hole || hole < next < n
      ensures next == hole ==> forall i :: 1 <= i < n && Parent(i) == hole ==> e.deadline <= p[i].deadline
    {
      var child := LesserChild(hole, right);
      if !(e.deadline > p[child].deadline) {
        return hole;
      }
      MoveDown(hole, child);
      next := child;
    }

    lemma NoChildren(hole: nat)
      requires n < 2 * (hole + 1)
      ensures forall i :: 1 <= i < n ==> Parent(i) != hole
    {
    }

    /** Move the hole towards the leaves, past every child earlier than `e`. */
    method SinkHole(hole0: nat, e: Event) returns (hole: nat)
      requires hole0 <= n < p.Length && IndexedExcept(hole0) && OrderedExcept(hole0)
      requires 1 <= hole0 < n ==> p[Parent(hole0)].deadline <= e.deadline
      modifies p, members`heapIdx
      ensures hole <= n && (hole == n <==> hole0 == n) && IndexedExcept(hole) && OrderedExcept(hole)
      ensures 1 <= hole < n ==> p[Parent(hole)].deadline <= e.deadline
      ensures forall i :: 1 <= i < n && Parent(i) == hole ==> e.deadline <= p[i].deadline
    {
      hole := hole0;
      var minChild := 2 * (hole + 1);
      while minChild <= n
        invariant 0 <= hole <= n && minChild == 2 * (hole + 1)
        invariant IndexedExcept(hole) && OrderedExcept(hole)
        invariant 1 <= hole < n ==> p[Parent(hole)].deadline <= e.deadline
        invariant hole == n <==> hole0 == n
        decreases n - hole
      {
        var next := SinkStep(hole, minChild, e);
        if next == hole {
          return;
        }
        hole := next;
        minChild := 2 * (hole + 1);
      }
      NoChildren(hole);
    }

    method Push(e: Event)
      requires Valid() && e !in members
      modifies this, p, members`heapIdx, e`heapIdx
      ensures Valid() && members == old(members) + {e}
      ensures p == old(p) || fresh(p)
    {
      Reserve(n + 1);
      n := n + 1;
      ShiftUp(n - 1, e);
    }

    /** The earliest member, without removing it. */
    method Top() returns (e: Event?)
      requires Valid()
      ensures e == null <==> members == {}
      ensures e != null ==> e in members && e.heapIdx == 0 && forall x :: x in members ==> e.deadline <= x.deadline
    {
      if n == 0 {
        e := null;
        if x :| x in members {
          assert false;
        }
      } else {
        e := p[0];
        TopIsLeast();
      }
    }

    method Pop() returns (e: Event?)
      requires Valid()
      modifies this, p, members`heapIdx
      ensures Valid()
      ensures e == null <==> old(members) == {}
      ensures e != null ==> e in old(members) && e.heapIdx == -1 && members == old(members) - {e}
      ensures e != null ==> forall x :: x in members ==> e.deadline <= x.deadline
      ensures p == old(p)
    {
      if n == 0 {
        if x :| x in members {
          assert false;
        }
        return null;
      }
      TopIsLeast();
      e := p[0];
      var last := TakeLast(e);
      ShiftDown(0, last);
      Detach(e);
    }

    /** Erase from any slot: only one of the two shifts is ever needed. */
    method Erase(e: Event) returns (found: bool)
      requires Valid()
      requires e in members || e.heapIdx == -1
      modifies this, p, members`heapIdx
      ensures Valid() && p == old(p)
      ensures found <==> e in old(members)
      ensures members == old(members) - {e} && e.heapIdx == -1
    {
      if e.heapIdx == -1 {
        return false;
      }
      var hole := e.heapIdx;
      var last := TakeLast(e);
      Refill(hole, last);
      Detach(e);
      return true;
    }

    method Refill(hole: nat, last: Event)
      requires hole <= n < p.Length && IndexedExcept(hole) && OrderedExcept(hole) && last !in members
      requires hole == n && n > 0 ==> p[Parent(n)].deadline <= last.deadline
      modifies this`members, p, members`heapIdx, last`heapIdx
      ensures Valid() && members == old(members) + (if hole < n then {last} else {})
    {
      var parent := Parent(hole);
      if hole > 0 && p[parent].deadline > last.deadline {
        ShiftUp(hole, last);
      } else {
        ShiftDown(hole, last);
      }
    }

    method Detach(e: Event)
      requires Valid() && e !in members
      modifies e`heapIdx
      ensures Valid() && e.heapIdx == -1
    {
      e.heapIdx := -1;
    }

    /** Shorten the heap by one and hand out its last element, leaving a hole where `e` was. */
    method TakeLast(e: Event) returns (last: Event)
      requires Valid() && e in members
      modifies this`n, this`members
      ensures n == old(n) - 1 && n < p.Length
      ensures members == old(members) - {e, last}
      ensures last in old(members) && (e.heapIdx == n <==> last == e) && e.heapIdx <= n
      ensures IndexedExcept(e.heapIdx) && OrderedExcept(e.heapIdx)
      ensures e.heapIdx == n && n > 0 ==> p[Parent(n)].deadline <= last.deadline
    {
      n := n - 1;
      last := p[n];
      members := members - {e, last};
    }

    lemma TopIsLeast()
      requires Valid() && n > 0
      ensures forall x :: x in members ==> p[0].deadline <= x.deadline
    {
      forall x | x in members
        ensures p[0].deadline <= x.deadline
      {
        RootBelow(x.heapIdx);
      }
    }

    lemma {:induction false} RootBelow(i: nat)
      requires Valid() && i < n
      ensures p[0].deadline <= p[i].deadline
      decreases i
    {
      if i > 0 {
        RootBelow(Parent(i));
      }
    }

    /** Move every deadline by the same amount, slot by slot: no member changes its rank. */
    method ShiftAll(off: int)
      requires Valid()
      modifies members`deadline
      ensures Valid()
      ensures forall e :: e in members ==> e.deadline == old(e.deadline) - off
    {
      for k := 0 to n
        invariant IndexedExcept(-1)
        invariant forall j :: 0 <= j < n ==> p[j].deadline == (if j < k then old(p[j].deadline) - off else old(p[j].deadline))
      {
        p[k].deadline := p[k].deadline - off;
      }
    }
  }
}
