/** The engine's node pool and its single-producer, single-consumer ring of node pointers. */
module MsgQueue {
  import opened Lists

  // ---------- The ring as a value ----------

  /** `slots[front]` is the oldest entry; one slot always stays unused. */
  datatype Ring<T> = Ring(slots: seq<Option<T>>, front: nat, back: nat)

  predicate RingOk<T>(r: Ring<T>)
  {
    r.front < |r.slots| && r.back < |r.slots|
  }

  /** Position `i` places after `start` on a ring of `cap` slots. */
  function Pos(start: nat, i: nat, cap: nat): (k: nat)
    requires start < cap && i < cap
    ensures k < cap
  {
    if start + i < cap then start + i else start + i - cap
  }

  function Next(i: nat, cap: nat): (k: nat)
    requires i < cap
    ensures k < cap
  {
    if i + 1 == cap then 0 else i + 1
  }

  /** The source's index step. */
  lemma NextIsMod(i: nat, cap: nat)
    requires i < cap
    ensures Next(i, cap) == (i + 1) % cap
  {
    if i + 1 < cap {
      SmallMod(i + 1, cap);
    }
  }

  lemma SmallMod(x: nat, m: nat)
    requires x < m
    ensures x % m == x
  {
  }

  function Count<T>(r: Ring<T>): (n: nat)
    requires RingOk(r)
    ensures n < |r.slots| && Pos(r.front, n, |r.slots|) == r.back
  {
    if r.front <= r.back then r.back - r.front else r.back + |r.slots| - r.front
  }

  /** The queued entries, oldest first. */
  function Live<T>(r: Ring<T>): (q: seq<Option<T>>)
    requires RingOk(r)
    ensures |q| == Count(r) && forall i :: 0 <= i < |q| ==> q[i] == r.slots[Pos(r.front, i, |r.slots|)]
  {
    seq(Count(r), i requires 0 <= i < Count(r) => r.slots[Pos(r.front, i, |r.slots|)])
  }

  /** The entries of a ring none of whose queued slots is empty. */
  function Values<T>(q: seq<Option<T>>): (v: seq<T>)
    requires forall i :: 0 <= i < |q| ==> q[i].Some?
    ensures |v| == |q| && forall i :: 0 <= i < |v| ==> q[i] == Some(v[i])
  {
    seq(|q|, i requires 0 <= i < |q| => q[i].value)
  }

  predicate IsFull<T>(r: Ring<T>)
    requires RingOk(r)
  {
    Next(r.back, |r.slots|) == r.front
  }

  function WriteBack<T>(r: Ring<T>, x: T): Ring<T>
    requires RingOk(r)
  {
    r.(slots := r.slots[r.back := Some(x)])
  }

  function AdvanceBack<T>(r: Ring<T>): Ring<T>
    requires RingOk(r)
  {
    r.(back := Next(r.back, |r.slots|))
  }

  function ClearFront<T>(r: Ring<T>): Ring<T>
    requires RingOk(r)
  {
    r.(slots := r.slots[r.front := None])
  }

  function AdvanceFront<T>(r: Ring<T>): Ring<T>
    requires RingOk(r)
  {
    r.(front := Next(r.front, |r.slots|))
  }

  lemma FullIff<T>(r: Ring<T>)
    requires RingOk(r)
    ensures IsFull(r) <==> Count(r) == |r.slots| - 1
  {
  }

  /** Writing the back slot is invisible to the reader until the index moves. */
  lemma WriteBackLive<T>(r: Ring<T>, x: T)
    requires RingOk(r)
    ensures Live(WriteBack(r, x)) == Live(r)
  {
  }

  lemma AdvanceBackLive<T>(r: Ring<T>)
    requires RingOk(r) && !IsFull(r)
    ensures Live(AdvanceBack(r)) == Live(r) + [r.slots[r.back]]
  {
  }

  lemma ClearFrontLive<T>(r: Ring<T>)
    requires RingOk(r) && r.front != r.back
    ensures Live(ClearFront(r)) == [None] + Live(r)[1..]
  {
  }

  lemma AdvanceFrontLive<T>(r: Ring<T>)
    requires RingOk(r) && r.front != r.back
    ensures Live(AdvanceFront(r)) == Live(r)[1..]
  {
  }

  // ---------- msg_queue<tt> ----------

  class Queue<T(0)> {
    const cap: nat
    var q: array<Option<T>>
    var front: nat
    var back: nat

    ghost predicate Valid()
      reads this, q
    {
      cap >= 1 && q.Length == cap && RingOk(Abs()) && forall i :: 0 <= i < |Live(Abs())| ==> Live(Abs())[i].Some?
    }

    ghost function Abs(): Ring<T>
      reads this, q
    {
      Ring(q[..], front, back)
    }

    ghost function Contents(): (c: seq<T>)
      requires Valid()
      reads this, q
      ensures |c| == Count(Abs()) && forall i :: 0 <= i < |c| ==> Live(Abs())[i] == Some(c[i])
    {
      Values(Live(Abs()))
    }

    constructor (cap: nat)
      requires cap >= 1
      ensures Valid() && Contents() == [] && this.cap == cap && fresh(q)
    {
      this.cap := cap;
      q := new Option<T>[cap](_ => None);
      front, back := 0, 0;
    }

    method Push(x: T) returns (ok: bool)
      requires Valid()
      modifies this`back, q
      ensures Valid()
      ensures ok <==> |old(Contents())| < cap - 1
      ensures Contents() == if ok then old(Contents()) + [x] else old(Contents())
    {
      ghost var r := Abs();
      FullIff(r);
      NextIsMod(back, cap);
      if (back + 1) % cap == front {
        return false;
      }
      q[back] := Some(x);
      assert Abs() == WriteBack(r, x);
      WriteBackLive(r, x);
      AdvanceBackLive(Abs());
      back := (back + 1) % cap;
      assert Abs() == AdvanceBack(WriteBack(r, x));
      return true;
    }

    method Pop() returns (x: Option<T>)
      requires Valid()
      modifies this`front, q
      ensures Valid()
      ensures old(Contents()) == [] ==> x == None && Contents() == []
      ensures old(Contents()) != [] ==> x == Some(old(Contents())[0]) && Contents() == old(Contents())[1..]
    {
      if front == back {
        return None;
      }
      ghost var r := Abs();
      NextIsMod(front, cap);
      x := q[front];
      assert Live(r)[0] == x;
      q[front] := None;
      assert Abs() == ClearFront(r);
      ClearFrontLive(r);
      AdvanceFrontLive(Abs());
      front := (front + 1) % cap;
      assert Abs() == AdvanceFront(ClearFront(r));
    }

    method GetFront() returns (x: Option<T>)
      requires Valid()
      ensures x == if Contents() == [] then None else Some(Contents()[0])
    {
      if front == back {
        return None;
      }
      assert Live(Abs())[0] == q[front];
      x := q[front];
    }
  }

  // ---------- msg_stack_pool<tt> ----------

  class Pool<T(0)> {
    const cap: nat
    var freeList: array<T>
    var top: nat
    var minTop: nat

    ghost predicate Valid()
      reads this, freeList
    {
      freeList.Length == cap && top <= cap && minTop <= top
    }

    ghost function Free(): seq<T>
      requires Valid()
      reads this, freeList
    {
      freeList[..top]
    }

    constructor (nodes: seq<T>)
      ensures Valid() && Free() == nodes && cap == |nodes| && fresh(freeList)
    {
      cap := |nodes|;
      freeList := new T[|nodes|](i requires 0 <= i < |nodes| => nodes[i]);
      top, minTop := |nodes|, |nodes|;
    }

    method Alloc() returns (r: Option<T>)
      requires Valid()
      modifies this`top, this`minTop
      ensures Valid()
      ensures old(Free()) == [] ==> r == None && Free() == []
      ensures old(Free()) != [] ==> r.Some? && Free() + [r.value] == old(Free())
      ensures minTop == if top < old(minTop) then top else old(minTop)
    {
      if top == 0 {
        return None;
      }
      top := top - 1;
      r := Some(freeList[top]);
      if top < minTop {
        minTop := top;
      }
    }

    method Release(x: T) returns (ok: bool)
      requires Valid()
      modifies this`top, freeList
      ensures Valid()
      ensures ok <==> |old(Free())| < cap
      ensures Free() == if ok then old(Free()) + [x] else old(Free())
    {
      if top == cap {
        return false;
      }
      freeList[top] := x;
      top := top + 1;
      return true;
    }
  }
}
