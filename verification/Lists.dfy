/** Linked lists (libevent's TAILQs) as sequences: removal of one element, and the facts the queues rely on. */
module Lists {

  datatype Option<+T> = None | Some(value: T)

  ghost predicate NoDup<T>(s: seq<T>)
  {
    forall i, j :: 0 <= i < j < |s| ==> s[i] != s[j]
  }

  /** TAILQ_REMOVE: unlink the first cell that holds `x`. */
  function Remove<T(==)>(s: seq<T>, x: T): (r: seq<T>)
    ensures x !in s ==> r == s
    ensures x in s ==> |r| == |s| - 1
  {
    if s == [] then []
    else if s[0] == x then s[1..]
    else [s[0]] + Remove(s[1..], x)
  }

  lemma {:induction false} RemoveAt<T>(s: seq<T>, x: T) returns (k: nat)
    requires x in s
    ensures k < |s| && s[k] == x && Remove(s, x) == s[..k] + s[k + 1..]
    ensures x !in s[..k]
  {
    if s[0] == x {
      k := 0;
      assert s[..0] + s[1..] == s[1..];
    } else {
      assert x in s[1..];
      k := RemoveAt(s[1..], x);
      assert s[..k + 1] == [s[0]] + s[1..][..k];
      assert s[k + 2..] == s[1..][k + 1..];
      k := k + 1;
    }
  }

  /** Unlinking from a list without repetitions removes exactly that element and keeps the others' order. */
  lemma {:induction false} RemoveFacts<T>(s: seq<T>, x: T)
    requires NoDup(s)
    ensures NoDup(Remove(s, x))
    ensures forall y :: y in Remove(s, x) <==> y in s && y != x
  {
    if x in s {
      var k := RemoveAt(s, x);
      WithoutAt(s, k, Remove(s, x));
    }
  }

  lemma WithoutAt<T>(s: seq<T>, k: nat, r: seq<T>)
    requires NoDup(s) && k < |s| && r == s[..k] + s[k + 1..]
    ensures NoDup(r)
    ensures forall y :: y in r <==> y in s && y != s[k]
  {
    forall y | y in s && y != s[k]
      ensures y in r
    {
      var i :| 0 <= i < |s| && s[i] == y;
      assert r[if i < k then i else i - 1] == y;
    }
    forall y | y in r
      ensures y in s && y != s[k]
    {
      var i :| 0 <= i < |r| && r[i] == y;
      assert y == s[if i < k then i else i + 1];
    }
  }
}
