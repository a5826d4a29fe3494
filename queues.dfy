/** FixedSizeQueue<T>: a bounded FIFO queue that drops its oldest item on overflow
    and refuses new items once it has been marked complete. */
module Queues {
  import opened Common

  /** The InvalidOperationException thrown by Enqueue on a completed queue. */
  datatype QueueError = AddToCompletedQueue

  /** The newest `n` items of `s`, in their original order. */
  function Newest<T>(s: seq<T>, n: nat): (r: seq<T>)
    ensures |s| <= n ==> r == s
    ensures |s| > n ==> r == s[|s| - n..]
    ensures |r| <= n
  {
    if |s| <= n then s else s[|s| - n..]
  }

  /** The contents after pushing each of `xs`, in order, onto a queue of capacity `n` holding `items`. */
  function AfterPushes<T>(items: seq<T>, xs: seq<T>, n: nat): seq<T>
    decreases |xs|
  {
    if xs == [] then items else AfterPushes(Newest(items + [xs[0]], n), xs[1..], n)
  }

  /** Dropping the oldest items one push at a time keeps exactly the newest `n` of everything pushed. */
  lemma {:induction false} AfterPushesKeepsNewest<T>(items: seq<T>, xs: seq<T>, n: nat)
    requires |items| <= n
    ensures AfterPushes(items, xs, n) == Newest(items + xs, n)
    ensures |AfterPushes(items, xs, n)| <= n
    decreases |xs|
  {
    if xs == [] {
      assert items + xs == items;
    } else {
      var s := items + [xs[0]];
      AfterPushesKeepsNewest(Newest(s, n), xs[1..], n);
      assert items + xs == s + xs[1..];
      NewestOfNewest(s, xs[1..], n);
    }
  }

  lemma NewestOfNewest<T>(s: seq<T>, t: seq<T>, n: nat)
    ensures Newest(Newest(s, n) + t, n) == Newest(s + t, n)
  {
    var a := Newest(s, n);
    var u, v := a + t, s + t;
    assert |Newest(u, n)| == |Newest(v, n)|;
    var m := |Newest(u, n)|;
    forall i | 0 <= i < m ensures Newest(u, n)[i] == Newest(v, n)[i] {
      assert Newest(u, n)[i] == u[|u| - m + i];
      assert Newest(v, n)[i] == v[|v| - m + i];
      if |u| - m + i >= |a| {
        assert u[|u| - m + i] == t[|u| - m + i - |a|];
        assert v[|v| - m + i] == t[|v| - m + i - |s|];
      } else {
        assert u[|u| - m + i] == a[|u| - m + i];
        assert a[|u| - m + i] == s[|s| - |a| + |u| - m + i];
      }
    }
  }

  class FixedSizeQueue<T> {
    /** The capacity, Size in the source. */
    const size: nat
    /** The one-way flag set by CompleteAdding. */
    var isCompleted: bool
    /** The queued items, oldest first. */
    var items: seq<T>

    ghost predicate Valid()
      reads this
    {
      |items| <= size
    }

    function Count(): (c: nat)
      reads this
      requires Valid()
      ensures c <= size
    {
      |items|
    }

    constructor (size: nat)
      ensures Valid()
      ensures this.size == size && !isCompleted && items == []
    {
      this.size := size;
      isCompleted := false;
      items := [];
    }

    /** Appends `obj`, then takes from the head while the queue is longer than its capacity. */
    method Enqueue(obj: T) returns (r: Outcome<QueueError>)
      requires Valid()
      modifies this
      ensures Valid()
      ensures isCompleted == old(isCompleted)
      ensures old(isCompleted) ==> r == Fail(AddToCompletedQueue) && items == old(items)
      ensures !old(isCompleted) ==> r == Pass && items == Newest(old(items) + [obj], size)
    {
      if isCompleted {
        return Fail(AddToCompletedQueue);
      }
      ghost var pushed := items + [obj];
      items := items + [obj];
      while |items| > size
        invariant |items| <= |pushed| && items == pushed[|pushed| - |items|..]
        invariant |items| >= size || items == pushed
        invariant !isCompleted
        decreases |items|
      {
        items := items[1..];
      }
      r := Pass;
    }

    /** Sets the completed flag; idempotent, and removes nothing. */
    method CompleteAdding()
      requires Valid()
      modifies this
      ensures Valid()
      ensures isCompleted && items == old(items)
    {
      isCompleted := true;
    }

    /** Takes the head item. A take on an empty queue would block; here it returns None. */
    method Dequeue() returns (x: Option<T>)
      requires Valid()
      modifies this
      ensures Valid()
      ensures isCompleted == old(isCompleted)
      ensures old(items) == [] ==> x == None && items == []
      ensures old(items) != [] ==> x == Some(old(items)[0]) && items == old(items)[1..]
    {
      if items == [] {
        return None;
      }
      x := Some(items[0]);
      items := items[1..];
    }
  }

  /** With capacity 2, pushing a, b, c and taking twice yields b then c: a was dropped. */
  method DropOldestScenario<T>(a: T, b: T, c: T) returns (first: Option<T>, second: Option<T>, rest: nat)
    ensures first == Some(b) && second == Some(c) && rest == 0
  {
    var q := new FixedSizeQueue<T>(2);
    var _ := q.Enqueue(a);
    var _ := q.Enqueue(b);
    var _ := q.Enqueue(c);
    assert q.items == [b, c] by {
      assert ([a, b] + [c])[1..] == [b, c];
    }
    first := q.Dequeue();
    second := q.Dequeue();
    rest := q.Count();
  }
}
