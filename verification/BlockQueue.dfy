/** log/block_queue.h: the circular array behind the blocking queue.  Every method runs under the mutex of
the queue; pop is entered when its wait is over. */
module BlockQueue {
  function Wrap(x: nat, max: nat): (r: nat)
    requires max > 0
    ensures r < max
    ensures x < max ==> r == x
  {
    x % max
  }

  lemma Multiples(p: int, q: int, max: nat)
    requires p > q
    ensures p * max >= q * max + max
  {
    assert p * max == q * max + max + (p - q - 1) * max;
  }

  lemma WrapIs(x: nat, q: int, r: nat, max: nat)
    requires max > 0 && x == q * max + r && r < max
    ensures Wrap(x, max) == r
  {
    var p := x / max;
    assert x == p * max + x % max;
    if p > q { Multiples(p, q, max); } else if p < q { Multiples(q, p, max); }
  }

  lemma WrapAdd(x: nat, k: nat, max: nat)
    requires max > 0
    ensures Wrap(Wrap(x, max) + k, max) == Wrap(x + k, max)
  {
    var y := Wrap(x, max) + k;
    var q, r := y / max, y % max;
    assert x + k == (x / max + q) * max + r;
    WrapIs(x + k, x / max + q, r, max);
  }

  lemma WrapDistinct(x: nat, i: nat, j: nat, max: nat)
    requires i < j < i + max
    ensures Wrap(x + i, max) != Wrap(x + j, max)
  {
    var q, r := (x + i) / max, (x + i) % max;
    if r + (j - i) < max {
      WrapIs(x + j, q, r + (j - i), max);
    } else {
      assert (q + 1) * max == q * max + max;
      WrapIs(x + j, q + 1, r + (j - i) - max, max);
    }
  }

  lemma WrapAround(x: nat, max: nat)
    requires max > 0
    ensures Wrap(x + max, max) == Wrap(x, max)
  {
    var q, r := x / max, x % max;
    assert (q + 1) * max == q * max + max;
    WrapIs(x + max, q + 1, r, max);
  }

  /** The `size` elements behind the slot `front`. */
  function Window<T>(a: seq<T>, front: int, size: nat): (r: seq<T>)
    requires |a| > 0 && front >= -1
    ensures |r| == size && forall i :: 0 <= i < size ==> r[i] == a[Wrap(front + 1 + i, |a|)]
  {
    seq(size, i requires 0 <= i < size => a[Wrap(front + 1 + i, |a|)])
  }

  lemma WindowPush<T>(a: seq<T>, front: int, size: nat, x: T)
    requires |a| > 0 && front >= -1 && size < |a|
    ensures Window(a[Wrap(front + 1 + size, |a|) := x], front, size + 1) == Window(a, front, size) + [x]
  {
    hide Wrap;
    var b := a[Wrap(front + 1 + size, |a|) := x];
    var w, v := Window(b, front, size + 1), Window(a, front, size);
    forall i | 0 <= i < size ensures w[i] == v[i] {
      WrapDistinct(front + 1, i, size, |a|);
    }
    assert w == v + [x];
  }

  lemma WindowPop<T>(a: seq<T>, front: int, size: nat)
    requires |a| > 0 && front >= -1 && size > 0
    ensures Window(a, front, size) == [a[Wrap(front + 1, |a|)]] + Window(a, Wrap(front + 1, |a|), size - 1)
  {
    hide Wrap;
    var w, v := Window(a, front, size), Window(a, Wrap(front + 1, |a|), size - 1);
    forall i | 0 <= i < size - 1 ensures w[i + 1] == v[i] {
      WrapAdd(front + 1, i + 1, |a|);
    }
    assert w == [a[Wrap(front + 1, |a|)]] + v;
  }

  /** What front() and back() deliver: false, an element, or a read outside the array. */
  datatype Read<T> = Empty | Got(value: T) | OutOfBounds

  /** What front() delivers: it reads the slot in front of the first element.  That is outside the array
      before the first pop, then the element popped last, and the newest element once the queue is full. */
  function FrontRead<T>(contents: seq<T>, popped: seq<T>, max: nat): Read<T> {
    if contents == [] then Empty
    else if popped == [] then OutOfBounds
    else if |contents| == max then Got(contents[max - 1])
    else Got(popped[0])
  }

  /** With different elements in it, front() delivers the first one if and only if the queue has a single
      slot and something was popped since it was last empty by construction or clear. */
  lemma FrontIsFirstIff<T>(contents: seq<T>, popped: seq<T>, max: nat)
    requires 0 < |contents| <= max && |popped| <= 1 && (popped != [] ==> popped[0] != contents[0])
    requires forall i :: 0 < i < |contents| ==> contents[i] != contents[0]
    ensures FrontRead(contents, popped, max) == Got(contents[0]) <==> popped != [] && max == 1
  {
    if max > 1 && |contents| == max { assert contents[max - 1] != contents[0]; }
  }

  /** 1 and 2 pushed, 1 popped: front() delivers 1, which is gone. */
  method FrontAfterPop() returns (front: Read<int>, first: Read<int>)
    ensures front == Got(1) && first == Got(2)
  {
    var q := new Queue<int>(10);
    var _ := q.Push(1);
    var _ := q.Push(2);
    var _ := q.Pop();
    front := q.Front();
    first := q.Pop();
  }

  class Queue<T(0)> {
    const slots: array<T>
    const maxSize: nat
    var size: nat
    var front: int
    var back: int
    /** The element popped last, if there was one since the last clear. */
    ghost var popped: seq<T>

    ghost predicate Valid()
      reads this, slots
    {
      && 0 < maxSize == slots.Length && size <= maxSize
      && -1 <= front < maxSize
      && back == (if front + size == -1 then -1 else Wrap(front + size, maxSize))
      && |popped| <= 1 && (front == -1 <==> popped == [])
      && (front >= 0 && size < maxSize ==> slots[front] == popped[0])
    }

    ghost function Contents(): seq<T>
      requires Valid()
      reads this, slots
    {
      Window(slots[..], front, size)
    }

    /** A size that is not positive ends the process. */
    constructor (max: nat)
      requires max > 0
      ensures Valid() && Contents() == [] && maxSize == max && popped == [] && fresh(slots)
    {
      slots := new T[max];
      maxSize := max;
      size, front, back := 0, -1, -1;
      popped := [];
    }

    method Clear()
      requires Valid()
      modifies this
      ensures Valid() && Contents() == [] && popped == []
    {
      size, front, back := 0, -1, -1;
      popped := [];
    }

    method Push(item: T) returns (ok: bool)
      requires Valid()
      modifies this, slots
      ensures Valid() && ok == (|old(Contents())| < maxSize) && popped == old(popped)
      ensures Contents() == if ok then old(Contents()) + [item] else old(Contents())
    {
      hide Wrap, Window;
      if size >= maxSize { return false; }
      WindowPush(slots[..], front, size, item);
      if front + size >= 0 { WrapAdd(front + size, 1, maxSize); }
      if front >= 0 && size + 1 < maxSize { WrapDistinct(front, 0, 1 + size, maxSize); }
      back := Wrap(back + 1, maxSize);
      slots[back] := item;
      size := size + 1;
      assert slots[..] == old(slots[..])[back := item];
      return true;
    }

    /** pop once the wait is over: false if a timeout ended it. */
    method Pop() returns (r: Read<T>)
      requires Valid()
      modifies this
      ensures Valid()
      ensures old(Contents()) == [] ==> r == Empty && Contents() == [] && popped == old(popped)
      ensures old(Contents()) != [] ==>
        r == Got(old(Contents())[0]) && Contents() == old(Contents())[1..] && popped == [r.value]
    {
      hide Wrap, Window;
      if size <= 0 { return Empty; }
      WindowPop(slots[..], front, size);
      WrapAdd(front + 1, size - 1, maxSize);
      front := Wrap(front + 1, maxSize);
      size := size - 1;
      popped := [slots[front]];
      return Got(slots[front]);
    }

    method Back() returns (r: Read<T>)
      requires Valid()
      ensures r == if Contents() == [] then Empty else Got(Contents()[|Contents()| - 1])
    {
      if size == 0 { return Empty; }
      assert Contents()[size - 1] == slots[..][Wrap(front + 1 + (size - 1), maxSize)];
      return Got(slots[back]);
    }

    method Front() returns (r: Read<T>)
      requires Valid()
      ensures r == FrontRead(Contents(), popped, maxSize)
    {
      if size == 0 { return Empty; }
      if front < 0 { return OutOfBounds; }
      WrapAround(front, maxSize);
      assert Contents()[size - 1] == slots[..][Wrap(front + 1 + (size - 1), maxSize)];
      return Got(slots[front]);
    }

    method Size() returns (n: nat)
      requires Valid()
      ensures n == |Contents()|
    {
      n := size;
    }
  }
}
