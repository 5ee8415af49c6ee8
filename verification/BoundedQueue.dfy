/**
  The ring buffer of source/Utility/BoundedQueue.h, refined to a sequence.
 */
module BoundedQueue {

  /** The slot `i` places after `front` in a ring of `n`. */
  function Slot(front: nat, i: nat, n: nat): (k: nat)
    requires front < n && i <= n
    ensures k < n
  {
    if front + i < n then front + i else front + i - n
  }

  lemma SlotIsRemainder(front: nat, i: nat, n: nat)
    requires front < n && i <= n
    ensures (front + i) % n == Slot(front, i, n)
  {
    if front + i >= n {
      assert front + i == n + Slot(front, i, n);
      RemainderOfWrap(Slot(front, i, n), n);
    }
  }

  lemma RemainderOfWrap(k: nat, n: nat)
    requires k < n
    ensures (n + k) % n == k
  {
    assert (n + k) / n == 1;
  }

  class BoundedQueue<T(0)> {
    const data: array<T>
    var curFront: nat
    var curBack: nat
    var curSize: nat

    ghost predicate Valid()
      reads this
    {
      0 < data.Length && curFront < data.Length && curSize <= data.Length && curBack == Slot(curFront, curSize, data.Length)
    }

    /** What the queue holds, front first. */
    ghost function Contents(): (s: seq<T>)
      requires Valid()
      reads this, data
      ensures |s| == curSize
    {
      seq(curSize, i requires 0 <= i < curSize && Valid() reads this, data => data[Slot(curFront, i, data.Length)])
    }

    constructor (maxSize: nat)
      requires maxSize > 0
      ensures Valid() && fresh(data) && data.Length == maxSize && Contents() == []
    {
      data := new T[maxSize];
      curFront, curBack, curSize := 0, 0, 0;
    }

    method Reset()
      modifies this
      requires data.Length > 0
      ensures Valid() && Contents() == []
    {
      curFront := 0;
      curBack := 0;
      curSize := 0;
    }

    method Enqueue(x: T) returns (ok: bool)
      requires Valid()
      modifies this, data
      ensures Valid()
      ensures ok <==> |old(Contents())| < data.Length
      ensures Contents() == if ok then old(Contents()) + [x] else old(Contents())
    {
      if curSize == data.Length {
        return false;
      }
      data[curBack] := x;
      SlotIsRemainder(curBack, 1, data.Length);
      curBack := (curBack + 1) % data.Length;
      curSize := curSize + 1;
      assert Contents() == old(Contents()) + [x];
      return true;
    }

    /** The source does not check for an empty queue: its callers do. */
    method Dequeue() returns (x: T)
      requires Valid() && Contents() != []
      modifies this
      ensures Valid()
      ensures x == old(Contents())[0] && Contents() == old(Contents())[1..]
    {
      x := data[curFront];
      SlotIsRemainder(curFront, 1, data.Length);
      curFront := (curFront + 1) % data.Length;
      curSize := curSize - 1;
      assert Contents() == old(Contents())[1..];
    }

    method PeekFront(idxFromFront: nat) returns (x: T)
      requires Valid() && idxFromFront < |Contents()|
      ensures x == Contents()[idxFromFront]
    {
      SlotIsRemainder(curFront, idxFromFront, data.Length);
      x := data[(curFront + idxFromFront) % data.Length];
    }

    /** Assignment through the reference `operator[]` returns. */
    method Put(idx: nat, x: T)
      requires Valid() && idx < |Contents()|
      modifies data
      ensures Valid()
      ensures Contents() == old(Contents())[idx := x]
    {
      SlotIsRemainder(curFront, idx, data.Length);
      data[(curFront + idx) % data.Length] := x;
      assert Contents() == old(Contents())[idx := x];
    }

    method Size() returns (n: nat)
      requires Valid()
      ensures n == |Contents()|
    {
      n := curSize;
    }

    method IsEmpty() returns (b: bool)
      requires Valid()
      ensures b <==> Contents() == []
    {
      b := curSize == 0;
    }

    method IsFull() returns (b: bool)
      requires Valid()
      ensures b <==> |Contents()| == data.Length
    {
      b := curSize == data.Length;
    }
  }
}
