/**
 The bounded queue under spdlog's asynchronous loggers: a ring that overruns its oldest item.
 */
module OverrunQueue {
  import opened Ring

  /** A queue of at most `capacity` items after one more is pushed; the oldest one gives way. */
  function Pushed<T>(q: seq<T>, capacity: nat, item: T): (r: seq<T>)
    requires |q| <= capacity
    ensures |r| <= capacity
  {
    if |q| < capacity then q + [item] else (q + [item])[1..]
  }

  class CircularQ<T(0)> {
    var maxItems: nat
    var head: nat
    var tail: nat
    var overrun: nat
    var v: array<T>

    ghost predicate Valid()
      reads this, v
    {
      && v.Length == maxItems && (maxItems > 0 ==> head < maxItems && tail < maxItems)
      && (maxItems == 0 ==> head == tail == 0)
    }

    ghost function Contents(): seq<T>
      reads this, v
      requires Valid()
    {
      if maxItems == 0 then [] else Window(v[..], head, tail)
    }

    /** A queue made without a size is disabled, with no slot at all. */
    constructor Disabled()
      ensures Valid() && maxItems == 0 && Contents() == [] && overrun == 0 && fresh(v)
    {
      maxItems, head, tail, overrun := 0, 0, 0, 0;
      v := new T[0];
    }

    constructor (capacity: nat)
      ensures Valid() && maxItems == capacity + 1 && Contents() == [] && overrun == 0 && fresh(v)
    {
      maxItems, head, tail, overrun := capacity + 1, 0, 0, 0;
      v := new T[capacity + 1];
    }

    method PushBack(item: T)
      requires Valid()
      modifies this, v
      ensures Valid() && v == old(v) && maxItems == old(maxItems)
      ensures maxItems == 0 ==> Contents() == [] && overrun == old(overrun)
      ensures maxItems > 0 ==>
        Contents() == Pushed(old(Contents()), maxItems - 1, item)
        && overrun == old(overrun) + if |old(Contents())| == maxItems - 1 then 1 else 0
      ensures maxItems > 1 && |old(Contents())| < maxItems - 1 ==> Contents() == old(Contents()) + [item]
      ensures maxItems > 1 && |old(Contents())| == maxItems - 1 ==> Contents() == old(Contents())[1..] + [item]
    {
      if maxItems > 0 {
        ghost var before := v[..];
        ghost var items := Contents();
        v[tail] := item;
        assert forall k :: 0 <= k < |items| ==> Slot(head, k, maxItems) != tail;
        var next := IndexAt(tail, 1, maxItems);
        if next == head {
          OverrunWindow(before, v[..], head, tail, item);
          tail := next;
          head := IndexAt(head, 1, maxItems);
          overrun := overrun + 1;
        } else {
          Appended(before, v[..], head, tail, [item]);
          tail := next;
        }
      }
    }

    method Front() returns (item: T)
      requires Valid() && Contents() != []
      ensures item == Contents()[0]
    {
      item := v[head];
    }

    method PopFront()
      requires Valid() && Contents() != []
      modifies this`head
      ensures Valid() && Contents() == old(Contents())[1..]
    {
      Consumed(v[..], head, tail, 1);
      head := IndexAt(head, 1, maxItems);
    }

    method Size() returns (n: nat)
      requires Valid()
      ensures n == |Contents()|
    {
      if tail >= head {
        return tail - head;
      }
      return maxItems - (head - tail);
    }

    method At(i: nat) returns (item: T)
      requires Valid() && i < |Contents()|
      ensures item == Contents()[i]
    {
      WindowAt(v[..], head, tail, i);
      var k := IndexAt(head, i, maxItems);
      item := v[k];
    }

    method Empty() returns (b: bool)
      requires Valid()
      ensures b <==> Contents() == []
    {
      b := tail == head;
    }

    method Full() returns (b: bool)
      requires Valid()
      ensures b <==> maxItems > 0 && |Contents()| == maxItems - 1
    {
      if maxItems > 0 {
        var next := IndexAt(tail, 1, maxItems);
        return next == head;
      }
      return false;
    }

    /** The moved-from queue is left disabled. */
    method CopyMoveable(other: CircularQ<T>)
      requires other.Valid() && other != this
      modifies this, other
      ensures Valid() && other.Valid()
      ensures Contents() == old(other.Contents()) && overrun == old(other.overrun) && maxItems == old(other.maxItems)
      ensures other.Contents() == [] && other.maxItems == 0 && other.overrun == 0
    {
      maxItems, head, tail, overrun, v := other.maxItems, other.head, other.tail, other.overrun, other.v;
      other.maxItems, other.head, other.tail, other.overrun := 0, 0, 0, 0;
      other.v := new T[0];
    }
  }

  /** Filling the last free slot of a full ring and skipping the oldest element. */
  lemma OverrunWindow<T>(before: seq<T>, after: seq<T>, head: nat, tail: nat, item: T)
    requires head < |before| && tail < |before| && after == before[tail := item]
    requires Slot(tail, 1, |before|) == head
    ensures |Window(before, head, tail)| == |before| - 1
    ensures Window(after, Slot(head, 1, |after|), head) == (Window(before, head, tail) + [item])[1..]
  {
    var size := |before|;
    var all := Window(before, head, tail) + [item];
    var next := Slot(head, 1, size);
    var result := Window(after, next, head);
    assert |result| == size - 1;
    forall k | 0 <= k < |result| ensures result[k] == all[k + 1] {
      WindowAt(after, next, head, k);
      assert Slot(next, k, size) == Slot(head, k + 1, size);
      if k + 1 < size - 1 { WindowAt(before, head, tail, k + 1); }
    }
  }
}
