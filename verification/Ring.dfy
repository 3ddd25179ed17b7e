/** Index arithmetic of a ring kept in an array, one slot of which always stays free. */
module Ring {

  /** The used part of a ring, oldest element first. */
  function Window<T>(ring: seq<T>, read: nat, write: nat): seq<T>
    requires read < |ring| && write < |ring|
  {
    if write >= read then ring[read..write] else ring[read..] + ring[..write]
  }

  /** The array index `k` places after `from`; the code writes `(from + k) % size`. */
  function Slot(from: nat, k: nat, size: nat): nat
    requires from < size && k <= size
  {
    if from + k < size then from + k else from + k - size
  }

  lemma SlotIsModulo(from: nat, k: nat, size: nat)
    requires from < size && k <= size
    ensures (from + k) % size == Slot(from, k, size)
  {
    if from + k >= size { ModuloOnce(from + k - size, size); }
  }

  lemma ModuloOnce(r: nat, size: nat)
    requires r < size
    ensures (size + r) % size == r
  {
    var q := (size + r) / size;
    assert size + r == size * q + (size + r) % size;
    if q < 1 { Multiples(size, q, 0); }
    if q > 1 { Multiples(size, 2, q); }
  }

  lemma ModuloSmall(r: nat, size: nat)
    requires r < size
    ensures r % size == r
  {
  }

  lemma Multiples(size: nat, q: int, q': int)
    requires q <= q'
    ensures size * q <= size * q'
  {
  }

  /** The computation of an index, as every loop over a ring does it. */
  method IndexAt(from: nat, k: nat, size: nat) returns (index: nat)
    requires from < size && k <= size
    ensures index == Slot(from, k, size)
  {
    SlotIsModulo(from, k, size);
    index := (from + k) % size;
  }

  lemma WindowAt<T>(ring: seq<T>, read: nat, write: nat, k: nat)
    requires read < |ring| && write < |ring| && k < |Window(ring, read, write)|
    ensures k < |ring| && Window(ring, read, write)[k] == ring[Slot(read, k, |ring|)]
  {
  }

  /** Writing behind the used part, without reaching it, appends to the window. */
  lemma Appended<T>(before: seq<T>, after: seq<T>, read: nat, write: nat, items: seq<T>)
    requires |before| == |after| && read < |before| && write < |before|
    requires |Window(before, read, write)| + |items| < |before|
    requires forall k :: 0 <= k < |items| ==> after[Slot(write, k, |after|)] == items[k]
    requires forall k :: 0 <= k < |Window(before, read, write)| ==>
      after[Slot(read, k, |after|)] == before[Slot(read, k, |before|)]
    ensures Window(after, read, Slot(write, |items|, |after|)) == Window(before, read, write) + items
  {
    var used := Window(before, read, write);
    var end := Slot(write, |items|, |after|);
    var result := Window(after, read, end);
    assert |result| == |used| + |items|;
    forall k | 0 <= k < |result| ensures result[k] == (used + items)[k] {
      WindowAt(after, read, end, k);
      if k < |used| {
        WindowAt(before, read, write, k);
      } else {
        assert Slot(read, k, |after|) == Slot(write, k - |used|, |after|);
      }
    }
  }

  /** Moving the read index forward drops that many elements from the front. */
  lemma Consumed<T>(ring: seq<T>, read: nat, write: nat, n: nat)
    requires read < |ring| && write < |ring| && n <= |Window(ring, read, write)|
    ensures Window(ring, Slot(read, n, |ring|), write) == Window(ring, read, write)[n..]
  {
    var used := Window(ring, read, write);
    var rest := Window(ring, Slot(read, n, |ring|), write);
    assert |rest| == |used| - n;
    forall k | 0 <= k < |rest| ensures rest[k] == used[n + k] {
      WindowAt(ring, read, write, n + k);
      WindowAt(ring, Slot(read, n, |ring|), write, k);
    }
  }

  /** The ring with `items` written from index `at` on. */
  function Put<T>(ring: seq<T>, at: nat, items: seq<T>): (r: seq<T>)
    requires at < |ring| && |items| <= |ring|
    ensures |r| == |ring|
  {
    if items == [] then ring
    else
      var n := |items| - 1;
      Put(ring, at, items[..n])[Slot(at, n, |ring|) := items[n]]
  }

  lemma {:induction false} PutAt<T>(ring: seq<T>, at: nat, items: seq<T>, j: nat)
    requires at < |ring| && |items| <= |ring| && j < |ring|
    ensures var k := if j >= at then j - at else j + |ring| - at;
      Put(ring, at, items)[j] == if k < |items| then items[k] else ring[j]
  {
    if items != [] { PutAt(ring, at, items[..|items| - 1], j); }
  }

  lemma PutAppends<T>(ring: seq<T>, read: nat, write: nat, items: seq<T>)
    requires read < |ring| && write < |ring| && |Window(ring, read, write)| + |items| < |ring|
    ensures Window(Put(ring, write, items), read, Slot(write, |items|, |ring|)) == Window(ring, read, write) + items
  {
    var after := Put(ring, write, items);
    forall k | 0 <= k < |items| ensures after[Slot(write, k, |ring|)] == items[k] {
      PutAt(ring, write, items, Slot(write, k, |ring|));
    }
    forall k | 0 <= k < |Window(ring, read, write)|
      ensures after[Slot(read, k, |ring|)] == ring[Slot(read, k, |ring|)]
    {
      PutAt(ring, write, items, Slot(read, k, |ring|));
    }
    Appended(ring, after, read, write, items);
  }

  /** Moving the read index back by one brings an element back, or empties a full ring. */
  lemma SteppedBack<T>(ring: seq<T>, read: nat, write: nat)
    requires 0 < read < |ring| && write < |ring|
    ensures Window(ring, read - 1, write) ==
      if |Window(ring, read, write)| == |ring| - 1 then [] else [ring[read - 1]] + Window(ring, read, write)
  {
  }
}
