/**
 The growable ring buffer of lib/Buffer.cpp, proved to be a byte queue: through index wrap-around,
 relocation into a larger array and partial socket writes, the unread bytes are always what a queue
 would hold.
 */
module RingBuffer {
  import opened Bytes
  import opened Numbers
  import opened Ring

  // ---------- growth policy ----------

  const DOUBLE_BORDER_LINE := 1024

  /** The loop that adds a quarter at a time. */
  function GrowByQuarter(newcap: nat, need: nat, max: nat): nat
    requires newcap >= DOUBLE_BORDER_LINE
    decreases need - newcap
  {
    if newcap >= need then newcap
    else if newcap + newcap / 4 > max then max
    else GrowByQuarter(newcap + newcap / 4, need, max)
  }

  function NewCapacity(capacity: nat, need: nat, max: nat): nat {
    if need > capacity * 2 then need
    else if capacity < DOUBLE_BORDER_LINE then (if capacity * 2 <= max then capacity * 2 else max)
    else GrowByQuarter(capacity, need, max)
  }

  lemma {:induction false} GrowByQuarterFits(newcap: nat, need: nat, max: nat)
    requires DOUBLE_BORDER_LINE <= newcap && need <= max && newcap <= max
    ensures need <= GrowByQuarter(newcap, need, max) <= max
    decreases need - newcap
  {
    if newcap < need && newcap + newcap / 4 <= max {
      GrowByQuarterFits(newcap + newcap / 4, need, max);
    }
  }

  lemma NewCapacityFits(capacity: nat, need: nat, max: nat)
    requires capacity <= need <= max
    ensures need <= NewCapacity(capacity, need, max) <= max
  {
    if capacity >= DOUBLE_BORDER_LINE { GrowByQuarterFits(capacity, need, max); }
  }

  /** A capacity grown by a quarter, `k` times over. */
  function Quarters(capacity: nat, k: nat): nat {
    if k == 0 then capacity else Quarters(capacity, k - 1) + Quarters(capacity, k - 1) / 4
  }

  /** The first number of quarters that covers the need, cut at the maximum; or exactly what is needed, or double. */
  ghost predicate FollowsPolicy(capacity: nat, need: nat, max: nat, newcap: nat) {
    if need > 2 * capacity then newcap == need
    else if capacity < 1024 then newcap == Min(2 * capacity, max)
    else exists k: nat :: IsQuarters(capacity, need, max, newcap, k)
  }

  ghost predicate IsQuarters(capacity: nat, need: nat, max: nat, newcap: nat, k: nat) {
    && newcap == Min(Quarters(capacity, k), max)
    && (Quarters(capacity, k) >= need || Quarters(capacity, k) > max)
    && (k > 0 ==> Quarters(capacity, k - 1) < need && Quarters(capacity, k - 1) <= max)
  }

  lemma {:induction false} QuarterSteps(capacity: nat, newcap: nat, need: nat, max: nat, k: nat) returns (j: nat)
    requires DOUBLE_BORDER_LINE <= newcap == Quarters(capacity, k) <= max
    requires k > 0 ==> Quarters(capacity, k - 1) < need && Quarters(capacity, k - 1) <= max
    ensures IsQuarters(capacity, need, max, GrowByQuarter(newcap, need, max), j)
    decreases need - newcap
  {
    if newcap >= need {
      j := k;
    } else if newcap + newcap / 4 > max {
      assert Quarters(capacity, k + 1) == newcap + newcap / 4;
      j := k + 1;
    } else {
      j := QuarterSteps(capacity, newcap + newcap / 4, need, max, k + 1);
    }
  }

  /** The growth loop and the tests before it follow this policy. */
  lemma NewCapacityExactly(capacity: nat, need: nat, max: nat)
    requires capacity <= max
    ensures FollowsPolicy(capacity, need, max, NewCapacity(capacity, need, max))
  {
    if need <= 2 * capacity && capacity >= DOUBLE_BORDER_LINE {
      var k := QuarterSteps(capacity, capacity, need, max, 0);
    }
  }

  /** The capacity chosen by `MustInsert`, or none if the request exceeds the maximum. */
  method ChooseCapacity(capacity: nat, insert: nat, max: nat) returns (ok: bool, newcap: nat)
    requires capacity <= max
    ensures ok <==> capacity + insert <= max
    ensures ok ==> newcap == NewCapacity(capacity, capacity + insert, max)
    ensures ok ==> capacity + insert <= newcap <= max
    ensures ok ==> FollowsPolicy(capacity, capacity + insert, max, newcap)
    ensures !ok ==> newcap == capacity
  {
    var need := capacity + insert;
    newcap := capacity;
    if need > max {
      return false, capacity;
    }
    ok := true;
    NewCapacityFits(capacity, need, max);
    NewCapacityExactly(capacity, need, max);
    var doublecap := capacity * 2;
    if need > doublecap {
      newcap := need;
    } else if capacity < DOUBLE_BORDER_LINE {
      newcap := if doublecap <= max then doublecap else max;
    } else {
      while newcap < need
        invariant DOUBLE_BORDER_LINE <= newcap
        invariant GrowByQuarter(newcap, need, max) == GrowByQuarter(capacity, need, max)
        invariant newcap <= max
      {
        newcap := newcap + newcap / 4;
        if newcap > max {
          newcap := max;
          break;
        }
      }
    }
  }

  // ---------- the ring ----------

  /** `size_t` */
  const SIZE_WORD := 0x1_0000_0000_0000_0000

  /** The answers to one `write` that the code allows for: some bytes, or 0 with or without EINTR. */
  datatype Os = Accepts(count: nat) | Interrupted | TakesNone

  datatype ReadResult = Nothing | Short | Got(bytes: seq<Byte>)

  class Buffer {
    var capacity: nat
    var dataSize: nat
    var maxCapacity: nat
    var data: array<Byte>
    var readIndex: nat
    var writeIndex: nat

    ghost predicate Valid()
      reads this, data
    {
      && dataSize == data.Length == capacity + 1 && capacity <= maxCapacity
      && readIndex < dataSize && writeIndex < dataSize
    }

    ghost function Contents(): seq<Byte>
      reads this, data
      requires Valid()
    {
      Window(data[..], readIndex, writeIndex)
    }

    /** How many unread bytes there are before the end of the array. */
    function Ahead(): nat
      reads this
      requires readIndex < dataSize
    {
      if readIndex > writeIndex then dataSize - readIndex else writeIndex - readIndex
    }

    constructor (cap: nat, maxCap: nat)
      ensures Valid() && fresh(data) && Contents() == []
      ensures capacity == cap && maxCapacity == if maxCap > cap then maxCap else cap
    {
      capacity, dataSize := cap, cap + 1;
      maxCapacity := if maxCap > cap then maxCap else cap;
      data := new Byte[cap + 1](_ => 0);
      readIndex, writeIndex := 0, 0;
    }

    method GetUnused() returns (n: nat)
      requires Valid()
      ensures n == |Contents()|
    {
      if writeIndex >= readIndex {
        return writeIndex - readIndex;
      }
      return dataSize - readIndex + writeIndex;
    }

    method GetFreeSize() returns (n: nat)
      requires Valid()
      ensures n == capacity - |Contents()|
    {
      var unused := GetUnused();
      n := capacity - unused;
    }

    /** Relocates the unread bytes to the front of a larger array. */
    method Resize(newCapacity: nat)
      requires Valid() && capacity <= newCapacity <= maxCapacity
      modifies this
      ensures Valid() && (data == old(data) || fresh(data))
      ensures Contents() == old(Contents()) && capacity == newCapacity && maxCapacity == old(maxCapacity)
    {
      var unread := GetUnused();
      if newCapacity == capacity {
        return;
      }
      var tmp := new Byte[newCapacity + 1](_ => 0);
      var i := 0;
      while i < unread
        invariant i <= unread
        invariant tmp[..i] == Contents()[..i]
        modifies tmp
      {
        WindowAt(data[..], readIndex, writeIndex, i);
        var cur := IndexAt(readIndex, i, dataSize);
        tmp[i] := data[cur];
        i := i + 1;
      }
      data := tmp;
      dataSize := newCapacity + 1;
      capacity := newCapacity;
      readIndex := 0;
      writeIndex := unread;
    }

    /** `ok` is false where the source throws. */
    method MustInsert(insert: nat) returns (ok: bool)
      requires Valid()
      modifies this
      ensures Valid() && (data == old(data) || fresh(data))
      ensures Contents() == old(Contents()) && maxCapacity == old(maxCapacity)
      ensures ok <==> old(capacity - |Contents()|) >= insert || old(capacity) + insert <= maxCapacity
      ensures ok ==> |Contents()| + insert <= capacity
      ensures capacity == if !ok || old(capacity - |Contents()|) >= insert then old(capacity)
                          else NewCapacity(old(capacity), old(capacity) + insert, maxCapacity)
      ensures ok && old(capacity - |Contents()|) < insert ==>
        FollowsPolicy(old(capacity), old(capacity) + insert, maxCapacity, capacity)
    {
      var free := GetFreeSize();
      if free >= insert {
        return true;
      }
      var newcap;
      ok, newcap := ChooseCapacity(capacity, insert, maxCapacity);
      if ok {
        Resize(newcap);
      }
    }

    /** A result of 0 for a request that is not empty means that nothing was written. */
    method WriteToBuffer(bytes: seq<Byte>) returns (written: nat)
      requires Valid()
      modifies this, data
      ensures Valid() && (data == old(data) || fresh(data)) && maxCapacity == old(maxCapacity)
      ensures var room := old(capacity - |Contents()|) >= |bytes| || old(capacity) + |bytes| <= maxCapacity;
        written == if room then |bytes| else 0
      ensures Contents() == old(Contents()) + bytes[..written]
      ensures capacity == if old(capacity - |Contents()|) >= |bytes| || written == 0 then old(capacity)
                          else NewCapacity(old(capacity), old(capacity) + |bytes|, maxCapacity)
    {
      if |bytes| == 0 {
        assert Contents() == old(Contents()) + bytes[..0];
        return 0;
      }
      var ok := MustInsert(|bytes|);
      if !ok {
        return 0;
      }
      CopyIn(bytes);
      assert bytes[..|bytes|] == bytes;
      written := |bytes|;
    }

    /** The copy loop of `WriteToBuffer`, which may wrap around the end of the array. */
    method CopyIn(bytes: seq<Byte>)
      requires Valid() && 0 < |bytes| && |Contents()| + |bytes| <= capacity
      modifies this`writeIndex, data
      ensures Valid() && Contents() == old(Contents()) + bytes
    {
      ghost var before := data[..];
      var i, cur := 0, writeIndex;
      while i < |bytes|
        invariant i <= |bytes|
        invariant i > 0 ==> cur == Slot(writeIndex, i - 1, dataSize)
        invariant data[..] == Put(before, writeIndex, bytes[..i])
        modifies data
      {
        cur := IndexAt(writeIndex, i, dataSize);
        data[cur] := bytes[i];
        i := i + 1;
        assert bytes[..i][..i - 1] == bytes[..i - 1];
      }
      assert bytes[..i] == bytes;
      PutAppends(before, readIndex, writeIndex, bytes);
      writeIndex := IndexAt(cur, 1, dataSize);
    }

    method Read(expectLen: int) returns (result: ReadResult)
      requires Valid()
      modifies this`readIndex
      ensures Valid()
      ensures expectLen <= 0 ==> result == Nothing && Contents() == old(Contents())
      ensures expectLen > |old(Contents())| ==> result == Short && Contents() == old(Contents())
      ensures 0 < expectLen <= |old(Contents())| ==>
        result.Got? && |result.bytes| == expectLen && result.bytes + Contents() == old(Contents())
    {
      if expectLen <= 0 {
        return Nothing;
      }
      var unused := GetUnused();
      if expectLen > unused {
        return Short;
      }
      ghost var unread := Contents();
      var bytes, i, cur := [], 0, readIndex;
      while i < expectLen
        invariant i <= expectLen
        invariant i > 0 ==> cur == Slot(readIndex, i - 1, dataSize)
        invariant bytes == unread[..i]
        modifies {}
      {
        WindowAt(data[..], readIndex, writeIndex, i);
        cur := IndexAt(readIndex, i, dataSize);
        bytes := bytes + [data[cur]];
        i := i + 1;
      }
      Consumed(data[..], readIndex, writeIndex, expectLen);
      readIndex := IndexAt(cur, 1, dataSize);
      result := Got(bytes);
    }

    /** One call of `write`, from the contiguous part of the window, and what follows from its answer. */
    method WriteOnce(answer: Os) returns (taken: seq<Byte>, stop: bool)
      requires Valid() && Contents() != []
      modifies this`readIndex
      ensures Valid() && taken + Contents() == old(Contents())
      ensures stop <==> Refusal(answer)
      ensures |taken| == if answer.Accepts? then Min(answer.count, old(Ahead())) else 0
      ensures Ahead() == if |taken| < old(Ahead()) then old(Ahead()) - |taken| else |Contents()|
    {
      var curSendLen := if readIndex > writeIndex then dataSize - readIndex else writeIndex - readIndex;
      taken, stop := [], !answer.Interrupted?;
      if answer.Accepts? {
        var writeNum := if answer.count <= curSendLen then answer.count else curSendLen;
        stop := writeNum == 0;
        if writeNum > 0 {
          taken := Take(writeNum);
        }
      }
    }

    /**
     A `write` that fails: the code takes its -1 for the largest `size_t` and goes on. The read index
     steps back, so that the byte before the window comes back in front of it, or a full buffer turns
     into an empty one; from index 0 it goes where the remainder of the wrapped sum points.
     */
    method WriteFails()
      requires Valid() && Contents() != []
      modifies this`readIndex
      ensures Valid()
      ensures old(readIndex) == 0 ==> readIndex == (SIZE_WORD - 1) % dataSize
      ensures old(readIndex) > 0 && dataSize <= SIZE_WORD ==>
        && readIndex == old(readIndex) - 1
        && Contents() == if |old(Contents())| == capacity then [] else [data[readIndex]] + old(Contents())
    {
      if readIndex > 0 { SteppedBack(data[..], readIndex, writeIndex); }
      readIndex := IndexAfterFailure(readIndex, dataSize);
    }

    method Take(writeNum: nat) returns (taken: seq<Byte>)
      requires Valid() && 0 < writeNum <= Ahead()
      modifies this`readIndex
      ensures Valid() && |taken| == writeNum && taken + Contents() == old(Contents())
      ensures Ahead() == if writeNum < old(Ahead()) then old(Ahead()) - writeNum else |Contents()|
    {
      ghost var unread := Contents();
      Consumed(data[..], readIndex, writeIndex, writeNum);
      taken := data[readIndex..readIndex + writeNum];
      assert taken == unread[..writeNum];
      readIndex := IndexAt(readIndex, writeNum, dataSize);
    }

    /** `sent` bytes are gone of `len`, the first `c` of which lay before the end of the array. */
    ghost predicate Flushed(sent: nat, c: nat, len: nat)
      reads this, data
    {
      Valid() && c <= len && sent + |Contents()| == len && Ahead() == if sent < c then c - sent else len - sent
    }

    /** The answer `i`, in terms of all of them */
    method WriteTurn(os: seq<Os>, i: nat, ghost c: nat, ghost len: nat) returns (taken: seq<Byte>, stop: bool)
      requires i < |os| && c <= len && Flushed(SentBy(os, i, c, len), c, len) && Contents() != []
      modifies this`readIndex
      ensures Valid() && taken + Contents() == old(Contents())
      ensures if stop then Refusal(os[i]) && taken == []
              else !Refusal(os[i]) && SentBy(os, i, c, len) + |taken| == SentBy(os, i + 1, c, len)
      ensures Flushed(SentBy(os, i, c, len) + |taken|, c, len)
    {
      taken, stop := WriteOnce(os[i]);
    }

    /**
     `sent` is what the socket took. The loop ends early only when the answer it has come to refuses,
     after `used` others. Each answer counts in full, but for those that reach the end of the array, at
     the turn `turn`, or the end of the unread bytes.
     */
    method WriteToSocket(os: seq<Os>) returns (sent: seq<Byte>, blocked: bool, ghost used: nat, ghost turn: nat)
      requires Valid()
      modifies this`readIndex
      ensures Valid()
      ensures sent + Contents() == old(Contents())
      ensures blocked <==> Contents() != []
      ensures SentFor(os, used, turn, old(Ahead()), |old(Contents())|, |sent|)
      ensures old(readIndex <= writeIndex) ==> |sent| == Min(|old(Contents())|, Sum(os, used))
      ensures blocked ==> Refuses(os, used)
    {
      ghost var c, len := Ahead(), |Contents()|;
      sent, blocked, used := [], false, 0;
      var i := 0;
      var unused := GetUnused();
      while unused > 0 && !blocked
        invariant Valid() && unused == |Contents()| && sent + Contents() == old(Contents())
        invariant i <= |os| && (blocked ==> unused > 0 && Refuses(os, i)) && NoneRefuses(os, i)
        invariant |sent| == SentBy(os, i, c, len) && Flushed(|sent|, c, len)
        decreases |os| - i, !blocked
      {
        if i == |os| {
          blocked := true;
        } else {
          ghost var kept := Contents();
          var taken;
          taken, blocked := WriteTurn(os, i, c, len);
          PartMoves(old(Contents()), sent, kept, taken, Contents());
          sent := sent + taken;
          unused := GetUnused();
          if !blocked {
            i := i + 1;
          }
        }
      }
      used := i;
      turn := Account(os, used, c, len);
    }
  }

  /** `(read_index_ + writeNum) % data_size_` for a `writeNum` of -1, in the arithmetic of `size_t` */
  method IndexAfterFailure(index: nat, size: nat) returns (next: nat)
    requires index < size
    ensures next < size && (index == 0 ==> next == (SIZE_WORD - 1) % size)
    ensures index > 0 && size <= SIZE_WORD ==> next == index - 1
  {
    next := (index + (SIZE_WORD - 1)) % SIZE_WORD % size;
    if index > 0 && size <= SIZE_WORD {
      assert (SIZE_WORD + (index - 1)) % SIZE_WORD == index - 1;
      ModuloSmall(index - 1, size);
    }
  }

  predicate Refusal(answer: Os) {
    answer.TakesNone? || answer == Accepts(0)
  }

  predicate Refuses(os: seq<Os>, k: nat) {
    k >= |os| || Refusal(os[k])
  }

  /** What the first `n` answers accept together. */
  function Sum(os: seq<Os>, n: nat): nat
    requires n <= |os|
  {
    if n == 0 then 0 else Sum(os, n - 1) + if os[n - 1].Accepts? then os[n - 1].count else 0
  }

  /**
   What `used` answers take of `len` bytes, the first `c` of them in one piece: what those up to `turn`
   accept, cut at `c`, and what the others accept, cut at the rest; `turn` is when `c` is reached.
   */
  ghost predicate SentFor(os: seq<Os>, used: nat, turn: nat, c: nat, len: nat, sent: nat) {
    && turn <= used <= |os| && c <= len
    && (turn > 0 ==> Sum(os, turn - 1) < c) && (turn < used ==> Sum(os, turn) >= c)
    && sent == Min(c, Sum(os, turn)) + Min(len - c, Sum(os, used) - Sum(os, turn))
    && NoneRefuses(os, used)
  }

  ghost predicate NoneRefuses(os: seq<Os>, n: nat) {
    forall k :: 0 <= k < n ==> !Refuses(os, k)
  }

  /** The same, answer by answer. */
  ghost function SentBy(os: seq<Os>, n: nat, c: nat, len: nat): (sent: nat)
    requires n <= |os| && c <= len
    ensures sent <= len
  {
    if n == 0 then 0
    else
      var s := SentBy(os, n - 1, c, len);
      if os[n - 1].Accepts? then s + Min(os[n - 1].count, if s < c then c - s else len - s) else s
  }

  lemma {:induction false} TurnOf(os: seq<Os>, n: nat, c: nat, len: nat) returns (turn: nat)
    requires n <= |os| && c <= len && NoneRefuses(os, n)
    ensures SentFor(os, n, turn, c, len, SentBy(os, n, c, len))
  {
    if n == 0 {
      turn := 0;
    } else {
      turn := TurnOf(os, n - 1, c, len);
      SumGrows(os, turn, n - 1);
      if SentBy(os, n - 1, c, len) < c { turn := n; }
    }
  }

  lemma Account(os: seq<Os>, n: nat, c: nat, len: nat) returns (turn: nat)
    requires n <= |os| && c <= len && NoneRefuses(os, n)
    ensures SentFor(os, n, turn, c, len, SentBy(os, n, c, len))
    ensures c == len ==> SentBy(os, n, c, len) == Min(len, Sum(os, n))
  {
    turn := TurnOf(os, n, c, len);
    if c == len { InOnePiece(os, n, turn, len, SentBy(os, n, c, len)); }
  }

  /** Without a wrap, the answers simply add up. */
  lemma InOnePiece(os: seq<Os>, used: nat, turn: nat, len: nat, sent: nat)
    requires SentFor(os, used, turn, len, len, sent)
    ensures sent == Min(len, Sum(os, used))
  {
    SumGrows(os, turn, used);
  }

  lemma {:induction false} SumGrows(os: seq<Os>, m: nat, n: nat)
    requires m <= n <= |os|
    ensures Sum(os, m) <= Sum(os, n)
  {
    if m < n { SumGrows(os, m, n - 1); }
  }
}
