/**
 The ring buffer driven by any sequence of operations behaves as a byte queue with a capacity.
 */
module ByteQueue {
  import opened Bytes
  import opened RingBuffer

  datatype Op = Write(bytes: seq<Byte>) | Read(expectLen: int) | Flush(os: seq<Os>)

  datatype Out = Wrote(count: nat) | WasRead(result: ReadResult) | Sent(bytes: seq<Byte>)

  /** `ahead` is the part of the content that one `write` can be given. */
  datatype Queue = Queue(content: seq<Byte>, capacity: nat, max: nat, ahead: nat)

  /** A write is taken whole or not at all. */
  predicate Fits(q: Queue, count: nat) {
    |q.content| + count <= q.capacity || q.capacity + count <= q.max
  }

  /** The capacity grows only for a write that needs it. */
  function Grown(q: Queue, count: nat): nat {
    if !Fits(q, count) || |q.content| + count <= q.capacity then q.capacity
    else NewCapacity(q.capacity, q.capacity + count, q.max)
  }

  /** A flush sends what the system's answers take, and stops early only at one that refuses. */
  ghost predicate QStep(q: Queue, op: Op, out: Out, q': Queue) {
    match op
    case Write(bytes) =>
      && out == Wrote(if Fits(q, |bytes|) then |bytes| else 0)
      && q'.content == (if Fits(q, |bytes|) then q.content + bytes else q.content)
      && q'.max == q.max && q'.capacity == Grown(q, |bytes|) >= q.capacity
    case Read(expectLen) =>
      && out.WasRead? && q'.capacity == q.capacity && q'.max == q.max
      && (if expectLen <= 0 then out.result == Nothing && q' == q
          else if expectLen > |q.content| then out.result == Short && q' == q
          else out.result == Got(q.content[..expectLen]) && q'.content == q.content[expectLen..])
    case Flush(os) =>
      && out.Sent? && q'.capacity == q.capacity && q'.max == q.max && q.content == out.bytes + q'.content
      && exists used, turn ::
           SentFor(os, used, turn, q.ahead, |q.content|, |out.bytes|) && (q'.content != [] ==> Refuses(os, used))
  }

  ghost predicate Trace(q0: Queue, ops: seq<Op>, outs: seq<Out>, qs: seq<Queue>) {
    && |outs| == |ops| && |qs| == |ops| + 1 && qs[0] == q0
    && forall i :: 0 <= i < |ops| ==> QStep(qs[i], ops[i], outs[i], qs[i + 1])
  }

  ghost function Abstract(b: Buffer): Queue
    requires b.Valid()
    reads b, b.data
  {
    Queue(b.Contents(), b.capacity, b.maxCapacity, b.Ahead())
  }

  method Perform(b: Buffer, op: Op) returns (out: Out)
    requires b.Valid()
    modifies b, b.data
    ensures b.Valid() && (b.data == old(b.data) || fresh(b.data))
    ensures QStep(old(Abstract(b)), op, out, Abstract(b))
  {
    match op
    case Write(bytes) =>
      NewCapacityGrows(b.capacity, b.capacity + |bytes|, b.maxCapacity);
      var n := b.WriteToBuffer(bytes);
      out := Wrote(n);
    case Read(expectLen) =>
      var r := b.Read(expectLen);
      out := WasRead(r);
    case Flush(os) =>
      var sent, _, _, _ := b.WriteToSocket(os);
      out := Sent(sent);
  }

  lemma NewCapacityGrows(capacity: nat, need: nat, max: nat)
    requires capacity <= need && capacity <= max
    ensures need <= max ==> capacity <= NewCapacity(capacity, need, max)
  {
    if need <= max { NewCapacityFits(capacity, need, max); }
  }

  /** Any sequence of operations on the object is a trace of the queue. */
  method Drive(b: Buffer, ops: seq<Op>) returns (outs: seq<Out>, ghost qs: seq<Queue>)
    requires b.Valid()
    modifies b, b.data
    ensures b.Valid()
    ensures Trace(old(Abstract(b)), ops, outs, qs) && qs[|ops|] == Abstract(b)
  {
    outs, qs := [], [Abstract(b)];
    for i := 0 to |ops|
      invariant b.Valid() && (b.data == old(b.data) || fresh(b.data))
      invariant Trace(old(Abstract(b)), ops[..i], outs, qs) && qs[i] == Abstract(b)
    {
      var out := Perform(b, ops[i]);
      TraceNext(old(Abstract(b)), ops, outs, qs, i, out, Abstract(b));
      outs, qs := outs + [out], qs + [Abstract(b)];
    }
    assert ops[..|ops|] == ops;
  }

  lemma TraceNext(q0: Queue, ops: seq<Op>, outs: seq<Out>, qs: seq<Queue>, i: nat, out: Out, q: Queue)
    requires i < |ops| && Trace(q0, ops[..i], outs, qs) && QStep(qs[i], ops[i], out, q)
    ensures Trace(q0, ops[..i + 1], outs + [out], qs + [q])
  {
  }

  // ---------- conservation over a whole trace ----------

  function BytesIn(op: Op, out: Out): seq<Byte> {
    if op.Write? && out == Wrote(|op.bytes|) then op.bytes else []
  }

  function BytesOut(out: Out): seq<Byte> {
    match out
    case Wrote(_) => []
    case WasRead(r) => if r.Got? then r.bytes else []
    case Sent(bytes) => bytes
  }

  function TakenIn(ops: seq<Op>, outs: seq<Out>): seq<Byte>
    requires |ops| == |outs|
  {
    if ops == [] then []
    else TakenIn(ops[..|ops| - 1], outs[..|ops| - 1]) + BytesIn(ops[|ops| - 1], outs[|ops| - 1])
  }

  function GivenOut(outs: seq<Out>): seq<Byte> {
    if outs == [] then [] else GivenOut(outs[..|outs| - 1]) + BytesOut(outs[|outs| - 1])
  }

  lemma StepConserves(q: Queue, op: Op, out: Out, q': Queue)
    requires QStep(q, op, out, q')
    ensures q.content + BytesIn(op, out) == BytesOut(out) + q'.content
  {
  }

  lemma TracePrefix(q0: Queue, ops: seq<Op>, outs: seq<Out>, qs: seq<Queue>, n: nat)
    requires Trace(q0, ops, outs, qs) && n <= |ops|
    ensures Trace(q0, ops[..n], outs[..n], qs[..n + 1])
  {
  }

  lemma TraceStep(q0: Queue, ops: seq<Op>, outs: seq<Out>, qs: seq<Queue>, i: nat)
    requires Trace(q0, ops, outs, qs) && i < |ops|
    ensures qs[i].content + BytesIn(ops[i], outs[i]) == BytesOut(outs[i]) + qs[i + 1].content
  {
    StepConserves(qs[i], ops[i], outs[i], qs[i + 1]);
  }

  lemma Extend(
      q0: seq<Byte>, taken: seq<Byte>, given: seq<Byte>, q: seq<Byte>,
      more: seq<Byte>, less: seq<Byte>, q': seq<Byte>)
    requires q0 + taken == given + q && q + more == less + q'
    ensures q0 + (taken + more) == (given + less) + q'
  {
    assert q0 + (taken + more) == (q0 + taken) + more;
    QueueStep(q0 + taken, given, q, more, less, q');
  }

  /** Every byte accepted comes out once, in order, or is still inside; no other byte comes out. */
  lemma {:induction false} Conservation(q0: Queue, ops: seq<Op>, outs: seq<Out>, qs: seq<Queue>)
    requires Trace(q0, ops, outs, qs)
    ensures q0.content + TakenIn(ops, outs) == GivenOut(outs) + qs[|ops|].content
  {
    if ops != [] {
      var n := |ops| - 1;
      var taken, given := TakenIn(ops[..n], outs[..n]), GivenOut(outs[..n]);
      TracePrefix(q0, ops, outs, qs, n);
      Conservation(q0, ops[..n], outs[..n], qs[..n + 1]);
      TraceStep(q0, ops, outs, qs, n);
      Extend(q0.content, taken, given, qs[n].content, BytesIn(ops[n], outs[n]), BytesOut(outs[n]), qs[n + 1].content);
    }
  }
}
