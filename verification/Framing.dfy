/**
 The control channel end to end: messages framed by `MakeMsg` and `CtlConnect::SendMsg` into the ring
 buffer, written out in whatever pieces the system takes, and read back by `CtlConnect::HandlerRead`
 through `readn` in whatever pieces the system gives.
 */
module Framing {
  import opened Bytes
  import opened Numbers
  import opened RingBuffer
  import opened ByteQueue

  const MAX_MSG_LEN := 1024

  /** `sizeof(u_int32_t)`, `sizeof(MsgType)` and `sizeof(Msg)` */
  const LEN_SIZE := 4
  const TYPE_SIZE := 4
  const MSG_SIZE := LEN_SIZE + TYPE_SIZE + MAX_MSG_LEN

  type Word = w: int | 0 <= w < 0x1_0000_0000

  datatype Message = Message(kind: Word, data: seq<Byte>)

  /** What `MakeMsg` can copy into a `Msg`. */
  predicate Makeable(m: Message) {
    |m.data| <= MAX_MSG_LEN
  }

  // ---------- the frame ----------

  /** `htonl` followed by a copy of the four bytes */
  function BigEndian(w: Word): (s: seq<Byte>)
    ensures |s| == 4
  {
    [w / 0x100_0000, w / 0x1_0000 % 0x100, w / 0x100 % 0x100, w % 0x100]
  }

  function FromBigEndian(s: seq<Byte>): Word
    requires |s| == 4
  {
    s[0] as int * 0x100_0000 + s[1] as int * 0x1_0000 + s[2] as int * 0x100 + s[3]
  }

  /** The enumeration is copied as the host keeps it. */
  function LittleEndian(w: Word): (s: seq<Byte>)
    ensures |s| == 4
  {
    [w % 0x100, w / 0x100 % 0x100, w / 0x1_0000 % 0x100, w / 0x100_0000]
  }

  function FromLittleEndian(s: seq<Byte>): Word
    requires |s| == 4
  {
    s[3] as int * 0x100_0000 + s[2] as int * 0x1_0000 + s[1] as int * 0x100 + s[0]
  }

  lemma WordRoundTrip(w: Word)
    ensures FromBigEndian(BigEndian(w)) == w && FromLittleEndian(LittleEndian(w)) == w
  {
    BytesOfWord(w);
  }

  lemma BytesOfWord(w: Word)
    ensures w == w / 0x100_0000 * 0x100_0000 + w / 0x1_0000 % 0x100 * 0x1_0000 + w / 0x100 % 0x100 * 0x100 + w % 0x100
  {
  }

  function Encode(m: Message): (s: seq<Byte>)
    requires Makeable(m)
    ensures |s| == LEN_SIZE + TYPE_SIZE + |m.data|
  {
    BigEndian(LEN_SIZE + TYPE_SIZE + |m.data|) + LittleEndian(m.kind) + m.data
  }

  /**
   The bytes of a message as they are on the wire: its own length, highest byte first; its type, lowest
   byte first; and the data.
   */
  ghost predicate OnWire(s: seq<Byte>, m: Message) {
    && |s| >= 8
    && s[0] as int * 0x100_0000 + s[1] as int * 0x1_0000 + s[2] as int * 0x100 + s[3] as int == |s|
    && s[4] as int + s[5] as int * 0x100 + s[6] as int * 0x1_0000 + s[7] as int * 0x100_0000 == m.kind
    && s[8..] == m.data
  }

  lemma EncodeOnWire(m: Message)
    requires Makeable(m)
    ensures OnWire(Encode(m), m)
  {
    var s, len := Encode(m), LEN_SIZE + TYPE_SIZE + |m.data|;
    BytesOfWord(len);
    BytesOfWord(m.kind);
    assert s[..4] == BigEndian(len) && s[4..8] == LittleEndian(m.kind) && s[8..] == m.data;
    assert s[0] == s[..4][0] && s[1] == s[..4][1] && s[2] == s[..4][2] && s[3] == s[..4][3];
    assert s[4] == s[4..8][0] && s[5] == s[4..8][1] && s[6] == s[4..8][2] && s[7] == s[4..8][3];
  }

  /** The length that a stream announces in its first four bytes. */
  ghost function Announced(stream: seq<Byte>): int
    requires |stream| >= 4
  {
    stream[0] as int * 0x100_0000 + stream[1] as int * 0x1_0000 + stream[2] as int * 0x100 + stream[3] as int
  }

  /** The stream begins with the complete frame of `m`, no longer than a `Msg`. */
  ghost predicate Fronts(stream: seq<Byte>, m: Message) {
    |stream| >= 4 && 8 <= Announced(stream) <= 1032 && Announced(stream) <= |stream|
    && OnWire(stream[..Announced(stream)], m)
  }

  ghost predicate AllMakeable(ms: seq<Message>) {
    forall i :: 0 <= i < |ms| ==> Makeable(ms[i])
  }

  ghost function Frames(ms: seq<Message>): seq<Byte>
    requires AllMakeable(ms)
  {
    if ms == [] then [] else Encode(ms[0]) + Frames(ms[1..])
  }

  lemma {:induction false} FramesAppend(ms: seq<Message>, m: Message)
    requires AllMakeable(ms) && Makeable(m)
    ensures Frames(ms + [m]) == Frames(ms) + Encode(m)
  {
    if ms == [] {
      assert ms + [m] == [m] && Frames([m]) == Encode(m) + Frames([]);
    } else {
      FramesAppend(ms[1..], m);
      assert (ms + [m])[1..] == ms[1..] + [m];
      assert Frames(ms + [m]) == Encode(ms[0]) + (Frames(ms[1..]) + Encode(m));
      assert Frames(ms) + Encode(m) == Encode(ms[0]) + (Frames(ms[1..]) + Encode(m));
    }
  }

  // ---------- reading one frame ----------

  /** `Idle` at the end of the stream, `Broken` for a frame cut short or too short, `TooLong` for a
      length field beyond a `Msg`. */
  datatype Received = Idle | Broken | TooLong | Frame(message: Message)

  /** One call of `HandlerRead`, and the stream it leaves. */
  function DecodeOne(stream: seq<Byte>): (Received, seq<Byte>) {
    if |stream| == 0 then (Idle, [])
    else if |stream| < LEN_SIZE then (Broken, [])
    else
      var len := FromBigEndian(stream[..LEN_SIZE]);
      var rest := stream[LEN_SIZE..];
      if len > MSG_SIZE then (TooLong, rest)
      else if len < LEN_SIZE then (Broken, rest)
      else
        var body := rest[..Min(len - LEN_SIZE, |rest|)];
        var after := rest[|body|..];
        if |body| == 0 && len > LEN_SIZE then (Idle, after)
        else if |body| != len - LEN_SIZE || |body| < TYPE_SIZE then (Broken, after)
        else (Frame(Message(FromLittleEndian(body[..TYPE_SIZE]), body[TYPE_SIZE..])), after)
  }

  lemma DecodeEncode(m: Message, rest: seq<Byte>)
    requires Makeable(m)
    ensures DecodeOne(Encode(m) + rest) == (Frame(m), rest)
  {
    var stream := Encode(m) + rest;
    var len := LEN_SIZE + TYPE_SIZE + |m.data|;
    assert stream[..LEN_SIZE] == BigEndian(len);
    WordRoundTrip(len);
    WordRoundTrip(m.kind);
    var after := stream[LEN_SIZE..];
    var body := after[..len - LEN_SIZE];
    assert body == LittleEndian(m.kind) + m.data;
    assert body[..TYPE_SIZE] == LittleEndian(m.kind) && body[TYPE_SIZE..] == m.data;
    assert after[|body|..] == rest;
  }

  /** A frame that has not arrived completely yields no message and uses up what did arrive. */
  lemma DecodePartial(m: Message, n: nat)
    requires Makeable(m) && n < |Encode(m)|
    ensures !DecodeOne(Encode(m)[..n]).0.Frame? && DecodeOne(Encode(m)[..n]).1 == []
  {
    var stream := Encode(m)[..n];
    if n >= LEN_SIZE {
      var len := LEN_SIZE + TYPE_SIZE + |m.data|;
      assert stream[..LEN_SIZE] == BigEndian(len);
      WordRoundTrip(len);
    }
  }

  ghost function DecodeAll(stream: seq<Byte>): seq<Message>
    decreases |stream|
  {
    if stream == [] then []
    else
      var (r, rest) := DecodeOne(stream);
      (if r.Frame? then [r.message] else []) + DecodeAll(rest)
  }

  /** Whole frames followed by part of one decode to exactly the whole ones. */
  lemma {:induction false} DecodeFrames(ms: seq<Message>, next: Message, n: nat)
    requires AllMakeable(ms) && Makeable(next) && n < |Encode(next)|
    ensures DecodeAll(Frames(ms) + Encode(next)[..n]) == ms
  {
    var tail := Encode(next)[..n];
    if ms == [] {
      assert Frames(ms) + tail == tail;
      if n > 0 { DecodePartial(next, n); }
    } else {
      var rest := Frames(ms[1..]) + tail;
      assert Frames(ms) + tail == Encode(ms[0]) + rest;
      DecodeEncode(ms[0], rest);
      DecodeFrames(ms[1..], next, n);
    }
  }

  // ---------- the sender ----------

  datatype Action = Send(message: Message) | HandlerWrite(os: seq<Os>)

  ghost predicate Sendable(acts: seq<Action>) {
    forall i :: 0 <= i < |acts| && acts[i].Send? ==> Makeable(acts[i].message)
  }

  /** The messages of `acts` that the flags accept, in order. */
  function Accepted(acts: seq<Action>, flags: seq<bool>): seq<Message>
    requires |acts| == |flags|
  {
    if acts == [] then []
    else
      var n := |acts| - 1;
      Accepted(acts[..n], flags[..n]) + if acts[n].Send? && flags[n] then [acts[n].message] else []
  }

  /** `CtlConnect::SendMsg`: the message is queued whole, or dropped for lack of space. */
  method SendMsg(out: Buffer, m: Message) returns (accepted: bool)
    requires out.Valid() && Makeable(m)
    modifies out, out.data
    ensures out.Valid() && (out.data == old(out.data) || fresh(out.data))
    ensures out.Contents() == old(out.Contents()) + if accepted then Encode(m) else []
    ensures accepted ==> OnWire(out.Contents()[|old(out.Contents())|..], m)
    ensures accepted <==> var n := 8 + |m.data|;
      |old(out.Contents())| + n <= old(out.capacity) || old(out.capacity) + n <= out.maxCapacity
    ensures accepted <==> Fits(old(Abstract(out)), |Encode(m)|)
    ensures QStep(old(Abstract(out)), Write(Encode(m)), Wrote(if accepted then |Encode(m)| else 0), Abstract(out))
  {
    var frame := Encode(m);
    NewCapacityGrows(out.capacity, out.capacity + |frame|, out.maxCapacity);
    var written := out.WriteToBuffer(frame);
    assert frame[..|frame|] == frame && frame[..0] == [];
    accepted := written == |frame|;
    EncodeOnWire(m);
    assert accepted ==> out.Contents()[|old(out.Contents())|..] == frame;
  }

  ghost function ActSize(act: Action): nat
    requires act.Send? ==> Makeable(act.message)
  {
    if act.Send? then |Encode(act.message)| else 0
  }

  /** The bytes of all the frames that `acts` send. */
  ghost function Volume(acts: seq<Action>): nat
    requires Sendable(acts)
  {
    if acts == [] then 0
    else
      var n := |acts| - 1;
      Volume(acts[..n]) + ActSize(acts[n])
  }

  lemma {:induction false} VolumePrefix(acts: seq<Action>, i: nat)
    requires Sendable(acts) && i < |acts|
    ensures Volume(acts[..i]) + ActSize(acts[i]) == Volume(acts[..i + 1]) <= Volume(acts)
    decreases |acts| - i
  {
    assert acts[..i + 1][..i] == acts[..i];
    if i + 1 < |acts| { VolumePrefix(acts, i + 1); } else { assert acts[..i + 1] == acts; }
  }

  function OpOf(act: Action): Op
    requires act.Send? ==> Makeable(act.message)
  {
    match act
    case Send(m) => Write(Encode(m))
    case HandlerWrite(os) => Flush(os)
  }

  /** The buffer makes the step of the queue, and a send is accepted exactly if its frame fits. */
  ghost predicate Acts(q: Queue, act: Action, accepted: bool, q': Queue) {
    && (act.Send? ==> Makeable(act.message))
    && (accepted <==> act.Send? && Fits(q, ActSize(act)))
    && exists out :: QStep(q, OpOf(act), out, q')
  }

  /** The queues that the buffer goes through, from `q0` on. */
  ghost predicate Admits(q0: Queue, acts: seq<Action>, flags: seq<bool>, qs: seq<Queue>) {
    && |flags| == |acts| && |qs| == |acts| + 1 && qs[0] == q0
    && forall i :: 0 <= i < |acts| ==> Acts(qs[i], acts[i], flags[i], qs[i + 1])
  }

  method Act(out: Buffer, act: Action) returns (sent: seq<Byte>, accepted: bool)
    requires out.Valid() && (act.Send? ==> Makeable(act.message))
    modifies out, out.data
    ensures out.Valid() && (out.data == old(out.data) || fresh(out.data))
    ensures Acts(old(Abstract(out)), act, accepted, Abstract(out))
    ensures old(out.Contents()) + (if accepted then Encode(act.message) else []) == sent + out.Contents()
  {
    match act
    case Send(m) =>
      accepted := SendMsg(out, m);
      sent := [];
      assert QStep(old(Abstract(out)), OpOf(act), Wrote(if accepted then |Encode(m)| else 0), Abstract(out));
    case HandlerWrite(os) =>
      accepted := false;
      var result := Perform(out, Flush(os));
      sent := result.bytes;
      assert QStep(old(Abstract(out)), OpOf(act), result, Abstract(out));
  }

  /**
   Any sequence of sends and partial writes puts on the wire, or keeps, whole frames and no more. A
   message is accepted exactly if its frame fits the queue that the buffer then is, `qs` in turn.
   */
  method Transmit(out: Buffer, acts: seq<Action>) returns (wire: seq<Byte>, flags: seq<bool>, ghost qs: seq<Queue>)
    requires out.Valid() && out.Contents() == [] && Sendable(acts)
    modifies out, out.data
    ensures out.Valid() && |flags| == |acts| && AllMakeable(Accepted(acts, flags))
    ensures wire + out.Contents() == Frames(Accepted(acts, flags))
    ensures Admits(old(Abstract(out)), acts, flags, qs) && qs[|acts|] == Abstract(out)
  {
    wire, flags, qs := [], [], [Abstract(out)];
    for i := 0 to |acts|
      invariant out.Valid() && (out.data == old(out.data) || fresh(out.data))
      invariant |flags| == i && AllMakeable(Accepted(acts[..i], flags))
      invariant wire + out.Contents() == Frames(Accepted(acts[..i], flags))
      invariant Admits(old(Abstract(out)), acts[..i], flags, qs) && qs[i] == Abstract(out)
    {
      ghost var kept := out.Contents();
      var sent, ok := Act(out, acts[i]);
      FramesNext(acts, flags, i, ok, wire, kept, sent, out.Contents());
      AdmitsNext(old(Abstract(out)), acts, flags, qs, i, ok, Abstract(out));
      wire, flags, qs := wire + sent, flags + [ok], qs + [Abstract(out)];
    }
    assert acts[..|acts|] == acts;
  }

  lemma AdmitsNext(q0: Queue, acts: seq<Action>, flags: seq<bool>, qs: seq<Queue>, i: nat, ok: bool, q: Queue)
    requires i < |acts| && Admits(q0, acts[..i], flags, qs) && Acts(qs[i], acts[i], ok, q)
    ensures Admits(q0, acts[..i + 1], flags + [ok], qs + [q])
  {
  }

  /** In particular none is dropped as long as the buffer, as it was at first, has room for all of them. */
  lemma {:induction false} RoomForAll(q0: Queue, acts: seq<Action>, flags: seq<bool>, qs: seq<Queue>, i: nat)
    requires Sendable(acts) && Admits(q0, acts, flags, qs) && q0.content == [] && Volume(acts) <= q0.capacity
    requires i <= |acts|
    ensures |qs[i].content| <= Volume(acts[..i]) && qs[i].capacity >= q0.capacity
    ensures forall k :: 0 <= k < i ==> (flags[k] <==> acts[k].Send?)
  {
    if i > 0 {
      RoomForAll(q0, acts, flags, qs, i - 1);
      VolumePrefix(acts, i - 1);
      ActGrows(qs[i - 1], acts[i - 1], flags[i - 1], qs[i]);
    }
  }

  lemma ActGrows(q: Queue, act: Action, ok: bool, q': Queue)
    requires Acts(q, act, ok, q')
    ensures |q'.content| <= |q.content| + ActSize(act) && q'.capacity >= q.capacity
  {
  }

  lemma AcceptedPush(acts: seq<Action>, flags: seq<bool>, i: nat, ok: bool)
    requires i < |acts| && |flags| == i && (ok ==> acts[i].Send?)
    ensures Accepted(acts[..i + 1], flags + [ok]) == Accepted(acts[..i], flags) + if ok then [acts[i].message] else []
  {
    assert acts[..i + 1][..i] == acts[..i] && (flags + [ok])[..i] == flags;
  }

  lemma AcceptedNext(acts: seq<Action>, flags: seq<bool>, i: nat, ok: bool)
    requires i < |acts| && |flags| == i && Sendable(acts) && (ok ==> acts[i].Send?)
    requires AllMakeable(Accepted(acts[..i], flags))
    ensures var ms, ms' := Accepted(acts[..i], flags), Accepted(acts[..i + 1], flags + [ok]);
      && AllMakeable(ms')
      && Frames(ms') == Frames(ms) + if ok then Encode(acts[i].message) else []
  {
    var ms := Accepted(acts[..i], flags);
    AcceptedPush(acts, flags, i, ok);
    if ok {
      FramesAppend(ms, acts[i].message);
    } else {
      assert ms + [] == ms;
    }
  }

  lemma FramesNext(
      acts: seq<Action>, flags: seq<bool>, i: nat, ok: bool,
      wire: seq<Byte>, kept: seq<Byte>, sent: seq<Byte>, kept': seq<Byte>)
    requires i < |acts| && |flags| == i && Sendable(acts) && (ok ==> acts[i].Send?)
    requires AllMakeable(Accepted(acts[..i], flags)) && wire + kept == Frames(Accepted(acts[..i], flags))
    requires kept + (if ok then Encode(acts[i].message) else []) == sent + kept'
    ensures var ms := Accepted(acts[..i + 1], flags + [ok]); AllMakeable(ms) && (wire + sent) + kept' == Frames(ms)
  {
    AcceptedNext(acts, flags, i, ok);
    var taken := if ok then Encode(acts[i].message) else [];
    QueueStep(Frames(Accepted(acts[..i], flags)), wire, kept, taken, sent, kept');
  }

  // ---------- the receiver ----------

  /** One answer of `read`: some bytes, at most this many and one, or an interruption. */
  datatype Grant = Gives(count: nat) | Again

  /** A socket that gives `incoming` in pieces chosen by `grants`, and then reports its end. */
  class Socket {
    var incoming: seq<Byte>
    var grants: seq<Grant>

    constructor (incoming: seq<Byte>, grants: seq<Grant>)
      ensures this.incoming == incoming
    {
      this.incoming, this.grants := incoming, grants;
    }

    /** `failed` stands for a negative result with EINTR or EAGAIN. */
    method Read(len: nat) returns (bytes: seq<Byte>, failed: bool)
      requires len > 0
      modifies this
      ensures bytes + incoming == old(incoming) && |bytes| <= len
      ensures failed ==> bytes == [] && |grants| < |old(grants)|
      ensures !failed ==> (bytes == [] <==> old(incoming) == [])
      ensures |grants| <= |old(grants)|
    {
      failed := grants != [] && grants[0].Again?;
      if failed || incoming == [] {
        bytes := [];
      } else {
        var most := Min(len, |incoming|);
        var n := if grants == [] then most else Min(grants[0].count + 1, most);
        bytes, incoming := incoming[..n], incoming[n..];
      }
      if grants != [] { grants := grants[1..]; }
    }
  }

  /** Reads until `size` bytes are there or the stream ends, through any number of interruptions. */
  method Readn(fd: Socket, size: nat) returns (bytes: seq<Byte>)
    modifies fd
    ensures bytes == old(fd.incoming)[..Min(size, |old(fd.incoming)|)]
    ensures fd.incoming == old(fd.incoming)[|bytes|..]
  {
    bytes := [];
    while |bytes| < size
      invariant |bytes| <= size && bytes + fd.incoming == old(fd.incoming)
      decreases size - |bytes|, |fd.grants|
    {
      var piece, failed := fd.Read(size - |bytes|);
      if failed {
        continue;
      }
      assert bytes + (piece + fd.incoming) == (bytes + piece) + fd.incoming;
      if piece == [] {
        break;
      }
      bytes := bytes + piece;
    }
  }

  /** The answer to a stream, from its bytes alone */
  lemma DecodesWire(stream: seq<Byte>)
    ensures var (r, rest) := DecodeOne(stream);
      && (forall m :: r == Frame(m) <==> Fronts(stream, m))
      && (r.Frame? ==> rest == stream[Announced(stream)..])
      && (r.TooLong? <==> |stream| >= 4 && Announced(stream) > 1032)
      && (r.TooLong? ==> rest == stream[4..])
      && (r.Idle? <==> |stream| == 0 || (|stream| == 4 && 4 < Announced(stream) <= 1032))
  {
    if |stream| >= 4 {
      assert FromBigEndian(stream[..LEN_SIZE]) == Announced(stream);
      DecodesBody(stream);
    }
  }

  lemma DecodesBody(stream: seq<Byte>)
    requires |stream| >= 4
    ensures var r := DecodeOne(stream).0; forall m :: r == Frame(m) <==> Fronts(stream, m)
    ensures DecodeOne(stream).0.Frame? ==> DecodeOne(stream).1 == stream[Announced(stream)..]
  {
    var len := Announced(stream);
    assert FromBigEndian(stream[..LEN_SIZE]) == len;
    if 8 <= len <= 1032 && len <= |stream| {
      var f, body := stream[..len], stream[4..][..len - 4];
      assert body == f[4..] && stream[4..][|body|..] == stream[len..];
      assert body[..TYPE_SIZE] == f[4..8] && body[TYPE_SIZE..] == f[8..];
      assert f[4] == f[4..8][0] && f[5] == f[4..8][1] && f[6] == f[4..8][2] && f[7] == f[4..8][3];
    }
  }

  /** The two reads of `HandlerRead` */
  method ReadFrame(fd: Socket) returns (received: Received)
    modifies fd
    ensures (received, fd.incoming) == DecodeOne(old(fd.incoming))
  {
    var header := Readn(fd, LEN_SIZE);
    if |header| == 0 {
      return Idle;
    }
    if |header| != LEN_SIZE {
      return Broken;
    }
    var len := FromBigEndian(header);
    if len > MSG_SIZE {
      return TooLong;
    }
    if len < LEN_SIZE {
      // the body length is negative as an int, so readn reads nothing
      return Broken;
    }
    var body := Readn(fd, len - LEN_SIZE);
    if |body| == 0 && len > LEN_SIZE {
      return Idle;
    }
    if |body| != len - LEN_SIZE || |body| < TYPE_SIZE {
      return Broken;
    }
    received := Frame(Message(FromLittleEndian(body[..TYPE_SIZE]), body[TYPE_SIZE..]));
  }

  method HandlerRead(fd: Socket) returns (received: Received)
    modifies fd
    ensures (received, fd.incoming) == DecodeOne(old(fd.incoming))
    ensures forall m :: received == Frame(m) <==> Fronts(old(fd.incoming), m)
    ensures received.Frame? ==> fd.incoming == old(fd.incoming)[Announced(old(fd.incoming))..]
    ensures received.TooLong? <==> |old(fd.incoming)| >= 4 && Announced(old(fd.incoming)) > 1032
    ensures received.TooLong? ==> fd.incoming == old(fd.incoming)[4..]
    ensures received.Idle? <==>
      |old(fd.incoming)| == 0 || (|old(fd.incoming)| == 4 && 4 < Announced(old(fd.incoming)) <= 1032)
  {
    DecodesWire(fd.incoming);
    received := ReadFrame(fd);
  }

  method ReceiveAll(fd: Socket) returns (ms: seq<Message>)
    modifies fd
    ensures ms == DecodeAll(old(fd.incoming)) && fd.incoming == []
  {
    ms := [];
    while fd.incoming != []
      invariant ms + DecodeAll(fd.incoming) == DecodeAll(old(fd.incoming))
      decreases |fd.incoming|
    {
      ghost var before := fd.incoming;
      var received := HandlerRead(fd);
      if received.Frame? {
        assert ms + ([received.message] + DecodeAll(fd.incoming)) == ms + [received.message] + DecodeAll(fd.incoming);
        ms := ms + [received.message];
      }
      assert (before, fd.incoming) == (before, DecodeOne(before).1);
    }
  }

  // ---------- end to end ----------

  /** Where in a sequence of frames its first `n` bytes end. */
  lemma {:induction false} FramesCut(ms: seq<Message>, n: nat) returns (k: nat)
    requires AllMakeable(ms) && n < |Frames(ms)|
    ensures k < |ms| && AllMakeable(ms[..k])
    ensures |Frames(ms[..k])| <= n && n - |Frames(ms[..k])| < |Encode(ms[k])|
    ensures Frames(ms)[..n] == Frames(ms[..k]) + Encode(ms[k])[..n - |Frames(ms[..k])|]
  {
    var first := Encode(ms[0]);
    if n < |first| {
      k := 0;
      assert ms[..0] == [];
    } else {
      var k' := FramesCut(ms[1..], n - |first|);
      k := k' + 1;
      assert ms[1..][..k'] == ms[..k][1..];
      assert Frames(ms[..k]) == first + Frames(ms[1..][..k']);
      assert Frames(ms)[..n] == first + Frames(ms[1..])[..n - |first|];
    }
  }

  /** What has left the sender decodes to the first accepted messages; once all has, to all of them. */
  lemma PrefixDecodes(ms: seq<Message>, wire: seq<Byte>, kept: seq<Byte>)
    requires AllMakeable(ms) && wire + kept == Frames(ms)
    ensures DecodeAll(wire) <= ms
    ensures kept == [] ==> DecodeAll(wire) == ms
  {
    if kept == [] {
      assert wire == Frames(ms);
      var any := Message(0, []);
      assert Frames(ms) + Encode(any)[..0] == Frames(ms);
      DecodeFrames(ms, any, 0);
    } else {
      var n := |wire|;
      assert wire == Frames(ms)[..n];
      var k := FramesCut(ms, n);
      DecodeFrames(ms[..k], ms[k], n - |Frames(ms[..k])|);
    }
  }

  method EndToEnd(out: Buffer, acts: seq<Action>, grants: seq<Grant>)
    returns (flags: seq<bool>, received: seq<Message>, ghost qs: seq<Queue>)
    requires out.Valid() && out.Contents() == [] && Sendable(acts)
    modifies out, out.data
    ensures out.Valid() && Admits(old(Abstract(out)), acts, flags, qs) && qs[|acts|] == Abstract(out)
    ensures received <= Accepted(acts, flags)
    ensures out.Contents() == [] ==> received == Accepted(acts, flags)
    ensures Volume(acts) <= old(out.capacity) ==> forall i :: 0 <= i < |acts| ==> (flags[i] <==> acts[i].Send?)
  {
    var wire;
    wire, flags, qs := Transmit(out, acts);
    if Volume(acts) <= old(out.capacity) { RoomForAll(old(Abstract(out)), acts, flags, qs, |acts|); }
    PrefixDecodes(Accepted(acts, flags), wire, out.Contents());
    var fd := new Socket(wire, grants);
    received := ReceiveAll(fd);
  }
}
