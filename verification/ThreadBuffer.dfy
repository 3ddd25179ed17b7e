/**
 The plain server's receive path: bytes arrive in pieces in a fixed buffer, and a drain loop hands on
 every complete frame. What is handed on depends on the byte stream only, not on the pieces.
 */
module StreamingDecoder {
  import opened Bytes

  /** `sizeof(DataHeader)`: two shorts, the first of them the frame's whole length */
  const HEADER_SIZE := 4

  const MAX_BUF_SIZE := 81920

  /** The largest value of the 16-bit signed length */
  const MAX_FRAME := 32767

  /** `header->len` of the frame that starts the bytes */
  function HeaderLen(s: seq<Byte>): int
    requires |s| >= HEADER_SIZE
  {
    var raw := s[0] as int + s[1] as int * 0x100;
    if raw < 0x8000 then raw else raw - 0x1_0000
  }

  /** `ThreadBuffer::empty`: no complete frame at the front */
  predicate NoFrame(s: seq<Byte>) {
    |s| < HEADER_SIZE || |s| < HeaderLen(s)
  }

  /** Every frame header met while reading the bytes announces at least one byte. */
  ghost predicate WellFormed(s: seq<Byte>)
    decreases |s|
  {
    |s| >= HEADER_SIZE ==> HeaderLen(s) > 0 && (HeaderLen(s) <= |s| ==> WellFormed(s[HeaderLen(s)..]))
  }

  /** The complete frames of a byte stream, and the incomplete rest. */
  ghost function Parse(s: seq<Byte>): (seq<seq<Byte>>, seq<Byte>)
    requires WellFormed(s)
    decreases |s|
  {
    if NoFrame(s) then ([], s)
    else
      var (frames, tail) := Parse(s[HeaderLen(s)..]);
      ([s[..HeaderLen(s)]] + frames, tail)
  }

  function Concat(frames: seq<seq<Byte>>): seq<Byte> {
    if frames == [] then [] else frames[0] + Concat(frames[1..])
  }

  ghost predicate IsFrame(f: seq<Byte>) {
    HEADER_SIZE <= |f| && HeaderLen(f) == |f|
  }

  /** What the drain loop hands on: a frame, or the fewer bytes than a header that a header announced. */
  ghost predicate IsPiece(f: seq<Byte>) {
    IsFrame(f) || 0 < |f| < HEADER_SIZE
  }

  /** Parsing loses nothing, yields frames only, and leaves no frame behind. */
  lemma {:induction false} ParseSound(s: seq<Byte>)
    requires WellFormed(s)
    ensures var (frames, tail) := Parse(s);
      && Concat(frames) + tail == s
      && (forall i :: 0 <= i < |frames| ==> IsPiece(frames[i]))
      && NoFrame(tail) && WellFormed(tail) && |tail| < MAX_FRAME
    decreases |s|
  {
    if !NoFrame(s) {
      var len := HeaderLen(s);
      ParseSound(s[len..]);
      var (rest, tail) := Parse(s[len..]);
      assert Concat([s[..len]] + rest) + tail == s[..len] + (Concat(rest) + tail) by {
        assert ([s[..len]] + rest)[1..] == rest;
      }
      assert s[..len] + s[len..] == s;
    }
  }

  /** The first two bytes, the lower one first, are the length of what was handed on. */
  ghost predicate LengthInFront(f: seq<Byte>) {
    && |f| > 0 && (|f| >= 2 ==> f[1] < 0x80 && |f| == f[0] as int + 0x100 * f[1] as int)
    && (|f| == 1 ==> f[0] == 1)
  }

  /** What is kept is too short for a header, or for the length that it announces. */
  ghost predicate Incomplete(tail: seq<Byte>) {
    |tail| >= 4 ==> tail[1] < 0x80 && |tail| < tail[0] as int + 0x100 * tail[1] as int
  }

  /** The same, in terms of the bytes alone. */
  lemma {:induction false} ParseBytes(s: seq<Byte>)
    requires WellFormed(s)
    ensures var (frames, tail) := Parse(s);
      (forall i :: 0 <= i < |frames| ==> LengthInFront(frames[i])) && Incomplete(tail)
    decreases |s|
  {
    if !NoFrame(s) {
      ParseBytes(s[HeaderLen(s)..]);
      assert LengthInFront(s[..HeaderLen(s)]);
    }
  }

  /** Frames sent one after another, and part of another, parse back to themselves. */
  lemma {:induction false} ParseConcat(frames: seq<seq<Byte>>, tail: seq<Byte>)
    requires forall i :: 0 <= i < |frames| ==> IsFrame(frames[i])
    requires NoFrame(tail) && WellFormed(tail)
    ensures WellFormed(Concat(frames) + tail) && Parse(Concat(frames) + tail) == (frames, tail)
  {
    if frames == [] {
      assert Concat(frames) + tail == tail;
    } else {
      var rest := Concat(frames[1..]) + tail;
      ParseConcat(frames[1..], tail);
      assert Concat(frames) + tail == frames[0] + rest;
      ParseFirst(frames[0], rest);
      assert [frames[0]] + frames[1..] == frames;
    }
  }

  lemma ParseFirst(f: seq<Byte>, rest: seq<Byte>)
    requires IsFrame(f) && WellFormed(rest)
    ensures WellFormed(f + rest) && Parse(f + rest) == ([f] + Parse(rest).0, Parse(rest).1)
  {
    var s := f + rest;
    assert HeaderLen(s) == |f| && s[..|f|] == f && s[|f|..] == rest;
  }

  /** The first frame of a stream, and of whatever continues it */
  lemma FirstFrame(a: seq<Byte>, b: seq<Byte>)
    requires WellFormed(a + b) && !NoFrame(a)
    ensures !NoFrame(a + b) && HeaderLen(a + b) == HeaderLen(a) > 0
    ensures (a + b)[HeaderLen(a)..] == a[HeaderLen(a)..] + b && (a + b)[..HeaderLen(a)] == a[..HeaderLen(a)]
    ensures WellFormed(a[HeaderLen(a)..] + b)
  {
  }

  lemma ParseFrom(s: seq<Byte>)
    requires !NoFrame(s) && HeaderLen(s) > 0 && WellFormed(s[HeaderLen(s)..])
    ensures WellFormed(s)
    ensures Parse(s) == ([s[..HeaderLen(s)]] + Parse(s[HeaderLen(s)..]).0, Parse(s[HeaderLen(s)..]).1)
  {
  }

  lemma Regroup<T>(x: seq<T>, y: seq<T>, z: seq<T>)
    ensures x + (y + z) == (x + y) + z
  {
  }

  /** Parsing a piece first, and what it left together with the next piece, gives the same frames. */
  lemma {:induction false} ParseSplit(a: seq<Byte>, b: seq<Byte>)
    requires WellFormed(a + b)
    ensures WellFormed(a) && WellFormed(Parse(a).1 + b)
    ensures Parse(a + b) == (Parse(a).0 + Parse(Parse(a).1 + b).0, Parse(Parse(a).1 + b).1)
    decreases |a|
  {
    if !NoFrame(a) {
      var first, rest := a[..HeaderLen(a)], a[HeaderLen(a)..];
      FirstFrame(a, b);
      ParseSplit(rest, b);
      ParseFrom(a);
      ParseFrom(a + b);
      Regroup([first], Parse(rest).0, Parse(Parse(rest).1 + b).0);
    } else {
      if |a| >= HEADER_SIZE { assert HeaderLen(a + b) == HeaderLen(a); }
      assert [] + Parse(a + b).0 == Parse(a + b).0;
    }
  }

  // ---------- when the drain loop ends ----------

  /** What `n` turns of the drain loop leave. */
  function After(s: seq<Byte>, n: nat): seq<Byte> {
    if n == 0 || NoFrame(s) || HeaderLen(s) < 0 then s else After(s[HeaderLen(s)..], n - 1)
  }

  /** No header met announces a negative length. */
  ghost predicate NonNegative(s: seq<Byte>) {
    forall n: nat :: |After(s, n)| >= HEADER_SIZE ==> HeaderLen(After(s, n)) >= 0
  }

  ghost predicate MeetsZero(s: seq<Byte>, n: nat) {
    |After(s, n)| >= HEADER_SIZE && HeaderLen(After(s, n)) == 0
  }

  lemma {:induction false} ReachesTail(s: seq<Byte>) returns (n: nat)
    requires WellFormed(s)
    ensures NoFrame(After(s, n)) && After(s, n) == Parse(s).1
    decreases |s|
  {
    if NoFrame(s) {
      n := 0;
    } else {
      n := ReachesTail(s[HeaderLen(s)..]);
      n := n + 1;
    }
  }

  lemma {:induction false} ReachesZero(s: seq<Byte>) returns (n: nat)
    requires !WellFormed(s) && NonNegative(s)
    ensures MeetsZero(s, n)
    decreases |s|
  {
    assert After(s, 0) == s;
    if HeaderLen(s) == 0 {
      n := 0;
    } else {
      var rest := s[HeaderLen(s)..];
      assert forall k: nat :: After(rest, k) == After(s, k + 1);
      n := ReachesZero(rest);
      n := n + 1;
    }
  }

  /** A header of length 0 is complete at once, and removing it removes nothing. */
  lemma {:induction false} ZeroLengthNeverDrains(s: seq<Byte>, m: nat)
    requires |s| >= HEADER_SIZE && HeaderLen(s) == 0
    ensures After(s, m) == s && !NoFrame(s)
  {
    if m > 0 {
      assert s[0..] == s;
      ZeroLengthNeverDrains(s, m - 1);
    }
  }

  lemma {:induction false} ZeroNeverEnds(s: seq<Byte>, n: nat, m: nat)
    requires MeetsZero(s, n)
    ensures !NoFrame(After(s, m))
    decreases n
  {
    if n == 0 || NoFrame(s) || HeaderLen(s) < 0 {
      ZeroLengthNeverDrains(s, m);
    } else if m > 0 {
      ZeroNeverEnds(s[HeaderLen(s)..], n - 1, m - 1);
    }
  }

  /** The drain loop ends if and only if it never meets a header of length 0. */
  lemma DrainEndsExactly(s: seq<Byte>)
    requires NonNegative(s)
    ensures (exists n: nat :: NoFrame(After(s, n))) <==> WellFormed(s)
    ensures WellFormed(s) <==> forall n: nat :: !MeetsZero(s, n)
  {
    if WellFormed(s) {
      var n := ReachesTail(s);
      forall k: nat ensures !MeetsZero(s, k) {
        if MeetsZero(s, k) { ZeroNeverEnds(s, k, n); }
      }
    } else {
      var n := ReachesZero(s);
      forall m: nat ensures !NoFrame(After(s, m)) {
        ZeroNeverEnds(s, n, m);
      }
    }
  }

  class ThreadBuffer {
    var buff: array<Byte>
    var last: nat
    var size: nat
    var full: nat

    ghost predicate Valid()
      reads this, buff
    {
      size == buff.Length && last <= size
    }

    ghost function Contents(): seq<Byte>
      reads this, buff
      requires Valid()
    {
      buff[..last]
    }

    constructor (size: nat)
      ensures Valid() && fresh(buff) && this.size == size && Contents() == []
    {
      this.size := size;
      buff := new Byte[size](_ => 0);
      last, full := 0, 0;
    }

    /** `offered` is what the socket holds; the result is what `recv` returned. */
    method Read4Socket(offered: seq<Byte>, grant: nat) returns (len: nat)
      requires Valid()
      modifies this`last, buff
      ensures Valid() && len <= |offered| && Contents() == old(Contents()) + offered[..len]
      ensures len == 0 <==> offered == [] || old(last) == size
    {
      if size - last == 0 {
        return 0;
      }
      var room := size - last;
      len := if |offered| < room then |offered| else room;
      if 0 < grant < len { len := grant; }
      ghost var before := buff[..];
      for k := 0 to len
        invariant buff[..last] == before[..last]
        invariant buff[last..last + k] == offered[..k]
        modifies buff
      {
        buff[last + k] := offered[k];
      }
      last := last + len;
    }

    method Empty() returns (b: bool)
      requires Valid()
      ensures b <==> NoFrame(Contents())
      ensures b <==> last < 4 || (buff[1] < 0x80 && last < buff[0] as int + 0x100 * buff[1] as int)
    {
      if last >= HEADER_SIZE {
        var len := FrontLen();
        return last < len;
      }
      return true;
    }

    /** `front()->len` */
    method FrontLen() returns (len: int)
      requires Valid() && last >= HEADER_SIZE
      ensures len == HeaderLen(Contents())
      ensures -0x8000 <= len < 0x8000
      ensures var d := len - (buff[0] as int + 0x100 * buff[1] as int); d == 0 || d == -0x1_0000
    {
      var raw := buff[0] as int + buff[1] as int * 0x100;
      len := if raw < 0x8000 then raw else raw - 0x1_0000;
    }

    /** The copy moves the rest to the front, as a left shift. */
    method Pop(len: nat)
      requires Valid() && len <= last
      modifies this, buff
      ensures Valid() && buff == old(buff) && size == old(size)
      ensures Contents() == old(Contents())[len..]
    {
      var n := last - len;
      ghost var before := buff[..];
      if n > 0 {
        for k := 0 to n
          invariant buff[..k] == before[len..len + k]
          invariant buff[k..] == before[k..]
          modifies buff
        {
          buff[k] := buff[k + len];
        }
      }
      last := n;
      if full > 0 {
        full := full - 1;
      }
    }
  }

  lemma TakeFrame(frames: seq<seq<Byte>>, s: seq<Byte>)
    requires WellFormed(s) && !NoFrame(s)
    ensures frames + Parse(s).0 == frames + [s[..HeaderLen(s)]] + Parse(s[HeaderLen(s)..]).0
    ensures Parse(s).1 == Parse(s[HeaderLen(s)..]).1
  {
  }

  /** The drain loop of `RecvData`. */
  method Drain(b: ThreadBuffer) returns (frames: seq<seq<Byte>>)
    requires b.Valid() && WellFormed(b.Contents())
    modifies b, b.buff
    ensures b.Valid() && b.buff == old(b.buff) && b.size == old(b.size)
    ensures (frames, b.Contents()) == Parse(old(b.Contents()))
    ensures Concat(frames) + b.Contents() == old(b.Contents())
    ensures (forall i :: 0 <= i < |frames| ==> LengthInFront(frames[i])) && Incomplete(b.Contents())
  {
    frames := [];
    var empty := b.Empty();
    while !empty
      invariant b.Valid() && b.buff == old(b.buff) && b.size == old(b.size) && WellFormed(b.Contents())
      invariant empty <==> NoFrame(b.Contents())
      invariant frames + Parse(b.Contents()).0 == Parse(old(b.Contents())).0
      invariant Parse(b.Contents()).1 == Parse(old(b.Contents())).1
      decreases b.last
    {
      var len := b.FrontLen();
      ghost var s := b.Contents();
      var frame := b.buff[..len];
      assert frame == s[..len];
      TakeFrame(frames, s);
      b.Pop(len);
      frames := frames + [frame];
      empty := b.Empty();
    }
    assert frames + [] == frames;
    HandedOn(old(b.Contents()), frames, b.Contents());
  }

  lemma TailFits(seen: seq<Byte>)
    requires WellFormed(seen)
    ensures |Parse(seen).1| < MAX_FRAME < MAX_BUF_SIZE
  {
    ParseSound(seen);
  }

  lemma HandedOn(s: seq<Byte>, frames: seq<seq<Byte>>, tail: seq<Byte>)
    requires WellFormed(s) && (frames, tail) == Parse(s)
    ensures Concat(frames) + tail == s
    ensures (forall i :: 0 <= i < |frames| ==> LengthInFront(frames[i])) && Incomplete(tail)
  {
    ParseSound(s);
    ParseBytes(s);
  }

  /** Receiving a piece more, to what was left of those before. */
  lemma NextPiece(seen: seq<Byte>, piece: seq<Byte>, rest: seq<Byte>)
    requires WellFormed(seen + (piece + rest))
    ensures WellFormed(seen) && WellFormed(seen + piece) && WellFormed(Parse(seen).1 + piece)
    ensures var (more, tail) := Parse(Parse(seen).1 + piece); Parse(seen + piece) == (Parse(seen).0 + more, tail)
    ensures (seen + piece) + rest == seen + (piece + rest)
  {
    Regroup(seen, piece, rest);
    ParseSplit(seen + piece, rest);
    ParseSplit(seen, piece);
  }

  /**
   A connection served to the end of its stream: whatever pieces `recv` gives, the frames handed on
   are those of the stream, the incomplete tail stays, and `recv` is never refused for lack of room.
   `before` and `received` record how full the buffer was before each read and what the read gave.
   */
  method Serve(incoming: seq<Byte>, grants: seq<nat>)
    returns (frames: seq<seq<Byte>>, tail: seq<Byte>, ghost before: seq<nat>, ghost received: seq<nat>)
    requires WellFormed(incoming)
    ensures (frames, tail) == Parse(incoming)
    ensures Concat(frames) + tail == incoming
    ensures (forall i :: 0 <= i < |frames| ==> LengthInFront(frames[i])) && Incomplete(tail)
    ensures |before| == |received| && (|before| == 0 <==> incoming == [])
    ensures forall i :: 0 <= i < |before| ==> before[i] < MAX_FRAME < MAX_BUF_SIZE && received[i] > 0
  {
    var b := new ThreadBuffer(MAX_BUF_SIZE);
    frames, before, received := [], [], [];
    var rest, i := incoming, 0;
    ghost var seen: seq<Byte> := [];
    while rest != []
      invariant fresh(b) && fresh(b.buff) && b.Valid() && b.size == MAX_BUF_SIZE
      invariant seen + rest == incoming && WellFormed(seen)
      invariant (frames, b.Contents()) == Parse(seen)
      invariant |before| == |received| && (|before| == 0 <==> seen == [])
      invariant forall i :: 0 <= i < |before| ==> before[i] < MAX_FRAME < MAX_BUF_SIZE && received[i] > 0
      decreases |rest|
    {
      TailFits(seen);
      before := before + [b.last];
      var n := b.Read4Socket(rest, if i < |grants| then grants[i] else 0);
      received := received + [n];
      assert rest[..n] + rest[n..] == rest;
      NextPiece(seen, rest[..n], rest[n..]);
      var more := Drain(b);
      frames := frames + more;
      seen := seen + rest[..n];
      rest, i := rest[n..], i + 1;
    }
    assert seen == incoming;
    tail := b.buff[..b.last];
    HandedOn(incoming, frames, tail);
  }
}
