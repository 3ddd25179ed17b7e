/**
 One end of a proxy connection: the state kept by `ProxyConnect` and its base `TransConnect`,
 and what each of their methods does to it.

 A proxy connection is one TCP stream that carries control frames while the connection is idle
 and raw bytes while it relays. The two kinds of item are kept apart on the wire here, so that
 reading one in the mode meant for the other is visible in the model and can be ruled out.
 */
module ProxyConnection {
  import opened Bytes

  type Fd = nat

  /** The frames of lib/ProxyMessage.h; the proxy id they carry is that of the connection itself. */
  datatype ProxyFrame = MetaSet | ConnectReq(fd: Fd) | ConnectRsp(fd: Fd)

  datatype Item = Frame(frame: ProxyFrame) | Raw(byte: Byte)

  ghost predicate AllRaw(s: seq<Item>) {
    forall i :: 0 <= i < |s| ==> s[i].Raw?
  }

  function Wrap(bytes: seq<Byte>): (s: seq<Item>)
    ensures |s| == |bytes| && AllRaw(s)
  {
    seq(|bytes|, i requires 0 <= i < |bytes| => Raw(bytes[i]))
  }

  /**
   `delivered` and `shut` describe the descriptor `conn2fd_` of the session in progress: what has
   been written to it, and whether `shutdown(conn2fd_, SHUT_WR)` was called on it.
   */
  datatype End = End(
    start: bool,
    half: bool,
    recv: int,
    total: int,
    pipe: seq<Item>,
    delivered: seq<Item>,
    shut: bool)
  {
    function Reset(): End {
      this.(start := false, half := false, recv := 0, total := 0)
    }

    function Run(): End {
      this.(start := true, delivered := [], shut := false)
    }

    function AddTotal(count: int): End {
      this.(total := if total == -1 then count else total + count)
    }

    /** The second component is the method's result: whether the connection was reset. */
    function ShutdownFromRemote(): (End, bool) {
      var closed := this.(shut := true);
      if half then (closed.Reset(), true) else (closed.(half := true), false)
    }

    function ShutdownFromLocal(): (End, bool) {
      if half then (Reset(), true) else (this.(half := true), false)
    }

    /**
     The two splices of the raw branch of `handleRead`: the bytes in `grabbed` enter the pipe, then
     the first `pushed` bytes of the pipe reach the descriptor. A failed second splice has
     `pushed == 0`.
     */
    function Relay(grabbed: seq<Item>, pushed: nat): End
      requires pushed <= |pipe| + |grabbed|
    {
      var filled := pipe + grabbed;
      this.(pipe := filled[pushed..], delivered := delivered + filled[..pushed], recv := recv + pushed)
    }

    ghost predicate IsReset() {
      !start && !half && recv == 0 && total == 0 && pipe == []
    }
  }

  const FRESH_END := End(false, false, 0, -1, [], [], false)

  /** `handleRead` never splices more than this at once. */
  const SPLICE_MAX := 2048

  /**
   The object itself. Every method is the step of the same name on `End`; what those steps
   guarantee over whole runs is proved in the modules that use them.
   */
  class ProxyConnect {
    var start: bool
    var halfClose: bool
    var recvCount: int
    var totalCount: int
    var pipe: seq<Item>
    var sink: seq<Item>
    var sinkShut: bool

    ghost function View(): End
      reads this
    {
      End(start, halfClose, recvCount, totalCount, pipe, sink, sinkShut)
    }

    constructor ()
      ensures View() == FRESH_END
    {
      start, halfClose := false, false;
      recvCount, totalCount := 0, -1;
      pipe, sink, sinkShut := [], [], false;
    }

    method ResetConn()
      modifies this
      ensures View() == old(View()).Reset()
      ensures !start && !halfClose && recvCount == 0 && totalCount == 0
      ensures pipe == old(pipe) && sink == old(sink) && sinkShut == old(sinkShut)
    {
      recvCount := 0;
      totalCount := 0;
      start := false;
      halfClose := false;
    }

    method ShutdownFromRemote() returns (reset: bool)
      modifies this
      ensures (View(), reset) == old(View()).ShutdownFromRemote()
      ensures reset <==> old(halfClose)
      ensures sinkShut && sink == old(sink)
      ensures if reset then !start && !halfClose && recvCount == 0 && totalCount == 0
              else halfClose && start == old(start) && recvCount == old(recvCount) && totalCount == old(totalCount)
    {
      sinkShut := true;
      if halfClose {
        ResetConn();
        return true;
      }
      halfClose := true;
      return false;
    }

    method ShutdownFromLocal() returns (reset: bool)
      modifies this
      ensures (View(), reset) == old(View()).ShutdownFromLocal()
      ensures reset <==> old(halfClose)
      ensures sinkShut == old(sinkShut) && sink == old(sink)
      ensures if reset then !start && !halfClose && recvCount == 0 && totalCount == 0
              else halfClose && start == old(start) && recvCount == old(recvCount) && totalCount == old(totalCount)
    {
      if halfClose {
        ResetConn();
        return true;
      }
      halfClose := true;
      return false;
    }

    method Run()
      modifies this
      ensures View() == old(View()).Run()
      ensures start && sink == [] && !sinkShut && halfClose == old(halfClose) && pipe == old(pipe)
      ensures recvCount == old(recvCount) && totalCount == old(totalCount)
    {
      start := true;
      sink, sinkShut := [], false;
    }

    method AddTotalCount(count: int)
      modifies this
      ensures View() == old(View()).AddTotal(count)
      ensures totalCount == if old(totalCount) == -1 then count else old(totalCount) + count
      ensures recvCount == old(recvCount)
    {
      if totalCount == -1 {
        totalCount := count;
      } else {
        totalCount := totalCount + count;
      }
    }

    /**
     The peer's count is heard, as the handlers of ShutdownPeerConn do it: if it meets what was
     received, the remote side has ended. The results say whether it has, and whether that was a reset.
     */
    method HearTotal(count: int) returns (drained: bool, reset: bool)
      modifies this
      ensures drained <==> old(recvCount) == old(View()).AddTotal(count).total
      ensures if drained then (View(), reset) == old(View()).AddTotal(count).ShutdownFromRemote()
              else View() == old(View()).AddTotal(count) && !reset
      ensures drained <==> old(recvCount) == if old(totalCount) == -1 then count else old(totalCount) + count
      ensures sink == old(sink) && pipe == old(pipe) && (drained ==> sinkShut)
    {
      AddTotalCount(count);
      drained, reset := recvCount == totalCount, false;
      if drained {
        reset := ShutdownFromRemote();
      }
    }

    /**
     The raw branch of `handleRead`. `grab` and `push` are what the two splices moved; the result
     says whether the handler that closes the local peer is called.
     */
    method HandleReadRaw(wire: seq<Item>, grab: nat, push: nat) returns (rest: seq<Item>, drained: bool)
      requires start && 1 <= grab <= |wire| && push <= grab
      modifies this
      ensures rest == wire[grab..]
      ensures View() == old(View()).Relay(wire[..grab], push)
      ensures old(sink) + old(pipe) + wire == sink + pipe + rest
      ensures |sink| == |old(sink)| + push && recvCount == old(recvCount) + push && totalCount == old(totalCount)
      ensures drained <==> push > 0 && recvCount == totalCount
    {
      rest, drained := wire[grab..], false;
      pipe := pipe + wire[..grab];
      if push == 0 {
        assert wire == wire[..grab] + rest;
        return;
      }
      ghost var filled := pipe;
      sink := sink + pipe[..push];
      pipe := pipe[push..];
      recvCount := recvCount + push;
      drained := recvCount == totalCount;
      assert filled == filled[..push] + pipe && wire == wire[..grab] + rest;
    }
  }
}
