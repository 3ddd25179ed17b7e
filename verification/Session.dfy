/**
 One proxy connection seen by itself, over any number of sessions: the handlers of both proxies
 interleave freely, and the control channel is reduced to the messages that name this connection.
 */
module Session {
  import opened Bytes
  import opened ProxyConnection
  import opened Handlers

  /** In which of the server's collections the connection is found, `pooled` counting occurrences. */
  datatype Place = Place(backlog: bool, unclaimed: bool, waiting: bool, active: bool, pooled: nat) {
    ghost predicate ExactlyOne() {
      (if backlog then 1 else 0) + (if unclaimed then 1 else 0) + (if waiting then 1 else 0)
      + (if active then 1 else 0) + pooled == 1
    }
  }

  datatype Link = Link(core: Core, place: Place, toServer: seq<Ctl>, toClient: seq<Ctl>)

  datatype Event =
    | Accept
    | ServerRead(grab: nat, push: nat)
    | ServerWrite
    | PublicRead(bytes: seq<Byte>, push: nat)
    | PublicEnd
    | ServerCtl
    | ClientRead(grab: nat, push: nat)
    | LocalRead(bytes: seq<Byte>, push: nat)
    | LocalEnd
    | ClientCtl
    | Reuse(fd: Fd)

  ghost predicate Splices(wire: seq<Item>, grab: nat, push: nat) {
    1 <= grab <= SPLICE_MAX && grab <= |wire| && push <= grab
  }

  ghost predicate Enabled(l: Link, e: Event) {
    match e
    case Accept => l.place.backlog
    case ServerRead(grab, push) =>
      (l.place.unclaimed || l.place.waiting || l.place.active || l.place.pooled > 0)
      && |l.core.up| > 0 && (l.core.srv.start ==> Splices(l.core.up, grab, push))
    case ServerWrite => |l.core.outbuf| > 0
    case PublicRead(bytes, push) =>
      l.core.pub.bound && !l.core.pub.closed && 1 <= |bytes| <= SPLICE_MAX && push <= |bytes|
    case PublicEnd => l.core.pub.bound && !l.core.pub.closed
    case ServerCtl => |l.toServer| > 0
    case ClientRead(grab, push) =>
      |l.core.down| > 0 && (l.core.cli.start ==> Splices(l.core.down, grab, push))
    case LocalRead(bytes, push) =>
      l.core.loc.bound && !l.core.loc.closed && 1 <= |bytes| <= SPLICE_MAX && push <= |bytes|
    case LocalEnd => l.core.loc.bound && !l.core.loc.closed
    case ClientCtl => |l.toClient| > 0
    case Reuse(_) => l.place.pooled > 0
  }

  /** The assumption under which a pooled connection may be taken again: the client end was reset. */
  ghost predicate ReuseGuard(l: Link, e: Event) {
    e.Reuse? ==> !l.core.cli.start
  }

  function Moved(p: Place, m: Move): Place {
    match m
    case Stay => p
    case Claim => p.(unclaimed := false, active := true)
    case Bind(_) => p.(waiting := false, active := true)
    case Pool => p.(active := false, pooled := p.pooled + 1)
  }

  function Apply(l: Link, o: Outcome): Link {
    Link(o.core, Moved(l.place, o.move), l.toServer + o.toServer, l.toClient + o.toClient)
  }

  function ServerHandle(c: Core, active: bool, m: Ctl): Outcome {
    match m
    case ShutdownPeerConn(count) => HandleShutdownPublicConn(c, active, count)
    case FreeConnReq => HandleFreeProxyConnReq(c, active)
  }

  function ClientHandle(c: Core, m: Ctl): Outcome {
    match m
    case ShutdownPeerConn(count) => HandleShutdownLocalConn(c, count)
    case FreeConnReq => Quiet(c)
  }

  /** The events that concern this connection alone and involve no control message. */
  predicate OwnEvent(e: Event) {
    !e.Accept? && !e.ServerCtl? && !e.ClientCtl? && !e.Reuse?
  }

  ghost function Handle(l: Link, e: Event): Outcome
    requires Enabled(l, e) && OwnEvent(e)
  {
    var c, active := l.core, l.place.active;
    match e
    case ServerRead(grab, push) =>
      if c.srv.start then ServerRaw(c, active, grab, push) else ServerFrame(c, l.place.waiting)
    case ServerWrite => ServerFlush(c)
    case PublicRead(bytes, push) => PublicData(c, bytes, push)
    case PublicEnd => PublicEof(c, active)
    case ClientRead(grab, push) => if c.cli.start then ClientRaw(c, grab, push) else ClientFrame(c)
    case LocalRead(bytes, push) => LocalData(c, bytes, push)
    case LocalEnd => LocalEof(c)
  }

  ghost function Step(l: Link, e: Event): Link
    requires Enabled(l, e)
  {
    var c, active := l.core, l.place.active;
    match e
    case Accept => l.(place := l.place.(backlog := false, unclaimed := true))
    case ServerCtl => Apply(l.(toServer := l.toServer[1..]), ServerHandle(c, active, l.toServer[0]))
    case ClientCtl => Apply(l.(toClient := l.toClient[1..]), ClientHandle(c, l.toClient[0]))
    case Reuse(fd) =>
      l.(core := ReqStartProxy(c, fd), place := l.place.(pooled := l.place.pooled - 1, waiting := true))
    case _ => Apply(l, Handle(l, e))
  }

  /** The link as `Client::handleProxyNotify` leaves it. */
  const CREATED_LINK := Link(CREATED, Place(true, false, false, false, 0), [], [])

  // ---------- the invariant ----------

  function Free(pending: bool): seq<Ctl> {
    if pending then [FreeConnReq] else []
  }

  function Count(a: Announcement, f: Feeder): seq<Ctl> {
    if a.Flying? then [ShutdownPeerConn(f.tran)] else []
  }

  /** Nothing is lost, reordered or duplicated between the feeder and the descriptor at the far end. */
  ghost predicate Flow(f: Feeder, wire: seq<Item>, e: End) {
    && f.bound && f.tran == |f.forwarded| && AllRaw(f.forwarded)
    && f.forwarded == e.delivered + e.pipe + wire
  }

  /** What an end knows of the incoming direction, and what it has done about it. */
  ghost predicate Counting(e: End, a: Announcement, f: Feeder, drained: bool) {
    && (e.start ==> e.recv == |e.delivered|)
    && (e.start && !a.Heard? ==> e.total == -1 || e.total == 0)
    && (e.start && a.Heard? ==> e.total == f.tran)
    && (e.start && a.Heard? ==> (e.recv == e.total <==> drained))
    && (drained ==> a.Heard? && e.delivered == f.forwarded && e.pipe == [])
    && (e.shut <==> drained)
  }

  /** The flags of an end against the order in which it saw the two closes. */
  ghost predicate Flags(e: End, k: Closing, localClosed: bool) {
    match k
    case Open => e.start && !e.half && !localClosed
    case Local => e.start && e.half && localClosed
    case Remote => e.start && e.half && !localClosed
    case _ => e.IsReset() && localClosed
  }

  ghost predicate ToServerQueue(l: Link) {
    var h := l.core.h;
    && l.toServer == Free(h.staleFree) + Count(h.up, l.core.loc) + Free(h.freshFree)
    && (h.staleFree ==> h.up.Unsent? || h.up.Flying?)
    && (h.freshFree ==> h.clientClosing.LocalRemote?)
  }

  /** The client has started a session that the server has yet to join; `hello` leads the stream. */
  ghost predicate Calling(l: Link, hello: ProxyFrame) {
    var c := l.core;
    && c.h.clientSessions == c.h.serverSessions + 1
    && c.outbuf == [] && c.down == [] && l.toClient == []
    && c.up == [Frame(hello)] + c.loc.forwarded
    && c.loc.bound && c.loc.tran == |c.loc.forwarded| && AllRaw(c.loc.forwarded)
    && c.srv.pipe == [] && !c.srv.start && !c.srv.half && c.srv.recv == 0
    && (c.srv.total == -1 || c.srv.total == 0)
    && c.cli.start && c.cli.half == c.loc.closed && c.cli.recv == 0
    && (c.cli.total == -1 || c.cli.total == 0)
    && c.cli.pipe == [] && c.cli.delivered == [] && !c.cli.shut
    && c.h.clientClosing == (if c.loc.closed then Local else Open)
    && (c.h.up.Unsent? <==> !c.loc.closed) && !c.h.up.Heard?
    && !c.h.freshFree
    && (c.pub.bound ==> c.pub.closed)
  }

  /** A pooled connection was taken and the client, already reset, has yet to hear of it. */
  ghost predicate Asked(l: Link) {
    var c := l.core;
    && c.h.clientSessions == c.h.serverSessions
    && c.srv.IsReset() && c.cli.IsReset()
    && ((c.outbuf == [ConnectReq(c.h.awaitedFd)] && c.down == [])
        || (c.outbuf == [] && c.down == [Frame(ConnectReq(c.h.awaitedFd))]))
    && c.up == [] && l.toClient == []
    && c.h.up.Heard? && !c.h.staleFree
    && c.pub.closed && c.loc.closed
    && c.h.serverClosing.Done() && c.h.clientClosing.Done()
    && !(c.h.serverClosing.RemoteLocal? && c.h.clientClosing.RemoteLocal?)
  }

  /** Both ends are in the same session, or the server has left it for the pool. */
  ghost predicate Joined(l: Link) {
    var c, h := l.core, l.core.h;
    && h.clientSessions == h.serverSessions
    && c.outbuf == []
    && Flow(c.pub, c.down, c.cli) && Flow(c.loc, c.up, c.srv)
    && Counting(c.srv, h.up, c.loc, h.serverClosing.Remote? || h.serverClosing.Done())
    && Counting(c.cli, h.down, c.pub, h.clientClosing.Remote? || h.clientClosing.Done())
    && Flags(c.srv, h.serverClosing, c.pub.closed)
    && Flags(c.cli, h.clientClosing, c.loc.closed)
    && (h.up.Unsent? <==> !c.loc.closed) && (h.down.Unsent? <==> !c.pub.closed)
    && l.toClient == Count(h.down, c.pub) && !h.down.Lost?
    && (h.serverClosing.RemoteFirst() ==> h.clientClosing.Local? || h.clientClosing.LocalRemote?)
    && (h.clientClosing.RemoteFirst() ==> h.serverClosing.Local? || h.serverClosing.LocalRemote?)
  }

  /** The whole invariant of one connection. */
  ghost predicate Inv(l: Link) {
    var c, h, p := l.core, l.core.h, l.place;
    && p.ExactlyOne() && !h.misread && ToServerQueue(l)
    && (p.backlog || p.unclaimed ==>
          Calling(l, MetaSet) && h.serverSessions == 0 && h.timesPooled == 0 && !h.staleFree)
    && (p.waiting ==> (Asked(l) || Calling(l, ConnectRsp(h.awaitedFd))) && h.timesPooled == h.serverSessions)
    && (p.active ==>
          Joined(l) && !h.serverClosing.LocalRemote? && h.serverSessions == h.timesPooled + 1
          && (h.serverClosing.RemoteLocal? && h.clientClosing.LocalRemote? ==> h.freshFree))
    && (p.pooled > 0 ==>
          Joined(l) && h.serverClosing.Done() && h.timesPooled == h.serverSessions
          && !h.clientClosing.Open? && !h.clientClosing.Remote?
          && (h.serverClosing.RemoteLocal? ==> h.clientClosing.LocalRemote? && !h.freshFree))
  }

  lemma CreatedInv()
    ensures Inv(CREATED_LINK)
  {
  }

  lemma StepInv(l: Link, e: Event)
    requires Inv(l) && Enabled(l, e) && ReuseGuard(l, e)
    ensures Inv(Step(l, e))
  {
    match e
    case Accept => AcceptInv(l);
    case ServerRead(grab, push) =>
      if l.core.srv.start { ServerRawInv(l, grab, push); } else { ServerFrameInv(l, grab, push); }
    case ServerWrite => ServerWriteInv(l);
    case PublicRead(bytes, push) => PublicReadInv(l, bytes, push);
    case PublicEnd => PublicEndInv(l);
    case ServerCtl => ServerCtlInv(l);
    case ClientRead(grab, push) =>
      if l.core.cli.start { ClientRawInv(l, grab, push); } else { ClientFrameInv(l, grab, push); }
    case LocalRead(bytes, push) => LocalReadInv(l, bytes, push);
    case LocalEnd => LocalEndInv(l);
    case ClientCtl => ClientCtlInv(l);
    case Reuse(fd) => ReuseInv(l, fd);
  }

  lemma AcceptInv(l: Link)
    requires Inv(l) && Enabled(l, Accept)
    ensures Inv(Step(l, Accept))
  {
  }

  lemma ServerWriteInv(l: Link)
    requires Inv(l) && Enabled(l, ServerWrite)
    ensures Inv(Step(l, ServerWrite))
  {
  }

  /** One read moves the boundary between what was delivered and what is on the way, and no more. */
  lemma RelayFlow(f: Feeder, wire: seq<Item>, e: End, grab: nat, push: nat)
    requires Flow(f, wire, e) && grab <= |wire| && push <= grab
    ensures Flow(f, wire[grab..], e.Relay(wire[..grab], push))
  {
    var filled := e.pipe + wire[..grab];
    assert filled == filled[..push] + filled[push..];
    assert wire == wire[..grab] + wire[grab..];
  }

  /**
   What a read does to the count. If it makes the two counts meet, the announcement was heard and
   everything the peer forwarded is at the descriptor; if not, nothing is claimed to be drained.
   */
  lemma RelayCounting(f: Feeder, wire: seq<Item>, e: End, a: Announcement, drained: bool, grab: nat, push: nat)
    requires e.start && Flow(f, wire, e) && Counting(e, a, f, drained)
    requires 1 <= grab <= |wire| && push <= grab
    ensures !drained
    ensures var r := e.Relay(wire[..grab], push);
      if push > 0 && r.recv == r.total
      then a.Heard? && r.recv == |r.delivered| && r.delivered == f.forwarded && r.pipe == [] && wire[grab..] == []
      else Counting(r, a, f, false)
  {
    var r := e.Relay(wire[..grab], push);
    RelayFlow(f, wire, e, grab, push);
    assert |f.forwarded| == |r.delivered| + |r.pipe| + |wire[grab..]|;
    if r.recv == r.total && a.Heard? {
      assert r.delivered == f.forwarded;
    }
  }

  lemma ServerRawInv(l: Link, grab: nat, push: nat)
    requires Inv(l) && Enabled(l, ServerRead(grab, push)) && l.core.srv.start
    ensures Inv(Step(l, ServerRead(grab, push)))
  {
    var c, h := l.core, l.core.h;
    RelayFlow(c.loc, c.up, c.srv, grab, push);
    RelayCounting(c.loc, c.up, c.srv, h.up, h.serverClosing.Remote? || h.serverClosing.Done(), grab, push);
  }

  lemma ClientRawInv(l: Link, grab: nat, push: nat)
    requires Inv(l) && Enabled(l, ClientRead(grab, push)) && l.core.cli.start
    ensures Inv(Step(l, ClientRead(grab, push)))
  {
    var c, h := l.core, l.core.h;
    RelayFlow(c.pub, c.down, c.cli, grab, push);
    RelayCounting(c.pub, c.down, c.cli, h.down, h.clientClosing.Remote? || h.clientClosing.Done(), grab, push);
  }

  lemma ServerFrameInv(l: Link, grab: nat, push: nat)
    requires Inv(l) && Enabled(l, ServerRead(grab, push)) && !l.core.srv.start
    ensures Inv(Step(l, ServerRead(grab, push)))
  {
    var c := l.core;
    assert c.up[1..] == c.loc.forwarded;
  }

  lemma ClientFrameInv(l: Link, grab: nat, push: nat)
    requires Inv(l) && Enabled(l, ClientRead(grab, push)) && !l.core.cli.start
    ensures Inv(Step(l, ClientRead(grab, push)))
  {
  }

  lemma FeedFlow(f: Feeder, wire: seq<Item>, e: End, sent: seq<Item>, pipe: seq<Byte>)
    requires Flow(f, wire, e) && AllRaw(sent)
    ensures Flow(f.(pipe := pipe, tran := f.tran + |sent|, forwarded := f.forwarded + sent), wire + sent, e)
  {
    assert e.delivered + e.pipe + wire + sent == e.delivered + e.pipe + (wire + sent);
  }

  lemma PublicReadInv(l: Link, bytes: seq<Byte>, push: nat)
    requires Inv(l) && Enabled(l, PublicRead(bytes, push))
    ensures Inv(Step(l, PublicRead(bytes, push)))
  {
    var c := l.core;
    var filled := c.pub.pipe + bytes;
    FeedFlow(c.pub, c.down, c.cli, Wrap(filled[..push]), filled[push..]);
  }

  lemma LocalReadInv(l: Link, bytes: seq<Byte>, push: nat)
    requires Inv(l) && Enabled(l, LocalRead(bytes, push))
    ensures Inv(Step(l, LocalRead(bytes, push)))
  {
    var c := l.core;
    var filled := c.loc.pipe + bytes;
    var sent := Wrap(filled[..push]);
    if l.place.active || l.place.pooled > 0 {
      FeedFlow(c.loc, c.up, c.srv, sent, filled[push..]);
    } else {
      assert c.up + sent == [c.up[0]] + (c.loc.forwarded + sent);
    }
  }

  lemma PublicEndInv(l: Link)
    requires Inv(l) && Enabled(l, PublicEnd)
    ensures Inv(Step(l, PublicEnd))
  {
  }

  lemma LocalEndInv(l: Link)
    requires Inv(l) && Enabled(l, LocalEnd)
    ensures Inv(Step(l, LocalEnd))
  {
  }

  lemma ServerCtlInv(l: Link)
    requires Inv(l) && Enabled(l, ServerCtl)
    ensures Inv(Step(l, ServerCtl))
  {
    if l.core.h.staleFree {
      StaleFreeInv(l);
    } else if l.core.h.up.Flying? {
      ServerCountInv(l);
    } else {
      FreshFreeInv(l);
    }
  }

  lemma StaleFreeInv(l: Link)
    requires Inv(l) && l.core.h.staleFree
    ensures Enabled(l, ServerCtl) && Inv(Step(l, ServerCtl))
  {
    var h := l.core.h;
    assert l.toServer[0] == FreeConnReq && l.toServer[1..] == Count(h.up, l.core.loc) + Free(h.freshFree);
  }

  lemma FreshFreeInv(l: Link)
    requires Inv(l) && Enabled(l, ServerCtl) && !l.core.h.staleFree && !l.core.h.up.Flying?
    ensures Inv(Step(l, ServerCtl))
  {
    assert l.toServer == [FreeConnReq] && l.toServer[1..] == [];
  }

  lemma ServerCountInv(l: Link)
    requires Inv(l) && !l.core.h.staleFree && l.core.h.up.Flying?
    ensures Enabled(l, ServerCtl) && Inv(Step(l, ServerCtl))
  {
    var c, h := l.core, l.core.h;
    assert l.toServer[0] == ShutdownPeerConn(c.loc.tran) && l.toServer[1..] == Free(h.freshFree);
    if l.place.active {
      AnnounceCounting(c.loc, c.up, c.srv, h.up, h.serverClosing.Remote? || h.serverClosing.Done());
    }
  }

  /** Hearing the count settles the total; the counts meet exactly if nothing is left on the way. */
  lemma AnnounceCounting(f: Feeder, wire: seq<Item>, e: End, a: Announcement, drained: bool)
    requires Flow(f, wire, e) && Counting(e, a, f, drained) && a.Flying? && (e.start || e.IsReset())
    ensures !drained
    ensures e.start ==> e.AddTotal(f.tran).total == f.tran
    ensures e.start && e.recv == f.tran ==> e.delivered == f.forwarded && e.pipe == [] && wire == []
  {
    assert |f.forwarded| == |e.delivered| + |e.pipe| + |wire|;
    if e.start && e.recv == f.tran {
      assert e.delivered == f.forwarded;
    }
  }

  lemma ClientCtlInv(l: Link)
    requires Inv(l) && Enabled(l, ClientCtl)
    ensures Inv(Step(l, ClientCtl))
  {
  }

  lemma ReuseInv(l: Link, fd: Fd)
    requires Inv(l) && Enabled(l, Reuse(fd)) && ReuseGuard(l, Reuse(fd))
    ensures Inv(Step(l, Reuse(fd)))
  {
  }
}
