/**
 The event handlers of both proxies, as they act on one proxy connection: its two ends, its two
 streams, and the public and local connections bound to it. Each handler is one atomic step.

 A handler also enqueues messages on the shared control channel and moves the connection between
 the server's maps; an `Outcome` carries both.
 */
module Handlers {
  import opened Bytes
  import opened ProxyConnection

  /** The control messages of lib/Message.h that name a proxy connection. */
  datatype Ctl = ShutdownPeerConn(count: int) | FreeConnReq

  /** `PublicConnect` on the server, `ClientConnect` on the client: the source of one direction.
      `forwarded` is what it has put on the proxy stream this session. */
  datatype Feeder = Feeder(bound: bool, closed: bool, tran: int, pipe: seq<Byte>, forwarded: seq<Item>)

  const UNBOUND := Feeder(false, false, 0, [], [])
  const NEW_FEEDER := Feeder(true, false, 0, [], [])

  /** The order in which one end saw its local EOF and the drained close of its peer. */
  datatype Closing = Open | Local | Remote | LocalRemote | RemoteLocal {
    function AfterLocal(): Closing {
      if Remote? then RemoteLocal else Local
    }
    function AfterRemote(): Closing {
      if Local? then LocalRemote else Remote
    }
    predicate RemoteFirst() { Remote? || RemoteLocal? }
    predicate Done() { LocalRemote? || RemoteLocal? }
  }

  /** What became of the byte count that the feeder of a direction announces at its EOF. */
  datatype Announcement = Unsent | Flying | Heard | Lost

  /**
   History, written by the handlers and read by none of them. `staleFree` and `freshFree` record
   whether a FreeConnReq of an earlier, or of the current, client session is still in flight.
   */
  datatype History = History(
    serverClosing: Closing,
    clientClosing: Closing,
    serverSessions: nat,
    clientSessions: nat,
    timesPooled: nat,
    up: Announcement,
    down: Announcement,
    staleFree: bool,
    freshFree: bool,
    awaitedFd: Fd,
    misread: bool)

  datatype Core = Core(
    srv: End, pub: Feeder, outbuf: seq<ProxyFrame>,
    cli: End, loc: Feeder,
    down: seq<Item>, up: seq<Item>,
    h: History)

  /** How a handler moves the connection between the server's collections. */
  datatype Move = Stay | Claim | Bind(fd: Fd) | Pool

  datatype Outcome = Outcome(core: Core, toServer: seq<Ctl>, toClient: seq<Ctl>, move: Move)

  function Quiet(c: Core): Outcome {
    Outcome(c, [], [], Stay)
  }

  // ---------- the server ----------

  /** `Tunnel::freeProxyConn`: `active` says whether the id is a key of `proxy_connect_map_`. */
  function FreeProxyConn(c: Core, active: bool): Outcome {
    if !active || c.srv.start then Quiet(c)
    else Outcome(c.(h := c.h.(timesPooled := c.h.timesPooled + 1)), [], [], Pool)
  }

  /** `Tunnel::shutdownPublicConn` */
  function ShutdownPublicConn(c: Core, active: bool): Outcome {
    if c.srv.recv != c.srv.total then Quiet(c)
    else
      var (end, reset) := c.srv.ShutdownFromRemote();
      var closed := c.(srv := end, h := c.h.(serverClosing := c.h.serverClosing.AfterRemote()));
      if reset then FreeProxyConn(closed, active) else Quiet(closed)
  }

  /** `ProxyConnect::handleRead` on the server, raw mode */
  function ServerRaw(c: Core, active: bool, grab: nat, push: nat): Outcome
    requires 1 <= grab <= |c.up| && push <= grab
  {
    var read := c.(srv := c.srv.Relay(c.up[..grab], push), up := c.up[grab..]);
    if push > 0 then ShutdownPublicConn(read, active) else Quiet(read)
  }

  /** `ProxyConnect::Run` on the server, from `Tunnel::bindPublicFdToProxyConn` */
  function ServerRun(c: Core): Core {
    c.(srv := c.srv.Run(), pub := NEW_FEEDER,
       h := c.h.(serverClosing := Open, serverSessions := c.h.serverSessions + 1, down := Unsent))
  }

  /** `ProxyConnect::handleRead` on the server, frame mode. Raw bytes found there are misread. */
  function ServerFrame(c: Core, waiting: bool): Outcome
    requires |c.up| > 0
  {
    var read := c.(up := c.up[1..]);
    match c.up[0]
    case Raw(_) => Quiet(read.(h := read.h.(misread := true)))
    case Frame(MetaSet) => Outcome(ServerRun(read), [], [], Claim)
    case Frame(ConnectRsp(fd)) => if waiting then Outcome(ServerRun(read), [], [], Bind(fd)) else Quiet(read)
    case Frame(ConnectReq(_)) => Quiet(read)
  }

  /** `ProxyConnect::handleWrite`: a buffered frame leaves for the wire. */
  function ServerFlush(c: Core): Outcome
    requires |c.outbuf| > 0
  {
    Quiet(c.(outbuf := c.outbuf[1..], down := c.down + [Frame(c.outbuf[0])]))
  }

  /** `Tunnel::reqStartProxy` */
  function ReqStartProxy(c: Core, fd: Fd): Core {
    c.(outbuf := c.outbuf + [ConnectReq(fd)], h := c.h.(awaitedFd := fd))
  }

  /** `PublicConnect::handleRead`: `bytes` come from the public descriptor, `push` leave the pipe. */
  function PublicData(c: Core, bytes: seq<Byte>, push: nat): Outcome
    requires push <= |bytes|
  {
    var filled := c.pub.pipe + bytes;
    Quiet(c.(pub := c.pub.(pipe := filled[push..], tran := c.pub.tran + push,
                           forwarded := c.pub.forwarded + Wrap(filled[..push])),
             down := c.down + Wrap(filled[..push])))
  }

  /** `PublicConnect::handleRead` at EOF, and `Tunnel::shutdownFromPublic` */
  function PublicEof(c: Core, active: bool): Outcome {
    var closed := c.(pub := c.pub.(closed := true));
    if !active then Quiet(closed)
    else Outcome(closed.(srv := c.srv.ShutdownFromLocal().0,
                         h := c.h.(serverClosing := c.h.serverClosing.AfterLocal(), down := Flying)),
                 [], [ShutdownPeerConn(c.pub.tran)], Stay)
  }

  /** `Control::handleShutdownPublicConn`: a count for a connection not in the map is dropped. */
  function HandleShutdownPublicConn(c: Core, active: bool, count: int): Outcome {
    if !active then Quiet(c.(h := c.h.(up := Lost, staleFree := false)))
    else ShutdownPublicConn(c.(srv := c.srv.AddTotal(count), h := c.h.(up := Heard, staleFree := false)), active)
  }

  /** `Control::handleFreeProxyConnReq` */
  function HandleFreeProxyConnReq(c: Core, active: bool): Outcome {
    var read := if c.h.staleFree then c.(h := c.h.(staleFree := false)) else c.(h := c.h.(freshFree := false));
    FreeProxyConn(read, active)
  }

  // ---------- the client ----------

  /** `Tunnel::shutdonwLocalConn` */
  function ShutdownLocalConn(c: Core): Outcome {
    if c.cli.recv != c.cli.total then Quiet(c)
    else
      var (end, reset) := c.cli.ShutdownFromRemote();
      var closed := c.(cli := end, h := c.h.(clientClosing := c.h.clientClosing.AfterRemote()));
      if reset then Outcome(closed.(h := closed.h.(freshFree := true)), [FreeConnReq], [], Stay)
      else Quiet(closed)
  }

  /** `ProxyConnect::handleRead` on the client, raw mode */
  function ClientRaw(c: Core, grab: nat, push: nat): Outcome
    requires 1 <= grab <= |c.down| && push <= grab
  {
    var read := c.(cli := c.cli.Relay(c.down[..grab], push), down := c.down[grab..]);
    if push > 0 then ShutdownLocalConn(read) else Quiet(read)
  }

  /** `ProxyConnect::Run` on the client, with a new connection to the local server */
  function ClientRun(c: Core): Core {
    c.(cli := c.cli.Run(), loc := NEW_FEEDER,
       h := c.h.(clientClosing := Open, clientSessions := c.h.clientSessions + 1, up := Unsent,
                 staleFree := c.h.staleFree || c.h.freshFree, freshFree := false))
  }

  /** `Tunnel::HandleProxyConnectReq` */
  function HandleProxyConnectReq(c: Core, fd: Fd): Core {
    ClientRun(c.(up := c.up + [Frame(ConnectRsp(fd))]))
  }

  /** `ProxyConnect::handleRead` on the client, frame mode */
  function ClientFrame(c: Core): Outcome
    requires |c.down| > 0
  {
    var read := c.(down := c.down[1..]);
    match c.down[0]
    case Raw(_) => Quiet(read.(h := read.h.(misread := true)))
    case Frame(ConnectReq(fd)) => Quiet(HandleProxyConnectReq(read, fd))
    case Frame(_) => Quiet(read)
  }

  /** `ClientConnect::handleRead` */
  function LocalData(c: Core, bytes: seq<Byte>, push: nat): Outcome
    requires push <= |bytes|
  {
    var filled := c.loc.pipe + bytes;
    Quiet(c.(loc := c.loc.(pipe := filled[push..], tran := c.loc.tran + push,
                           forwarded := c.loc.forwarded + Wrap(filled[..push])),
             up := c.up + Wrap(filled[..push])))
  }

  /** `ClientConnect::handleRead` at EOF, and `Tunnel::shutdownFromClient` */
  function LocalEof(c: Core): Outcome {
    Outcome(c.(loc := c.loc.(closed := true), cli := c.cli.ShutdownFromLocal().0,
               h := c.h.(clientClosing := c.h.clientClosing.AfterLocal(), up := Flying)),
            [ShutdownPeerConn(c.loc.tran)], [], Stay)
  }

  /** `Client::handleShutdownLocalConn`; the client never erases from its own map. */
  function HandleShutdownLocalConn(c: Core, count: int): Outcome {
    ShutdownLocalConn(c.(cli := c.cli.AddTotal(count), h := c.h.(down := Heard)))
  }

  /** `Client::handleProxyNotify`: connect, send ProxyMetaSet, and start relaying. */
  const CREATED :=
    Core(FRESH_END, UNBOUND, [],
         FRESH_END.Run(), NEW_FEEDER,
         [], [Frame(MetaSet)],
         History(Open, Open, 0, 1, 0, Unsent, Unsent, false, false, 0, false))
}
