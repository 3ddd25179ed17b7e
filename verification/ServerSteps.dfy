/**
 What the steps of a run do to the server's collections and descriptors, told by the collections alone:
 which descriptor a claim takes, which connection is reused, and where a freed one goes.
 */
module ServerSteps {
  import opened ProxyConnection
  import opened Handlers
  import opened Session
  import opened Network
  import opened Lifecycle

  /** The server reads this frame in this step, from a connection that does not relay. */
  ghost predicate Reads(n: Net, e: NetEvent, id: Id, frame: ProxyFrame) {
    && e.At? && e.id == id && e.e.ServerRead? && id in n.cores
    && !n.cores[id].srv.start && n.cores[id].up != [] && n.cores[id].up[0] == Frame(frame)
  }

  lemma ReadsHandle(n: Net, e: NetEvent, id: Id, frame: ProxyFrame)
    requires NetEnabled(n, e) && Reads(n, e, id, frame)
    ensures NetStep(n, e) == Commit(n, id, ServerFrame(n.cores[id], id in n.server.waiting))
    ensures PlaceOf(n.server, id).ExactlyOne() ==> id !in n.server.backlog
  {
  }

  /** Which frame leads the stream to an idle server end tells where the connection is. */
  lemma FrontOfStream(l: Link)
    requires Inv(l) && !l.core.srv.start && l.core.up != [] && !l.place.backlog
    ensures l.core.up[0] == Frame(MetaSet) ==> l.place.unclaimed
    ensures forall fd :: l.core.up[0] == Frame(ConnectRsp(fd)) ==> l.place.waiting && fd == l.core.h.awaitedFd
  {
    if l.place.active || l.place.pooled > 0 {
      FlowRaw(l.core.loc, l.core.up, l.core.srv);
    }
  }

  lemma ReadsPlaced(n: Net, e: NetEvent, id: Id, frame: ProxyFrame)
    requires NetInv(n) && NetEnabled(n, e) && Reads(n, e, id, frame)
    ensures frame == MetaSet ==> id in n.server.unclaimed && n.server.pending != []
    ensures frame.ConnectRsp? ==> id in n.server.waiting && frame.fd == n.cores[id].h.awaitedFd
  {
    ReadsHandle(n, e, id, frame);
    assert Inv(LinkOf(n, id));
    FrontOfStream(LinkOf(n, id));
    if id in n.server.unclaimed { assert |n.server.unclaimed| > 0; }
  }

  /** The server's collections after a claim that binds `fd`. */
  ghost predicate Claims(n: Net, n': Net, id: Id, fd: Fd) {
    var s, s' := n.server, n'.server;
    && s.pending == s'.pending + [fd] && n'.bindings == n.bindings + [(fd, id)]
    && id in s.unclaimed && s'.unclaimed == s.unclaimed - {id} && s'.active == s.active + {id}
    && s'.backlog == s.backlog && s'.waiting == s.waiting && s'.pool == s.pool
  }

  lemma CommitClaims(n: Net, id: Id, o: Outcome) returns (fd: Fd)
    requires o.move.Claim? && id in n.server.unclaimed && n.server.pending != []
    ensures Claims(n, Commit(n, id, o), id, fd)
  {
    fd := n.server.pending[|n.server.pending| - 1];
  }

  /** A claim takes the descriptor that was kept last. */
  lemma ClaimTakesLast(ns: seq<Net>, es: seq<NetEvent>, i: nat, id: Id) returns (fd: Fd)
    requires IsRun(ns, es) && i < |es| && Reads(ns[i], es[i], id, MetaSet)
    ensures Claims(ns[i], ns[i + 1], id, fd)
  {
    RunInv(ns, es, i);
    ReadsPlaced(ns[i], es[i], id, MetaSet);
    ReadsHandle(ns[i], es[i], id, MetaSet);
    fd := CommitClaims(ns[i], id, ServerFrame(ns[i].cores[id], id in ns[i].server.waiting));
  }

  /** The server's collections after an answer that binds `fd`. */
  ghost predicate Binds(n: Net, n': Net, id: Id, fd: Fd) {
    var s, s' := n.server, n'.server;
    && n'.bindings == n.bindings + [(fd, id)]
    && id in s.waiting && s'.waiting == s.waiting - {id} && s'.active == s.active + {id}
    && s'.backlog == s.backlog && s'.unclaimed == s.unclaimed && s'.pool == s.pool && s'.pending == s.pending
  }

  /** An answer from the client binds the descriptor that it echoes, the one that was asked for. */
  lemma AnswerBindsEchoed(ns: seq<Net>, es: seq<NetEvent>, i: nat, id: Id, fd: Fd)
    requires IsRun(ns, es) && i < |es| && Reads(ns[i], es[i], id, ConnectRsp(fd))
    ensures fd == ns[i].cores[id].h.awaitedFd && Binds(ns[i], ns[i + 1], id, fd)
  {
    RunInv(ns, es, i);
    ReadsPlaced(ns[i], es[i], id, ConnectRsp(fd));
    ReadsHandle(ns[i], es[i], id, ConnectRsp(fd));
  }

  /** A public connection takes the connection pooled last, or else is kept behind the others and announced. */
  lemma AcceptServes(ns: seq<Net>, es: seq<NetEvent>, i: nat)
    requires IsRun(ns, es) && i < |es| && es[i].PublicAccept?
    ensures var n, n' := ns[i], ns[i + 1]; var fd := n.nextFd;
      && n'.nextFd == fd + 1 && n'.bindings == n.bindings && n'.server.active == n.server.active
      && if n.server.pool == [] then
           n'.server.pool == [] && n'.server.pending == n.server.pending + [fd]
           && n'.toClient == n.toClient + [Notify] && n'.cores == n.cores
         else
           var id := n.server.pool[|n.server.pool| - 1];
           && n.server.pool == n'.server.pool + [id] && n'.server.waiting == n.server.waiting + {id}
           && id in n.cores && id in n'.cores
           && n'.cores[id].outbuf == n.cores[id].outbuf + [ConnectReq(fd)] && n'.cores[id].h.awaitedFd == fd
           && n'.server.pending == n.server.pending && n'.toClient == n.toClient
  {
  }

  /** A step leaves the pool as it is, takes its last connection, or puts an active one at its end. */
  ghost predicate PoolMoves(s: Server, s': Server) {
    || s'.pool == s.pool
    || (s.pool != [] && s.pool == s'.pool + [s.pool[|s.pool| - 1]])
    || (s'.pool != [] && var id := s'.pool[|s'.pool| - 1];
          s'.pool == s.pool + [id] && id in s.active && s'.active == s.active - {id})
  }

  lemma PoolIsStack(ns: seq<Net>, es: seq<NetEvent>, i: nat)
    requires IsRun(ns, es) && i < |es|
    ensures PoolMoves(ns[i].server, ns[i + 1].server)
    ensures |ns[i + 1].server.pool| < |ns[i].server.pool| ==> es[i].PublicAccept?
  {
    StepPool(ns[i], es[i]);
  }

  lemma StepPool(n: Net, e: NetEvent)
    requires NetEnabled(n, e)
    ensures PoolMoves(n.server, NetStep(n, e).server)
    ensures |NetStep(n, e).server.pool| < |n.server.pool| ==> e.PublicAccept?
  {
    match e
    case PublicAccept =>
    case Notified(_) =>
    case ProxyAccept(_) =>
    case At(id, e') =>
      OutcomePools(LinkOf(n, id), e');
      CommitPools(n, id, Handle(LinkOf(n, id), e'));
    case ServerReadsCtl =>
      var m := n.toServer[0];
      ServerPools(n.cores[m.id], m.id in n.server.active, m.ctl);
      CommitPools(n.(toServer := n.toServer[1..]), m.id, ServerHandle(n.cores[m.id], m.id in n.server.active, m.ctl));
    case ClientReadsCtl =>
      var m := n.toClient[0];
      ClientPools(n.cores[m.id], m.ctl);
      CommitPools(n.(toClient := n.toClient[1..]), m.id, ClientHandle(n.cores[m.id], m.ctl));
  }

  lemma CommitPools(n: Net, id: Id, o: Outcome)
    requires o.move.Pool? ==> id in n.server.active
    ensures PoolMoves(n.server, Commit(n, id, o).server)
    ensures |Commit(n, id, o).server.pool| >= |n.server.pool|
  {
  }

  lemma OutcomePools(l: Link, e: Event)
    requires Enabled(l, e) && OwnEvent(e)
    ensures Handle(l, e).move.Pool? ==> l.place.active
  {
  }

  lemma ServerPools(c: Core, active: bool, m: Ctl)
    ensures ServerHandle(c, active, m).move.Pool? ==> active
  {
  }

  lemma ClientPools(c: Core, m: Ctl)
    ensures !ClientHandle(c, m).move.Pool?
  {
  }
}
