/**
 The whole system: one ProxyServer tunnel and one ProxyClient, any number of proxy connections, the
 two shared FIFO control queues, and the server's collections as `Tunnel` and `Server` keep them.

 Every step of the system is, for each connection, either a step of `Session` or invisible, so the
 invariant of a single connection carries over to all of them; on top of it come the properties
 that only the system has: the partition of connections and the conservation of descriptors.
 */
module Network {
  import opened ProxyConnection
  import opened Handlers
  import opened Session

  type Id = nat

  datatype CtlMsg = Notify | About(id: Id, ctl: Ctl)

  /**
   `pool` is `free_proxy_connects_`, `waiting` and `active` the keys of `wait_proxy_connect_map_` and
   `proxy_connect_map_`, `pending` is `unhandle_fds_`; `backlog` holds the connections that wait in
   the listening socket of the proxy port.
   */
  datatype Server = Server(
    backlog: set<Id>,
    unclaimed: set<Id>,
    waiting: set<Id>,
    active: set<Id>,
    pool: seq<Id>,
    pending: seq<Fd>)
  {
    ghost predicate Mentions(id: Id) {
      id in backlog || id in unclaimed || id in waiting || id in active || id in pool
    }
  }

  /** `bindings` records every descriptor bound to a connection, `underflow` a pop of an empty list. */
  datatype Net = Net(
    cores: map<Id, Core>,
    server: Server,
    toServer: seq<CtlMsg>,
    toClient: seq<CtlMsg>,
    nextFd: Fd,
    bindings: seq<(Fd, Id)>,
    underflow: bool)

  const INITIAL := Net(map[], Server({}, {}, {}, {}, [], []), [], [], 0, [], false)

  datatype NetEvent =
    | PublicAccept
    | Notified(id: Id)
    | ProxyAccept(id: Id)
    | At(id: Id, e: Event)
    | ServerReadsCtl
    | ClientReadsCtl

  // ---------- one connection of the system ----------

  ghost function Only(q: seq<CtlMsg>, id: Id): seq<Ctl> {
    if q == [] then []
    else if q[0].About? && q[0].id == id then [q[0].ctl] + Only(q[1..], id)
    else Only(q[1..], id)
  }

  ghost function PlaceOf(s: Server, id: Id): Place {
    Place(id in s.backlog, id in s.unclaimed, id in s.waiting, id in s.active, multiset(s.pool)[id])
  }

  ghost function LinkOf(n: Net, id: Id): Link
    requires id in n.cores
  {
    Link(n.cores[id], PlaceOf(n.server, id), Only(n.toServer, id), Only(n.toClient, id))
  }

  // ---------- the steps ----------

  function Tagged(id: Id, ms: seq<Ctl>): seq<CtlMsg> {
    seq(|ms|, i requires 0 <= i < |ms| => About(id, ms[i]))
  }

  function Last<T>(s: seq<T>): T
    requires s != []
  {
    s[|s| - 1]
  }

  function Front<T>(s: seq<T>): seq<T>
    requires s != []
  {
    s[..|s| - 1]
  }

  /** `Tunnel::claimProxyConn` takes the last pending descriptor, `handleStartProxyConnRsp` the echoed one. */
  function MoveIn(n: Net, id: Id, m: Move): Net {
    var s := n.server;
    match m
    case Stay => n
    case Claim =>
      var claimed := s.(unclaimed := s.unclaimed - {id}, active := s.active + {id});
      if s.pending == [] then n.(server := claimed, underflow := true)
      else n.(server := claimed.(pending := Front(s.pending)), bindings := n.bindings + [(Last(s.pending), id)])
    case Bind(fd) =>
      n.(server := s.(waiting := s.waiting - {id}, active := s.active + {id}), bindings := n.bindings + [(fd, id)])
    case Pool => n.(server := s.(active := s.active - {id}, pool := s.pool + [id]))
  }

  function Commit(n: Net, id: Id, o: Outcome): Net {
    MoveIn(n, id, o.move).(
      cores := n.cores[id := o.core],
      toServer := n.toServer + Tagged(id, o.toServer),
      toClient := n.toClient + Tagged(id, o.toClient))
  }

  ghost predicate NetEnabled(n: Net, e: NetEvent) {
    match e
    case PublicAccept => n.server.pool != [] ==> Last(n.server.pool) in n.cores
    case Notified(id) => n.toClient != [] && n.toClient[0].Notify? && id !in n.cores
    case ProxyAccept(id) => id in n.server.backlog
    case At(id, e) => id in n.cores && OwnEvent(e) && Enabled(LinkOf(n, id), e)
    case ServerReadsCtl => n.toServer != [] && n.toServer[0].About? && n.toServer[0].id in n.cores
    case ClientReadsCtl => n.toClient != [] && n.toClient[0].About? && n.toClient[0].id in n.cores
  }

  /** The assumption on the environment: a pooled connection is reused after its client end was reset. */
  ghost predicate NetGuard(n: Net, e: NetEvent)
    requires NetEnabled(n, e)
  {
    e.PublicAccept? && n.server.pool != [] ==> !n.cores[Last(n.server.pool)].cli.start
  }

  ghost function NetStep(n: Net, e: NetEvent): Net
    requires NetEnabled(n, e)
  {
    var s := n.server;
    match e
    case PublicAccept =>
      if s.pool == [] then
        n.(server := s.(pending := s.pending + [n.nextFd]), toClient := n.toClient + [Notify], nextFd := n.nextFd + 1)
      else
        var id := Last(s.pool);
        n.(server := s.(pool := Front(s.pool), waiting := s.waiting + {id}),
           cores := n.cores[id := ReqStartProxy(n.cores[id], n.nextFd)], nextFd := n.nextFd + 1)
    case Notified(id) =>
      n.(cores := n.cores[id := CREATED], server := s.(backlog := s.backlog + {id}), toClient := n.toClient[1..])
    case ProxyAccept(id) => n.(server := s.(backlog := s.backlog - {id}, unclaimed := s.unclaimed + {id}))
    case At(id, e) => Commit(n, id, Handle(LinkOf(n, id), e))
    case ServerReadsCtl =>
      var m := n.toServer[0];
      Commit(n.(toServer := n.toServer[1..]), m.id, ServerHandle(n.cores[m.id], m.id in s.active, m.ctl))
    case ClientReadsCtl =>
      var m := n.toClient[0];
      Commit(n.(toClient := n.toClient[1..]), m.id, ClientHandle(n.cores[m.id], m.ctl))
  }

  // ---------- the invariant of the system ----------

  function Notifies(q: seq<CtlMsg>): nat {
    if q == [] then 0 else (if q[0].Notify? then 1 else 0) + Notifies(q[1..])
  }

  ghost predicate KnownQueue(q: seq<CtlMsg>, known: set<Id>) {
    forall i :: 0 <= i < |q| && q[i].About? ==> q[i].id in known
  }

  ghost predicate Known(n: Net) {
    && (forall id :: n.server.Mentions(id) ==> id in n.cores)
    && KnownQueue(n.toServer, n.cores.Keys) && KnownQueue(n.toClient, n.cores.Keys)
    && (forall i :: 0 <= i < |n.toServer| ==> n.toServer[i].About?)
  }

  ghost predicate Links(n: Net) {
    forall id :: id in n.cores ==> Inv(LinkOf(n, id))
  }

  /** One pending descriptor for every request still on its way to becoming a claimed connection. */
  ghost predicate Supply(n: Net) {
    !n.underflow && |n.server.pending| == Notifies(n.toClient) + |n.server.backlog| + |n.server.unclaimed|
  }

  ghost predicate Bound(n: Net, fd: Fd) {
    exists i :: 0 <= i < |n.bindings| && n.bindings[i].0 == fd
  }

  ghost predicate Awaited(n: Net, fd: Fd) {
    exists id :: id in n.server.waiting && id in n.cores && n.cores[id].h.awaitedFd == fd
  }

  ghost predicate Owed(n: Net, fd: Fd) {
    fd in n.server.pending || Bound(n, fd) || Awaited(n, fd)
  }

  /** A descriptor that was accepted and is not bound yet is owed to exactly one place. */
  ghost predicate Descriptors(n: Net) {
    && (forall i, j :: 0 <= i < j < |n.bindings| ==> n.bindings[i].0 != n.bindings[j].0)
    && (forall i :: 0 <= i < |n.bindings| ==> n.bindings[i].0 < n.nextFd)
    && (forall i, j :: 0 <= i < j < |n.server.pending| ==> n.server.pending[i] != n.server.pending[j])
    && (forall fd :: fd in n.server.pending ==> fd < n.nextFd && !Bound(n, fd))
    && (forall id :: id in n.server.waiting && id in n.cores ==>
          var fd := n.cores[id].h.awaitedFd; fd < n.nextFd && !Bound(n, fd) && fd !in n.server.pending)
    && (forall id, id' ::
          id in n.server.waiting && id' in n.server.waiting && id in n.cores && id' in n.cores && id != id' ==>
          n.cores[id].h.awaitedFd != n.cores[id'].h.awaitedFd)
    && (forall fd: Fd :: fd < n.nextFd ==> Owed(n, fd))
  }

  ghost predicate NetInv(n: Net) {
    Known(n) && Links(n) && Supply(n) && Descriptors(n)
  }

  lemma InitialInv()
    ensures NetInv(INITIAL)
  {
  }

  // ---------- projection to one connection ----------

  lemma {:induction false} OnlyAppend(q: seq<CtlMsg>, r: seq<CtlMsg>, id: Id)
    ensures Only(q + r, id) == Only(q, id) + Only(r, id)
  {
    if q == [] {
      assert q + r == r;
    } else {
      assert (q + r)[0] == q[0] && (q + r)[1..] == q[1..] + r;
      OnlyAppend(q[1..], r, id);
    }
  }

  lemma {:induction false} OnlyTagged(id: Id, other: Id, ms: seq<Ctl>)
    ensures Only(Tagged(id, ms), other) == if other == id then ms else []
  {
    if ms != [] {
      OnlyTagged(id, other, ms[1..]);
      assert Tagged(id, ms)[1..] == Tagged(id, ms[1..]);
    }
  }

  lemma {:induction false} NotifiesAppend(q: seq<CtlMsg>, r: seq<CtlMsg>)
    ensures Notifies(q + r) == Notifies(q) + Notifies(r)
  {
    if q == [] {
      assert q + r == r;
    } else {
      NotifiesAppend(q[1..], r);
      assert (q + r)[1..] == q[1..] + r;
    }
  }

  lemma {:induction false} NotifiesTagged(id: Id, ms: seq<Ctl>)
    ensures Notifies(Tagged(id, ms)) == 0
  {
    if ms != [] {
      NotifiesTagged(id, ms[1..]);
      assert Tagged(id, ms)[1..] == Tagged(id, ms[1..]);
    }
  }

  lemma OnlySent(q: seq<CtlMsg>, id: Id, ms: seq<Ctl>, other: Id)
    ensures Only(q + Tagged(id, ms), other) == if other == id then Only(q, other) + ms else Only(q, other)
  {
    OnlyAppend(q, Tagged(id, ms), other);
    OnlyTagged(id, other, ms);
  }

  lemma MovePlace(n: Net, id: Id, m: Move, other: Id)
    ensures PlaceOf(MoveIn(n, id, m).server, other)
            == if other == id then Moved(PlaceOf(n.server, id), m) else PlaceOf(n.server, other)
  {
    if m.Pool? {
      assert multiset(n.server.pool + [id]) == multiset(n.server.pool) + multiset{id};
    }
  }

  /** A committed outcome is, for the connection it is about, the outcome of its own step. */
  lemma CommitOwn(n: Net, id: Id, o: Outcome)
    requires id in n.cores
    ensures LinkOf(Commit(n, id, o), id) == Apply(LinkOf(n, id), o)
  {
    OnlySent(n.toServer, id, o.toServer, id);
    OnlySent(n.toClient, id, o.toClient, id);
    MovePlace(n, id, o.move, id);
  }

  /** ... and is invisible to every other connection. */
  lemma CommitOther(n: Net, id: Id, o: Outcome, other: Id)
    requires other in n.cores && other != id
    ensures LinkOf(Commit(n, id, o), other) == LinkOf(n, other)
  {
    OnlySent(n.toServer, id, o.toServer, other);
    OnlySent(n.toClient, id, o.toClient, other);
    MovePlace(n, id, o.move, other);
  }

  lemma CommitKnown(n: Net, id: Id, o: Outcome)
    requires id in n.cores && Known(n)
    ensures Known(Commit(n, id, o))
  {
    var n' := Commit(n, id, o);
    forall k | n'.server.Mentions(k) ensures k in n'.cores {
      assert k == id || n.server.Mentions(k);
    }
  }

  // ---------- descriptors ----------

  /** Moves between the server's collections start where the invariant says the connection is. */
  ghost predicate Sound(p: Place, o: Outcome, before: Core) {
    && o.core.h.awaitedFd == before.h.awaitedFd
    && (o.move.Claim? ==> p.unclaimed)
    && (o.move.Bind? ==> p.waiting && o.move.fd == before.h.awaitedFd)
  }

  lemma HandleSound(l: Link, e: Event)
    requires Inv(l) && OwnEvent(e) && Enabled(l, e)
    ensures Sound(l.place, Handle(l, e), l.core)
  {
  }

  lemma CommitSupply(n: Net, id: Id, o: Outcome)
    requires id in n.cores && Supply(n) && Sound(PlaceOf(n.server, id), o, n.cores[id])
    ensures Supply(Commit(n, id, o))
  {
    NotifiesAppend(n.toClient, Tagged(id, o.toClient));
    NotifiesTagged(id, o.toClient);
  }

  lemma CommitDescriptors(n: Net, id: Id, o: Outcome)
    requires id in n.cores && Supply(n) && Descriptors(n) && Sound(PlaceOf(n.server, id), o, n.cores[id])
    ensures Descriptors(Commit(n, id, o))
  {
    var n' := Commit(n, id, o);
    match o.move
    case Stay => SameDescriptors(n, n');
    case Pool => SameDescriptors(n, n');
    case Claim =>
      var fd := Last(n.server.pending);
      assert fd in n.server.pending;
      BindOne(n, n', fd, id);
    case Bind(fd) =>
      BindOne(n, n', fd, id);
  }

  ghost predicate SameOwed(n: Net, n': Net) {
    && n'.nextFd == n.nextFd
    && n'.server.waiting <= n.server.waiting
    && (forall id :: id in n'.server.waiting && id in n'.cores ==>
          id in n.cores && n'.cores[id].h.awaitedFd == n.cores[id].h.awaitedFd)
  }

  lemma SameDescriptors(n: Net, n': Net)
    requires Descriptors(n) && SameOwed(n, n') && n'.bindings == n.bindings && n'.server.pending == n.server.pending
    requires n'.server.waiting == n.server.waiting && n.cores.Keys <= n'.cores.Keys
    ensures Descriptors(n')
  {
    assert forall fd :: Bound(n', fd) <==> Bound(n, fd);
    forall fd: Fd | fd < n'.nextFd ensures Owed(n', fd) {
      assert Owed(n, fd);
      if Awaited(n, fd) {
        var id :| id in n.server.waiting && id in n.cores && n.cores[id].h.awaitedFd == fd;
        assert n'.cores[id].h.awaitedFd == fd;
      }
    }
  }

  /** Binding a descriptor takes it from the list, or from the connection that waited for it. */
  lemma BindOne(n: Net, n': Net, fd: Fd, id: Id)
    requires Descriptors(n) && SameOwed(n, n') && n'.bindings == n.bindings + [(fd, id)]
    requires fd < n.nextFd && !Bound(n, fd)
    requires forall k :: k in n'.server.waiting && k in n'.cores ==> n'.cores[k].h.awaitedFd != fd
    requires if n'.server.pending == n.server.pending then fd !in n.server.pending
             else n.server.pending != [] && fd == Last(n.server.pending) && n'.server.pending == Front(n.server.pending)
    requires forall k :: k in n.server.waiting && k in n.cores ==>
      (k in n'.server.waiting && k in n'.cores) || n.cores[k].h.awaitedFd == fd
    ensures Descriptors(n')
  {
    BoundAfter(n, n', fd, id);
    forall other: Fd | other < n'.nextFd ensures Owed(n', other) {
      BindOwes(n, n', fd, other);
    }
    forall i, j | 0 <= i < j < |n'.bindings| ensures n'.bindings[i].0 != n'.bindings[j].0 {
      assert Bound(n, n.bindings[i].0);
    }
    forall other | other in n'.server.pending ensures other in n.server.pending && other != fd {
      if n'.server.pending != n.server.pending {
        var i :| 0 <= i < |n'.server.pending| && n'.server.pending[i] == other;
        assert n.server.pending[i] == other;
      }
    }
  }

  lemma BindOwes(n: Net, n': Net, fd: Fd, other: Fd)
    requires Owed(n, other) && SameOwed(n, n')
    requires forall k :: Bound(n', k) <==> Bound(n, k) || k == fd
    requires n'.server.pending == n.server.pending
             || (n.server.pending != [] && fd == Last(n.server.pending) && n'.server.pending == Front(n.server.pending))
    requires forall k :: k in n.server.waiting && k in n.cores ==>
      (k in n'.server.waiting && k in n'.cores) || n.cores[k].h.awaitedFd == fd
    ensures Owed(n', other)
  {
    if other != fd && other in n.server.pending {
      var i :| 0 <= i < |n.server.pending| && n.server.pending[i] == other;
      assert n'.server.pending[i] == other;
    } else if other != fd && Awaited(n, other) {
      var id :| id in n.server.waiting && id in n.cores && n.cores[id].h.awaitedFd == other;
      assert n'.cores[id].h.awaitedFd == other;
    }
  }

  lemma BoundAfter(n: Net, n': Net, fd: Fd, id: Id)
    requires n'.bindings == n.bindings + [(fd, id)]
    ensures forall other :: Bound(n', other) <==> Bound(n, other) || other == fd
  {
    forall other ensures Bound(n', other) <==> Bound(n, other) || other == fd {
      if Bound(n, other) {
        var i :| 0 <= i < |n.bindings| && n.bindings[i].0 == other;
        assert n'.bindings[i].0 == other;
      }
      assert n'.bindings[|n.bindings|].0 == fd;
    }
  }

  // ---------- every system step is a session step, or nothing, for each connection ----------

  datatype View = Unseen | Sees(event: Event)

  ghost function ViewOf(n: Net, e: NetEvent, id: Id): View
    requires NetEnabled(n, e)
  {
    match e
    case PublicAccept =>
      if n.server.pool != [] && Last(n.server.pool) == id then Sees(Reuse(n.nextFd)) else Unseen
    case Notified(_) => Unseen
    case ProxyAccept(k) => if k == id then Sees(Accept) else Unseen
    case At(k, event) => if k == id then Sees(event) else Unseen
    case ServerReadsCtl => if n.toServer[0].id == id then Sees(ServerCtl) else Unseen
    case ClientReadsCtl => if n.toClient[0].id == id then Sees(ClientCtl) else Unseen
  }

  ghost predicate Projects(n: Net, e: NetEvent, id: Id)
    requires NetEnabled(n, e) && id in n.cores && id in NetStep(n, e).cores
  {
    match ViewOf(n, e, id)
    case Unseen => LinkOf(NetStep(n, e), id) == LinkOf(n, id)
    case Sees(event) =>
      && Enabled(LinkOf(n, id), event)
      && (NetGuard(n, e) ==> ReuseGuard(LinkOf(n, id), event))
      && LinkOf(NetStep(n, e), id) == Step(LinkOf(n, id), event)
  }

  lemma Projection(n: Net, e: NetEvent, id: Id)
    requires Known(n) && NetEnabled(n, e) && id in n.cores
    ensures id in NetStep(n, e).cores && Projects(n, e, id)
  {
    match e
    case PublicAccept => AcceptProjection(n, id);
    case Notified(_) =>
    case ProxyAccept(_) =>
    case At(k, event) => CommitView(n, k, Handle(LinkOf(n, k), event), id);
    case ServerReadsCtl => ServerCtlProjection(n, id);
    case ClientReadsCtl => ClientCtlProjection(n, id);
  }

  lemma AcceptProjection(n: Net, id: Id)
    requires NetEnabled(n, PublicAccept) && id in n.cores
    ensures id in NetStep(n, PublicAccept).cores && Projects(n, PublicAccept, id)
  {
    if n.server.pool == [] {
      OnlyAppend(n.toClient, [Notify], id);
    } else {
      var pool := n.server.pool;
      assert pool == Front(pool) + [Last(pool)];
      assert multiset(pool) == multiset(Front(pool)) + multiset{Last(pool)};
    }
  }

  lemma ServerCtlProjection(n: Net, id: Id)
    requires NetEnabled(n, ServerReadsCtl) && id in n.cores
    ensures id in NetStep(n, ServerReadsCtl).cores && Projects(n, ServerReadsCtl, id)
  {
    var m := n.toServer[0];
    CommitView(n.(toServer := n.toServer[1..]), m.id, ServerHandle(n.cores[m.id], m.id in n.server.active, m.ctl), id);
  }

  lemma ClientCtlProjection(n: Net, id: Id)
    requires NetEnabled(n, ClientReadsCtl) && id in n.cores
    ensures id in NetStep(n, ClientReadsCtl).cores && Projects(n, ClientReadsCtl, id)
  {
    var m := n.toClient[0];
    CommitView(n.(toClient := n.toClient[1..]), m.id, ClientHandle(n.cores[m.id], m.ctl), id);
  }

  lemma CommitView(n: Net, k: Id, o: Outcome, id: Id)
    requires k in n.cores && id in n.cores
    ensures LinkOf(Commit(n, k, o), id) == if id == k then Apply(LinkOf(n, id), o) else LinkOf(n, id)
  {
    if id == k { CommitOwn(n, k, o); } else { CommitOther(n, k, o, id); }
  }

  // ---------- preservation ----------

  lemma StepKnown(n: Net, e: NetEvent)
    requires Known(n) && NetEnabled(n, e)
    ensures Known(NetStep(n, e))
  {
    match e
    case PublicAccept =>
      if n.server.pool != [] {
        var pool := n.server.pool;
        assert forall k :: k in Front(pool) ==> k in pool;
        assert Last(pool) in pool;
      }
    case Notified(_) =>
    case ProxyAccept(_) =>
    case At(k, event) => CommitKnown(n, k, Handle(LinkOf(n, k), event));
    case ServerReadsCtl =>
      var m := n.toServer[0];
      CommitKnown(n.(toServer := n.toServer[1..]), m.id, ServerHandle(n.cores[m.id], m.id in n.server.active, m.ctl));
    case ClientReadsCtl =>
      var m := n.toClient[0];
      CommitKnown(n.(toClient := n.toClient[1..]), m.id, ClientHandle(n.cores[m.id], m.ctl));
  }

  lemma {:induction false} OnlyUnknown(q: seq<CtlMsg>, known: set<Id>, id: Id)
    requires KnownQueue(q, known) && id !in known
    ensures Only(q, id) == []
  {
    if q != [] {
      assert KnownQueue(q[1..], known);
      OnlyUnknown(q[1..], known, id);
    }
  }

  lemma StepLinks(n: Net, e: NetEvent)
    requires Known(n) && Links(n) && NetEnabled(n, e) && NetGuard(n, e)
    ensures Links(NetStep(n, e))
  {
    var n' := NetStep(n, e);
    forall id | id in n'.cores ensures Inv(LinkOf(n', id)) {
      if id in n.cores {
        Projection(n, e, id);
        if ViewOf(n, e, id).Sees? { StepInv(LinkOf(n, id), ViewOf(n, e, id).event); }
      } else {
        assert !n.server.Mentions(id);
        OnlyUnknown(n.toServer, n.cores.Keys, id);
        OnlyUnknown(n.toClient, n.cores.Keys, id);
        assert LinkOf(n', id) == CREATED_LINK;
        CreatedInv();
      }
    }
  }

  lemma ServerHandleSound(l: Link, m: Ctl)
    ensures Sound(l.place, ServerHandle(l.core, l.place.active, m), l.core)
  {
  }

  lemma ClientHandleSound(p: Place, c: Core, m: Ctl)
    ensures Sound(p, ClientHandle(c, m), c)
  {
  }

  lemma StepDescriptors(n: Net, e: NetEvent)
    requires NetInv(n) && NetEnabled(n, e)
    ensures Supply(NetStep(n, e)) && Descriptors(NetStep(n, e))
  {
    match e
    case PublicAccept =>
      NotifiesAppend(n.toClient, [Notify]);
      AcceptDescriptors(n);
    case Notified(id) => NotifiedDescriptors(n, id);
    case ProxyAccept(id) => ProxyAcceptDescriptors(n, id);
    case At(_, _) => AtDescriptors(n, e);
    case ServerReadsCtl => ServerCtlDescriptors(n);
    case ClientReadsCtl => ClientCtlDescriptors(n);
  }

  lemma AtDescriptors(n: Net, e: NetEvent)
    requires NetInv(n) && NetEnabled(n, e) && e.At?
    ensures Supply(NetStep(n, e)) && Descriptors(NetStep(n, e))
  {
    HandleSound(LinkOf(n, e.id), e.e);
    ReadCtl(n, n, e.id, Handle(LinkOf(n, e.id), e.e));
  }

  lemma ServerCtlDescriptors(n: Net)
    requires NetInv(n) && NetEnabled(n, ServerReadsCtl)
    ensures Supply(NetStep(n, ServerReadsCtl)) && Descriptors(NetStep(n, ServerReadsCtl))
  {
    var m := n.toServer[0];
    ServerHandleSound(LinkOf(n, m.id), m.ctl);
    ReadCtl(n, n.(toServer := n.toServer[1..]), m.id, ServerHandle(n.cores[m.id], m.id in n.server.active, m.ctl));
  }

  lemma ClientCtlDescriptors(n: Net)
    requires NetInv(n) && NetEnabled(n, ClientReadsCtl)
    ensures Supply(NetStep(n, ClientReadsCtl)) && Descriptors(NetStep(n, ClientReadsCtl))
  {
    var m := n.toClient[0];
    ClientHandleSound(PlaceOf(n.server, m.id), n.cores[m.id], m.ctl);
    ReadCtl(n, n.(toClient := n.toClient[1..]), m.id, ClientHandle(n.cores[m.id], m.ctl));
  }

  lemma NotifiedDescriptors(n: Net, id: Id)
    requires NetInv(n) && NetEnabled(n, Notified(id))
    ensures Supply(NetStep(n, Notified(id))) && Descriptors(NetStep(n, Notified(id)))
  {
    assert n.server.Mentions(id) ==> id in n.cores;
    SameDescriptors(n, NetStep(n, Notified(id)));
  }

  lemma ProxyAcceptDescriptors(n: Net, id: Id)
    requires NetInv(n) && NetEnabled(n, ProxyAccept(id))
    ensures Supply(NetStep(n, ProxyAccept(id))) && Descriptors(NetStep(n, ProxyAccept(id)))
  {
    assert n.server.Mentions(id) ==> id in n.cores;
    assert LinkOf(n, id).place.ExactlyOne();
    SameDescriptors(n, NetStep(n, ProxyAccept(id)));
  }

  lemma ReadCtl(n: Net, read: Net, id: Id, o: Outcome)
    requires NetInv(n) && id in n.cores
    requires read == n.(toServer := read.toServer, toClient := read.toClient)
    requires Notifies(read.toClient) == Notifies(n.toClient)
    requires Sound(PlaceOf(n.server, id), o, n.cores[id])
    ensures Supply(Commit(read, id, o)) && Descriptors(Commit(read, id, o))
  {
    SameDescriptors(n, read);
    CommitSupply(read, id, o);
    CommitDescriptors(read, id, o);
  }

  lemma AcceptDescriptors(n: Net)
    requires NetInv(n) && NetEnabled(n, PublicAccept)
    ensures Descriptors(NetStep(n, PublicAccept))
  {
    assert !Bound(n, n.nextFd);
    if n.server.pool == [] {
      AcceptPending(n);
    } else {
      var id := Last(n.server.pool);
      assert id in n.server.pool && LinkOf(n, id).place.ExactlyOne();
      AcceptReuse(n);
    }
  }

  lemma AcceptPending(n: Net)
    requires Descriptors(n) && n.server.pool == [] && !Bound(n, n.nextFd)
    ensures Descriptors(NetStep(n, PublicAccept))
  {
    var n' := NetStep(n, PublicAccept);
    assert forall fd :: Bound(n', fd) <==> Bound(n, fd);
    assert forall fd :: Awaited(n', fd) <==> Awaited(n, fd);
    forall fd: Fd | fd < n'.nextFd ensures Owed(n', fd) {
      assert fd < n.nextFd ==> Owed(n, fd);
    }
  }

  lemma AcceptReuse(n: Net)
    requires Descriptors(n) && NetEnabled(n, PublicAccept) && n.server.pool != [] && !Bound(n, n.nextFd)
    requires Last(n.server.pool) !in n.server.waiting
    ensures Descriptors(NetStep(n, PublicAccept))
  {
    var n' := NetStep(n, PublicAccept);
    assert forall fd :: Bound(n', fd) <==> Bound(n, fd);
    forall fd: Fd | fd < n'.nextFd ensures Owed(n', fd) {
      AcceptOwes(n, fd);
    }
  }

  lemma AcceptOwes(n: Net, fd: Fd)
    requires NetEnabled(n, PublicAccept) && n.server.pool != [] && Last(n.server.pool) !in n.server.waiting
    requires fd < n.nextFd ==> Owed(n, fd)
    requires fd <= n.nextFd
    ensures Owed(NetStep(n, PublicAccept), fd)
  {
    var n', id := NetStep(n, PublicAccept), Last(n.server.pool);
    if fd == n.nextFd {
      assert id in n'.server.waiting && n'.cores[id].h.awaitedFd == fd;
    } else if Bound(n, fd) {
      assert Bound(n', fd);
    } else if Awaited(n, fd) {
      var k :| k in n.server.waiting && k in n.cores && n.cores[k].h.awaitedFd == fd;
      assert k in n'.server.waiting && n'.cores[k].h.awaitedFd == fd;
    }
  }

  lemma StepNetInv(n: Net, e: NetEvent)
    requires NetInv(n) && NetEnabled(n, e) && NetGuard(n, e)
    ensures NetInv(NetStep(n, e))
  {
    StepKnown(n, e);
    StepLinks(n, e);
    StepDescriptors(n, e);
  }
}
