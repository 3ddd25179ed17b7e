/**
 When a session ends. A connection with nothing left to do has ended its session, both ends reset and
 the connection back in the pool, except in exactly two cases; and neither is ever left again.
 */
module SessionEndings {
  import opened ProxyConnection
  import opened Handlers
  import opened Session
  import opened Network
  import opened Lifecycle

  // ---------- one connection ----------

  /** Nothing can happen to the connection any more, but for being taken from the pool. */
  ghost predicate Idle(l: Link) {
    forall e :: Enabled(l, e) ==> e.Reuse?
  }

  ghost predicate Ended(l: Link) {
    && l.place.pooled > 0 && l.core.srv.IsReset() && l.core.cli.IsReset()
    && l.core.h.timesPooled == l.core.h.serverSessions == l.core.h.clientSessions
  }

  lemma IdleMeans(l: Link)
    requires Inv(l) && Idle(l)
    ensures l.toServer == [] && l.toClient == [] && l.core.up == [] && l.core.down == []
    ensures (l.place.active || l.place.pooled > 0) && l.core.pub.closed && l.core.loc.closed
  {
    assert !Enabled(l, Accept) && !Enabled(l, ServerCtl) && !Enabled(l, ClientCtl) && !Enabled(l, ServerWrite);
    assert !Enabled(l, ServerRead(1, 0)) && !Enabled(l, ClientRead(1, 0));
    assert !Enabled(l, PublicEnd) && !Enabled(l, LocalEnd);
  }

  lemma IdleEndsExactly(l: Link)
    requires Inv(l) && Idle(l)
    ensures Ended(l) <==> !l.core.h.up.Lost? && l.core.srv.pipe == [] && l.core.cli.pipe == []
    ensures l.place.pooled > 0 <==>
      && !l.core.h.up.Lost? && l.core.srv.pipe == []
      && (l.core.cli.pipe == [] || l.core.h.serverClosing.LocalRemote?)
  {
    var c, h := l.core, l.core.h;
    IdleMeans(l);
    HalfCloseOf(c.loc, c.up, c.srv, h.up, h.serverClosing, c.pub.closed);
    HalfCloseOf(c.pub, c.down, c.cli, h.down, h.clientClosing, c.loc.closed);
  }

  /** The count of the client's session reaches the server while the connection is not active. */
  ghost predicate Misses(l: Link, e: Event) {
    e.ServerCtl? && l.toServer != [] && l.toServer[0].ShutdownPeerConn? && !l.place.active
  }

  lemma BecomesLost(l: Link, e: Event)
    requires Enabled(l, e) && !l.core.h.up.Lost?
    ensures Step(l, e).core.h.up.Lost? <==> Misses(l, e)
  {
    match e
    case Accept =>
    case Reuse(_) =>
    case ServerCtl => ServerCtlLoses(l.core, l.place.active, l.toServer[0]);
    case ClientCtl => ClientCtlKeeps(l.core, l.toClient[0]);
    case _ => OwnKeepsCount(l, e);
  }

  lemma ServerCtlLoses(c: Core, active: bool, m: Ctl)
    requires !c.h.up.Lost?
    ensures ServerHandle(c, active, m).core.h.up.Lost? <==> m.ShutdownPeerConn? && !active
  {
  }

  lemma ClientCtlKeeps(c: Core, m: Ctl)
    ensures ClientHandle(c, m).core.h.up == c.h.up && ClientHandle(c, m).core.h.clientSessions == c.h.clientSessions
  {
  }

  lemma OwnKeepsCount(l: Link, e: Event)
    requires Enabled(l, e) && OwnEvent(e) && !l.core.h.up.Lost?
    ensures !Handle(l, e).core.h.up.Lost?
  {
    match e
    case ServerRead(grab, push) => ServerReadUp(l, grab, push);
    case PublicEnd => PublicEofUp(l.core, l.place.active);
    case ClientRead(grab, push) => if l.core.cli.start { ClientRawUp(l.core, grab, push); }
    case _ =>
  }

  lemma LostMeans(l: Link)
    requires Inv(l) && l.core.h.up.Lost?
    ensures l.place.pooled == 0 && (l.place.active ==> l.core.srv.start && !l.core.srv.shut)
    ensures l.core.loc.closed && (l.toServer != [] ==> l.toServer[0].FreeConnReq?)
    ensures !l.core.cli.start ==> l.core.down == []
  {
    FreeOnly(l);
  }

  lemma FreeOnly(l: Link)
    requires ToServerQueue(l) && l.core.h.up.Lost?
    ensures l.toServer != [] ==> l.toServer[0].FreeConnReq?
  {
    assert Count(l.core.h.up, l.core.loc) == [];
  }

  lemma StaysLost(l: Link, e: Event)
    requires Enabled(l, e) && l.core.h.up.Lost? && l.core.loc.closed
    requires l.toServer != [] ==> l.toServer[0].FreeConnReq?
    requires !l.core.cli.start ==> l.core.down == []
    ensures Step(l, e).core.h.up.Lost?
  {
    if OwnEvent(e) { OwnStaysLost(l, e); }
  }

  lemma OwnStaysLost(l: Link, e: Event)
    requires Enabled(l, e) && OwnEvent(e) && l.core.h.up.Lost? && l.core.loc.closed
    requires !l.core.cli.start ==> l.core.down == []
    ensures Handle(l, e).core.h.up.Lost?
  {
    match e
    case ServerRead(grab, push) => ServerReadUp(l, grab, push);
    case ServerWrite =>
    case PublicRead(_, _) =>
    case PublicEnd => PublicEofUp(l.core, l.place.active);
    case ClientRead(grab, push) => ClientRawUp(l.core, grab, push);
    case LocalRead(_, _) =>
    case LocalEnd =>
  }

  lemma ServerReadUp(l: Link, grab: nat, push: nat)
    requires Enabled(l, ServerRead(grab, push))
    ensures Handle(l, ServerRead(grab, push)).core.h.up == l.core.h.up
  {
  }

  lemma PublicEofUp(c: Core, active: bool)
    ensures PublicEof(c, active).core.h.up == c.h.up
  {
  }

  lemma ClientRawUp(c: Core, grab: nat, push: nat)
    requires 1 <= grab <= |c.down| && push <= grab
    ensures ClientRaw(c, grab, push).core.h.up == c.h.up
  {
  }

  /** Pooling is counted when it happens. */
  ghost predicate CountsPooling(c: Core, o: Outcome) {
    o.core.h.timesPooled == c.h.timesPooled + if o.move.Pool? then 1 else 0
  }

  lemma PoolingCounts(l: Link, e: Event)
    requires Enabled(l, e)
    ensures Step(l, e).core.h.timesPooled
            == l.core.h.timesPooled + if Step(l, e).place.pooled > l.place.pooled then 1 else 0
  {
    match e
    case Accept =>
    case Reuse(_) =>
    case ServerCtl => ServerCtlCounts(l.core, l.place.active, l.toServer[0]);
    case ClientCtl => ClientCtlCounts(l.core, l.toClient[0]);
    case _ => OwnCounts(l, e);
  }

  lemma OwnCounts(l: Link, e: Event)
    requires Enabled(l, e) && OwnEvent(e)
    ensures CountsPooling(l.core, Handle(l, e))
  {
  }

  lemma ServerCtlCounts(c: Core, active: bool, m: Ctl)
    ensures CountsPooling(c, ServerHandle(c, active, m))
  {
  }

  lemma ClientCtlCounts(c: Core, m: Ctl)
    ensures CountsPooling(c, ClientHandle(c, m))
  {
  }

  lemma StepLost(l: Link, e: Event)
    requires Inv(l) && Enabled(l, e) && ReuseGuard(l, e)
    ensures Step(l, e).core.h.up.Lost? <==> l.core.h.up.Lost? || Misses(l, e)
    ensures l.core.h.up.Lost? ==> Step(l, e).core.h.timesPooled == l.core.h.timesPooled
  {
    if l.core.h.up.Lost? {
      LostMeans(l);
      StaysLost(l, e);
      StepInv(l, e);
      LostMeans(Step(l, e));
      PoolingCounts(l, e);
    } else {
      BecomesLost(l, e);
    }
  }

  // ---------- a short second splice ----------

  ghost predicate ServerHolds(c: Core) {
    c.srv.pipe != [] && c.srv.start && !c.srv.shut
  }

  lemma ServerPipeMeans(l: Link)
    requires Inv(l) && l.core.srv.pipe != []
    ensures l.place.active && ServerHolds(l.core) && l.core.h.serverSessions == l.core.h.timesPooled + 1
  {
  }

  lemma ClientPipeMeans(l: Link)
    requires Inv(l) && l.core.cli.pipe != []
    ensures l.core.cli.start && !l.core.cli.shut
  {
  }

  /** In this step a second splice moves fewer bytes than the first one read. */
  predicate ShortAtServer(c: Core, e: Event) {
    e.ServerRead? && c.srv.start && e.push < e.grab
  }

  predicate ShortAtClient(c: Core, e: Event) {
    e.ClientRead? && c.cli.start && e.push < e.grab
  }

  lemma PipesExactly(l: Link, e: Event)
    requires Enabled(l, e)
    ensures Step(l, e).core.srv.pipe != [] <==> l.core.srv.pipe != [] || ShortAtServer(l.core, e)
    ensures Step(l, e).core.cli.pipe != [] <==> l.core.cli.pipe != [] || ShortAtClient(l.core, e)
  {
    match e
    case Accept =>
    case Reuse(_) =>
    case ServerRead(grab, push) => ServerReadPipes(l, grab, push);
    case ClientRead(grab, push) => ClientReadPipes(l, grab, push);
    case ServerCtl => ServerCtlPipes(l.core, l.place.active, l.toServer[0]);
    case ClientCtl => ClientCtlPipes(l.core, l.toClient[0]);
    case _ => OwnPipes(l, e);
  }

  lemma ServerReadPipes(l: Link, grab: nat, push: nat)
    requires Enabled(l, ServerRead(grab, push))
    ensures var c, c' := l.core, Handle(l, ServerRead(grab, push)).core;
      && c'.cli.pipe == c.cli.pipe
      && (c'.srv.pipe != [] <==> c.srv.pipe != [] || (c.srv.start && push < grab))
  {
    if l.core.srv.start { PipeStays(l.core.srv, l.core.up, grab, push); }
  }

  lemma ClientReadPipes(l: Link, grab: nat, push: nat)
    requires Enabled(l, ClientRead(grab, push))
    ensures var c, c' := l.core, Handle(l, ClientRead(grab, push)).core;
      && c'.srv.pipe == c.srv.pipe
      && (c'.cli.pipe != [] <==> c.cli.pipe != [] || (c.cli.start && push < grab))
  {
    if l.core.cli.start { PipeStays(l.core.cli, l.core.down, grab, push); }
  }

  ghost predicate SamePipes(c: Core, c': Core) {
    c'.srv.pipe == c.srv.pipe && c'.cli.pipe == c.cli.pipe
  }

  lemma ServerCtlPipes(c: Core, active: bool, m: Ctl)
    ensures SamePipes(c, ServerHandle(c, active, m).core)
  {
  }

  lemma ClientCtlPipes(c: Core, m: Ctl)
    ensures SamePipes(c, ClientHandle(c, m).core)
  {
  }

  lemma OwnPipes(l: Link, e: Event)
    requires Enabled(l, e) && OwnEvent(e) && !e.ServerRead? && !e.ClientRead?
    ensures SamePipes(l.core, Handle(l, e).core)
  {
  }

  lemma StepServerPipe(l: Link, e: Event)
    requires Inv(l) && Enabled(l, e) && ReuseGuard(l, e) && l.core.srv.pipe != []
    ensures Step(l, e).core.srv.pipe != [] && Step(l, e).core.h.timesPooled == l.core.h.timesPooled
  {
    PipesExactly(l, e);
    StepInv(l, e);
    ServerPipeMeans(l);
    ServerPipeMeans(Step(l, e));
    PoolingCounts(l, e);
  }

  lemma StepClientPipe(l: Link, e: Event)
    requires Inv(l) && Enabled(l, e) && l.core.cli.pipe != []
    ensures Step(l, e).core.cli.pipe != [] && Step(l, e).core.h.clientSessions == l.core.h.clientSessions
  {
    PipesExactly(l, e);
    ClientPipeMeans(l);
    SameClientSession(l, e);
  }

  lemma SameClientSession(l: Link, e: Event)
    requires Enabled(l, e) && l.core.cli.start
    ensures Step(l, e).core.h.clientSessions == l.core.h.clientSessions
  {
    match e
    case Accept =>
    case Reuse(_) =>
    case ServerCtl => ServerCtlSessions(l.core, l.place.active, l.toServer[0]);
    case ClientCtl => ClientCtlKeeps(l.core, l.toClient[0]);
    case _ => OwnSessions(l, e);
  }

  lemma ServerCtlSessions(c: Core, active: bool, m: Ctl)
    ensures ServerHandle(c, active, m).core.h.clientSessions == c.h.clientSessions
  {
  }

  lemma OwnSessions(l: Link, e: Event)
    requires Enabled(l, e) && OwnEvent(e) && l.core.cli.start
    ensures Handle(l, e).core.h.clientSessions == l.core.h.clientSessions
  {
  }

  /** The second splice moves no more than the first, so what is in the pipe never gets less. */
  lemma PipeStays(e: End, wire: seq<Item>, grab: nat, push: nat)
    requires grab <= |wire| && push <= grab
    ensures |e.Relay(wire[..grab], push).pipe| == |e.pipe| + grab - push
  {
  }

  // ---------- whole runs ----------

  lemma Follow(ns: seq<Net>, es: seq<NetEvent>, i: nat, id: Id)
    requires IsRun(ns, es) && i < |es| && id in ns[i].cores
    ensures Inv(LinkOf(ns[i], id)) && id in ns[i + 1].cores && Projects(ns[i], es[i], id)
  {
    RunInv(ns, es, i);
    Projection(ns[i], es[i], id);
  }

  lemma {:induction false} StaysKnown(ns: seq<Net>, es: seq<NetEvent>, i: nat, j: nat, id: Id)
    requires IsRun(ns, es) && i <= j < |ns| && id in ns[i].cores
    ensures id in ns[j].cores
    decreases j - i
  {
    if i < j {
      Follow(ns, es, i, id);
      StaysKnown(ns, es, i + 1, j, id);
    }
  }

  /** In this step the server drops a count, because the connection is not in its active map. */
  ghost predicate DropsCount(n: Net, e: NetEvent, id: Id)
    requires NetEnabled(n, e)
  {
    e.ServerReadsCtl? && n.toServer[0].id == id && n.toServer[0].ctl.ShutdownPeerConn? && id !in n.server.active
  }

  lemma DropsIsMisses(n: Net, e: NetEvent, id: Id)
    requires NetEnabled(n, e) && id in n.cores
    ensures DropsCount(n, e, id) <==> ViewOf(n, e, id).Sees? && Misses(LinkOf(n, id), ViewOf(n, e, id).event)
  {
  }

  ghost predicate Dropped(ns: seq<Net>, es: seq<NetEvent>, i: nat, id: Id)
    requires IsRun(ns, es) && i < |ns|
  {
    exists k :: 0 <= k < i && DropsCount(ns[k], es[k], id)
  }

  lemma StepDropped(ns: seq<Net>, es: seq<NetEvent>, i: nat, id: Id)
    requires IsRun(ns, es) && i < |es| && id in ns[i].cores
    ensures id in ns[i + 1].cores
    ensures ns[i + 1].cores[id].h.up.Lost? <==> ns[i].cores[id].h.up.Lost? || DropsCount(ns[i], es[i], id)
    ensures ns[i].cores[id].h.up.Lost? ==> ns[i + 1].cores[id].h.timesPooled == ns[i].cores[id].h.timesPooled
  {
    Follow(ns, es, i, id);
    DropsIsMisses(ns[i], es[i], id);
    if ViewOf(ns[i], es[i], id).Sees? { StepLost(LinkOf(ns[i], id), ViewOf(ns[i], es[i], id).event); }
  }

  /** Before a connection is created, no step is about it. */
  lemma FirstSeen(ns: seq<Net>, es: seq<NetEvent>, i: nat, id: Id)
    requires IsRun(ns, es) && 0 < i < |ns| && id !in ns[i - 1].cores && id in ns[i].cores
    ensures ns[i].cores[id] == CREATED
    ensures forall k :: 0 <= k < i ==> !DropsCount(ns[k], es[k], id) && !(es[k].At? && es[k].id == id)
  {
    forall k | 0 <= k < i ensures !DropsCount(ns[k], es[k], id) && !(es[k].At? && es[k].id == id) {
      if id in ns[k].cores { StaysKnown(ns, es, k, i - 1, id); }
    }
  }

  /** The record `up` of the connection tells whether a count was ever dropped. */
  lemma {:induction false} LostExactly(ns: seq<Net>, es: seq<NetEvent>, i: nat, id: Id)
    requires IsRun(ns, es) && i < |ns| && id in ns[i].cores
    ensures ns[i].cores[id].h.up.Lost? <==> Dropped(ns, es, i, id)
  {
    if i > 0 {
      if id in ns[i - 1].cores {
        LostExactly(ns, es, i - 1, id);
        StepDropped(ns, es, i - 1, id);
      } else {
        FirstSeen(ns, es, i, id);
      }
    }
  }

  /** So far in the run a second splice fell short at the server's end of the connection. */
  ghost predicate ServerFellShort(ns: seq<Net>, es: seq<NetEvent>, i: nat, id: Id)
    requires IsRun(ns, es) && i < |ns|
  {
    exists k :: 0 <= k < i && es[k].At? && es[k].id == id && ShortAtServer(ns[k].cores[id], es[k].e)
  }

  ghost predicate ClientFellShort(ns: seq<Net>, es: seq<NetEvent>, i: nat, id: Id)
    requires IsRun(ns, es) && i < |ns|
  {
    exists k :: 0 <= k < i && es[k].At? && es[k].id == id && ShortAtClient(ns[k].cores[id], es[k].e)
  }

  lemma StepPipes(ns: seq<Net>, es: seq<NetEvent>, i: nat, id: Id)
    requires IsRun(ns, es) && i < |es| && id in ns[i].cores
    ensures id in ns[i + 1].cores
    ensures ns[i + 1].cores[id].srv.pipe != [] <==>
      ns[i].cores[id].srv.pipe != [] || (es[i].At? && es[i].id == id && ShortAtServer(ns[i].cores[id], es[i].e))
    ensures ns[i + 1].cores[id].cli.pipe != [] <==>
      ns[i].cores[id].cli.pipe != [] || (es[i].At? && es[i].id == id && ShortAtClient(ns[i].cores[id], es[i].e))
  {
    Follow(ns, es, i, id);
    if ViewOf(ns[i], es[i], id).Sees? { PipesExactly(LinkOf(ns[i], id), ViewOf(ns[i], es[i], id).event); }
  }

  /** A pipe holds bytes exactly if a second splice fell short there, in whatever session. */
  lemma {:induction false} HeldExactly(ns: seq<Net>, es: seq<NetEvent>, i: nat, id: Id)
    requires IsRun(ns, es) && i < |ns| && id in ns[i].cores
    ensures ns[i].cores[id].srv.pipe != [] <==> ServerFellShort(ns, es, i, id)
    ensures ns[i].cores[id].cli.pipe != [] <==> ClientFellShort(ns, es, i, id)
  {
    if i > 0 {
      if id in ns[i - 1].cores {
        HeldExactly(ns, es, i - 1, id);
        StepPipes(ns, es, i - 1, id);
      } else {
        FirstSeen(ns, es, i, id);
      }
    }
  }

  /**
   Every connection with nothing left to do has ended its session, if and only if the server never
   dropped a count of the client's and no second splice ever fell short at either end. The server has
   it back in the pool also after one at the client's end, if it had seen the public side end before
   it heard the client's count.
   */
  lemma SessionEndsExactly(ns: seq<Net>, es: seq<NetEvent>, i: nat, id: Id)
    requires IsRun(ns, es) && i < |ns| && id in ns[i].cores && Idle(LinkOf(ns[i], id))
    ensures Ended(LinkOf(ns[i], id)) <==>
      !Dropped(ns, es, i, id) && !ServerFellShort(ns, es, i, id) && !ClientFellShort(ns, es, i, id)
    ensures id in ns[i].server.pool <==>
      && !Dropped(ns, es, i, id) && !ServerFellShort(ns, es, i, id)
      && (!ClientFellShort(ns, es, i, id) || ns[i].cores[id].h.serverClosing.LocalRemote?)
  {
    RunInv(ns, es, i);
    LostExactly(ns, es, i, id);
    HeldExactly(ns, es, i, id);
    IdleEndsExactly(LinkOf(ns[i], id));
  }

  lemma {:induction false} LostForever(ns: seq<Net>, es: seq<NetEvent>, i: nat, j: nat, id: Id)
    requires IsRun(ns, es) && i <= j < |ns| && id in ns[i].cores && ns[i].cores[id].h.up.Lost?
    ensures id in ns[j].cores && ns[j].cores[id].h.up.Lost?
    ensures ns[j].cores[id].h.timesPooled == ns[i].cores[id].h.timesPooled
    decreases j
  {
    if i < j {
      LostForever(ns, es, i, j - 1, id);
      StepDropped(ns, es, j - 1, id);
    }
  }

  /** After a dropped count the connection is never pooled and the public descriptor never shut. */
  lemma DroppedForever(ns: seq<Net>, es: seq<NetEvent>, i: nat, j: nat, id: Id)
    requires IsRun(ns, es) && i <= j < |ns| && id in ns[i].cores && Dropped(ns, es, i, id)
    ensures id in ns[j].cores && id !in ns[j].server.pool
    ensures ns[j].cores[id].h.timesPooled == ns[i].cores[id].h.timesPooled
    ensures id in ns[j].server.active ==> ns[j].cores[id].srv.start && !ns[j].cores[id].srv.shut
  {
    LostExactly(ns, es, i, id);
    LostForever(ns, es, i, j, id);
    RunInv(ns, es, j);
    LostMeans(LinkOf(ns[j], id));
  }

  /** Once a byte stays behind in the server's pipe, the session never ends on the server. */
  lemma {:induction false} ServerPipeForever(ns: seq<Net>, es: seq<NetEvent>, i: nat, j: nat, id: Id)
    requires IsRun(ns, es) && i <= j < |ns| && id in ns[i].cores && ns[i].cores[id].srv.pipe != []
    ensures id in ns[j].cores && id in ns[j].server.active
    ensures ServerHolds(ns[j].cores[id])
    ensures ns[j].cores[id].h.timesPooled == ns[i].cores[id].h.timesPooled
    decreases j
  {
    if i < j {
      ServerPipeForever(ns, es, i, j - 1, id);
      Follow(ns, es, j - 1, id);
      if ViewOf(ns[j - 1], es[j - 1], id).Sees? {
        StepServerPipe(LinkOf(ns[j - 1], id), ViewOf(ns[j - 1], es[j - 1], id).event);
      }
    }
    RunInv(ns, es, j);
    ServerPipeMeans(LinkOf(ns[j], id));
  }

  /** ... and in the client's, on the client: its local descriptor is never shut, nor its end reset. */
  lemma {:induction false} ClientPipeForever(ns: seq<Net>, es: seq<NetEvent>, i: nat, j: nat, id: Id)
    requires IsRun(ns, es) && i <= j < |ns| && id in ns[i].cores && ns[i].cores[id].cli.pipe != []
    ensures id in ns[j].cores
    ensures var e := ns[j].cores[id].cli; e.pipe != [] && e.start && !e.shut
    ensures ns[j].cores[id].h.clientSessions == ns[i].cores[id].h.clientSessions
    decreases j
  {
    if i < j {
      ClientPipeForever(ns, es, i, j - 1, id);
      Follow(ns, es, j - 1, id);
      if ViewOf(ns[j - 1], es[j - 1], id).Sees? {
        StepClientPipe(LinkOf(ns[j - 1], id), ViewOf(ns[j - 1], es[j - 1], id).event);
      }
    }
    RunInv(ns, es, j);
    ClientPipeMeans(LinkOf(ns[j], id));
  }
}
