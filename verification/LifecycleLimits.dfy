/**
 Where the protocol's guarantees end: the reuse assumption is needed and exact, and two runs of the
 system, from its start and with every assumption kept, in which a session never ends.
 */
module LifecycleLimits {
  import opened ProxyConnection
  import opened Handlers
  import opened Session
  import opened Network
  import opened Lifecycle
  import opened SessionEndings

  // ---------- reuse before the client end was reset ----------

  /** After a reuse, the two ends agree on the mode exactly if the client end had been reset. */
  lemma ReuseAgreesExactly(l: Link, fd: Fd)
    requires Inv(l) && l.place.pooled > 0
    ensures var reused := Step(l, Reuse(fd));
      && Enabled(reused, ServerWrite)
      && (ModesAgree(Step(reused, ServerWrite).core) <==> !l.core.cli.start)
  {
    var after := Step(Step(l, Reuse(fd)), ServerWrite).core;
    assert after.down[|l.core.down|] == Frame(ConnectReq(fd));
    InvModes(l);
    if !l.core.cli.start {
      ReuseInv(l, fd);
      InvModes(Step(l, Reuse(fd)));
    }
  }

  // ---------- runs of one connection are runs of the system ----------

  /** A run of the system that need not keep the assumption on reuse. */
  ghost predicate Plays(ns: seq<Net>, es: seq<NetEvent>) {
    && |ns| == |es| + 1 && ns[0] == INITIAL
    && forall i :: 0 <= i < |es| ==> NetEnabled(ns[i], es[i]) && ns[i + 1] == NetStep(ns[i], es[i])
  }

  /** A system whose only connection is that with the id 0 */
  ghost predicate Alone(n: Net) {
    Known(n) && n.cores.Keys == {0} && forall i :: 0 <= i < |n.toClient| ==> n.toClient[i].About?
  }

  function NetEventOf(e: Event): NetEvent {
    match e
    case Accept => ProxyAccept(0)
    case ServerCtl => ServerReadsCtl
    case ClientCtl => ClientReadsCtl
    case Reuse(_) => PublicAccept
    case _ => At(0, e)
  }

  lemma LiftEnabled(n: Net, e: Event)
    requires Alone(n) && Enabled(LinkOf(n, 0), e) && (e.Reuse? ==> e.fd == n.nextFd)
    ensures NetEnabled(n, NetEventOf(e)) && ViewOf(n, NetEventOf(e), 0) == Sees(e)
    ensures NetGuard(n, NetEventOf(e)) <==> ReuseGuard(LinkOf(n, 0), e)
  {
    match e
    case Reuse(_) =>
      assert 0 in n.server.pool;
      assert Last(n.server.pool) in n.server.pool && n.server.Mentions(Last(n.server.pool));
    case ServerCtl => assert n.toServer != [];
    case ClientCtl => assert n.toClient != [];
    case _ =>
  }

  lemma LiftStep(n: Net, e: Event)
    requires Alone(n) && Enabled(LinkOf(n, 0), e) && (e.Reuse? ==> e.fd == n.nextFd)
    ensures NetEnabled(n, NetEventOf(e))
    ensures var n' := NetStep(n, NetEventOf(e));
      Alone(n') && LinkOf(n', 0) == Step(LinkOf(n, 0), e) && n'.nextFd == n.nextFd + if e.Reuse? then 1 else 0
  {
    LiftEnabled(n, e);
    Projection(n, NetEventOf(e), 0);
    StepKnown(n, NetEventOf(e));
    StepShape(n, NetEventOf(e));
  }

  lemma StepShape(n: Net, e: NetEvent)
    requires NetEnabled(n, e) && !e.Notified? && (e.PublicAccept? ==> n.server.pool != [])
    requires forall i :: 0 <= i < |n.toClient| ==> n.toClient[i].About?
    ensures var n' := NetStep(n, e);
      && n'.cores.Keys == n.cores.Keys && n'.nextFd == n.nextFd + (if e.PublicAccept? then 1 else 0)
      && forall i :: 0 <= i < |n'.toClient| ==> n'.toClient[i].About?
  {
  }

  /** The run ends with one connection in the system, in the state `l`. */
  ghost predicate Reaches(ns: seq<Net>, es: seq<NetEvent>, l: Link, nextFd: Fd) {
    Plays(ns, es) && Alone(ns[|es|]) && LinkOf(ns[|es|], 0) == l && ns[|es|].nextFd == nextFd
  }

  lemma Begin() returns (ns: seq<Net>, es: seq<NetEvent>)
    ensures Reaches(ns, es, CREATED_LINK, 1) && IsRun(ns, es)
  {
    var n1 := NetStep(INITIAL, PublicAccept);
    ns, es := [INITIAL, n1, NetStep(n1, Notified(0))], [PublicAccept, Notified(0)];
  }

  lemma Play(ns: seq<Net>, es: seq<NetEvent>, e: NetEvent)
    requires Plays(ns, es) && NetEnabled(ns[|es|], e)
    ensures Plays(ns + [NetStep(ns[|es|], e)], es + [e])
    ensures IsRun(ns, es) && NetGuard(ns[|es|], e) ==> IsRun(ns + [NetStep(ns[|es|], e)], es + [e])
  {
  }

  lemma Then(ns: seq<Net>, es: seq<NetEvent>, l: Link, fd: Fd, e: Event) returns (ns': seq<Net>, es': seq<NetEvent>)
    requires Reaches(ns, es, l, fd) && Enabled(l, e) && (e.Reuse? ==> e.fd == fd)
    ensures Reaches(ns', es', Step(l, e), NextFd(fd, e))
    ensures IsRun(ns, es) && ReuseGuard(l, e) ==> IsRun(ns', es')
  {
    LiftEnabled(ns[|es|], e);
    LiftStep(ns[|es|], e);
    Play(ns, es, NetEventOf(e));
    ns', es' := ns + [NetStep(ns[|es|], NetEventOf(e))], es + [NetEventOf(e)];
  }

  function NextFd(fd: Fd, e: Event): Fd {
    if e.Reuse? then fd + 1 else fd
  }

  /** The connection makes the step `e`, while `fd` is the next descriptor accepted. */
  ghost predicate Makes(l: Link, fd: Fd, e: Event, guarded: bool) {
    Enabled(l, e) && (e.Reuse? ==> e.fd == fd) && (guarded ==> ReuseGuard(l, e))
  }

  /** These events lead the connection from `l` to `l'`, and the next descriptor from `fd` to `fd'`. */
  ghost predicate Leads(l: Link, fd: Fd, es: seq<Event>, l': Link, fd': Fd, guarded: bool)
    decreases |es|
  {
    if es == [] then l == l' && fd == fd'
    else Makes(l, fd, es[0], guarded) && Leads(Step(l, es[0]), NextFd(fd, es[0]), es[1..], l', fd', guarded)
  }

  /** Whatever one connection can do from its creation, the system can do with it. */
  lemma Realised(es: seq<Event>, l: Link, fd: Fd, guarded: bool) returns (ns: seq<Net>, nes: seq<NetEvent>)
    requires Leads(CREATED_LINK, 1, es, l, fd, guarded)
    ensures Reaches(ns, nes, l, fd)
    ensures guarded ==> IsRun(ns, nes)
  {
    ns, nes := Begin();
    ns, nes := Onward(ns, nes, CREATED_LINK, 1, es, l, fd, guarded);
  }

  lemma {:induction false} Onward(
      ns: seq<Net>, nes: seq<NetEvent>, l: Link, fd: Fd, es: seq<Event>, l': Link, fd': Fd, guarded: bool)
    returns (ns': seq<Net>, nes': seq<NetEvent>)
    requires Reaches(ns, nes, l, fd) && Leads(l, fd, es, l', fd', guarded) && (guarded ==> IsRun(ns, nes))
    ensures Reaches(ns', nes', l', fd')
    ensures guarded ==> IsRun(ns', nes')
    decreases |es|
  {
    ns', nes' := ns, nes;
    if es != [] {
      ns', nes' := Then(ns, nes, l, fd, es[0]);
      ns', nes' := Onward(ns', nes', Step(l, es[0]), NextFd(fd, es[0]), es[1..], l', fd', guarded);
    }
  }

  lemma LeadsOn(l: Link, fd: Fd, e: Event, es: seq<Event>, l': Link, fd': Fd, guarded: bool)
    requires Makes(l, fd, e, guarded) && Leads(Step(l, e), NextFd(fd, e), es, l', fd', guarded)
    ensures Leads(l, fd, [e] + es, l', fd', guarded)
  {
    assert ([e] + es)[1..] == es;
  }

  /** The connection as the server claims it, before any data. */
  const CLAIMED :=
    Link(CREATED.(srv := FRESH_END.Run(), pub := NEW_FEEDER, up := [], h := CREATED.h.(serverSessions := 1)),
         Place(false, false, false, true, 0), [], [])

  lemma Claim(guarded: bool) returns (es: seq<Event>)
    ensures Leads(CREATED_LINK, 1, es, CLAIMED, 1, guarded)
  {
    es := [Accept, ServerRead(1, 1)];
    var accepted := Step(CREATED_LINK, Accept);
    assert Step(accepted, ServerRead(1, 1)) == CLAIMED;
    LeadsOn(accepted, 1, ServerRead(1, 1), [], CLAIMED, 1, guarded);
    LeadsOn(CREATED_LINK, 1, Accept, [ServerRead(1, 1)], CLAIMED, 1, guarded);
  }

  lemma Claimed() returns (ns: seq<Net>, es: seq<NetEvent>)
    ensures Reaches(ns, es, CLAIMED, 1) && IsRun(ns, es)
  {
    var events := Claim(true);
    ns, es := Realised(events, CLAIMED, 1, true);
  }

  // ---------- a control frame written as data ----------

  /** Both sides end at once, and the server pools the connection while the client still relays. */
  lemma BothEnd() returns (es: seq<Event>, l: Link)
    ensures Leads(CLAIMED, 1, es, l, 1, false)
    ensures l.place.pooled == 1 && l.core.cli == FRESH_END.Run().(half := true)
    ensures l.core.down == [] && l.core.outbuf == []
  {
    var l1 := Step(CLAIMED, PublicEnd);
    var l2 := Step(l1, LocalEnd);
    assert l2.toServer == [ShutdownPeerConn(0)] && l2.core.srv.half && l2.core.srv.recv == 0;
    l := Step(l2, ServerCtl);
    LeadsOn(l2, 1, ServerCtl, [], l, 1, false);
    LeadsOn(l1, 1, LocalEnd, [ServerCtl], l, 1, false);
    LeadsOn(CLAIMED, 1, PublicEnd, [LocalEnd, ServerCtl], l, 1, false);
    es := [PublicEnd] + [LocalEnd, ServerCtl];
  }

  lemma EagerReuse(pooled: Link) returns (es: seq<Event>, l: Link)
    requires pooled.place.pooled == 1 && pooled.core.cli == FRESH_END.Run().(half := true)
    requires pooled.core.down == [] && pooled.core.outbuf == []
    ensures Leads(pooled, 1, es, l, 2, false)
    ensures l.core.cli.delivered == [Frame(ConnectReq(1))]
  {
    var asked := Step(pooled, Reuse(1));
    var sent := Step(asked, ServerWrite);
    assert sent.core.down == [Frame(ConnectReq(1))] && sent.core.cli == pooled.core.cli;
    l := Step(sent, ClientRead(1, 1));
    LeadsOn(sent, 2, ClientRead(1, 1), [], l, 2, false);
    LeadsOn(asked, 2, ServerWrite, [ClientRead(1, 1)], l, 2, false);
    LeadsOn(pooled, 1, Reuse(1), [ServerWrite, ClientRead(1, 1)], l, 2, false);
    es := [Reuse(1)] + [ServerWrite, ClientRead(1, 1)];
  }

  /** Then the bytes of a control frame are written to the local server as if they were data. */
  lemma EagerReuseLeaks() returns (ns: seq<Net>, es: seq<NetEvent>)
    ensures Plays(ns, es) && 0 in ns[|es|].cores
    ensures ns[|es|].cores[0].cli.delivered == [Frame(ConnectReq(1))]
  {
    ns, es := Claimed();
    var first, pooled := BothEnd();
    ns, es := Onward(ns, es, CLAIMED, 1, first, pooled, 1, false);
    var rest, l := EagerReuse(pooled);
    ns, es := Onward(ns, es, pooled, 1, rest, l, 2, false);
  }

  // ---------- two sessions that never end ----------

  lemma IdleIf(l: Link)
    requires l.place.active && l.core.up == [] && l.core.down == [] && l.core.outbuf == []
    requires !l.place.backlog && l.place.pooled == 0 && l.toServer == [] && l.toClient == []
    requires l.core.pub.closed && l.core.loc.closed
    ensures Idle(l) && !Ended(l)
  {
  }

  /** The local server ends at once; its count overtakes the connection's own first frame. */
  lemma CountOvertakes() returns (es: seq<Event>, l: Link)
    ensures Leads(CREATED_LINK, 1, es, l, 1, true)
    ensures l.place == CLAIMED.place && l.toServer == [] && l.toClient == [] && l.core.h.up.Lost?
    ensures l.core.up == [] && l.core.down == [] && l.core.outbuf == [] && l.core.loc.closed && l.core.pub == NEW_FEEDER
    ensures l.core.srv == FRESH_END.Run() && l.core.cli == FRESH_END.Run().(half := true)
  {
    var l1 := Step(CREATED_LINK, LocalEnd);
    assert l1.toServer == [ShutdownPeerConn(0)];
    var l2 := Step(l1, ServerCtl);
    var l3 := Step(l2, Accept);
    l := Step(l3, ServerRead(1, 1));
    LeadsOn(l3, 1, ServerRead(1, 1), [], l, 1, true);
    LeadsOn(l2, 1, Accept, [ServerRead(1, 1)], l, 1, true);
    LeadsOn(l1, 1, ServerCtl, [Accept, ServerRead(1, 1)], l, 1, true);
    LeadsOn(CREATED_LINK, 1, LocalEnd, [ServerCtl, Accept, ServerRead(1, 1)], l, 1, true);
    es := [LocalEnd] + [ServerCtl, Accept, ServerRead(1, 1)];
  }

  /** The public side ends too: the client is done and asks for the pool, the server still waits. */
  lemma PublicSideEnds(m: Link) returns (es: seq<Event>, l: Link)
    requires m.place == CLAIMED.place && m.toServer == [] && m.toClient == [] && m.core.pub == NEW_FEEDER
    requires m.core.srv.start && !m.core.srv.half && m.core.cli == FRESH_END.Run().(half := true)
    requires m.core.up == [] && m.core.down == [] && m.core.outbuf == [] && m.core.loc.closed
    ensures Leads(m, 1, es, l, 1, true)
    ensures Idle(l) && !Ended(l)
    ensures l.core.h.up == m.core.h.up && l.core.srv.pipe == m.core.srv.pipe && l.core.cli.pipe == []
  {
    var l1 := Step(m, PublicEnd);
    var c := m.core.(pub := m.core.pub.(closed := true), srv := m.core.srv.(half := true));
    assert l1 == Link(c.(h := l1.core.h), m.place, [], [ShutdownPeerConn(0)]) && l1.core.h.up == m.core.h.up;
    var l2 := Step(l1, ClientCtl);
    assert l2 == Link(c.(h := l2.core.h, cli := l2.core.cli), m.place, [FreeConnReq], []);
    assert l2.core.h.up == m.core.h.up;
    l := Step(l2, ServerCtl);
    assert l == Link(c.(h := l.core.h, cli := l2.core.cli), m.place, [], []) && l.core.h.up == m.core.h.up;
    IdleIf(l);
    LeadsOn(l2, 1, ServerCtl, [], l, 1, true);
    LeadsOn(l1, 1, ClientCtl, [ServerCtl], l, 1, true);
    LeadsOn(m, 1, PublicEnd, [ClientCtl, ServerCtl], l, 1, true);
    es := [PublicEnd] + [ClientCtl, ServerCtl];
  }

  /** A run with every assumption kept that hangs on a dropped count alone. */
  lemma DroppedCountHangs() returns (ns: seq<Net>, es: seq<NetEvent>)
    ensures IsRun(ns, es) && 0 in ns[|es|].cores
    ensures Idle(LinkOf(ns[|es|], 0)) && !Ended(LinkOf(ns[|es|], 0))
    ensures Dropped(ns, es, |es|, 0) && !ServerFellShort(ns, es, |es|, 0) && !ClientFellShort(ns, es, |es|, 0)
  {
    var first, m := CountOvertakes();
    ns, es := Realised(first, m, 1, true);
    var rest, l := PublicSideEnds(m);
    ns, es := Onward(ns, es, m, 1, rest, l, 1, true);
    LostExactly(ns, es, |es|, 0);
    HeldExactly(ns, es, |es|, 0);
  }

  /** The second splice to the public descriptor moves one byte of two. */
  lemma SpliceFallsShort() returns (es: seq<Event>, l: Link)
    ensures Leads(CLAIMED, 1, es, l, 1, true)
    ensures l.place == CLAIMED.place && l.toServer == [] && l.toClient == [] && l.core.h.up.Heard?
    ensures l.core.up == [] && l.core.down == [] && l.core.outbuf == [] && l.core.loc.closed && l.core.pub == NEW_FEEDER
    ensures l.core.srv.start && !l.core.srv.half && |l.core.srv.pipe| == 1
    ensures l.core.cli == FRESH_END.Run().(half := true)
  {
    var l1 := Step(CLAIMED, LocalRead([1, 2], 2));
    assert |l1.core.up| == 2 && l1.core.loc.tran == 2;
    var l2 := Step(l1, ServerRead(2, 1));
    assert |l2.core.srv.pipe| == 1 && l2.core.srv.recv == 1 && l2.core.srv.total == -1;
    var l3 := Step(l2, LocalEnd);
    assert l3.toServer == [ShutdownPeerConn(2)] && l3.core.srv == l2.core.srv;
    l := Step(l3, ServerCtl);
    LeadsOn(l3, 1, ServerCtl, [], l, 1, true);
    LeadsOn(l2, 1, LocalEnd, [ServerCtl], l, 1, true);
    LeadsOn(l1, 1, ServerRead(2, 1), [LocalEnd, ServerCtl], l, 1, true);
    LeadsOn(CLAIMED, 1, LocalRead([1, 2], 2), [ServerRead(2, 1), LocalEnd, ServerCtl], l, 1, true);
    es := [LocalRead([1, 2], 2)] + [ServerRead(2, 1), LocalEnd, ServerCtl];
  }

  /** A run with every assumption kept that hangs on a byte left in the server's pipe alone. */
  lemma ShortSpliceHangs() returns (ns: seq<Net>, es: seq<NetEvent>)
    ensures IsRun(ns, es) && 0 in ns[|es|].cores
    ensures Idle(LinkOf(ns[|es|], 0)) && !Ended(LinkOf(ns[|es|], 0))
    ensures !Dropped(ns, es, |es|, 0) && ServerFellShort(ns, es, |es|, 0) && !ClientFellShort(ns, es, |es|, 0)
  {
    ns, es := Claimed();
    var first, m := SpliceFallsShort();
    ns, es := Onward(ns, es, CLAIMED, 1, first, m, 1, true);
    var rest, l := PublicSideEnds(m);
    ns, es := Onward(ns, es, m, 1, rest, l, 1, true);
    LostExactly(ns, es, |es|, 0);
    HeldExactly(ns, es, |es|, 0);
  }
}
