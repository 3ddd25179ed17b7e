/**
 What the proxy-connection protocol guarantees over every run, of any length, with any number of
 connections and of sessions on each, and what it does not.
 */
module Lifecycle {
  import opened ProxyConnection
  import opened Handlers
  import opened Session
  import opened Network

  ghost predicate IsRun(ns: seq<Net>, es: seq<NetEvent>) {
    && |ns| == |es| + 1 && ns[0] == INITIAL
    && forall i :: 0 <= i < |es| ==>
         NetEnabled(ns[i], es[i]) && NetGuard(ns[i], es[i]) && ns[i + 1] == NetStep(ns[i], es[i])
  }

  lemma {:induction false} RunInv(ns: seq<Net>, es: seq<NetEvent>, i: nat)
    requires IsRun(ns, es) && i < |ns|
    ensures NetInv(ns[i])
  {
    if i == 0 {
      InitialInv();
    } else {
      RunInv(ns, es, i - 1);
      StepNetInv(ns[i - 1], es[i - 1]);
    }
  }

  // ---------- mode agreement ----------

  /** An end in raw mode has only raw bytes to read; an end in frame mode next reads a frame. */
  ghost predicate Agrees(start: bool, wire: seq<Item>) {
    if start then AllRaw(wire) else wire != [] ==> wire[0].Frame?
  }

  ghost predicate ModesAgree(c: Core) {
    && Agrees(c.srv.start, c.up) && Agrees(c.cli.start, c.down)
    && AllRaw(c.srv.pipe) && AllRaw(c.cli.pipe)
    && !c.h.misread
  }

  lemma InvModes(l: Link)
    requires Inv(l)
    ensures ModesAgree(l.core)
  {
    var c := l.core;
    if l.place.active || l.place.pooled > 0 {
      FlowRaw(c.loc, c.up, c.srv);
      FlowRaw(c.pub, c.down, c.cli);
    }
  }

  lemma FlowRaw(f: Feeder, wire: seq<Item>, e: End)
    requires Flow(f, wire, e)
    ensures AllRaw(wire) && AllRaw(e.pipe) && AllRaw(e.delivered)
    ensures f.forwarded[..|e.delivered|] == e.delivered
  {
    var d, p := |e.delivered|, |e.delivered + e.pipe|;
    assert forall i :: 0 <= i < |wire| ==> wire[i] == f.forwarded[p + i];
    assert forall i :: 0 <= i < |e.pipe| ==> e.pipe[i] == f.forwarded[d + i];
    assert forall i :: 0 <= i < d ==> e.delivered[i] == f.forwarded[i];
  }

  lemma ModeAgreement(ns: seq<Net>, es: seq<NetEvent>, i: nat, id: Id)
    requires IsRun(ns, es) && i < |ns| && id in ns[i].cores
    ensures ModesAgree(ns[i].cores[id])
  {
    RunInv(ns, es, i);
    InvModes(LinkOf(ns[i], id));
  }

  // ---------- drain before half-close, and no leak between sessions ----------

  /**
   The far descriptor holds a prefix of what the feeder of this very session put on the stream, and
   is shut for writing only when it holds all of it and the feeder has ended.
   */
  ghost predicate Carries(e: End, f: Feeder) {
    && |e.delivered| <= |f.forwarded| && e.delivered == f.forwarded[..|e.delivered|] && AllRaw(e.delivered)
    && (e.shut ==> f.closed && e.delivered == f.forwarded)
  }

  /** If this step reset the end, nothing of the session is left in its pipe or on its stream. */
  ghost predicate CleanReset(before: End, after: End, wire: seq<Item>) {
    before.start && !after.start ==> after.IsReset() && wire == []
  }

  lemma InvCarries(l: Link)
    requires Inv(l) && (l.place.active || l.place.pooled > 0)
    ensures Carries(l.core.srv, l.core.loc) && Carries(l.core.cli, l.core.pub)
    ensures l.core.h.clientSessions == l.core.h.serverSessions
  {
    FlowRaw(l.core.loc, l.core.up, l.core.srv);
    FlowRaw(l.core.pub, l.core.down, l.core.cli);
  }

  lemma ServerReset(l: Link, e: Event)
    requires Inv(l) && Enabled(l, e) && ReuseGuard(l, e)
    ensures CleanReset(l.core.srv, Step(l, e).core.srv, Step(l, e).core.up)
  {
    StepInv(l, e);
    var after := Step(l, e);
    if after.core.srv.shut && (after.place.active || after.place.pooled > 0) {
      DrainedWire(after.core.loc, after.core.up, after.core.srv);
    }
  }

  lemma ClientReset(l: Link, e: Event)
    requires Inv(l) && Enabled(l, e) && ReuseGuard(l, e)
    ensures CleanReset(l.core.cli, Step(l, e).core.cli, Step(l, e).core.down)
  {
    StepInv(l, e);
    var after := Step(l, e);
    if after.core.cli.shut && (after.place.active || after.place.pooled > 0) {
      DrainedWire(after.core.pub, after.core.down, after.core.cli);
    }
  }

  lemma DrainedWire(f: Feeder, wire: seq<Item>, e: End)
    requires Flow(f, wire, e) && e.delivered == f.forwarded
    ensures wire == []
  {
    assert |f.forwarded| == |e.delivered| + |e.pipe| + |wire|;
  }

  /** A connection in a session, or pooled after one. */
  ghost predicate InSession(n: Net, id: Id) {
    id in n.server.active || id in n.server.pool
  }

  lemma SessionsCarry(ns: seq<Net>, es: seq<NetEvent>, i: nat, id: Id)
    requires IsRun(ns, es) && i < |ns| && id in ns[i].cores && InSession(ns[i], id)
    ensures Carries(ns[i].cores[id].srv, ns[i].cores[id].loc)
    ensures Carries(ns[i].cores[id].cli, ns[i].cores[id].pub)
    ensures ns[i].cores[id].h.clientSessions == ns[i].cores[id].h.serverSessions
  {
    RunInv(ns, es, i);
    InvCarries(LinkOf(ns[i], id));
  }

  lemma ResetsAreClean(ns: seq<Net>, es: seq<NetEvent>, i: nat, id: Id)
    requires IsRun(ns, es) && i < |es| && id in ns[i].cores
    ensures id in ns[i + 1].cores
    ensures CleanReset(ns[i].cores[id].srv, ns[i + 1].cores[id].srv, ns[i + 1].cores[id].up)
    ensures CleanReset(ns[i].cores[id].cli, ns[i + 1].cores[id].cli, ns[i + 1].cores[id].down)
  {
    RunInv(ns, es, i);
    Projection(ns[i], es[i], id);
    if ViewOf(ns[i], es[i], id).Sees? {
      ServerReset(LinkOf(ns[i], id), ViewOf(ns[i], es[i], id).event);
      ClientReset(LinkOf(ns[i], id), ViewOf(ns[i], es[i], id).event);
    }
  }

  /**
   The public descriptor is half-closed exactly when the client's count has been heard and all it
   counts has been delivered, at whatever point among the data the count arrives.
   */
  lemma HalfCloseExactly(ns: seq<Net>, es: seq<NetEvent>, i: nat, id: Id)
    requires IsRun(ns, es) && i < |ns| && id in ns[i].cores && InSession(ns[i], id)
    ensures var c := ns[i].cores[id];
      && (c.srv.shut <==> c.h.up.Heard? && c.up == [] && c.srv.pipe == [])
      && (c.cli.shut <==> c.h.down.Heard? && c.down == [] && c.cli.pipe == [])
  {
    RunInv(ns, es, i);
    var l := LinkOf(ns[i], id);
    HalfCloseOf(l.core.loc, l.core.up, l.core.srv, l.core.h.up, l.core.h.serverClosing, l.core.pub.closed);
    HalfCloseOf(l.core.pub, l.core.down, l.core.cli, l.core.h.down, l.core.h.clientClosing, l.core.loc.closed);
  }

  lemma HalfCloseOf(f: Feeder, wire: seq<Item>, e: End, a: Announcement, k: Closing, localClosed: bool)
    requires Flow(f, wire, e) && Flags(e, k, localClosed) && Counting(e, a, f, k.Remote? || k.Done())
    ensures e.shut <==> a.Heard? && wire == [] && e.pipe == []
  {
    assert |f.forwarded| == |e.delivered| + |e.pipe| + |wire|;
  }

  // ---------- pooled exactly once ----------

  /** Both ends have seen both closes of the same session. */
  ghost predicate Finished(c: Core) {
    c.h.serverSessions == c.h.clientSessions && c.h.serverClosing.Done() && c.h.clientClosing.Done()
  }

  /**
   Of the four ways the two ends can order their closes, the one that would never pool is impossible;
   of the others, two have the server pool by itself and the third has the client ask for it.
   */
  ghost predicate PooledOnce(l: Link) {
    var c, h := l.core, l.core.h;
    && h.timesPooled <= h.serverSessions <= h.timesPooled + 1
    && (Finished(c) ==>
          && !(h.serverClosing.RemoteLocal? && h.clientClosing.RemoteLocal?)
          && (h.serverClosing.LocalRemote? ==> h.timesPooled == h.serverSessions)
          && (h.timesPooled < h.serverSessions ==> l.place.active && !c.srv.start && FreeConnReq in l.toServer))
  }

  lemma InvPooledOnce(l: Link)
    requires Inv(l)
    ensures PooledOnce(l)
  {
    if l.core.h.freshFree {
      assert l.toServer[|l.toServer| - 1] == FreeConnReq;
    }
  }

  lemma FinishedPoolsOnce(ns: seq<Net>, es: seq<NetEvent>, i: nat, id: Id)
    requires IsRun(ns, es) && i < |ns| && id in ns[i].cores
    ensures PooledOnce(LinkOf(ns[i], id))
  {
    RunInv(ns, es, i);
    InvPooledOnce(LinkOf(ns[i], id));
  }

  /** The step that pools a connection does it for a finished session, and for the first time. */
  ghost predicate PoolsOnce(before: Link, after: Link) {
    before.place.pooled == 0 && after.place.pooled > 0 ==>
      && after.core.h.serverSessions == before.core.h.serverSessions == before.core.h.timesPooled + 1
      && after.core.h.timesPooled == after.core.h.serverSessions
      && after.core.h.serverClosing.Done()
  }

  lemma StepPoolsOnce(l: Link, e: Event)
    requires Inv(l) && Enabled(l, e) && ReuseGuard(l, e)
    ensures PoolsOnce(l, Step(l, e))
  {
    StepInv(l, e);
    PoolsFromActive(l, e);
  }

  lemma PoolsFromActive(l: Link, e: Event)
    requires Enabled(l, e)
    ensures Step(l, e).place.pooled > l.place.pooled ==>
      l.place.active && Step(l, e).core.h.serverSessions == l.core.h.serverSessions
  {
  }

  lemma PoolStepEndsSession(ns: seq<Net>, es: seq<NetEvent>, i: nat, id: Id)
    requires IsRun(ns, es) && i < |es| && id in ns[i].cores && id in ns[i + 1].cores
    ensures PoolsOnce(LinkOf(ns[i], id), LinkOf(ns[i + 1], id))
  {
    RunInv(ns, es, i);
    Projection(ns[i], es[i], id);
    if ViewOf(ns[i], es[i], id).Sees? { StepPoolsOnce(LinkOf(ns[i], id), ViewOf(ns[i], es[i], id).event); }
  }

  /**
   What pools a connection: the close of the peer, drained, which resets an end that has seen the public
   side close; or the client's request, for an end that was reset the other way round.
   */
  ghost predicate PoolsWhenDone(before: Link, e: Event, after: Link) {
    before.place.pooled == 0 && after.place.pooled > 0 ==>
      || (before.core.srv.start && before.core.h.serverClosing.Local?
          && !after.core.srv.start && after.core.h.serverClosing.LocalRemote?)
      || (e.ServerCtl? && before.toServer != [] && before.toServer[0].FreeConnReq?
          && !before.core.srv.start && before.core.h.serverClosing.RemoteLocal?)
  }

  lemma StepPoolsWhenDone(l: Link, e: Event)
    requires Inv(l) && Enabled(l, e)
    ensures PoolsWhenDone(l, e, Step(l, e))
  {
  }

  lemma PooledWhenDone(ns: seq<Net>, es: seq<NetEvent>, i: nat, id: Id)
    requires IsRun(ns, es) && i < |es| && id in ns[i].cores && id in ns[i + 1].cores
    requires id !in ns[i].server.pool && id in ns[i + 1].server.pool
    ensures ViewOf(ns[i], es[i], id).Sees?
    ensures PoolsWhenDone(LinkOf(ns[i], id), ViewOf(ns[i], es[i], id).event, LinkOf(ns[i + 1], id))
  {
    RunInv(ns, es, i);
    Projection(ns[i], es[i], id);
    if ViewOf(ns[i], es[i], id).Sees? {
      StepPoolsWhenDone(LinkOf(ns[i], id), ViewOf(ns[i], es[i], id).event);
    }
  }

  /** A FreeConnReq that an earlier session left behind changes nothing but its own queue. */
  lemma StaleFree(l: Link)
    requires Inv(l) && l.core.h.staleFree
    ensures l.toServer != [] && l.toServer[0] == FreeConnReq
    ensures ServerHandle(l.core, l.place.active, FreeConnReq) == Quiet(l.core.(h := l.core.h.(staleFree := false)))
  {
  }

  lemma StaleFreeIsIgnored(ns: seq<Net>, es: seq<NetEvent>, i: nat)
    requires IsRun(ns, es) && i < |es| && es[i].ServerReadsCtl?
    requires ns[i].cores[ns[i].toServer[0].id].h.staleFree
    ensures ns[i].toServer[0].ctl == FreeConnReq
    ensures var n, id := ns[i], ns[i].toServer[0].id; var c := n.cores[id];
      ns[i + 1] == n.(toServer := n.toServer[1..], cores := n.cores[id := c.(h := c.h.(staleFree := false))])
  {
    var n, id := ns[i], ns[i].toServer[0].id;
    RunInv(ns, es, i);
    StaleFree(LinkOf(n, id));
    assert n.toServer[1..] + Tagged(id, []) == n.toServer[1..] && n.toClient + Tagged(id, []) == n.toClient;
  }

  // ---------- the server's collections ----------

  ghost predicate Partitioned(n: Net) {
    var s := n.server;
    && n.cores.Keys == s.backlog + s.unclaimed + s.waiting + s.active + (set id | id in s.pool)
    && s.backlog !! s.unclaimed !! s.waiting !! s.active !! (set id | id in s.pool)
    && (forall i, j :: 0 <= i < j < |s.pool| ==> s.pool[i] != s.pool[j])
    && (forall id :: id in s.pool ==> n.cores[id].srv.IsReset())
  }

  lemma Ownership(ns: seq<Net>, es: seq<NetEvent>, i: nat)
    requires IsRun(ns, es) && i < |ns|
    ensures Partitioned(ns[i])
  {
    RunInv(ns, es, i);
    AllPlaced(ns[i]);
    OneEach(ns[i]);
    PoolDistinct(ns[i]);
  }

  lemma AllPlaced(n: Net)
    requires NetInv(n)
    ensures forall id :: n.server.Mentions(id) ==> id in n.cores
    ensures forall id :: id in n.cores ==> Placed(n, id)
    ensures forall id :: id in n.server.pool ==> id in n.cores
  {
    forall id | id in n.cores ensures Placed(n, id) {
      assert Inv(LinkOf(n, id));
    }
    assert forall id :: id in n.server.pool ==> n.server.Mentions(id);
  }

  ghost predicate Placed(n: Net, id: Id)
    requires id in n.cores
  {
    PlaceOf(n.server, id).ExactlyOne() && (id in n.server.pool ==> n.cores[id].srv.IsReset())
  }

  lemma OneEach(n: Net)
    requires forall id :: n.server.Mentions(id) ==> id in n.cores
    requires forall id :: id in n.cores ==> Placed(n, id)
    ensures var s := n.server; var pooled := set id | id in s.pool;
      n.cores.Keys == s.backlog + s.unclaimed + s.waiting + s.active + pooled
      && s.backlog !! s.unclaimed !! s.waiting !! s.active !! pooled
  {
    var s := n.server;
    var pooled := set id | id in s.pool;
    forall id ensures id in n.cores <==> id in s.backlog + s.unclaimed + s.waiting + s.active + pooled {
      if id in n.cores { assert Placed(n, id); }
      assert n.server.Mentions(id) <==> id in s.backlog + s.unclaimed + s.waiting + s.active + pooled;
    }
    forall id ensures !(id in s.backlog && id in s.unclaimed + s.waiting + s.active + pooled)
      && !(id in s.unclaimed && id in s.waiting + s.active + pooled)
      && !(id in s.waiting && id in s.active + pooled) && !(id in s.active && id in pooled)
    {
      if n.server.Mentions(id) { assert Placed(n, id); }
    }
  }

  lemma PoolDistinct(n: Net)
    requires forall id :: id in n.server.pool ==> id in n.cores && Placed(n, id)
    ensures forall j, k :: 0 <= j < k < |n.server.pool| ==> n.server.pool[j] != n.server.pool[k]
  {
    forall j, k | 0 <= j < k < |n.server.pool| ensures n.server.pool[j] != n.server.pool[k] {
      assert Placed(n, n.server.pool[j]);
      if n.server.pool[j] == n.server.pool[k] { TwiceInPool(n.server.pool, j, k); }
    }
  }

  lemma TwiceInPool(pool: seq<Id>, j: nat, k: nat)
    requires j < k < |pool| && pool[j] == pool[k]
    ensures multiset(pool)[pool[j]] >= 2
  {
    assert pool == pool[..k] + [pool[k]] + pool[k + 1..];
    assert pool[j] in pool[..k];
    assert multiset(pool) == multiset(pool[..k]) + multiset{pool[k]} + multiset(pool[k + 1..]);
  }

  // ---------- public descriptors ----------

  /** Where a descriptor is: kept, awaited by a connection taken from the pool, or bound. */
  ghost function Places(n: Net, fd: Fd): nat {
    (if fd in n.server.pending then 1 else 0) + (if Awaited(n, fd) then 1 else 0) + (if Bound(n, fd) then 1 else 0)
  }

  /**
   The claim never pops an empty list, no accepted descriptor is bound twice, and none is lost: each
   is in exactly one place, and no other descriptor is anywhere.
   */
  lemma DescriptorsConserved(ns: seq<Net>, es: seq<NetEvent>, i: nat)
    requires IsRun(ns, es) && i < |ns|
    ensures !ns[i].underflow
    ensures |ns[i].server.pending| == Notifies(ns[i].toClient) + |ns[i].server.backlog| + |ns[i].server.unclaimed|
    ensures forall j, k :: 0 <= j < k < |ns[i].bindings| ==> ns[i].bindings[j].0 != ns[i].bindings[k].0
    ensures forall fd: Fd :: Places(ns[i], fd) == if fd < ns[i].nextFd then 1 else 0
  {
    RunInv(ns, es, i);
    forall fd: Fd ensures Places(ns[i], fd) == if fd < ns[i].nextFd then 1 else 0 {
      OnePlace(ns[i], fd);
    }
  }

  lemma OnePlace(n: Net, fd: Fd)
    requires Known(n) && Descriptors(n)
    ensures Places(n, fd) == if fd < n.nextFd then 1 else 0
  {
    if Awaited(n, fd) {
      var id :| id in n.server.waiting && id in n.cores && n.cores[id].h.awaitedFd == fd;
    }
    if fd < n.nextFd {
      assert Owed(n, fd);
    }
  }
}
