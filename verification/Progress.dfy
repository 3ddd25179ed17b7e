/**
 How far a connection is from being idle. Everything that can happen to it, but for new data at a
 descriptor and a new session, brings it closer, so that it comes to rest in a bounded number of steps.
 */
module SessionProgress {
  import opened Positional
  import opened Bytes
  import opened ProxyConnection
  import opened Handlers
  import opened Session
  import opened Network
  import opened Lifecycle
  import opened SessionEndings
  import opened LifecycleLimits

  // ---------- a weight for what is under way ----------

  function Weight(wire: seq<Item>, raw: nat, frame: nat): nat {
    if wire == [] then 0 else (if wire[0].Raw? then raw else frame) + Weight(wire[1..], raw, frame)
  }

  lemma {:induction false} WeightAppend(s: seq<Item>, t: seq<Item>, raw: nat, frame: nat)
    ensures Weight(s + t, raw, frame) == Weight(s, raw, frame) + Weight(t, raw, frame)
  {
    if s == [] {
      assert s + t == t;
    } else {
      WeightAppend(s[1..], t, raw, frame);
      assert (s + t)[1..] == s[1..] + t;
    }
  }

  lemma {:induction false} WeightRaw(s: seq<Item>, raw: nat, frame: nat)
    requires AllRaw(s)
    ensures Weight(s, raw, frame) == raw * |s|
  {
    if s != [] {
      WeightRaw(s[1..], raw, frame);
      Distribute(raw, 1, |s| - 1);
    }
  }

  lemma {:induction false} WeightDrop(s: seq<Item>, n: nat, raw: nat, frame: nat)
    requires n <= |s| && raw <= frame
    ensures Weight(s[n..], raw, frame) + raw * n <= Weight(s, raw, frame)
  {
    if n == 0 {
      assert s[0..] == s;
    } else {
      WeightDrop(s[1..], n - 1, raw, frame);
      assert s[1..][n - 1..] == s[n..];
      Distribute(raw, 1, n - 1);
    }
  }

  function Open(f: Feeder, weight: nat): nat {
    if f.bound && !f.closed then weight else 0
  }

  /** The work that is left, with each item counted for all that it can still bring about. */
  function CoreWork(c: Core): nat {
    8 * |c.outbuf| + Weight(c.down, 2, 7) + Weight(c.up, 1, 4) + Open(c.loc, 2) + Open(c.pub, 3)
  }

  function Work(l: Link): nat {
    (if l.place.backlog then 1 else 0) + CoreWork(l.core) + |l.toServer| + 2 * |l.toClient|
  }

  function OutcomeWork(o: Outcome): nat {
    CoreWork(o.core) + |o.toServer| + 2 * |o.toClient|
  }

  /** New data at a descriptor, and a new session, are the only sources of work. */
  predicate Brings(e: Event) {
    e.PublicRead? || e.LocalRead? || e.Reuse?
  }

  function Brought(e: Event): nat {
    match e
    case PublicRead(_, push) => 2 * push
    case LocalRead(_, push) => push
    case Reuse(_) => 8
    case _ => 0
  }

  // ---------- one step ----------

  /** What carries work is as before. */
  ghost predicate SameWork(c: Core, c': Core) {
    c'.outbuf == c.outbuf && c'.down == c.down && c'.up == c.up && c'.loc == c.loc && c'.pub == c.pub
  }

  lemma ServerReadWork(l: Link, grab: nat, push: nat)
    requires Enabled(l, ServerRead(grab, push))
    ensures OutcomeWork(Handle(l, ServerRead(grab, push))) < CoreWork(l.core)
  {
    if l.core.srv.start {
      ServerRawWork(l.core, l.place.active, grab, push);
    } else {
      ServerFrameWork(l.core, l.place.waiting);
    }
  }

  lemma ServerRawWork(c: Core, active: bool, grab: nat, push: nat)
    requires 1 <= grab <= |c.up| && push <= grab
    ensures OutcomeWork(ServerRaw(c, active, grab, push)) < CoreWork(c)
  {
    WeightDrop(c.up, grab, 1, 4);
    var read := c.(srv := c.srv.Relay(c.up[..grab], push), up := c.up[grab..]);
    ShutdownPublicConnWork(read, active);
  }

  lemma ShutdownPublicConnWork(c: Core, active: bool)
    ensures var o := ShutdownPublicConn(c, active); SameWork(c, o.core) && o.toServer == [] && o.toClient == []
  {
  }

  lemma ServerFrameWork(c: Core, waiting: bool)
    requires |c.up| > 0
    ensures OutcomeWork(ServerFrame(c, waiting)) < CoreWork(c)
  {
  }

  lemma ClientReadWork(l: Link, grab: nat, push: nat)
    requires Enabled(l, ClientRead(grab, push))
    ensures OutcomeWork(Handle(l, ClientRead(grab, push))) < CoreWork(l.core)
  {
    var c := l.core;
    if c.cli.start {
      ClientRawWork(c, grab, push);
    } else if c.down[0].Frame? && c.down[0].frame.ConnectReq? {
      WeightAppend(c.up, [Frame(ConnectRsp(c.down[0].frame.fd))], 1, 4);
    }
  }

  lemma ClientRawWork(c: Core, grab: nat, push: nat)
    requires 1 <= grab <= |c.down| && push <= grab
    ensures OutcomeWork(ClientRaw(c, grab, push)) < CoreWork(c)
  {
    WeightDrop(c.down, grab, 2, 7);
  }

  lemma ServerWriteWork(c: Core)
    requires |c.outbuf| > 0
    ensures OutcomeWork(ServerFlush(c)) < CoreWork(c)
  {
    WeightAppend(c.down, [Frame(c.outbuf[0])], 2, 7);
  }

  lemma EndsWork(c: Core, active: bool)
    ensures c.pub.bound && !c.pub.closed ==> OutcomeWork(PublicEof(c, active)) < CoreWork(c)
    ensures c.loc.bound && !c.loc.closed ==> OutcomeWork(LocalEof(c)) < CoreWork(c)
  {
  }

  lemma DataWork(c: Core, bytes: seq<Byte>, push: nat)
    requires push <= |bytes|
    ensures OutcomeWork(PublicData(c, bytes, push)) == CoreWork(c) + 2 * push
    ensures OutcomeWork(LocalData(c, bytes, push)) == CoreWork(c) + push
  {
    var p, q := Wrap((c.pub.pipe + bytes)[..push]), Wrap((c.loc.pipe + bytes)[..push]);
    WeightAppend(c.down, p, 2, 7);
    WeightRaw(p, 2, 7);
    WeightAppend(c.up, q, 1, 4);
    WeightRaw(q, 1, 4);
  }

  lemma ServerCtlWork(c: Core, active: bool, m: Ctl)
    ensures OutcomeWork(ServerHandle(c, active, m)) == CoreWork(c)
  {
    match m
    case ShutdownPeerConn(count) =>
      ShutdownPublicConnWork(c.(srv := c.srv.AddTotal(count), h := c.h.(up := Heard, staleFree := false)), active);
    case FreeConnReq => FreeWork(c, active);
  }

  lemma FreeWork(c: Core, active: bool)
    ensures var o := HandleFreeProxyConnReq(c, active); SameWork(c, o.core) && o.toServer == [] && o.toClient == []
  {
  }

  lemma ClientCtlWork(c: Core, m: Ctl)
    ensures OutcomeWork(ClientHandle(c, m)) <= CoreWork(c) + 1
  {
  }

  lemma OwnWork(l: Link, e: Event)
    requires Enabled(l, e) && OwnEvent(e)
    ensures OutcomeWork(Handle(l, e)) + (if Brings(e) then 0 else 1) <= CoreWork(l.core) + Brought(e)
  {
    match e
    case ServerRead(grab, push) => ServerReadWork(l, grab, push);
    case ClientRead(grab, push) => ClientReadWork(l, grab, push);
    case ServerWrite => ServerWriteWork(l.core);
    case PublicEnd => EndsWork(l.core, l.place.active);
    case LocalEnd => EndsWork(l.core, l.place.active);
    case PublicRead(bytes, push) => DataWork(l.core, bytes, push);
    case LocalRead(bytes, push) => DataWork(l.core, bytes, push);
  }

  lemma ReuseWork(c: Core, fd: Fd)
    ensures CoreWork(ReqStartProxy(c, fd)) == CoreWork(c) + 8
  {
  }

  lemma ApplyWork(l: Link, o: Outcome)
    ensures Work(Apply(l, o)) == Work(l.(core := o.core)) + |o.toServer| + 2 * |o.toClient|
  {
  }

  /** Every step but those that bring work takes some away, in any state. */
  lemma StepWork(l: Link, e: Event)
    requires Enabled(l, e)
    ensures Work(Step(l, e)) + (if Brings(e) then 0 else 1) <= Work(l) + Brought(e)
  {
    match e
    case Accept =>
    case Reuse(fd) => ReuseWork(l.core, fd);
    case ServerCtl =>
      ServerCtlWork(l.core, l.place.active, l.toServer[0]);
      ApplyWork(l.(toServer := l.toServer[1..]), ServerHandle(l.core, l.place.active, l.toServer[0]));
    case ClientCtl =>
      ClientCtlWork(l.core, l.toClient[0]);
      ApplyWork(l.(toClient := l.toClient[1..]), ClientHandle(l.core, l.toClient[0]));
    case _ =>
      OwnWork(l, e);
      ApplyWork(l, Handle(l, e));
  }

  // ---------- coming to rest ----------

  /** As long as a connection is not idle, a step that brings no work is possible. */
  lemma MovesUntilIdle(l: Link)
    ensures (exists e :: Enabled(l, e) && !Brings(e)) <==> !Idle(l)
  {
    if !Idle(l) {
      var e :| Enabled(l, e) && !e.Reuse?;
      assert e.PublicRead? ==> Enabled(l, PublicEnd);
      assert e.LocalRead? ==> Enabled(l, LocalEnd);
    }
  }

  /** From any state the connection can come to rest, in no more steps than it has work left. */
  lemma {:induction false} ReachesIdle(l: Link, fd: Fd) returns (es: seq<Event>, l': Link)
    ensures Leads(l, fd, es, l', fd, true) && Idle(l') && |es| <= Work(l)
    ensures forall i :: 0 <= i < |es| ==> !Brings(es[i])
    decreases Work(l)
  {
    if Idle(l) {
      es, l' := [], l;
    } else {
      MovesUntilIdle(l);
      var e :| Enabled(l, e) && !Brings(e);
      StepWork(l, e);
      es, l' := ReachesIdle(Step(l, e), fd);
      LeadsOn(l, fd, e, es, l', fd, true);
      es := [e] + es;
    }
  }

  /** 1 if the step of the system is one of this connection that brings it no work. */
  ghost function Moves(n: Net, e: NetEvent, id: Id): nat
    requires NetEnabled(n, e)
  {
    var view := ViewOf(n, e, id);
    if view.Sees? && !Brings(view.event) then 1 else 0
  }

  ghost function BroughtBy(n: Net, e: NetEvent, id: Id): nat
    requires NetEnabled(n, e)
  {
    var view := ViewOf(n, e, id);
    if view.Sees? then Brought(view.event) else 0
  }

  /** How many steps of `i` to `j` in a run are the connection's and bring it no work. */
  ghost function Steps(ns: seq<Net>, es: seq<NetEvent>, i: nat, j: nat, id: Id): nat
    requires IsRun(ns, es) && i <= j < |ns|
    decreases j
  {
    if i == j then 0 else Steps(ns, es, i, j - 1, id) + Moves(ns[j - 1], es[j - 1], id)
  }

  /** The work that the others bring. */
  ghost function BroughtIn(ns: seq<Net>, es: seq<NetEvent>, i: nat, j: nat, id: Id): nat
    requires IsRun(ns, es) && i <= j < |ns|
    decreases j
  {
    if i == j then 0 else BroughtIn(ns, es, i, j - 1, id) + BroughtBy(ns[j - 1], es[j - 1], id)
  }

  lemma RunStepWork(ns: seq<Net>, es: seq<NetEvent>, i: nat, id: Id)
    requires IsRun(ns, es) && i < |es| && id in ns[i].cores
    ensures id in ns[i + 1].cores
    ensures Moves(ns[i], es[i], id) + Work(LinkOf(ns[i + 1], id))
            <= Work(LinkOf(ns[i], id)) + BroughtBy(ns[i], es[i], id)
  {
    Follow(ns, es, i, id);
    var view := ViewOf(ns[i], es[i], id);
    if view.Sees? { StepWork(LinkOf(ns[i], id), view.event); }
  }

  /**
   In every run, from any point on: the steps a connection makes, and the work it then has left, are no
   more than the work it had and what new data and new sessions brought. Without those it comes to rest.
   */
  lemma {:induction false} WorkBounds(ns: seq<Net>, es: seq<NetEvent>, i: nat, j: nat, id: Id)
    requires IsRun(ns, es) && i <= j < |ns| && id in ns[i].cores
    ensures id in ns[j].cores
    ensures Steps(ns, es, i, j, id) + Work(LinkOf(ns[j], id))
            <= Work(LinkOf(ns[i], id)) + BroughtIn(ns, es, i, j, id)
    decreases j
  {
    if i < j {
      WorkBounds(ns, es, i, j - 1, id);
      RunStepWork(ns, es, j - 1, id);
    }
  }
}
