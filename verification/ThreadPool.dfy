/**
 spdlog's asynchronous thread pool: producers post, workers take, and the destructor posts one
 terminate message per worker and joins. Each step is one critical section of the queue's mutex, or
 one worker handling the message it holds.
 */
module ThreadPool {
  import opened OverrunQueue

  /** A log or flush message, told apart by a number, or the order to stop. */
  datatype Msg = Work(id: nat) | Terminate

  datatype Worker = Idle | Busy(msg: Msg) | Exited

  /** `taken`, `dropped` and `processed` record what happened; only `queue` and `workers` drive it. */
  datatype Pool = Pool(
    capacity: nat,
    queue: seq<Msg>,
    workers: seq<Worker>,
    terminates: nat,
    posted: seq<Msg>,
    taken: seq<Msg>,
    dropped: seq<Msg>,
    overrun: nat,
    processed: seq<Msg>)

  function NewPool(capacity: nat, threads: nat): Pool {
    Pool(capacity, [], seq(threads, _ => Idle), 0, [], [], [], 0, [])
  }

  datatype Event =
    | PostBlock(id: nat)
    | PostOverrun(id: nat)
    | PostTerminate
    | Take(w: nat)
    | Process(w: nat)

  /** Producers post before the destructor runs; a blocking post waits until the queue is not full. */
  ghost predicate Enabled(p: Pool, e: Event) {
    match e
    case PostBlock(_) => p.terminates == 0 && |p.queue| < p.capacity
    case PostOverrun(_) => p.terminates == 0
    case PostTerminate => p.terminates < |p.workers| && |p.queue| < p.capacity
    case Take(w) => w < |p.workers| && p.workers[w].Idle? && p.queue != []
    case Process(w) => w < |p.workers| && p.workers[w].Busy?
  }

  /** `circular_q::push_back` on the pool's queue. */
  function Push(p: Pool, m: Msg): Pool
    requires |p.queue| <= p.capacity
  {
    var full := |p.queue| == p.capacity;
    p.(queue := Pushed(p.queue, p.capacity, m), posted := p.posted + [m],
       overrun := p.overrun + (if full then 1 else 0),
       dropped := p.dropped + (if full then [(p.queue + [m])[0]] else []))
  }

  ghost function Step(p: Pool, e: Event): Pool
    requires Enabled(p, e) && |p.queue| <= p.capacity
  {
    match e
    case PostBlock(id) => Push(p, Work(id))
    case PostOverrun(id) => Push(p, Work(id))
    case PostTerminate => Push(p, Terminate).(terminates := p.terminates + 1)
    case Take(w) =>
      p.(queue := p.queue[1..], taken := p.taken + [p.queue[0]], workers := p.workers[w := Busy(p.queue[0])])
    case Process(w) =>
      if p.workers[w].msg.Terminate? then p.(workers := p.workers[w := Exited])
      else p.(processed := p.processed + [p.workers[w].msg], workers := p.workers[w := Idle])
  }

  // ---------- the invariant ----------

  /** How many copies of `m` a worker has in hand; an exited one keeps the order that stopped it. */
  function Holds(w: Worker, m: Msg): nat {
    match w
    case Idle => 0
    case Busy(m') => if m' == m then 1 else 0
    case Exited => if m.Terminate? then 1 else 0
  }

  function Held(ws: seq<Worker>, m: Msg): nat {
    if ws == [] then 0 else Held(ws[..|ws| - 1], m) + Holds(ws[|ws| - 1], m)
  }

  lemma {:induction false} HeldUpdate(ws: seq<Worker>, w: nat, x: Worker, m: Msg)
    requires w < |ws|
    ensures Held(ws[w := x], m) + Holds(ws[w], m) == Held(ws, m) + Holds(x, m)
  {
    var n := |ws| - 1;
    if w == n {
      assert ws[w := x][..n] == ws[..n];
    } else {
      HeldUpdate(ws[..n], w, x, m);
      assert ws[w := x][..n] == ws[..n][w := x];
    }
  }

  lemma {:induction false} HeldIdle(ws: seq<Worker>, m: Msg)
    requires forall w :: 0 <= w < |ws| ==> ws[w].Idle?
    ensures Held(ws, m) == 0
  {
    if ws != [] { HeldIdle(ws[..|ws| - 1], m); }
  }

  /** The last `terminates` messages posted are the orders to stop, and no others are. */
  ghost predicate Ended(posted: seq<Msg>, terminates: nat) {
    && terminates <= |posted|
    && (forall i :: 0 <= i < |posted| ==> (posted[i].Terminate? <==> i >= |posted| - terminates))
  }

  ghost predicate Shape(p: Pool) {
    && |p.queue| <= p.capacity
    && |p.queue| <= |p.posted| && p.queue == p.posted[|p.posted| - |p.queue|..]
    && |p.dropped| == p.overrun
    && p.terminates <= |p.workers| && Ended(p.posted, p.terminates)
    && |p.posted| == |p.taken| + p.overrun + |p.queue|
  }

  ghost predicate Balance(p: Pool, m: Msg) {
    && multiset(p.posted)[m] == multiset(p.taken)[m] + multiset(p.dropped)[m] + multiset(p.queue)[m]
    && multiset(p.taken)[m] == multiset(p.processed)[m] + Held(p.workers, m)
  }

  ghost predicate Inv(p: Pool) {
    && Shape(p) && (forall m :: Balance(p, m))
    && Terminate !in p.dropped && Terminate !in p.processed
  }

  lemma CountAppend(s: seq<Msg>, x: Msg, m: Msg)
    ensures multiset(s + [x])[m] == multiset(s)[m] + if x == m then 1 else 0
  {
    assert multiset(s + [x]) == multiset(s) + multiset{x};
  }

  lemma CountFirst(s: seq<Msg>, m: Msg)
    requires s != []
    ensures multiset(s)[m] == multiset(s[1..])[m] + if s[0] == m then 1 else 0
  {
    assert s == [s[0]] + s[1..];
    assert multiset(s) == multiset{s[0]} + multiset(s[1..]);
  }

  lemma PushShape(p: Pool, m: Msg, terminates: nat)
    requires Shape(p) && Enabled(p, if m.Terminate? then PostTerminate else PostOverrun(m.id))
    requires terminates == p.terminates + if m.Terminate? then 1 else 0
    ensures Shape(Push(p, m).(terminates := terminates))
  {
  }

  lemma PushBalance(p: Pool, x: Msg, m: Msg)
    requires |p.queue| <= p.capacity && Balance(p, m)
    ensures Balance(Push(p, x), m)
  {
    CountAppend(p.posted, x, m);
    CountAppend(p.queue, x, m);
    if |p.queue| == p.capacity {
      CountFirst(p.queue + [x], m);
      CountAppend(p.dropped, (p.queue + [x])[0], m);
    }
  }

  lemma PushInv(p: Pool, x: Msg, terminates: nat)
    requires Inv(p) && Enabled(p, if x.Terminate? then PostTerminate else PostOverrun(x.id))
    requires terminates == p.terminates + if x.Terminate? then 1 else 0
    ensures Inv(Push(p, x).(terminates := terminates))
  {
    PushShape(p, x, terminates);
    forall m ensures Balance(Push(p, x).(terminates := terminates), m) {
      PushBalance(p, x, m);
    }
    if |p.queue| == p.capacity { assert (p.queue + [x])[0].Work?; }
  }

  lemma WorkInv(p: Pool, id: nat)
    requires Inv(p) && p.terminates == 0
    ensures Inv(Push(p, Work(id)))
  {
    PushInv(p, Work(id), p.terminates);
    assert Push(p, Work(id)).(terminates := p.terminates) == Push(p, Work(id));
  }

  lemma TakeInv(p: Pool, w: nat)
    requires Inv(p) && Enabled(p, Take(w))
    ensures Inv(Step(p, Take(w)))
  {
    forall m ensures Balance(Step(p, Take(w)), m) {
      assert Balance(p, m);
      HeldUpdate(p.workers, w, Busy(p.queue[0]), m);
      CountFirst(p.queue, m);
      CountAppend(p.taken, p.queue[0], m);
    }
  }

  lemma ProcessInv(p: Pool, w: nat)
    requires Inv(p) && Enabled(p, Process(w))
    ensures Inv(Step(p, Process(w)))
  {
    var msg := p.workers[w].msg;
    forall m ensures Balance(Step(p, Process(w)), m) {
      assert Balance(p, m);
      HeldUpdate(p.workers, w, if msg.Terminate? then Exited else Idle, m);
      CountAppend(p.processed, msg, m);
    }
  }

  lemma StepInv(p: Pool, e: Event)
    requires Inv(p) && Enabled(p, e)
    ensures Inv(Step(p, e))
  {
    match e
    case PostBlock(id) => WorkInv(p, id);
    case PostOverrun(id) => WorkInv(p, id);
    case PostTerminate => PushInv(p, Terminate, p.terminates + 1);
    case Take(w) => TakeInv(p, w);
    case Process(w) => ProcessInv(p, w);
  }

  lemma NewInv(p: Pool, capacity: nat, threads: nat)
    requires p == NewPool(capacity, threads)
    ensures Inv(p)
  {
    forall m ensures Balance(p, m) {
      HeldIdle(p.workers, m);
    }
  }

  // ---------- runs ----------

  ghost predicate IsRun(ps: seq<Pool>, es: seq<Event>, capacity: nat, threads: nat) {
    && |ps| == |es| + 1 && ps[0] == NewPool(capacity, threads)
    && forall i :: 0 <= i < |es| ==>
         Enabled(ps[i], es[i]) && |ps[i].queue| <= ps[i].capacity && ps[i + 1] == Step(ps[i], es[i])
  }

  lemma {:induction false} RunInv(ps: seq<Pool>, es: seq<Event>, capacity: nat, threads: nat, i: nat)
    requires IsRun(ps, es, capacity, threads) && i < |ps|
    ensures Inv(ps[i]) && |ps[i].workers| == threads && ps[i].capacity == capacity
  {
    if i == 0 {
      NewInv(ps[0], capacity, threads);
    } else {
      RunInv(ps, es, capacity, threads, i - 1);
      StepInv(ps[i - 1], es[i - 1]);
    }
  }

  /** At any time every posted message was taken, overrun, or is still queued, as often as it was posted. */
  lemma Conservation(ps: seq<Pool>, es: seq<Event>, capacity: nat, threads: nat, i: nat)
    requires IsRun(ps, es, capacity, threads) && i < |ps|
    ensures var p := ps[i];
      && |p.posted| == |p.taken| + p.overrun + |p.queue|
      && multiset(p.posted) == multiset(p.taken) + multiset(p.dropped) + multiset(p.queue)
  {
    RunInv(ps, es, capacity, threads, i);
    var p := ps[i];
    forall m ensures multiset(p.posted)[m] == (multiset(p.taken) + multiset(p.dropped) + multiset(p.queue))[m] {
      assert Balance(p, m);
    }
  }

  /** The message that a step posts, if it posts one. */
  function PostedBy(e: Event): seq<Msg> {
    match e
    case PostBlock(id) => [Work(id)]
    case PostOverrun(id) => [Work(id)]
    case PostTerminate => [Terminate]
    case _ => []
  }

  /**
   What each step does to the queue: a message goes to its end, and if it was full the oldest one is
   overrun, which only a post that does not wait can do; a worker takes the oldest. So the queue always
   holds the messages posted last.
   */
  lemma QueueKeepsNewest(ps: seq<Pool>, es: seq<Event>, capacity: nat, threads: nat, i: nat)
    requires IsRun(ps, es, capacity, threads) && i < |es| && capacity > 0
    ensures var p, p', x := ps[i], ps[i + 1], PostedBy(es[i]);
      && |p.queue| <= capacity && |p.queue| <= |p.posted| && p.queue == p.posted[|p.posted| - |p.queue|..]
      && p'.posted == p.posted + x
      && (x != [] && |p.queue| < capacity ==> p'.queue == p.queue + x && p'.overrun == p.overrun)
      && (x != [] && |p.queue| == capacity ==>
            es[i].PostOverrun? && p'.queue == p.queue[1..] + x && p'.overrun == p.overrun + 1)
      && (es[i].Take? ==> p.queue != [] && p'.queue == p.queue[1..] && p'.taken == p.taken + [p.queue[0]])
      && (es[i].Process? ==> p'.queue == p.queue)
      && (!es[i].Take? ==> p'.taken == p.taken)
  {
    RunInv(ps, es, capacity, threads, i);
    if |ps[i].queue| == capacity && PostedBy(es[i]) != [] {
      assert (ps[i].queue + PostedBy(es[i]))[1..] == ps[i].queue[1..] + PostedBy(es[i]);
    }
  }

  ghost predicate Blocking(es: seq<Event>) {
    forall i :: 0 <= i < |es| ==> !es[i].PostOverrun?
  }

  lemma FifoStep(p: Pool, e: Event)
    requires Enabled(p, e) && !e.PostOverrun? && |p.queue| <= p.capacity
    requires p.taken + p.queue == p.posted
    ensures Step(p, e).taken + Step(p, e).queue == Step(p, e).posted
    ensures Step(p, e).overrun == p.overrun && Step(p, e).dropped == p.dropped
  {
    match e
    case Take(_) => assert p.taken + p.queue == (p.taken + [p.queue[0]]) + p.queue[1..];
    case PostBlock(id) => assert (p.taken + p.queue) + [Work(id)] == p.taken + (p.queue + [Work(id)]);
    case PostTerminate => assert (p.taken + p.queue) + [Terminate] == p.taken + (p.queue + [Terminate]);
    case Process(_) =>
  }

  /** Under the block policy nothing is dropped, and messages are taken in the order they were posted. */
  lemma {:induction false} BlockingIsFifo(ps: seq<Pool>, es: seq<Event>, capacity: nat, threads: nat, i: nat)
    requires IsRun(ps, es, capacity, threads) && Blocking(es) && i < |ps|
    ensures ps[i].overrun == 0 && ps[i].dropped == [] && ps[i].taken + ps[i].queue == ps[i].posted
  {
    if i > 0 {
      BlockingIsFifo(ps, es, capacity, threads, i - 1);
      FifoStep(ps[i - 1], es[i - 1]);
    }
  }

  /** The destructor's joins have all returned. */
  ghost predicate Joined(p: Pool) {
    p.terminates == |p.workers| && forall w :: 0 <= w < |p.workers| ==> p.workers[w].Exited?
  }

  lemma {:induction false} HeldExited(ws: seq<Worker>, m: Msg)
    requires forall w :: 0 <= w < |ws| ==> ws[w].Exited?
    ensures Held(ws, m) == if m.Terminate? then |ws| else 0
  {
    if ws != [] { HeldExited(ws[..|ws| - 1], m); }
  }

  /** The messages posted before the destructor began. */
  function Earlier(p: Pool): seq<Msg> {
    if p.terminates <= |p.posted| then p.posted[..|p.posted| - p.terminates] else []
  }

  lemma {:induction false} CountPosted(s: seq<Msg>, k: nat, m: Msg)
    requires k <= |s| && forall i :: 0 <= i < |s| ==> (s[i].Terminate? <==> i >= k)
    ensures multiset(s)[m] == if m.Terminate? then |s| - k else multiset(s[..k])[m]
    decreases |s|
  {
    if |s| == k {
      assert s[..k] == s;
      assert m.Terminate? ==> m !in s;
    } else {
      var front := s[..|s| - 1];
      CountPosted(front, k, m);
      CountAppend(front, s[|s| - 1], m);
      assert front + [s[|s| - 1]] == s && front[..k] == s[..k];
    }
  }

  /**
   Once the joins return, the queue is empty, exactly one terminate message per worker was taken, and
   every message posted before the destructor was processed exactly once or overrun.
   */
  lemma ShutdownProcessesAll(ps: seq<Pool>, es: seq<Event>, capacity: nat, threads: nat, i: nat)
    requires IsRun(ps, es, capacity, threads) && i < |ps| && threads > 0 && Joined(ps[i])
    ensures var p := ps[i];
      && p.queue == [] && multiset(p.taken)[Terminate] == threads && Terminate !in Earlier(p)
      && multiset(Earlier(p)) == multiset(p.processed) + multiset(p.dropped)
      && |Earlier(p)| == |p.processed| + p.overrun
  {
    RunInv(ps, es, capacity, threads, i);
    JoinedEmpty(ps[i]);
    JoinedProcessed(ps[i]);
  }

  lemma JoinedEmpty(p: Pool)
    requires Inv(p) && Joined(p) && p.workers != []
    ensures p.queue == [] && multiset(p.taken)[Terminate] == |p.workers|
  {
    HeldExited(p.workers, Terminate);
    CountPosted(p.posted, |p.posted| - p.terminates, Terminate);
    assert Balance(p, Terminate);
    if p.queue != [] { QueueEndsWithOrder(p); }
  }

  lemma QueueEndsWithOrder(p: Pool)
    requires Shape(p) && p.terminates > 0 && p.queue != []
    ensures multiset(p.queue)[Terminate] > 0
  {
    assert p.queue[|p.queue| - 1] in p.queue;
  }

  lemma JoinedProcessed(p: Pool)
    requires Inv(p) && Joined(p) && p.queue == []
    ensures Terminate !in Earlier(p)
    ensures multiset(Earlier(p)) == multiset(p.processed) + multiset(p.dropped)
    ensures |Earlier(p)| == |p.processed| + p.overrun
  {
    var all := multiset(p.processed) + multiset(p.dropped);
    forall m ensures multiset(Earlier(p))[m] == all[m] {
      assert Balance(p, m);
      HeldExited(p.workers, m);
      CountPosted(p.posted, |p.posted| - p.terminates, m);
    }
    assert multiset(Earlier(p)) == all;
    assert |multiset(Earlier(p))| == |all|;
  }

  /** Under the block policy the two together: all of them, each once, and none lost. */
  lemma BlockingShutdown(ps: seq<Pool>, es: seq<Event>, capacity: nat, threads: nat, i: nat)
    requires IsRun(ps, es, capacity, threads) && Blocking(es) && i < |ps| && threads > 0 && Joined(ps[i])
    ensures ps[i].taken == ps[i].posted && multiset(ps[i].processed) == multiset(Earlier(ps[i]))
  {
    BlockingIsFifo(ps, es, capacity, threads, i);
    ShutdownProcessesAll(ps, es, capacity, threads, i);
    assert ps[i].taken + [] == ps[i].taken;
  }

  // ---------- the destructor returns ----------

  function Busies(ws: seq<Worker>): nat {
    if ws == [] then 0 else Busies(ws[..|ws| - 1]) + if ws[|ws| - 1].Busy? then 1 else 0
  }

  lemma {:induction false} BusyUpdate(ws: seq<Worker>, w: nat, x: Worker)
    requires w < |ws|
    ensures Busies(ws[w := x]) + (if ws[w].Busy? then 1 else 0) == Busies(ws) + if x.Busy? then 1 else 0
  {
    var n := |ws| - 1;
    if w == n {
      assert ws[w := x][..n] == ws[..n];
    } else {
      BusyUpdate(ws[..n], w, x);
      assert ws[w := x][..n] == ws[..n][w := x];
    }
  }

  /** The steps that the destructor's work can still take. */
  function Remaining(p: Pool): int {
    3 * (|p.workers| - p.terminates) + 2 * |p.queue| + Busies(p.workers)
  }

  predicate Posts(e: Event) {
    e.PostBlock? || e.PostOverrun?
  }

  lemma StepRemaining(p: Pool, e: Event)
    requires Inv(p) && Enabled(p, e) && !Posts(e)
    ensures 0 <= Remaining(Step(p, e)) < Remaining(p)
  {
    StepInv(p, e);
    match e
    case PostTerminate =>
    case Take(w) => BusyUpdate(p.workers, w, Busy(p.queue[0]));
    case Process(w) => BusyUpdate(p.workers, w, if p.workers[w].msg.Terminate? then Exited else Idle);
  }

  /** While no worker is busy, the orders taken are those that made workers exit. */
  lemma {:induction false} HeldByExited(ws: seq<Worker>)
    requires forall w :: 0 <= w < |ws| ==> !ws[w].Busy?
    ensures Held(ws, Terminate) <= |ws|
    ensures (forall w :: 0 <= w < |ws| ==> ws[w].Exited?) <==> Held(ws, Terminate) == |ws|
  {
    if ws != [] {
      var front := ws[..|ws| - 1];
      HeldByExited(front);
      assert forall w :: 0 <= w < |front| ==> front[w] == ws[w];
    }
  }

  lemma OrdersPosted(p: Pool)
    requires Inv(p)
    ensures p.terminates == Held(p.workers, Terminate) + multiset(p.queue)[Terminate]
  {
    CountPosted(p.posted, |p.posted| - p.terminates, Terminate);
    assert Balance(p, Terminate);
  }

  lemma SomethingToDo(p: Pool)
    requires Inv(p) && p.capacity > 0 && p.workers != [] && !Joined(p)
    requires forall w :: 0 <= w < |p.workers| ==> !p.workers[w].Busy?
    requires p.terminates == |p.workers| || |p.queue| == p.capacity
    ensures p.queue != [] && exists w :: 0 <= w < |p.workers| && p.workers[w].Idle?
  {
    OrdersPosted(p);
    HeldByExited(p.workers);
    if p.queue == [] { assert false; }
    assert !forall w :: 0 <= w < |p.workers| ==> p.workers[w].Exited?;
    var w :| 0 <= w < |p.workers| && !p.workers[w].Exited?;
    assert p.workers[w].Idle?;
  }

  /** With no message posted any more, some step is possible exactly until the destructor's joins can return. */
  lemma MovesUntilJoined(p: Pool)
    requires Inv(p) && p.capacity > 0 && p.workers != []
    ensures (exists e :: Enabled(p, e) && !Posts(e)) <==> !Joined(p)
  {
    if Joined(p) {
      JoinedEmpty(p);
      forall e ensures Posts(e) || !Enabled(p, e) {}
    } else if w :| 0 <= w < |p.workers| && p.workers[w].Busy? {
      assert Enabled(p, Process(w));
    } else if p.terminates < |p.workers| && |p.queue| < p.capacity {
      assert Enabled(p, PostTerminate);
    } else {
      SomethingToDo(p);
      var w :| 0 <= w < |p.workers| && p.workers[w].Idle?;
      assert Enabled(p, Take(w));
    }
  }

  /** Nobody posts once the first terminate message was posted. */
  lemma {:induction false} PostingIsOver(
      ps: seq<Pool>, es: seq<Event>, capacity: nat, threads: nat, i: nat, k: nat)
    requires IsRun(ps, es, capacity, threads) && i <= k < |es| && ps[i].terminates > 0
    ensures ps[k].terminates > 0 && !Posts(es[k])
    decreases k
  {
    if i < k { PostingIsOver(ps, es, capacity, threads, i, k - 1); }
  }

  /**
   Once nobody but the destructor posts, a bounded number of steps is left, in whatever order they
   come, and they run out exactly when every worker has exited.
   */
  lemma {:induction false} DestructorReturns(
      ps: seq<Pool>, es: seq<Event>, capacity: nat, threads: nat, i: nat)
    requires IsRun(ps, es, capacity, threads) && i < |ps| && capacity > 0 && threads > 0
    requires forall k :: i <= k < |es| ==> !Posts(es[k])
    ensures |es| - i <= Remaining(ps[i])
    ensures (exists e :: Enabled(ps[|es|], e) && !Posts(e)) <==> !Joined(ps[|es|])
    decreases |ps| - i
  {
    RunInv(ps, es, capacity, threads, i);
    if i == |es| {
      MovesUntilJoined(ps[i]);
    } else {
      StepRemaining(ps[i], es[i]);
      DestructorReturns(ps, es, capacity, threads, i + 1);
    }
  }
}
