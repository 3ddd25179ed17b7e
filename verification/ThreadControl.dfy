/**
 The semaphore of Server/ThreadSemaphore.hpp, used by any number of threads: each step is what one
 thread does while it holds the semaphore's mutex.
 */
module Semaphore {
  import opened Numbers

  type Tid = nat

  /**
   `wait` and `wakeup` are the two counters. A thread inside `_cv.wait` is asleep, or awake and about
   to test the predicate again. The last three fields count calls and are read by no step.
   */
  datatype Sem = Sem(
    wait: int,
    wakeup: int,
    asleep: set<Tid>,
    awake: set<Tid>,
    entered: nat,
    returned: nat,
    wakeups: nat)

  const NEW_SEM := Sem(0, 0, {}, {}, 0, 0, 0)

  datatype Event = Wait(t: Tid) | Wakeup(chosen: Tid) | Test(t: Tid) | Spurious(t: Tid)

  /** `notify_one` picks any sleeping thread, if there is one. */
  ghost predicate Enabled(s: Sem, e: Event) {
    match e
    case Wait(t) => t !in s.asleep && t !in s.awake
    case Wakeup(chosen) => s.asleep == {} || chosen in s.asleep
    case Test(t) => t in s.awake
    case Spurious(t) => t in s.asleep
  }

  function Step(s: Sem, e: Event): Sem {
    match e
    case Wait(t) =>
      var s1 := s.(wait := s.wait - 1, entered := s.entered + 1);
      if s1.wait >= 0 then s1.(returned := s1.returned + 1)
      else if s1.wakeup > 0 then s1.(wakeup := s1.wakeup - 1, returned := s1.returned + 1)
      else s1.(asleep := s1.asleep + {t})
    case Wakeup(chosen) =>
      var s1 := s.(wait := s.wait + 1, wakeups := s.wakeups + 1);
      if s1.wait > 0 then s1
      else if s1.asleep == {} then s1.(wakeup := s1.wakeup + 1)
      else s1.(wakeup := s1.wakeup + 1, asleep := s1.asleep - {chosen}, awake := s1.awake + {chosen})
    case Test(t) =>
      if s.wakeup > 0 then s.(wakeup := s.wakeup - 1, awake := s.awake - {t}, returned := s.returned + 1)
      else s.(awake := s.awake - {t}, asleep := s.asleep + {t})
    case Spurious(t) => s.(asleep := s.asleep - {t}, awake := s.awake + {t})
  }

  function Blocked(s: Sem): nat {
    |s.asleep| + |s.awake|
  }

  ghost predicate Inv(s: Sem) {
    && s.asleep !! s.awake
    && s.wait == s.wakeups - s.entered
    && s.entered == s.returned + Blocked(s)
    && s.wakeup >= 0 && Blocked(s) == Max(0, -s.wait) + s.wakeup
    && |s.awake| >= s.wakeup
  }

  lemma StepInv(s: Sem, e: Event)
    requires Inv(s) && Enabled(s, e)
    ensures Inv(Step(s, e))
  {
  }

  ghost predicate IsRun(ss: seq<Sem>, es: seq<Event>) {
    && |ss| == |es| + 1 && ss[0] == NEW_SEM
    && forall i :: 0 <= i < |es| ==> Enabled(ss[i], es[i]) && ss[i + 1] == Step(ss[i], es[i])
  }

  lemma {:induction false} RunInv(ss: seq<Sem>, es: seq<Event>, i: nat)
    requires IsRun(ss, es) && i < |ss|
    ensures Inv(ss[i])
  {
    if i > 0 {
      RunInv(ss, es, i - 1);
      StepInv(ss[i - 1], es[i - 1]);
    }
  }

  /**
   In every interleaving: as many waits have returned as wakeups allow, less those still on offer, and
   whenever one is on offer some thread is awake to take it.
   */
  lemma NoWakeupLost(ss: seq<Sem>, es: seq<Event>, i: nat)
    requires IsRun(ss, es) && i < |ss|
    ensures var s := ss[i];
      && s.returned + s.wakeup == Min(s.entered, s.wakeups)
      && Blocked(s) == Max(0, -s.wait) + s.wakeup
      && (s.wakeup > 0 ==> exists t :: Enabled(s, Test(t)) && Step(s, Test(t)).returned == s.returned + 1)
  {
    RunInv(ss, es, i);
    if ss[i].wakeup > 0 {
      assert ss[i].awake != {};
      var t :| t in ss[i].awake;
      assert Enabled(ss[i], Test(t));
    }
  }
}

/**
 `ThreadControl`: `Close` lowers the flag and waits, still holding the mutex, for the thread's last
 act, a `wakeup`.
 */
module ThreadControl {
  import opened Semaphore

  datatype Worker = Working | Finished | Signalled

  /** Who holds `_mutex`, if it is held across steps: a `Close` on its way into, or inside, `wait`. */
  datatype Closer = Nobody | Entering(t: Tid) | Waiting(t: Tid)

  datatype Control = Control(isRun: bool, workers: map<nat, Worker>, closer: Closer, sem: Sem)

  const NEW_CONTROL := Control(false, map[], Nobody, NEW_SEM)

  datatype Action =
    | Start(worker: nat)
    | Close(t: Tid)
    | EnterWait
    | TestAgain
    | WakeSpuriously
    | Finish(worker: nat)
    | Signal(worker: nat, chosen: Tid)
    | Exit

  ghost predicate CanDo(c: Control, a: Action) {
    match a
    case Start(w) => c.closer.Nobody? && w !in c.workers
    case Close(_) => c.closer.Nobody?
    case EnterWait => c.closer.Entering? && Enabled(c.sem, Wait(c.closer.t))
    case TestAgain => c.closer.Waiting? && Enabled(c.sem, Test(c.closer.t))
    case WakeSpuriously => c.closer.Waiting? && Enabled(c.sem, Spurious(c.closer.t))
    case Finish(w) => w in c.workers && c.workers[w].Working?
    case Signal(w, chosen) => w in c.workers && c.workers[w].Finished? && Enabled(c.sem, Wakeup(chosen))
    case Exit => c.closer.Nobody?
  }

  /** The mutex is released when the wait of `Close` returns. */
  function AfterWait(c: Control, t: Tid, sem: Sem): Control {
    c.(sem := sem, closer := if sem.returned > c.sem.returned then Nobody else Waiting(t))
  }

  ghost function Do(c: Control, a: Action): Control
    requires CanDo(c, a)
  {
    match a
    case Start(w) => if c.isRun then c else c.(isRun := true, workers := c.workers[w := Working])
    case Close(t) => if c.isRun then c.(isRun := false, closer := Entering(t)) else c
    case EnterWait => AfterWait(c, c.closer.t, Step(c.sem, Wait(c.closer.t)))
    case TestAgain => AfterWait(c, c.closer.t, Step(c.sem, Test(c.closer.t)))
    case WakeSpuriously => c.(sem := Step(c.sem, Spurious(c.closer.t)))
    case Finish(w) => c.(workers := c.workers[w := Finished])
    case Signal(w, chosen) => c.(workers := c.workers[w := Signalled], sem := Step(c.sem, Wakeup(chosen)))
    case Exit => c.(isRun := false)
  }

  ghost function Done(c: Control): set<nat> {
    set w | w in c.workers && c.workers[w].Signalled?
  }

  /** 1 if some thread was started that no `Close` has begun to wait for. */
  function Unawaited(c: Control): nat {
    match c.closer
    case Nobody => if c.isRun then 1 else 0
    case Entering(_) => 1
    case Waiting(_) => 0
  }

  function Inside(c: Control): set<Tid> {
    match c.closer
    case Waiting(t) => {t}
    case _ => {}
  }

  /**
   Every thread started is still running, being closed, matched by one entered wait, or one of the
   `exits` that an `Exit` let go.
   */
  ghost predicate ControlInv(c: Control, exits: nat) {
    && Inv(c.sem)
    && (!c.closer.Nobody? ==> !c.isRun)
    && |c.workers| == c.sem.entered + Unawaited(c) + exits
    && c.sem.asleep + c.sem.awake == Inside(c)
    && c.sem.wakeups == |Done(c)|
  }

  lemma StartInv(c: Control)
    requires !c.isRun && |c.workers| == 0 && |Done(c)| == 0 && c.closer.Nobody? && c.sem == NEW_SEM
    ensures ControlInv(c, 0)
  {
    assert |c.workers| == c.sem.entered + Unawaited(c);
    assert c.sem.asleep + c.sem.awake == Inside(c);
  }

  lemma NobodyDone(c: Control)
    requires c.workers == map[]
    ensures |Done(c)| == 0 && |c.workers| == 0
  {
  }

  lemma FreshInv(c: Control)
    requires c == NEW_CONTROL
    ensures ControlInv(c, 0)
  {
    NobodyDone(c);
    StartInv(c);
  }

  /** An `Exit` counts if it finds the flag up. */
  function Lowers(c: Control, a: Action): nat {
    if a.Exit? && c.isRun then 1 else 0
  }

  lemma DoInv(c: Control, a: Action, exits: nat)
    requires ControlInv(c, exits) && CanDo(c, a)
    ensures ControlInv(Do(c, a), exits + Lowers(c, a))
  {
    match a
    case Start(w) => if !c.isRun { assert Done(Do(c, a)) == Done(c); }
    case Close(_) =>
    case EnterWait => WaitInv(c, Wait(c.closer.t), exits);
    case TestAgain => WaitInv(c, Test(c.closer.t), exits);
    case WakeSpuriously => StepInv(c.sem, Spurious(c.closer.t));
    case Finish(w) => FinishInv(c, w, exits);
    case Signal(w, chosen) => SignalInv(c, w, chosen, exits);
    case Exit =>
  }

  /** The steps of the one thread inside `Close`. */
  lemma WaitInv(c: Control, e: Event, exits: nat)
    requires ControlInv(c, exits)
    requires if c.closer.Entering? then e == Wait(c.closer.t) else c.closer.Waiting? && e == Test(c.closer.t)
    requires Enabled(c.sem, e)
    ensures ControlInv(AfterWait(c, c.closer.t, Step(c.sem, e)), exits)
  {
    StepInv(c.sem, e);
    if c.closer.Entering? {
      assert c.sem.asleep == {} && c.sem.awake == {};
    } else {
      assert c.sem.asleep == {} && c.sem.awake == {c.closer.t};
    }
  }

  lemma FinishInv(c: Control, w: nat, exits: nat)
    requires ControlInv(c, exits) && CanDo(c, Finish(w))
    ensures ControlInv(Do(c, Finish(w)), exits)
  {
    var c' := Do(c, Finish(w));
    assert Done(c') == Done(c);
    assert c'.workers.Keys == c.workers.Keys;
  }

  lemma SignalInv(c: Control, w: nat, chosen: Tid, exits: nat)
    requires ControlInv(c, exits) && CanDo(c, Signal(w, chosen))
    ensures ControlInv(Do(c, Signal(w, chosen)), exits)
  {
    var c' := Do(c, Signal(w, chosen));
    StepInv(c.sem, Wakeup(chosen));
    WakeupKeeps(c.sem, chosen);
    assert c'.workers.Keys == c.workers.Keys;
    assert w !in Done(c) && Done(c') == Done(c) + {w};
  }

  lemma WakeupKeeps(s: Sem, chosen: Tid)
    requires Enabled(s, Wakeup(chosen))
    ensures var s' := Step(s, Wakeup(chosen));
      s'.entered == s.entered && s'.returned == s.returned && s'.wakeups == s.wakeups + 1
      && s'.asleep + s'.awake == s.asleep + s.awake
  {
  }

  ghost predicate IsPath(cs: seq<Control>, acts: seq<Action>) {
    && |cs| == |acts| + 1
    && forall i :: 0 <= i < |acts| ==> CanDo(cs[i], acts[i]) && cs[i + 1] == Do(cs[i], acts[i])
  }

  ghost predicate IsHistory(cs: seq<Control>, acts: seq<Action>) {
    IsPath(cs, acts) && cs[0] == NEW_CONTROL
  }

  ghost predicate WithoutExit(acts: seq<Action>) {
    forall i :: 0 <= i < |acts| ==> !acts[i].Exit?
  }

  /** How many of the first `i` actions were an `Exit` that lowered the flag. */
  function Exits(cs: seq<Control>, acts: seq<Action>, i: nat): nat
    requires i <= |acts| <= |cs|
  {
    if i == 0 then 0 else Exits(cs, acts, i - 1) + Lowers(cs[i - 1], acts[i - 1])
  }

  lemma {:induction false} PathInv(cs: seq<Control>, acts: seq<Action>, exits: nat, i: nat)
    requires IsPath(cs, acts) && ControlInv(cs[0], exits) && i < |cs|
    ensures ControlInv(cs[i], exits + Exits(cs, acts, i))
  {
    if i > 0 {
      PathInv(cs, acts, exits, i - 1);
      DoInv(cs[i - 1], acts[i - 1], exits + Exits(cs, acts, i - 1));
    }
  }

  lemma FromFresh(cs: seq<Control>, acts: seq<Action>, i: nat)
    requires IsPath(cs, acts) && ControlInv(cs[0], 0) && i < |cs|
    ensures ControlInv(cs[i], Exits(cs, acts, i))
  {
    PathInv(cs, acts, 0, i);
  }

  lemma HistoryInv(cs: seq<Control>, acts: seq<Action>, i: nat)
    requires IsHistory(cs, acts) && i < |cs|
    ensures ControlInv(cs[i], Exits(cs, acts, i))
  {
    var c := cs[0];
    assert ControlInv(c, 0) by { FreshInv(c); }
    FromFresh(cs, acts, i);
  }

  lemma {:induction false} NoExits(cs: seq<Control>, acts: seq<Action>, i: nat)
    requires i <= |acts| <= |cs| && WithoutExit(acts)
    ensures Exits(cs, acts, i) == 0
  {
    if i > 0 { NoExits(cs, acts, i - 1); }
  }

  /** This step is the return of a `Close` that found the flag up. */
  ghost predicate Returns(c: Control, c': Control) {
    !c.closer.Nobody? && c'.closer.Nobody?
  }

  ghost predicate AllSignalled(c: Control) {
    forall w :: w in c.workers ==> c.workers[w].Signalled?
  }

  lemma SubsetOfSameSize<T>(a: set<T>, b: set<T>)
    requires a <= b && |a| >= |b|
    ensures a == b
  {
    assert b == a + (b - a);
    assert |b| == |a| + |b - a|;
  }

  /** At rest, the wakeups left over are those of threads that ended; all have if there is one for each exit. */
  lemma FinishedByCount(c: Control, exits: nat)
    requires ControlInv(c, exits) && c.closer.Nobody? && !c.isRun
    ensures 0 <= c.sem.wait <= exits
    ensures AllSignalled(c) <==> c.sem.wait == exits
  {
    assert Blocked(c.sem) == 0 by { assert c.sem.asleep == {} && c.sem.awake == {}; }
    assert Done(c) <= c.workers.Keys;
    SmallerSubset(Done(c), c.workers.Keys);
    if AllSignalled(c) { assert Done(c) == c.workers.Keys; }
    if |Done(c)| == |c.workers.Keys| { assert forall w :: w in c.workers ==> w in Done(c); }
  }

  lemma SmallerSubset<T>(a: set<T>, b: set<T>)
    requires a <= b
    ensures |a| <= |b| && (|a| == |b| ==> a == b)
  {
    if |a| >= |b| { SubsetOfSameSize(a, b); }
    assert b == a + (b - a);
  }

  /** A `Close` that waited returns after all threads ended, exactly if every `Exit` has its wakeup left. */
  lemma ReturnsInOrderExactly(cs: seq<Control>, acts: seq<Action>, i: nat)
    requires IsHistory(cs, acts) && i < |acts| && Returns(cs[i], cs[i + 1])
    ensures cs[i + 1].sem.wait <= Exits(cs, acts, i + 1)
    ensures AllSignalled(cs[i + 1]) <==> cs[i + 1].sem.wait == Exits(cs, acts, i + 1)
  {
    HistoryInv(cs, acts, i);
    HistoryInv(cs, acts, i + 1);
    FinishedByCount(cs[i + 1], Exits(cs, acts, i + 1));
  }

  /** From here on, without a further `Exit`, every `Close` that waits returns after all threads ended. */
  ghost predicate KeepsOrder(c: Control) {
    forall cs: seq<Control>, acts: seq<Action>, i: nat ::
      IsPath(cs, acts) && cs[0] == c && WithoutExit(acts) && i < |acts| && Returns(cs[i], cs[i + 1])
      ==> AllSignalled(cs[i + 1])
  }

  /** Without `Exit`, a `Close` that waited returns only after every thread started so far has ended. */
  lemma OrderedExit(cs: seq<Control>, acts: seq<Action>, i: nat)
    requires IsHistory(cs, acts) && WithoutExit(acts) && i < |acts| && Returns(cs[i], cs[i + 1])
    ensures AllSignalled(cs[i + 1])
  {
    FreshInv(cs[0]);
    PathKeepsOrder(cs, acts, i);
  }

  lemma PathKeepsOrder(cs: seq<Control>, acts: seq<Action>, i: nat)
    requires IsPath(cs, acts) && ControlInv(cs[0], 0) && WithoutExit(acts) && i < |acts| && Returns(cs[i], cs[i + 1])
    ensures AllSignalled(cs[i + 1])
  {
    PathInv(cs, acts, 0, i);
    PathInv(cs, acts, 0, i + 1);
    NoExits(cs, acts, i);
    NoExits(cs, acts, i + 1);
    FinishedByCount(cs[i + 1], 0);
  }

  // ---------- after an exit ----------

  ghost function AtWork(c: Control): set<nat> {
    set w | w in c.workers && c.workers[w].Working?
  }

  /** What is left of a `Close` that is due or under way. */
  function Stage(c: Control): nat {
    match c.closer
    case Nobody => if c.isRun then 3 else 0
    case Entering(_) => 2
    case Waiting(_) => 1
  }

  ghost predicate Settled(c: Control) {
    AllSignalled(c) && c.closer.Nobody? && !c.isRun
  }

  /** A next action on the way to rest: threads end, signal, and a last `Close` returns. */
  lemma Advance(c: Control, exits: nat) returns (a: Action)
    requires ControlInv(c, exits) && !Settled(c)
    ensures CanDo(c, a) && !a.Exit? && ControlInv(Do(c, a), exits)
    ensures var c' := Do(c, a);
      || AtWork(c') < AtWork(c)
      || (AtWork(c') == AtWork(c) && c.workers.Keys - Done(c) > c'.workers.Keys - Done(c'))
      || (AtWork(c') == AtWork(c) && c'.workers == c.workers && Stage(c') < Stage(c))
  {
    if w :| w in AtWork(c) {
      a := Finish(w);
      assert w !in AtWork(Do(c, a));
    } else if w :| w in c.workers && c.workers[w].Finished? {
      var chosen: Tid := 0;
      if c.sem.asleep != {} { chosen :| chosen in c.sem.asleep; }
      a := Signal(w, chosen);
      assert w !in Done(c) && w in Done(Do(c, a)) && AtWork(Do(c, a)) == AtWork(c);
    } else {
      assert AllSignalled(c) by {
        forall w | w in c.workers ensures c.workers[w].Signalled? { assert w !in AtWork(c); }
      }
      a := AdvanceClose(c, exits);
      assert AtWork(Do(c, a)) == AtWork(c);
    }
    DoInv(c, a, exits);
  }

  lemma AdvanceClose(c: Control, exits: nat) returns (a: Action)
    requires ControlInv(c, exits) && AllSignalled(c) && !Settled(c)
    ensures CanDo(c, a) && (a.Close? || a.EnterWait? || a.TestAgain?)
    ensures Do(c, a).workers == c.workers && Stage(Do(c, a)) < Stage(c)
  {
    assert Done(c) == c.workers.Keys;
    match c.closer
    case Nobody => a := Close(0);
    case Entering(t) =>
      a := EnterWait;
      assert c.sem.asleep + c.sem.awake == {};
    case Waiting(t) =>
      a := TestAgain;
      OneInside(c.sem, t);
  }

  lemma OneInside(s: Sem, t: Tid)
    requires Inv(s) && s.asleep + s.awake == {t} && s.wait >= 0
    ensures s.wakeup > 0 && t in s.awake
  {
    assert s.asleep + s.awake == {t} && |s.asleep| + |s.awake| == 1 by {
      assert |s.asleep + s.awake| == |s.asleep| + |s.awake|;
    }
    var x :| x in s.awake;
    assert x in {t};
  }

  ghost predicate Continues(cs: seq<Control>, acts: seq<Action>, c: Control, c': Control) {
    IsPath(cs, acts) && WithoutExit(acts) && cs[0] == c && cs[|acts|] == c'
  }

  lemma Prepend(c: Control, a: Action, cs: seq<Control>, acts: seq<Action>, c': Control)
    requires CanDo(c, a) && !a.Exit? && Continues(cs, acts, Do(c, a), c')
    ensures Continues([c] + cs, [a] + acts, c, c')
  {
  }

  lemma {:induction false} Settle(c: Control, exits: nat) returns (cs: seq<Control>, acts: seq<Action>, c': Control)
    requires ControlInv(c, exits)
    ensures Continues(cs, acts, c, c') && ControlInv(c', exits) && Settled(c')
    decreases AtWork(c), c.workers.Keys - Done(c), Stage(c)
  {
    if Settled(c) {
      cs, acts, c' := [c], [], c;
    } else {
      var a := Advance(c, exits);
      cs, acts, c' := Settle(Do(c, a), exits);
      Prepend(c, a, cs, acts, c');
      cs, acts := [c] + cs, [a] + acts;
    }
  }

  lemma Join(
      cs: seq<Control>, acts: seq<Action>, c: Control, m: Control, cs': seq<Control>, acts': seq<Action>, c': Control)
    requires Continues(cs, acts, c, m) && Continues(cs', acts', m, c')
    ensures Continues(cs + cs'[1..], acts + acts', c, c')
    ensures forall i :: 0 <= i < |cs'| ==> (cs + cs'[1..])[|acts| + i] == cs'[i]
  {
    var all := cs + cs'[1..];
    assert forall i :: 0 <= i < |acts'| ==> all[|acts| + i] == cs'[i] && (acts + acts')[|acts| + i] == acts'[i];
    forall i | 0 <= i < |acts + acts'|
      ensures CanDo(all[i], (acts + acts')[i]) && all[i + 1] == Do(all[i], (acts + acts')[i])
    {
      if i >= |acts| { assert all[i + 1] == cs'[i - |acts| + 1]; }
    }
  }

  /** At rest after an exit, one more thread is started and closed, and the wakeup left over lets `Close` go. */
  lemma CloseTooEarly(c: Control, exits: nat) returns (cs: seq<Control>, acts: seq<Action>)
    requires ControlInv(c, exits) && Settled(c) && exits > 0
    ensures |acts| == 3 && |cs| == 4 && Continues(cs, acts, c, cs[3])
    ensures Returns(cs[2], cs[3]) && !AllSignalled(cs[3])
  {
    var w := Fresh(c.workers.Keys);
    FinishedByCount(c, exits);
    var c1 := Do(c, Start(w));
    var c2 := Do(c1, Close(0));
    assert c.sem.asleep + c.sem.awake == {};
    var c3 := Do(c2, EnterWait);
    assert c3.closer.Nobody? && c3.workers[w].Working?;
    cs, acts := [c, c1, c2, c3], [Start(w), Close(0), EnterWait];
  }

  lemma {:induction false} Fresh(s: set<nat>) returns (w: nat)
    ensures forall x :: x in s ==> x < w
  {
    if s == {} {
      w := 0;
    } else {
      var x :| x in s;
      var below := Fresh(s - {x});
      w := if below > x then below else x + 1;
      assert forall y :: y in s ==> y == x || y in s - {x};
    }
  }

  /** Order is kept from here on exactly if no `Exit` so far found the flag up. */
  lemma OrderKeptExactly(cs: seq<Control>, acts: seq<Action>)
    requires IsHistory(cs, acts)
    ensures KeepsOrder(cs[|acts|]) <==> Exits(cs, acts, |acts|) == 0
  {
    var c, exits := cs[|acts|], Exits(cs, acts, |acts|);
    HistoryInv(cs, acts, |acts|);
    if exits == 0 {
      forall cs': seq<Control>, acts': seq<Action>, i: nat |
        IsPath(cs', acts') && cs'[0] == c && WithoutExit(acts') && i < |acts'| && Returns(cs'[i], cs'[i + 1])
        ensures AllSignalled(cs'[i + 1])
      {
        PathKeepsOrder(cs', acts', i);
      }
    } else {
      LosesOrder(c, exits);
    }
  }

  lemma LosesOrder(c: Control, exits: nat)
    requires ControlInv(c, exits) && exits > 0
    ensures !KeepsOrder(c)
  {
    var cs, acts, rest := Settle(c, exits);
    var cs', acts' := CloseTooEarly(rest, exits);
    Join(cs, acts, c, rest, cs', acts', cs'[3]);
    var all, allActs, i := cs + cs'[1..], acts + acts', |acts| + 2;
    assert all[i] == cs'[2] && all[i + 1] == cs'[3];
    assert IsPath(all, allActs) && Returns(all[i], all[i + 1]) && !AllSignalled(all[i + 1]);
  }

  /** After an `Exit` the ended thread's wakeup stays behind and releases a later `Close` too early. */
  const EXIT_FIRST: seq<Action> := [Start(1), Exit, Finish(1), Signal(1, 0), Start(2), Close(7), EnterWait]

  lemma ExitBreaksOrder() returns (cs: seq<Control>)
    ensures IsHistory(cs, EXIT_FIRST)
    ensures Returns(cs[6], cs[7]) && 2 in cs[7].workers && cs[7].workers[2].Working?
  {
    var c1 := Do(NEW_CONTROL, Start(1));
    var c2 := Do(c1, Exit);
    var c3 := Do(c2, Finish(1));
    var c4 := Do(c3, Signal(1, 0));
    var c5 := Do(c4, Start(2));
    var c6 := Do(c5, Close(7));
    var c7 := Do(c6, EnterWait);
    cs := [NEW_CONTROL, c1, c2, c3, c4, c5, c6, c7];
  }
}
