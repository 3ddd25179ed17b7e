/**
 The counters that tell an end when its peer's data has drained, in their real 32-bit width.

 The counters are `std::atomic<int>`, so addition wraps; only sums and equality matter, so a counter
 is kept as its residue, with -1 as the largest one.
 */
module DrainDetection {

  const WORD := 0x1_0000_0000

  const MINUS_ONE: int := WORD - 1

  datatype Counters = Counters(recv: int, total: int) {
    /** `AddRecvCount` */
    function AddRecv(count: nat): Counters {
      this.(recv := (recv + count) % WORD)
    }

    /** `AddTotalCount` */
    function AddTotal(count: nat): Counters {
      this.(total := if total == MINUS_ONE then count % WORD else (total + count) % WORD)
    }

    /** The test made after every chunk and after the announcement. */
    predicate Drained() {
      recv == total
    }
  }

  /** A chunk reached the descriptor, or the peer's count arrived. */
  datatype Event = Chunk(size: nat) | Announce(count: nat)

  function Apply(c: Counters, e: Event): Counters {
    match e
    case Chunk(size) => c.AddRecv(size)
    case Announce(count) => c.AddTotal(count)
  }

  function Run(es: seq<Event>, start: int): Counters {
    if es == [] then Counters(0, start) else Apply(Run(es[..|es| - 1], start), es[|es| - 1])
  }

  function Received(es: seq<Event>): nat {
    if es == [] then 0
    else Received(es[..|es| - 1]) + if es[|es| - 1].Chunk? then es[|es| - 1].size else 0
  }

  ghost predicate Announced(es: seq<Event>) {
    exists i :: 0 <= i < |es| && es[i].Announce?
  }

  /** One session: positive chunks that add up to `n`, and one announcement of `n` anywhere among them. */
  ghost predicate Session(es: seq<Event>, n: nat) {
    && Received(es) == n && Announced(es)
    && (forall i :: 0 <= i < |es| && es[i].Chunk? ==> es[i].size > 0)
    && (forall i :: 0 <= i < |es| && es[i].Announce? ==> es[i].count == n)
    && (forall i, j :: 0 <= i < j < |es| && es[i].Announce? ==> es[j].Chunk?)
  }

  /** The test succeeds after the last event of the session, and after no other. */
  ghost predicate DetectsOnce(es: seq<Event>, start: int) {
    forall k :: 0 < k <= |es| ==> (Run(es[..k], start).Drained() <==> k == |es|)
  }

  lemma {:induction false} RunIs(es: seq<Event>, n: nat, start: int)
    requires 0 <= start < WORD
    requires forall i :: 0 <= i < |es| && es[i].Announce? ==> es[i].count == n
    requires forall i, j :: 0 <= i < j < |es| && es[i].Announce? ==> es[j].Chunk?
    ensures Run(es, start).recv == Received(es) % WORD
    ensures Run(es, start).total == if Announced(es) then Counters(0, start).AddTotal(n).total else start
  {
    if es != [] {
      var es' := es[..|es| - 1];
      RunIs(es', n, start);
      if Announced(es') {
        var i :| 0 <= i < |es'| && es'[i].Announce?;
        assert es[i].Announce?;
      }
      if Announced(es) && !es[|es| - 1].Announce? {
        var i :| 0 <= i < |es| && es[i].Announce?;
        assert es'[i].Announce?;
      }
    }
  }

  lemma {:induction false} ReceivedPrefix(es: seq<Event>, k: nat)
    requires k <= |es| && forall i :: 0 <= i < |es| && es[i].Chunk? ==> es[i].size > 0
    ensures Received(es[..k]) <= Received(es)
    ensures Received(es[..k]) == Received(es) ==> forall i :: k <= i < |es| ==> es[i].Announce?
    decreases |es| - k
  {
    if k == |es| {
      assert es[..k] == es;
    } else {
      ReceivedPrefix(es, k + 1);
      assert es[..k + 1][..k] == es[..k];
    }
  }

  /** The largest byte count the test is right for: one less on a connection that was never used. */
  function Limit(start: int): int {
    if start == MINUS_ONE then WORD - 2 else WORD - 1
  }

  lemma DetectsWithinLimit(es: seq<Event>, n: nat, start: int)
    requires start == MINUS_ONE || start == 0
    requires Session(es, n) && n <= Limit(start)
    ensures DetectsOnce(es, start)
  {
    forall k | 0 < k <= |es| ensures Run(es[..k], start).Drained() <==> k == |es| {
      var p := es[..k];
      RunIs(p, n, start);
      ReceivedPrefix(es, k);
      assert es[..|es|] == es;
      if !Announced(p) {
        assert p[0].Chunk? && es[0] == p[0];
        ReceivedPrefix(p, 1);
        assert Received(es[..1]) > 0 by { assert es[..1][..0] == []; }
        assert p[..1] == es[..1];
      }
    }
  }

  // ---------- beyond the limit ----------

  function Bytewise(n: nat): (es: seq<Event>)
    ensures |es| == n
  {
    seq(n, _ => Chunk(1))
  }

  lemma {:induction false} BytewiseReceived(n: nat)
    ensures Received(Bytewise(n)) == n
  {
    if n > 0 {
      BytewiseReceived(n - 1);
      assert Bytewise(n)[..n - 1] == Bytewise(n - 1);
    }
  }

  /** One byte at a time, the test succeeds as soon as the received count wraps to the start value. */
  lemma WrapsTooEarly(n: nat, start: int)
    requires start == MINUS_ONE || start == 0
    requires n > Limit(start)
    ensures Session(Bytewise(n) + [Announce(n)], n)
    ensures !DetectsOnce(Bytewise(n) + [Announce(n)], start)
  {
    var es := Bytewise(n) + [Announce(n)];
    assert es[..|es| - 1] == Bytewise(n);
    BytewiseReceived(n);
    assert es[n].Announce?;
    var k := Limit(start) + 1;
    assert es[..k] == Bytewise(k);
    BytewiseReceived(k);
    RunIs(es[..k], n, start);
    assert !Announced(es[..k]);
  }

  /** The test is right for every schedule of a session of `n` bytes exactly up to the limit. */
  lemma DetectsExactly(n: nat, start: int)
    requires start == MINUS_ONE || start == 0
    ensures (forall es :: Session(es, n) ==> DetectsOnce(es, start))
            <==> n <= if start == MINUS_ONE then 0xffff_fffe else 0xffff_ffff
  {
    if n <= Limit(start) {
      forall es | Session(es, n) ensures DetectsOnce(es, start) {
        DetectsWithinLimit(es, n, start);
      }
    } else {
      WrapsTooEarly(n, start);
    }
  }
}
