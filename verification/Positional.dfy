/** Powers, and the value of a sequence of 32-bit digits, least significant first. */
module Positional {

  const B := 0x1_0000_0000

  /** `uint64_t`, the type of every intermediate result */
  const DOUBLE := 0x1_0000_0000_0000_0000

  type Bigit = d: int | 0 <= d < B

  function Pow(b: nat, e: nat): nat {
    if e == 0 then 1 else b * Pow(b, e - 1)
  }

  lemma {:induction false} PowPositive(b: nat, e: nat)
    requires b > 0
    ensures Pow(b, e) > 0
  {
    if e > 0 { PowPositive(b, e - 1); }
  }

  lemma {:induction false} PowAdd(b: nat, m: nat, n: nat)
    ensures Pow(b, m + n) == Pow(b, m) * Pow(b, n)
  {
    if m == 0 {
    } else {
      PowAdd(b, m - 1, n);
      Associate(b, Pow(b, m - 1), Pow(b, n));
    }
  }

  lemma Associate(x: int, y: int, z: int)
    ensures (x * y) * z == x * (y * z)
  {
  }

  lemma Distribute(x: int, y: int, z: int)
    ensures x * (y + z) == x * y + x * z && (y + z) * x == y * x + z * x
  {
  }

  lemma {:induction false} PowMonotone(b: nat, m: nat, n: nat)
    requires b > 0 && m <= n
    ensures Pow(b, m) <= Pow(b, n)
  {
    if m < n {
      PowMonotone(b, m, n - 1);
      PowPositive(b, n - 1);
      Scale(1, b, Pow(b, n - 1));
    }
  }

  lemma Scale(x: int, y: int, k: nat)
    requires x <= y
    ensures x * k <= y * k && k * x <= k * y
  {
  }

  lemma ScaleStrict(x: int, y: int, k: nat)
    requires x < y && k > 0
    ensures x * k + k <= y * k && k * x + k <= k * y
  {
    Scale(x + 1, y, k);
    Distribute(k, x, 1);
  }

  lemma {:induction false} PowProduct(a: nat, b: nat, e: nat)
    ensures Pow(a * b, e) == Pow(a, e) * Pow(b, e)
  {
    if e > 0 {
      PowProduct(a, b, e - 1);
      Shuffle(a, b, Pow(a, e - 1), Pow(b, e - 1));
    }
  }

  lemma Shuffle(a: int, b: int, x: int, y: int)
    ensures (a * b) * (x * y) == (a * x) * (b * y)
  {
    calc {
      (a * b) * (x * y);
      { Associate(a, b, x * y); Associate(b, x, y); }
      a * ((b * x) * y);
      { Associate(x, b, y); }
      a * (x * (b * y));
      { Associate(a, x, b * y); }
      (a * x) * (b * y);
    }
  }

  // ---------- digits ----------

  function Val(s: seq<Bigit>): nat {
    if s == [] then 0 else s[0] + B * Val(s[1..])
  }

  lemma {:induction false} ValAppend(s: seq<Bigit>, t: seq<Bigit>)
    ensures Val(s + t) == Val(s) + Pow(B, |s|) * Val(t)
  {
    if s == [] {
      assert s + t == t;
    } else {
      ValAppend(s[1..], t);
      assert (s + t)[1..] == s[1..] + t;
      Associate(B, Pow(B, |s| - 1), Val(t));
    }
  }

  lemma ValOne(d: Bigit)
    ensures Val([d]) == d
  {
  }

  /** The next digit counts for the next power. */
  lemma ValNext(s: seq<Bigit>, i: nat)
    requires i < |s|
    ensures Val(s[..i + 1]) == Val(s[..i]) + Pow(B, i) * s[i]
  {
    ValAppend(s[..i], [s[i]]);
    ValOne(s[i]);
    assert s[..i + 1] == s[..i] + [s[i]];
  }

  lemma ValSplit(s: seq<Bigit>, i: nat)
    requires i <= |s|
    ensures Val(s) == Val(s[..i]) + Pow(B, i) * Val(s[i..])
  {
    ValAppend(s[..i], s[i..]);
    assert s == s[..i] + s[i..];
  }

  lemma {:induction false} ValBound(s: seq<Bigit>)
    ensures Val(s) < Pow(B, |s|)
  {
    if s != [] { ValBound(s[1..]); }
  }

  lemma {:induction false} ValZeros(s: seq<Bigit>)
    requires forall i :: 0 <= i < |s| ==> s[i] == 0
    ensures Val(s) == 0
  {
    if s != [] { ValZeros(s[1..]); }
  }

  /** The leading digit is zero exactly if the value fits in one digit less. */
  lemma ValTop(s: seq<Bigit>)
    requires s != []
    ensures s[|s| - 1] != 0 <==> Val(s) >= Pow(B, |s| - 1)
  {
    var n := |s| - 1;
    ValNext(s, n);
    ValBound(s[..n]);
    assert s[..n + 1] == s;
    PowPositive(B, n);
    if s[n] != 0 { Scale(1, s[n], Pow(B, n)); }
  }
}
