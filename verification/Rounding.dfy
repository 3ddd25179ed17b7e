/** Rounding a quotient half to even, decimal digits, and scaling by powers of two and ten. */
module Rounding {
  import opened Positional

  /** `m` is the integer nearest to `a / b`, the even one of two. */
  ghost predicate Rounds(m: int, a: int, b: int) {
    && -b <= 2 * (a - m * b) <= b
    && (2 * (a - m * b) == b || 2 * (a - m * b) == -b ==> m % 2 == 0)
  }

  /** No integer is nearer, and one that is as near is a neighbour of an even one. */
  lemma RoundsIsNearest(m: int, a: int, b: int, k: int)
    requires b > 0 && Rounds(m, a, b) && k != m
    ensures Distance(a, m * b) <= Distance(a, k * b)
    ensures Distance(a, m * b) == Distance(a, k * b) ==> m % 2 == 0
  {
    Distribute(b, m, k - m);
    if k > m { Scale(1, k - m, b); } else { Scale(1, m - k, b); }
  }

  function Distance(x: int, y: int): nat {
    if x >= y then x - y else y - x
  }

  /** There is exactly one such integer. */
  lemma RoundsOnce(m: int, n: int, a: int, b: int)
    requires b > 0 && Rounds(m, a, b) && Rounds(n, a, b)
    ensures m == n
  {
    if m < n {
      OnlyOne(m, n, a, b);
    } else if n < m {
      OnlyOne(n, m, a, b);
    }
  }

  lemma OnlyOne(m: int, n: int, a: int, b: int)
    requires b > 0 && m < n && Rounds(m, a, b)
    ensures !Rounds(n, a, b)
  {
    Distribute(b, m, n - m);
    Scale(1, n - m, b);
    if n - m >= 2 { Scale(2, n - m, b); }
  }

  /** Quotient, remainder and a comparison of twice the remainder give it. */
  lemma RoundsFromRemainder(a: int, b: int, q: int, r: int)
    requires a == q * b + r && 0 <= r < b
    ensures Rounds(if 2 * r > b || (2 * r == b && q % 2 == 1) then q + 1 else q, a, b)
  {
    Distribute(b, q, 1);
  }

  /** It depends on nothing but the ratio. */
  lemma RoundsRatio(m: int, a: int, b: nat, c: int, d: nat)
    requires b > 0 && d > 0 && a * d == c * b && Rounds(m, a, b)
    ensures Rounds(m, c, d)
  {
    var x, y := 2 * (a - m * b), 2 * (c - m * d);
    assert x * d == y * b by { CrossDifference(m, a, b, c, d); }
    SameSide(x, b, y, d);
    SameSide(-x, b, -y, d);
  }

  lemma CrossDifference(m: int, a: int, b: int, c: int, d: int)
    requires a * d == c * b
    ensures (2 * (a - m * b)) * d == (2 * (c - m * d)) * b
  {
    Associate(m, b, d);
    Associate(m, d, b);
    Distribute(d, a, -(m * b));
    Distribute(b, c, -(m * d));
    Associate(2, a - m * b, d);
    Associate(2, c - m * d, b);
  }

  lemma SameSide(x: int, b: nat, y: int, d: nat)
    requires b > 0 && d > 0 && x * d == y * b && x <= b
    ensures y <= d && (y == d ==> x == b)
  {
    Scale(x, b, d);
    if y > d { ScaleStrict(d, y, b); }
    if y == d && x < b { ScaleStrict(x, b, d); }
  }

  // ---------- decimal digits ----------

  /** The number that a row of digits stands for, also while one of them is 10. */
  function Decimal(buf: seq<nat>): nat {
    if buf == [] then 0 else 10 * Decimal(buf[..|buf| - 1]) + buf[|buf| - 1]
  }

  ghost predicate Digits(buf: seq<nat>) {
    forall i :: 0 <= i < |buf| ==> buf[i] <= 9
  }

  lemma DecimalPush(buf: seq<nat>, d: nat)
    ensures Decimal(buf + [d]) == 10 * Decimal(buf) + d
  {
    assert (buf + [d])[..|buf|] == buf;
  }

  /** The first digit counts for the highest power. */
  lemma {:induction false} DecimalFirst(buf: seq<nat>)
    requires buf != []
    ensures Decimal(buf) == buf[0] * Pow(10, |buf| - 1) + Decimal(buf[1..])
  {
    var n := |buf| - 1;
    if n == 0 {
      assert Decimal(buf[..0]) == 0 && Pow(10, 0) == 1;
    } else {
      DecimalFirst(buf[..n]);
      assert buf[1..][..n - 1] == buf[..n][1..];
      Associate(10, buf[0], Pow(10, n - 1));
      Associate(buf[0], 10, Pow(10, n - 1));
    }
  }

  lemma {:induction false} CarryMoves(buf: seq<nat>, i: nat)
    requires 0 < i < |buf| && buf[i] == 10
    ensures Decimal(buf[i := 0][i - 1 := buf[i - 1] + 1]) == Decimal(buf)
  {
    var n, moved := |buf| - 1, buf[i := 0][i - 1 := buf[i - 1] + 1];
    if i < n {
      CarryMoves(buf[..n], i);
      assert moved[..n] == buf[..n][i := 0][i - 1 := buf[i - 1] + 1];
    } else {
      assert moved[..n] == buf[..n - 1] + [buf[n - 1] + 1];
      assert buf[..n] == buf[..n - 1] + [buf[n - 1]];
      DecimalPush(buf[..n - 1], buf[n - 1] + 1);
      DecimalPush(buf[..n - 1], buf[n - 1]);
    }
  }

  lemma {:induction false} DecimalLead(buf: seq<nat>)
    requires buf != [] && forall i :: 1 <= i < |buf| ==> buf[i] == 0
    ensures Decimal(buf) == buf[0] * Pow(10, |buf| - 1)
  {
    var n := |buf| - 1;
    if n == 0 {
      assert Decimal(buf[..0]) == 0 && Pow(10, 0) == 1;
    } else {
      DecimalLead(buf[..n]);
      Associate(10, buf[0], Pow(10, n - 1));
      Associate(buf[0], 10, Pow(10, n - 1));
    }
  }

  // ---------- scaling ----------

  /** The power for a non-negative exponent, 1 for a negative one */
  function Up(b: nat, k: int): nat {
    if k > 0 then Pow(b, k) else 1
  }

  /** `f * 2^e / 10^k` as a fraction of two integers */
  function Numer(f: nat, e: int, k: int): nat {
    f * Up(2, e) * Up(10, -k)
  }

  function Denom(e: int, k: int): nat {
    Up(2, -e) * Up(10, k)
  }

  lemma DenomPositive(e: int, k: int)
    ensures Denom(e, k) > 0
  {
    UpPositive(2, -e);
    UpPositive(10, k);
    Scale(1, Up(2, -e), Up(10, k));
  }

  lemma UpPositive(b: nat, k: int)
    requires b > 0
    ensures Up(b, k) > 0
  {
    if k > 0 { PowPositive(b, k); }
  }

  /** `a / b` is exactly `f * 2^e / 10^k`. */
  ghost predicate Equals(a: nat, b: nat, f: nat, e: int, k: int) {
    a * Denom(e, k) == Numer(f, e, k) * b
  }

  /** Lowering the decimal exponent by one takes ten times the numerator. */
  lemma NextExponent(a: nat, b: nat, f: nat, e: int, k: int)
    ensures Equals(a, b, f, e, k) <==> Equals(10 * a, b, f, e, k - 1)
  {
    if k > 0 {
      Factor10(Up(2, -e), Up(10, k - 1));
      Factor10(a, Denom(e, k - 1));
      Associate(10, a, Denom(e, k - 1));
    } else {
      Factor10(f * Up(2, e), Up(10, -k));
      Associate(10, a, Denom(e, k));
      Associate(10, Numer(f, e, k), b);
    }
  }

  lemma Factor10(x: int, y: int)
    ensures x * (10 * y) == 10 * (x * y)
  {
    Associate(x, 10, y);
    Associate(10, x, y);
  }

  lemma {:induction false} LowerExponent(a: nat, b: nat, f: nat, e: int, k: int, n: nat)
    requires Equals(a, b, f, e, k)
    ensures Equals(a * Pow(10, n), b, f, e, k - n)
  {
    if n > 0 {
      LowerExponent(a, b, f, e, k, n - 1);
      NextExponent(a * Pow(10, n - 1), b, f, e, k - (n - 1));
      Factor10(a, Pow(10, n - 1));
    }
  }
}
