/**
 `bigint::square`: column by column, each the sum of the cross products of its weight, with the sum
 kept in an accumulator of two 64-bit words.
 */
module Convolution {
  import opened Positional

  // ---------- the accumulator ----------

  /** `accumulator`, the stand-in for a 128-bit integer */
  datatype Accumulator = Accumulator(lower: nat, upper: nat) {
    ghost predicate Valid() {
      lower < DOUBLE && upper < DOUBLE
    }

    ghost function Value(): nat {
      lower + DOUBLE * upper
    }

    function Add(n: nat): Accumulator {
      var sum := (lower + n) % DOUBLE;
      Accumulator(sum, if sum < n then (upper + 1) % DOUBLE else upper)
    }

    function Shift32(): Accumulator {
      Accumulator(upper * B % DOUBLE + lower / B, upper / B)
    }
  }

  /** Adding is exact as long as the sum fits in 128 bits: the carry is seen by comparing. */
  lemma AddExact(a: Accumulator, n: nat)
    requires a.Valid() && n < DOUBLE && a.Value() + n < DOUBLE * DOUBLE
    ensures a.Add(n).Valid() && a.Add(n).Value() == a.Value() + n
  {
    if a.lower + n >= DOUBLE {
      assert (a.lower + n) % DOUBLE == a.lower + n - DOUBLE;
    }
  }

  /** Shifting by 32 bits is exact division by the digit base. */
  lemma ShiftExact(a: Accumulator)
    requires a.Valid()
    ensures a.Shift32().Valid() && a.Shift32().Value() == a.Value() / B
    ensures a.lower % B == a.Value() % B
  {
    var hi, lo := a.upper / B, a.upper % B;
    var low, rest := a.lower / B, a.lower % B;
    assert a.upper * B == lo * B + DOUBLE * hi;
    assert a.upper * B % DOUBLE == lo * B;
    var q := low + lo * B + DOUBLE * hi;
    assert a.Value() == rest + B * q;
    assert a.Value() / B == q && a.Value() % B == rest;
  }

  // ---------- columns ----------

  function At(s: seq<Bigit>, i: int): nat {
    if 0 <= i < |s| then s[i] else 0
  }

  /** The first `h` cross products of column `k`. */
  function Column(a: seq<Bigit>, b: seq<Bigit>, k: int, h: nat): nat {
    if h == 0 then 0 else Column(a, b, k, h - 1) + At(a, h - 1) * At(b, k - (h - 1))
  }

  function Columns(a: seq<Bigit>, b: seq<Bigit>, n: nat): nat {
    if n == 0 then 0 else Columns(a, b, n - 1) + Pow(B, n - 1) * Column(a, b, n - 1, n)
  }

  /** Taking the first digit of one factor out of a column. */
  lemma {:induction false} ColumnFirst(a: seq<Bigit>, b: seq<Bigit>, k: int, h: nat)
    requires a != [] && h > 0
    ensures Column(a, b, k, h) == a[0] * At(b, k) + Column(a[1..], b, k - 1, h - 1)
  {
    if h > 1 {
      ColumnFirst(a, b, k, h - 1);
      assert At(a, h - 1) == At(a[1..], h - 2);
    }
  }

  lemma {:induction false} ColumnEmpty(b: seq<Bigit>, k: int, h: nat)
    ensures Column([], b, k, h) == 0
  {
    if h > 0 { ColumnEmpty(b, k, h - 1); }
  }

  lemma {:induction false} ColumnsEmpty(b: seq<Bigit>, n: nat)
    ensures Columns([], b, n) == 0
  {
    if n > 0 {
      ColumnsEmpty(b, n - 1);
      ColumnEmpty(b, n - 1, n);
    }
  }

  /** The part of `b` below position `n` */
  function Low(b: seq<Bigit>, n: nat): nat {
    if n == 0 then 0 else Low(b, n - 1) + Pow(B, n - 1) * At(b, n - 1)
  }

  lemma {:induction false} LowIsVal(b: seq<Bigit>, n: nat)
    ensures Low(b, n) == Val(if n <= |b| then b[..n] else b)
  {
    if n > 0 {
      LowIsVal(b, n - 1);
      if n <= |b| { ValNext(b, n - 1); } else { assert b[..|b|] == b; }
    }
  }

  lemma {:induction false} ColumnsFirst(a: seq<Bigit>, b: seq<Bigit>, n: nat)
    requires a != [] && n > 0
    ensures Columns(a, b, n) == a[0] * Low(b, n) + B * Columns(a[1..], b, n - 1)
  {
    ColumnFirst(a, b, n - 1, n);
    var p := Pow(B, n - 1);
    var x, y := At(b, n - 1), Column(a[1..], b, n - 2, n - 1);
    Distribute(p, a[0] * x, y);
    FirstTerm(a[0], p, x);
    Distribute(a[0], Low(b, n - 1), p * x);
    if n > 1 {
      ColumnsFirst(a, b, n - 1);
      Associate(B, Pow(B, n - 2), y);
      Distribute(B, Columns(a[1..], b, n - 2), Pow(B, n - 2) * y);
    }
  }

  lemma FirstTerm(d: int, p: int, x: int)
    ensures p * (d * x) == d * (p * x)
  {
    Associate(p, d, x);
    Associate(d, p, x);
  }

  /** The columns of two numbers add up to their product. */
  lemma {:induction false} ColumnsAreProduct(a: seq<Bigit>, b: seq<Bigit>, n: nat)
    requires n >= |a| + |b|
    ensures Columns(a, b, n) == Val(a) * Val(b)
  {
    if a == [] {
      ColumnsEmpty(b, n);
    } else {
      ColumnsFirst(a, b, n);
      LowIsVal(b, n);
      ColumnsAreProduct(a[1..], b, n - 1);
      Associate(B, Val(a[1..]), Val(b));
      Distribute(Val(b), a[0], B * Val(a[1..]));
    }
  }

  /** Above the lower half, the first products of a column are missing. */
  lemma {:induction false} ColumnSkips(s: seq<Bigit>, k: nat, h: nat)
    requires h + |s| <= k + 1
    ensures Column(s, s, k, h) == 0
  {
    if h > 0 { ColumnSkips(s, k, h - 1); }
  }

  /** ... and so are the products past its last digit. */
  lemma {:induction false} ColumnEnds(s: seq<Bigit>, k: nat, h: nat)
    requires h >= |s|
    ensures Column(s, s, k, h) == Column(s, s, k, |s|)
  {
    if h > |s| { ColumnEnds(s, k, h - 1); }
  }

  // ---------- the loops ----------

  lemma TermBound(x: Bigit, y: Bigit)
    ensures 0 <= x * y <= (B - 1) * (B - 1)
  {
    Scale(x, B - 1, y);
    Scale(y, B - 1, B - 1);
    Scale(0, x, y);
  }

  /** The largest number of digits whose double an `int` can hold */
  const MAX_DIGITS := 0x3fff_ffff

  /** What the accumulator may hold after `terms` products on top of a carry. */
  function Budget(size: nat, terms: nat): nat {
    size * B + terms * ((B - 1) * (B - 1))
  }

  lemma BudgetFits(size: nat, terms: nat)
    requires terms <= size <= MAX_DIGITS
    ensures Budget(size, terms) <= size * (B * B) < DOUBLE * DOUBLE
  {
    Scale(terms, size, (B - 1) * (B - 1));
    Distribute(size, B, (B - 1) * (B - 1));
    Scale(B + (B - 1) * (B - 1), B * B, size);
    Scale(size, MAX_DIGITS, B * B);
  }

  lemma AddWithinBudget(sum: Accumulator, product: nat, size: nat, terms: nat)
    requires sum.Valid() && terms < size <= MAX_DIGITS
    requires product <= (B - 1) * (B - 1) && sum.Value() <= Budget(size, terms)
    ensures sum.Add(product).Valid() && sum.Add(product).Value() == sum.Value() + product <= Budget(size, terms + 1)
  {
    Distribute((B - 1) * (B - 1), terms, 1);
    BudgetFits(size, terms + 1);
    AddExact(sum, product);
  }

  /** Adds the products `s[i] * s[k - i]` for `from <= i < to`. */
  method SumColumn(s: seq<Bigit>, k: nat, from: nat, to: nat, carry: Accumulator) returns (sum: Accumulator)
    requires |s| <= MAX_DIGITS && from <= to <= |s| && to <= k + 1 && k - from < |s|
    requires carry.Valid() && carry.Value() <= |s| * B
    ensures sum.Valid() && sum.Value() == carry.Value() + Column(s, s, k, to) - Column(s, s, k, from)
    ensures sum.Value() <= |s| * (B * B)
  {
    sum := carry;
    var i := from;
    while i < to
      invariant from <= i <= to && sum.Valid()
      invariant sum.Value() == carry.Value() + Column(s, s, k, i) - Column(s, s, k, from)
      invariant sum.Value() <= Budget(|s|, i - from)
    {
      var product: int := s[i] as int * s[k - i] as int;
      TermBound(s[i], s[k - i]);
      AddWithinBudget(sum, product, |s|, i - from);
      sum := sum.Add(product);
      i := i + 1;
    }
    BudgetFits(|s|, to - from);
  }

  /** `square`, up to the removal of leading zeros */
  method SquareDigits(s: seq<Bigit>) returns (r: seq<Bigit>)
    requires |s| <= MAX_DIGITS
    ensures |r| == 2 * |s| && Val(r) == Val(s) * Val(s)
  {
    var n := |s|;
    r := [];
    var sum := Accumulator(0, 0);
    var k := 0;
    while k < 2 * n
      invariant k <= 2 * n && |r| == k && sum.Valid() && sum.Value() <= n * B
      invariant Val(r) + Pow(B, k) * sum.Value() == Columns(s, s, k)
    {
      ghost var carry := sum.Value();
      if k < n {
        sum := SumColumn(s, k, 0, k + 1, sum);
      } else {
        ColumnSkips(s, k, k + 1 - n);
        ColumnEnds(s, k, k + 1);
        sum := SumColumn(s, k, k + 1 - n, n, sum);
      }
      assert sum.Value() == carry + Column(s, s, k, k + 1);
      ShiftExact(sum);
      var digit: Bigit := sum.lower % B;
      ColumnStep(Val(r), Pow(B, k), carry, Column(s, s, k, k + 1), sum.Value(), digit);
      ValAppend(r, [digit]);
      ValOne(digit);
      Quotient(sum.Value(), n * B);
      r := r + [digit];
      sum := sum.Shift32();
      k := k + 1;
    }
    ColumnsAreProduct(s, s, 2 * n);
    LastCarry(s, r, sum.Value());
  }

  lemma Quotient(x: nat, bound: nat)
    requires x <= bound * B
    ensures x / B <= bound
  {
  }

  lemma ColumnStep(done: int, p: int, carry: int, column: int, sum: int, digit: int)
    requires sum == carry + column && digit == sum % B
    ensures done + p * digit + (B * p) * (sum / B) == done + p * carry + p * column
  {
    assert sum == digit + B * (sum / B);
    Associate(p, B, sum / B);
    Distribute(p, digit, B * (sum / B));
    Distribute(p, carry, column);
  }

  /** The product has no more digits than were written, so nothing is carried out of the top. */
  lemma LastCarry(s: seq<Bigit>, r: seq<Bigit>, carry: nat)
    requires |r| == 2 * |s| && Val(r) + Pow(B, |r|) * carry == Val(s) * Val(s)
    ensures carry == 0
  {
    ValBound(s);
    var v, p := Val(s), Pow(B, |s|);
    PowAdd(B, |s|, |s|);
    PowPositive(B, |s|);
    Scale(v, p, v);
    ScaleStrict(v, p, p);
    if carry > 0 { Scale(1, carry, Pow(B, |r|)); }
  }
}
