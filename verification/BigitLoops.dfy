/**
 The loops of fmt's `bigint` over its digits, each proved to compute the arithmetic it stands for with
 every intermediate result inside the 64-bit type that the code gives it.
 */
module BigitLoops {
  import opened Positional

  ghost predicate Leading(s: seq<Bigit>) {
    s != [] && s[|s| - 1] != 0
  }

  // ---------- assignment ----------

  /** The loop that pushes the digits of a 64-bit number, in `assign` and after `multiply` */
  method PushDigits(s: seq<Bigit>, n: nat) returns (r: seq<Bigit>)
    requires n < DOUBLE
    ensures Val(r) == Val(s) + Pow(B, |s|) * n
    ensures |s| <= |r| <= |s| + 2 && if n == 0 then r == s else |r| > |s| && Leading(r)
  {
    r := s;
    var m := n;
    while m != 0
      invariant 0 <= m < DOUBLE && Val(r) + Pow(B, |r|) * m == Val(s) + Pow(B, |s|) * n
      invariant if |r| == |s| then r == s && m == n else n != 0 && (m == 0 ==> Leading(r))
      invariant if |r| == |s| then true else if |r| == |s| + 1 then m < B else |r| == |s| + 2 && m == 0
      decreases m
    {
      ValAppend(r, [m % B]);
      ValOne(m % B);
      Associate(Pow(B, |r|), B, m / B);
      Distribute(Pow(B, |r|), m % B, B * (m / B));
      r := r + [m % B];
      m := m / B;
    }
  }

  /** `assign(uint64_t)`, whose loop pushes at least one digit */
  method AssignDigits(n: nat) returns (r: seq<Bigit>)
    requires n < DOUBLE
    ensures Val(r) == n && if n == 0 then r == [0] else Leading(r)
  {
    ValOne(n % B);
    assert Pow(B, 1) == B;
    r := PushDigits([n % B], n / B);
  }

  // ---------- multiplication by one digit ----------

  /** One step: the product so far, its carry and the next digit, in terms of the exact product. */
  lemma MulStep(done: int, p: int, carry: int, before: int, value: int, d: int, digit: int, carry': int)
    requires done + p * carry == before * value
    requires digit + B * carry' == d * value + carry
    ensures (done + p * digit) + (B * p) * carry' == (before + p * d) * value
  {
    calc {
      (done + p * digit) + (B * p) * carry';
      { Associate(p, B, carry'); Distribute(p, digit, B * carry'); }
      done + p * (digit + B * carry');
      { Distribute(p, d * value, carry); Associate(p, d, value); }
      done + p * carry + (p * d) * value;
      { Distribute(value, before, p * d); }
      (before + p * d) * value;
    }
  }

  lemma ProductBound(d: int, value: int, carry: int)
    requires 0 <= d < B && 0 <= value < B && 0 <= carry < B
    ensures 0 <= d * value + carry < DOUBLE
  {
    Scale(d, B - 1, value);
    Scale(value, B - 1, B - 1);
    Scale(0, d, value);
  }

  /** `multiply(uint32_t)` */
  method MultiplyDigits(s: seq<Bigit>, value: Bigit) returns (r: seq<Bigit>)
    ensures Val(r) == Val(s) * value
    ensures |s| <= |r| <= |s| + 1 && (|r| > |s| ==> r[|s|] != 0)
  {
    r := s;
    var carry, i := 0, 0;
    while i < |s|
      invariant i <= |s| == |r| && 0 <= carry < B && (forall k :: i <= k < |s| ==> r[k] == s[k])
      invariant Val(r[..i]) + Pow(B, i) * carry == Val(s[..i]) * value
    {
      ProductBound(r[i], value, carry);
      var result := r[i] * value + carry;
      ghost var before := r;
      r := r[i := result % B];
      MulStep(Val(before[..i]), Pow(B, i), carry, Val(s[..i]), value, s[i], result % B, result / B);
      ValNext(s, i);
      ValNext(r, i);
      assert r[..i] == before[..i];
      carry := result / B;
      i := i + 1;
    }
    assert r[..i] == r && s[..i] == s;
    if carry != 0 {
      ValAppend(r, [carry]);
      ValOne(carry);
      r := r + [carry];
    }
  }

  // ---------- multiplication by two digits ----------

  /** Every intermediate result of one step stays inside 64 bits, whatever 64-bit carry it starts from. */
  lemma WideBounds(d: int, lower: int, upper: int, carry: int)
    requires 0 <= d < B && 0 <= lower < B && 0 <= upper < B && 0 <= carry < DOUBLE
    ensures var result := d * lower + carry % B;
      0 <= result < DOUBLE && 0 <= d * upper + result / B + carry / B < DOUBLE
  {
    ProductBound(d, lower, carry % B);
    Scale(d, B - 1, upper);
    Scale(upper, B - 1, B - 1);
    Scale(0, d, upper);
    Scale(d, B - 1, lower);
    Scale(lower, B - 1, B - 1);
    var result := d * lower + carry % B;
    assert result <= (B - 1) * (B - 1) + (B - 1) == (B - 1) * B;
    assert result / B <= B - 1;
  }

  /** `c` is what the product of `value` and the first `i` digits carries beyond `i` digits. */
  ghost predicate IsCarry(s: seq<Bigit>, value: nat, i: nat, c: nat) {
    i <= |s| && Pow(B, i) * c <= Val(s[..i]) * value < Pow(B, i) * c + Pow(B, i)
  }

  /** The carry stays below the factor, and so never reaches 2^64 - 1. */
  lemma CarryBelow(s: seq<Bigit>, value: nat, i: nat, c: nat)
    requires IsCarry(s, value, i, c)
    ensures if value == 0 then c == 0 else c < value
  {
    var p, v := Pow(B, i), Val(s[..i]);
    ValBound(s[..i]);
    PowPositive(B, i);
    if value == 0 {
      if c > 0 { Scale(1, c, p); }
    } else if c >= value {
      Scale(value, c, p);
      ScaleStrict(v, p, value);
    }
  }

  /** The bound is tight: the largest factor and two of the largest digits carry one less than it. */
  lemma CarryReaches(c: nat)
    ensures IsCarry([B - 1, B - 1], DOUBLE - 1, 2, c) <==> c == DOUBLE - 2
  {
    var s: seq<Bigit> := [B - 1, B - 1];
    assert s[..2] == s && s[1..] == [B - 1];
    ValOne(B - 1);
    assert Val(s) == DOUBLE - 1;
    assert Pow(B, 1) == B && Pow(B, 2) == DOUBLE;
  }

  lemma CarryFromProduct(s: seq<Bigit>, r: seq<Bigit>, value: nat, i: nat, c: nat)
    requires i <= |s| == |r| && Val(r[..i]) + Pow(B, i) * c == Val(s[..i]) * value
    ensures IsCarry(s, value, i, c)
  {
    ValBound(r[..i]);
  }

  lemma WideStep(d: int, lower: int, upper: int, carry: int, result: int)
    requires result == d * lower + carry % B
    ensures result % B + B * (d * upper + result / B + carry / B) == d * (lower + B * upper) + carry
  {
    assert result == B * (result / B) + result % B;
    assert carry == B * (carry / B) + carry % B;
    calc {
      d * (lower + B * upper);
      { Distribute(d, lower, B * upper); Associate(d, B, upper); }
      d * lower + B * (d * upper);
    }
  }

  /** `multiply(uint64_t)`; `carries` records the carry before each digit and after the last. */
  method MultiplyDigitsWide(s: seq<Bigit>, value: nat) returns (r: seq<Bigit>, ghost carries: seq<nat>)
    requires value < DOUBLE
    ensures Val(r) == Val(s) * value
    ensures |carries| == |s| + 1 && forall i :: 0 <= i <= |s| ==> IsCarry(s, value, i, carries[i])
    ensures |s| <= |r| <= |s| + 2 && (|r| > |s| ==> Leading(r))
  {
    r := s;
    carries := [];
    var lower, upper := value % B, value / B;
    var carry, i := 0, 0;
    while i < |s|
      invariant i <= |s| == |r| && 0 <= carry < DOUBLE && (forall k :: i <= k < |s| ==> r[k] == s[k])
      invariant Val(r[..i]) + Pow(B, i) * carry == Val(s[..i]) * value
      invariant |carries| == i && forall k :: 0 <= k < i ==> IsCarry(s, value, k, carries[k])
    {
      CarryFromProduct(s, r, value, i, carry);
      carries := carries + [carry];
      WideBounds(r[i], lower, upper, carry);
      var result := r[i] * lower + carry % B;
      var next := r[i] * upper + result / B + carry / B;
      ghost var before := r;
      r := r[i := result % B];
      WideStep(s[i], lower, upper, carry, result);
      MulStep(Val(before[..i]), Pow(B, i), carry, Val(s[..i]), value, s[i], result % B, next);
      ValNext(s, i);
      ValNext(r, i);
      assert r[..i] == before[..i];
      carry := next;
      i := i + 1;
    }
    CarryFromProduct(s, r, value, i, carry);
    carries := carries + [carry];
    assert r[..i] == r && s[..i] == s;
    r := PushDigits(r, carry);
  }

  // ---------- shifting ----------

  /** A digit shifted left by the bits of `p` splits into what stays and what moves on. */
  lemma ShiftSplit(d: Bigit, p: nat, q: nat, carry: nat)
    requires p > 0 && q > 0 && p * q == B && carry < p
    ensures d * p == d % q * p + B * (d / q)
    ensures (d * p) % B == d % q * p && d % q * p + carry < B && d / q < p
  {
    var r, c := d % q, d / q;
    assert d == q * c + r;
    Distribute(p, q * c, r);
    Associate(p, q, c);
    ScaleStrict(r, q, p);
    if c >= p { Scale(p, c, q); }
    DivisionOf(d * p, r * p, c);
  }

  lemma DivisionOf(x: nat, r: nat, c: nat)
    requires x == r + B * c && r < B
    ensures x % B == r
  {
  }

  method ShiftBigit(d: Bigit, p: nat, q: nat, carry: nat) returns (digit: Bigit, c: nat)
    requires p > 0 && q > 0 && p * q == B && carry < p
    ensures digit + B * c == d * p + carry && c < p
  {
    ShiftSplit(d, p, q, carry);
    c := d / q;
    digit := (d * p) % B + carry;
  }

  /** The digit loop of `operator<<=`, for a shift of less than one digit by the bits of `p`. */
  method ShiftDigits(s: seq<Bigit>, p: nat, q: nat) returns (r: seq<Bigit>)
    requires p > 0 && q > 0 && p * q == B
    ensures Val(r) == Val(s) * p
    ensures |s| <= |r| <= |s| + 1 && (|r| > |s| ==> r[|s|] != 0)
  {
    r := s;
    var carry, i := 0, 0;
    while i < |s|
      invariant i <= |s| == |r| && 0 <= carry < p && (forall k :: i <= k < |s| ==> r[k] == s[k])
      invariant Val(r[..i]) + Pow(B, i) * carry == Val(s[..i]) * p
    {
      var digit, c := ShiftBigit(r[i], p, q, carry);
      ghost var before := r;
      r := r[i := digit];
      MulStep(Val(before[..i]), Pow(B, i), carry, Val(s[..i]), p, s[i], digit, c);
      ValNext(s, i);
      ValNext(r, i);
      assert r[..i] == before[..i];
      carry := c;
      i := i + 1;
    }
    assert r[..i] == r && s[..i] == s;
    if carry != 0 {
      CarryIsBigit(carry, p, q);
      ValAppend(r, [carry]);
      ValOne(carry);
      r := r + [carry];
    }
  }

  lemma CarryIsBigit(carry: nat, p: nat, q: nat)
    requires carry < p && q > 0 && p * q == B
    ensures carry < B
  {
    Scale(1, q, p);
  }

  // ---------- subtraction ----------

  /** `subtract_bigits`, in unsigned 64-bit arithmetic that wraps below zero */
  method SubtractBigits(d: Bigit, other: Bigit, borrow: Bigit) returns (digit: Bigit, borrow': Bigit)
    requires borrow <= 1
    ensures borrow' <= 1 && digit + other + borrow == d + B * borrow'
  {
    var x := d - other - borrow;
    Wraps(x);
    var result := x % DOUBLE;
    digit := result % B;
    borrow' := result / (DOUBLE / 2);
  }

  lemma Wraps(x: int)
    requires -B <= x < B
    ensures x % DOUBLE == if x < 0 then DOUBLE + x else x
    ensures x % DOUBLE % B == if x < 0 then B + x else x
    ensures x % DOUBLE / (DOUBLE / 2) == if x < 0 then 1 else 0
  {
    if x < 0 {
      DivisionOf(DOUBLE + x, B + x, B - 1);
    }
  }

  lemma ValUpdate(s: seq<Bigit>, i: nat, d: Bigit)
    requires i < |s|
    ensures Val(s[i := d]) == Val(s) + Pow(B, i) * (d - s[i])
  {
    var r := s[i := d];
    ValSplit(s, i + 1);
    ValSplit(r, i + 1);
    ValNext(s, i);
    ValNext(r, i);
    assert r[..i] == s[..i] && r[i + 1..] == s[i + 1..];
    Distribute(Pow(B, i), d as int - s[i] as int, s[i]);
  }

  /** The digits of the subtrahend reach beyond those below them: a one must be borrowed higher up. */
  ghost predicate Borrows(s: seq<Bigit>, t: seq<Bigit>, shift: nat)
    requires shift + |t| <= |s|
  {
    Val(s[..shift + |t|]) < Pow(B, shift) * Val(t)
  }

  /**
   What the borrow loop of `subtract_aligned` gets wrong. Its index stays where it is, so a digit 0
   above the subtrahend is lowered twice, and the digit above that one not at all.
   */
  ghost function BorrowError(s: seq<Bigit>, t: seq<Bigit>, shift: nat): nat
    requires shift + |t| <= |s|
  {
    var i := shift + |t|;
    if Borrows(s, t, shift) && i < |s| && s[i] == 0 then Pow(B, i) * (B - 1) else 0
  }

  /** `subtract_aligned` up to the removal of leading zeros; `shift` is the difference of exponents. */
  method SubtractDigits(s: seq<Bigit>, t: seq<Bigit>, shift: nat) returns (r: seq<Bigit>)
    requires shift + |t| <= |s| && Val(s) >= Pow(B, shift) * Val(t)
    ensures |r| == |s| && Val(r) + Pow(B, shift) * Val(t) == Val(s) + BorrowError(s, t, shift)
  {
    r := s;
    var i, j := shift, 0;
    var borrow: Bigit := 0;
    while j < |t|
      invariant j <= |t| && i == shift + j && |r| == |s| && borrow <= 1 && (forall k :: i <= k < |s| ==> r[k] == s[k])
      invariant Val(r[..i]) + Pow(B, shift) * Val(t[..j]) == Val(s[..i]) + Pow(B, i) * borrow
    {
      var digit, next := SubtractBigits(r[i], t[j], borrow);
      ghost var before := r;
      r := r[i := digit];
      SubtractStep(Val(before[..i]), Val(s[..i]), Val(t[..j]), shift, j, s[i], t[j], borrow, digit, next);
      ValNext(s, i);
      ValNext(t, j);
      ValNext(r, i);
      assert r[..i] == before[..i];
      borrow := next;
      i, j := i + 1, j + 1;
    }
    assert t[..j] == t;
    ValBound(r[..i]);
    assert r[i..] == s[i..];
    ValSplit(r, i);
    ValSplit(s, i);
    if i == |s| { assert s[i..] == []; }
    r := BorrowLoop(r, i, borrow);
  }

  lemma SubtractStep(
      doneR: int, doneS: int, doneT: int, shift: nat, j: nat, d: int, t: int, borrow: int, digit: int, next: int)
    requires doneR + Pow(B, shift) * doneT == doneS + Pow(B, shift + j) * borrow
    requires digit + t + borrow == d + B * next
    ensures doneR + Pow(B, shift + j) * digit + Pow(B, shift) * (doneT + Pow(B, j) * t)
            == doneS + Pow(B, shift + j) * d + Pow(B, shift + j + 1) * next
  {
    var p := Pow(B, shift + j);
    PowAdd(B, shift, j);
    Distribute(Pow(B, shift), doneT, Pow(B, j) * t);
    Associate(Pow(B, shift), Pow(B, j), t);
    Distribute(p, digit, t);
    Distribute(p, digit + t, borrow);
    Distribute(p, d, B * next);
    Associate(p, B, next);
  }

  /** The loop that should carry a borrow upwards; its index stays at `i`. */
  method BorrowLoop(s: seq<Bigit>, i: nat, b: Bigit) returns (r: seq<Bigit>)
    requires b <= 1 && (b > 0 ==> i < |s|)
    ensures |r| == |s|
    ensures Val(r) + Pow(B, i) * b == Val(s) + if b > 0 && s[i] == 0 then Pow(B, i) * (B - 1) else 0
  {
    r := s;
    var borrow := b;
    while borrow > 0
      invariant |r| == |s| && borrow <= 1 && (b > 0 ==> i < |s|) && (b == 0 ==> borrow == 0)
      invariant b > 0 && borrow > 0 ==> r == s || (s[i] == 0 && r == s[i := B - 1])
      invariant b > 0 && borrow == 0 ==> r == s[i := if s[i] == 0 then B - 2 else s[i] - 1]
      invariant b == 0 ==> r == s
      decreases borrow, if b > 0 && r == s then 1 else 0
    {
      var digit, next := SubtractBigits(r[i], 0, borrow);
      r := r[i := digit];
      borrow := next;
    }
    if b > 0 {
      ValUpdate(s, i, r[i]);
    }
  }

  // ---------- normal form ----------

  /** `remove_leading_zeros` keeps at least one digit. */
  method RemoveLeadingZeros(s: seq<Bigit>) returns (r: seq<Bigit>)
    requires s != []
    ensures Val(r) == Val(s) && r != [] && |r| <= |s| && (r == [0] || Leading(r))
  {
    var n := |s| - 1;
    while n > 0 && s[n] == 0
      invariant 0 <= n < |s| && forall k :: n < k < |s| ==> s[k] == 0
    {
      n := n - 1;
    }
    r := s[..n + 1];
    ValSplit(s, n + 1);
    ValZeros(s[n + 1..]);
  }

  lemma ZeroTop(s: seq<Bigit>)
    requires s != [] && s[|s| - 1] == 0
    ensures Val(s[..|s| - 1]) == Val(s)
  {
    ValNext(s, |s| - 1);
    assert s[..|s|] == s;
  }

  /** A minuend at most one digit longer is subtracted from correctly. */
  lemma NoBorrowError(s: seq<Bigit>, t: seq<Bigit>, shift: nat)
    requires shift + |t| <= |s| <= shift + |t| + 1 && Val(s) >= Pow(B, shift) * Val(t)
    ensures BorrowError(s, t, shift) == 0
  {
    var i := shift + |t|;
    if i < |s| && s[i] == 0 {
      ZeroTop(s);
      assert !Borrows(s, t, shift);
    }
  }

  /** Two digits longer, and the result can be too large by almost a digit squared. */
  lemma BorrowSkipsDigit()
    ensures var s, t := [0, 0, 1], [1];
      Val(s) >= Pow(B, 0) * Val(t) && BorrowError(s, t, 0) == B * (B - 1)
  {
    var s: seq<Bigit> := [0, 0, 1];
    ValOne(1);
    assert s[..1] == [0];
    ValOne(0);
    ValTop(s);
    PowPositive(B, 2);
    assert Pow(B, 0) == 1 && Pow(B, 1) == B;
  }

  // ---------- alignment ----------

  function Zeros(n: nat): (z: seq<Bigit>)
    ensures |z| == n && forall i :: 0 <= i < n ==> z[i] == 0
  {
    seq(n, _ => 0)
  }

  /** The digit moves of `align`: up by `d` places, from the top down, then zeros below. */
  method AlignDigits(s: seq<Bigit>, d: nat) returns (r: seq<Bigit>)
    requires d > 0
    ensures r == Zeros(d) + s && Val(r) == Pow(B, d) * Val(s)
  {
    r := s + Zeros(d);
    var i := |s|;
    while i > 0
      invariant 0 <= i <= |s| && |r| == |s| + d
      invariant r[i + d..] == s[i..] && r[..i] == s[..i]
    {
      i := i - 1;
      r := r[i + d := r[i]];
    }
    r := Zeros(d) + r[d..];
    ValAppend(Zeros(d), s);
    ValZeros(Zeros(d));
  }
}
