/**
 The fixed-digit part of fmt's `format_dragon`: for every binary floating-point value and every number
 of digits, the digits and the decimal exponent are those of the value rounded half to even.
 */
module Dragon {
  import opened Numbers
  import opened Positional
  import opened Comparison
  import opened BigInteger
  import opened Rounding

  // ---------- generating digits ----------

  ghost predicate Ready(num: Big, den: Big) {
    num.Normal() && den.HasLeading() && Comparable(num, den) && num.Value() < 10 * den.Value()
  }

  /** The numerator never equals the denominator in value while its exponent is the larger one. */
  ghost predicate NoTie(num: Big, den: Big) {
    num.exp > den.exp ==> forall i: nat :: num.Value() * Pow(10, i) != den.Value()
  }

  /** One digit: the quotient, leaving the remainder. */
  method NextDigit(num: Bigint, den: Bigint) returns (digit: nat)
    requires num != den && Ready(num.View(), den.View())
    requires num.exp > den.exp ==> num.Value() != den.Value()
    modifies num
    ensures digit <= 9 && old(num.Value()) == digit * den.Value() + num.Value() && num.Value() < den.Value()
    ensures num.View().Normal() && Comparable(num.View(), den.View())
    ensures num.exp > den.exp ==> digit == 0 && num.View() == old(num.View())
  {
    LeadingIsLarge(den.View());
    digit := num.DivmodAssign(den);
    if digit >= 10 { Scale(10, digit, den.Value()); }
  }

  method TimesTen(num: Bigint, den: Bigint)
    requires num != den && den.View().HasLeading()
    requires num.View().Normal() && Comparable(num.View(), den.View()) && num.Value() < den.Value()
    modifies num
    ensures Ready(num.View(), den.View()) && num.Value() == 10 * old(num.Value()) && num.exp == old(num.exp)
  {
    num.Multiply(10);
  }

  lemma DigitStep(total: int, v: int, d: int, r: int, digit: int, r': int)
    requires total == (v * 10) * d + r && r == digit * d + r'
    ensures total == (10 * v + digit) * d + r'
  {
    Distribute(d, v * 10, digit);
  }

  lemma TenSteps(total: int, v: int, d: int, r: int)
    requires total == v * d + r
    ensures 10 * total == (v * 10) * d + 10 * r
  {
    Associate(10, v, d);
  }

  /** Digit `i + 1` of the exact quotient, with what is left for the digits after it */
  method Generate(num: Bigint, den: Bigint, n: nat) returns (buf: seq<nat>)
    requires num != den && Ready(num.View(), den.View()) && NoTie(num.View(), den.View())
    modifies num
    ensures |buf| == n && Digits(buf) && Ready(num.View(), den.View())
    ensures old(num.Value()) * Pow(10, n) == (Decimal(buf) * 10) * den.Value() + num.Value()
    ensures num.exp > den.exp ==> num.Value() != den.Value()
  {
    ghost var total, d := num.Value(), den.Value();
    ghost var start := num.View();
    assert Pow(10, 0) == 1;
    buf := [];
    while |buf| < n
      invariant |buf| <= n && Digits(buf) && Ready(num.View(), den.View())
      invariant den.View() == old(den.View())
      invariant total * Pow(10, |buf|) == (Decimal(buf) * 10) * d + num.Value()
      invariant num.exp > den.exp ==> start.exp > den.exp && num.Value() == total * Pow(10, |buf|)
    {
      ghost var r := num.Value();
      var digit := NextDigit(num, den);
      DigitStep(total * Pow(10, |buf|), Decimal(buf), d, r, digit, num.Value());
      DecimalPush(buf, digit);
      Factor10(total, Pow(10, |buf|));
      buf := buf + [digit];
      TenSteps(total * Pow(10, |buf| - 1), Decimal(buf), d, num.Value());
      TimesTen(num, den);
    }
  }

  // ---------- the last digit ----------

  /** Propagates the 10 that rounding up made of the last digit. */
  method PropagateCarry(buf: seq<nat>) returns (r: seq<nat>, up: bool)
    requires buf != [] && Digits(buf[..|buf| - 1]) && buf[|buf| - 1] == 10
    ensures |r| == |buf| && Digits(r)
    ensures Decimal(buf) == Decimal(r) * if up then 10 else 1
    ensures up ==> Decimal(r) == Pow(10, |r| - 1)
  {
    r := buf;
    var i := |buf| - 1;
    while i > 0 && r[i] == 10
      invariant 0 <= i < |buf| == |r| && Decimal(r) == Decimal(buf) && r[i] <= 10
      invariant forall k :: 0 <= k < i ==> r[k] <= 9
      invariant forall k :: i < k < |r| ==> r[k] == 0
    {
      CarryMoves(r, i);
      r := r[i := 0];
      r := r[i - 1 := r[i - 1] + 1];
      i := i - 1;
    }
    up := r[0] == 10;
    if up {
      DecimalLead(r);
      r := r[0 := 1];
      DecimalLead(r);
    }
  }

  /** Rounds by the remainder and the parity of the last digit, then carries. */
  method RoundLast(num: Bigint, den: Bigint, buf: seq<nat>, last: nat) returns (r: seq<nat>, up: bool)
    requires den.View().HasLeading() && Comparable(num.View(), den.View())
    requires Digits(buf) && last <= 9
    ensures |r| == |buf| + 1 && Digits(r) && (up ==> Decimal(r) == Pow(10, |r| - 1))
    ensures Decimal(r) * (if up then 10 else 1) ==
      10 * Decimal(buf) + last + if RoundsUp(num.Value(), den.Value(), last) then 1 else 0
  {
    var digit := last;
    var result := AddCompare(num.View(), num.View(), den.View());
    up := false;
    if result > 0 || (result == 0 && digit % 2 != 0) {
      if digit == 9 {
        DecimalPush(buf, 10);
        r, up := PropagateCarry(buf + [10]);
        return;
      }
      digit := digit + 1;
    }
    DecimalPush(buf, digit);
    r := buf + [digit];
  }

  ghost predicate RoundsUp(remainder: nat, d: nat, last: nat) {
    2 * remainder > d || (2 * remainder == d && last % 2 == 1)
  }

  lemma LastRounds(total: int, v: nat, d: nat, r: int, digit: nat, rest: nat)
    requires total == (v * 10) * d + r && r == digit * d + rest && rest < d
    ensures Rounds(10 * v + digit + (if RoundsUp(rest, d, digit) then 1 else 0), total, d)
  {
    DigitStep(total, v, d, r, digit, rest);
    RoundsFromRemainder(total, d, 10 * v + digit, rest);
  }

  /** `n` digits of the quotient, and whether they overflowed into one more */
  method FixedDigits(num: Bigint, den: Bigint, n: nat) returns (buf: seq<nat>, up: bool)
    requires num != den && n > 0 && Ready(num.View(), den.View()) && NoTie(num.View(), den.View())
    modifies num
    ensures |buf| == n && Digits(buf) && (up ==> Decimal(buf) == Pow(10, n - 1))
    ensures Rounds(Decimal(buf) * if up then 10 else 1, old(num.Value()) * Pow(10, n - 1), den.Value())
  {
    ghost var total := num.Value() * Pow(10, n - 1);
    buf := Generate(num, den, n - 1);
    ghost var r := num.Value();
    var digit := NextDigit(num, den);
    LastRounds(total, Decimal(buf), den.Value(), r, digit, num.Value());
    buf, up := RoundLast(num, den, buf, digit);
  }

  // ---------- powers of two, five and ten ----------

  lemma {:induction false} FivesAreOdd(k: nat)
    ensures Pow(5, k) % 2 == 1
  {
    if k > 0 { FivesAreOdd(k - 1); }
  }

  lemma {:induction false} TwosLackFive(k: nat)
    ensures Pow(2, k) % 5 != 0
  {
    if k > 0 { TwosLackFive(k - 1); }
  }

  lemma Cancel(x: int, y: int, p: int)
    requires p > 0 && x * p == y * p
    ensures x == y
  {
    if x < y { ScaleStrict(x, y, p); }
    if y < x { ScaleStrict(y, x, p); }
  }

  /** A 64-bit significand with a binary exponent of 32 or more is never a power of ten. */
  lemma NotPowerOfTen(f: nat, e: nat, k: nat)
    requires e >= 32 && 0 < f < DOUBLE
    ensures f * Pow(2, e) != Pow(10, k)
  {
    PowProduct(2, 5, k);
    if f * Pow(2, e) == Pow(2, k) * Pow(5, k) {
      if e <= k {
        TooManyFives(f, e, k);
      } else {
        TooManyTwos(f, e, k);
      }
    }
  }

  lemma TooManyFives(f: nat, e: nat, k: nat)
    requires 32 <= e <= k && 0 < f < DOUBLE
    ensures f * Pow(2, e) != Pow(2, k) * Pow(5, k)
  {
    if f * Pow(2, e) == Pow(2, k) * Pow(5, k) {
      var x := Pow(2, k - e) * Pow(5, k);
      PowAdd(2, e, k - e);
      Associate(Pow(2, e), Pow(2, k - e), Pow(5, k));
      PowPositive(2, e);
      Cancel(f, x, Pow(2, e));
      PowPositive(2, k - e);
      Scale(1, Pow(2, k - e), Pow(5, k));
      PowMonotone(5, 32, k);
      FiveToThe32();
    }
  }

  lemma FiveToThe32()
    ensures Pow(5, 32) > DOUBLE
  {
    assert Pow(5, 4) == 625;
    PowAdd(5, 4, 4);
    PowAdd(5, 8, 8);
    PowAdd(5, 16, 16);
  }

  lemma TooManyTwos(f: nat, e: nat, k: nat)
    requires k < e
    ensures f * Pow(2, e) != Pow(2, k) * Pow(5, k)
  {
    var rest := Pow(2, e - k - 1);
    PowAdd(2, k, e - k);
    PowPositive(2, k);
    FivesAreOdd(k);
    if f * (Pow(2, k) * (2 * rest)) == Pow(2, k) * Pow(5, k) {
      EvenFactor(f, Pow(2, k), rest, Pow(5, k));
    }
  }

  lemma EvenFactor(f: int, p: int, t: int, x: int)
    requires p > 0 && f * (p * (2 * t)) == p * x
    ensures x == 2 * (f * t)
  {
    Rotate(f, p, 2 * t);
    Rotate(f, 2, t);
    Cancel(f * (2 * t), x, p);
  }

  /** Whole numbers: a numerator with digits to spare is no power of ten, in any decimal place. */
  lemma LargeNoTie(num: Big, den: Big, f: nat, e: nat, s: nat, x: nat)
    requires 0 < f && 0 < s && f * s < DOUBLE && num.exp == e / 32
    requires num.Value() == (f * s) * Pow(2, e) && den.Value() == Pow(10, x) * s
    ensures NoTie(num, den)
  {
    if num.exp > 0 {
      Scale(1, s, f);
      forall i: nat ensures num.Value() * Pow(10, i) != den.Value() {
        if num.Value() * Pow(10, i) == den.Value() {
          ScaleValue(f, s, Pow(2, e));
          ScaleValue(f * Pow(2, e), s, Pow(10, i));
          Cancel(f * Pow(2, e) * Pow(10, i), Pow(10, x), s);
          NotTenTimes(f, e, i, x);
        }
      }
    }
  }

  lemma NotTenTimes(f: nat, e: nat, i: nat, x: nat)
    requires e >= 32 && 0 < f < DOUBLE
    ensures f * Pow(2, e) * Pow(10, i) != Pow(10, x)
  {
    var v := f * Pow(2, e);
    PowPositive(2, e);
    Scale(1, f, Pow(2, e));
    if i > x {
      TooLarge(v, i, x);
    } else if v * Pow(10, i) == Pow(10, x) {
      NotPowerOfTen(f, e, x - i);
      PowAdd(10, x - i, i);
      PowPositive(10, i);
      Cancel(v, Pow(10, x - i), Pow(10, i));
    }
  }

  lemma TooLarge(v: int, i: nat, x: nat)
    requires v >= 1 && i > x
    ensures v * Pow(10, i) > Pow(10, x)
  {
    Scale(1, v, Pow(10, i));
    PowMonotone(10, x + 1, i);
    PowPositive(10, x);
  }

  /** Small fractions: the numerator is a multiple of five, the denominator is not. */
  lemma SmallNoTie(num: Big, den: Big, significand: nat, j: nat, m: nat)
    requires m > 0 && num.Value() == Pow(10, m) * significand && den.Value() == Pow(2, j)
    ensures NoTie(num, den)
  {
    TwosLackFive(j);
    forall i: nat ensures num.Value() * Pow(10, i) != den.Value() {
      MultipleOfFive(Pow(10, m - 1), significand, Pow(10, i));
    }
  }

  lemma MultipleOfFive(x: nat, y: nat, z: nat)
    ensures ((10 * x) * y) * z % 5 == 0
  {
    Associate(10, x, y);
    Associate(10, x * y, z);
    var rest := x * y * z;
    assert ((10 * x) * y) * z == 10 * rest;
  }

  // ---------- the ratio set up ----------

  lemma UpIsPow(b: nat, k: int)
    ensures k >= 0 ==> Up(b, k) == Pow(b, k)
    ensures k <= 0 ==> Up(b, k) == 1
  {
  }

  lemma LargeRatio(f: nat, e: nat, s: nat, x: nat)
    ensures Equals((f * s) * Pow(2, e), Pow(10, x) * s, f, e, x)
  {
    UpIsPow(2, e);
    UpIsPow(2, -(e as int));
    UpIsPow(10, x);
    UpIsPow(10, -(x as int));
    MoveFactor(f, s, Pow(2, e), Pow(10, x));
  }

  lemma MoveFactor(f: int, s: int, p: int, t: int)
    ensures ((f * s) * p) * t == (f * p) * (t * s)
  {
    ScaleValue(f, s, p);
    Associate(f * p, s, t);
  }

  lemma SmallRatio(f: nat, e: int, shift: nat, x: int)
    requires e < 0 && x < 0
    ensures Equals(Pow(10, -x) * (f * Pow(2, shift)), Pow(2, shift - e), f, e, x)
  {
    var t, s, p := Pow(10, -x), Pow(2, shift), Pow(2, -e);
    PowAdd(2, shift, -e);
    Associate(t, f, s);
    Associate(t * f, s, p);
  }

  lemma MixedRatio(f: nat, e: int, shift: nat, x: nat)
    requires e < 0
    ensures Equals(f * Pow(2, shift), Pow(10, x) * Pow(2, shift - e), f, e, x)
  {
    var t, s, p := Pow(10, x), Pow(2, shift), Pow(2, -e);
    PowAdd(2, shift, -e);
    UpIsPow(10, x);
    UpIsPow(10, -(x as int));
    Associate(f, s, p * t);
    Associate(s, p, t);
  }

  lemma OneExponentMore(a: nat, b: nat, f: nat, e: int, k: int)
    requires Equals(a, b, f, e, k)
    ensures Equals(a, 10 * b, f, e, k + 1)
  {
    NextExponent(a, 10 * b, f, e, k + 1);
    Associate(10, a, Denom(e, k));
    Factor10(Numer(f, e, k), b);
  }

  // ---------- the whole ----------

  /** A whole number is not below 1, so the estimate of its decimal exponent is not negative. */
  lemma WholeNumber(f: nat, e: int, exp10: int)
    requires 0 < f && Numer(f, e, exp10) < 10 * Denom(e, exp10) && e >= 0
    ensures exp10 >= 0
  {
    assert Pow(10, 1) == 10;
    if exp10 < 0 {
      UpPositive(2, e);
      Scale(1, f, Up(2, e));
      PowMonotone(10, 1, -exp10);
      Scale(1, f * Up(2, e), Up(10, -exp10));
    }
  }

  /** The numerator and denominator of `f * 2^e / 10^exp10`, both times `2^shift` */
  method SetUp(f: nat, e: int, shift: nat, exp10: int) returns (num: Bigint, den: Bigint)
    requires 0 < f && 0 < shift && f * Pow(2, shift) < DOUBLE
    requires -0x4000_0000 < exp10 < 0x4000_0000
    requires Numer(f, e, exp10) < 10 * Denom(e, exp10)
    ensures fresh(num) && fresh(den) && num != den
    ensures num.View().HasLeading() && den.Value() > 0 && Ready(num.View(), den.View())
    ensures Equals(num.Value(), den.Value(), f, e, exp10) && NoTie(num.View(), den.View())
  {
    var significand := f * Pow(2, shift);
    if e >= 0 { WholeNumber(f, e, exp10); }
    PowPositive(2, shift);
    Scale(1, Pow(2, shift), f);
    num := new Bigint();
    den := new Bigint();
    if e >= 0 {
      num.AssignNumber(significand);
      num.ShiftLeft(e);
      den.AssignPow10(exp10);
      den.ShiftLeft(shift);
      LargeRatio(f, e, Pow(2, shift), exp10);
      LargeNoTie(num.View(), den.View(), f, e, Pow(2, shift), exp10);
    } else if exp10 < 0 {
      num.AssignPow10(-exp10);
      num.MultiplyWide(significand);
      den.AssignNumber(1);
      den.ShiftLeft(shift - e);
      SmallRatio(f, e, shift, exp10);
      SmallNoTie(num.View(), den.View(), significand, shift - e, -exp10);
    } else {
      num.AssignNumber(significand);
      den.AssignPow10(exp10);
      den.ShiftLeft(shift - e);
      MixedRatio(f, e, shift, exp10);
    }
    LeadingIsLarge(den.View());
    EstimateIsRatio(num.Value(), den.Value(), f, e, exp10);
  }

  /**
   With `k` the decimal exponent of the last digit asked for, the digits are the integer nearest to
   the value in units of `10^k`, the even one of two; or a tenth of it, if it has a digit too many.
   */
  method FormatDragon(f: nat, e: int, predecessorCloser: bool, numDigits: nat, exp10: int)
    returns (buf: seq<nat>, exp10': int)
    requires 0 < f < 0x4000_0000_0000_0000
    requires -0x4000_0000 < exp10 < 0x4000_0000
    requires Numer(f, e, exp10) < 10 * Denom(e, exp10)
    ensures |buf| == Max(numDigits, 1) && Digits(buf)
    ensures var k := exp10 - numDigits + 1;
      && (exp10' == k || (exp10' == k + 1 && numDigits > 0 && Decimal(buf) == Pow(10, numDigits - 1)))
      && Rounds(Decimal(buf) * Pow(10, exp10' - k), Numer(f, e, k), Denom(e, k))
  {
    var shift := if predecessorCloser then 2 else 1;
    assert Pow(2, shift) <= 4 by { assert Pow(2, 2) == 4 && Pow(2, 1) == 2; }
    Scale(Pow(2, shift), 4, f);
    var num, den := SetUp(f, e, shift, exp10);
    if numDigits == 0 {
      var digit := NoDigits(num, den, f, e, exp10);
      OneDigit(digit);
      return [digit], exp10 + 1;
    }
    var up;
    buf, up := SomeDigits(num, den, numDigits, f, e, exp10);
    exp10' := exp10 - numDigits + if up then 2 else 1;
    Powers();
  }

  /** The case of one digit or more, in terms of the value */
  method SomeDigits(num: Bigint, den: Bigint, n: nat, ghost f: nat, ghost e: int, ghost exp10: int)
    returns (buf: seq<nat>, up: bool)
    requires num != den && n > 0 && Ready(num.View(), den.View()) && NoTie(num.View(), den.View())
    requires den.Value() > 0 && Equals(num.Value(), den.Value(), f, e, exp10)
    modifies num
    ensures |buf| == n && Digits(buf) && (up ==> Decimal(buf) == Pow(10, n - 1))
    ensures var k := exp10 - n + 1; Rounds(Decimal(buf) * (if up then 10 else 1), Numer(f, e, k), Denom(e, k))
  {
    ghost var a, d := num.Value() * Pow(10, n - 1), den.Value();
    LowerExponent(num.Value(), d, f, e, exp10, n - 1);
    buf, up := FixedDigits(num, den, n);
    SameRounding(Decimal(buf) * (if up then 10 else 1), a, d, f, e, exp10 - (n - 1));
  }

  lemma Powers()
    ensures Pow(10, 0) == 1 && Pow(10, 1) == 10
  {
  }

  lemma OneDigit(digit: nat)
    ensures Decimal([digit]) * Pow(10, 0) == digit
  {
    assert [digit][..0] == [];
  }

  lemma EstimateIsRatio(a: nat, b: nat, f: nat, e: int, k: int)
    requires Equals(a, b, f, e, k) && b > 0 && Numer(f, e, k) < 10 * Denom(e, k)
    ensures a < 10 * b
  {
    DenomPositive(e, k);
    ScaleStrict(Numer(f, e, k), 10 * Denom(e, k), b);
    Associate(10, Denom(e, k), b);
    Associate(10, b, Denom(e, k));
    if a >= 10 * b { Scale(10 * b, a, Denom(e, k)); }
  }

  lemma SameRounding(m: int, a: nat, b: nat, f: nat, e: int, k: int)
    requires b > 0 && Equals(a, b, f, e, k) && Rounds(m, a, b)
    ensures Rounds(m, Numer(f, e, k), Denom(e, k))
  {
    DenomPositive(e, k);
    RoundsRatio(m, a, b, Numer(f, e, k), Denom(e, k));
  }

  /** The one digit written when none is asked for */
  method NoDigits(num: Bigint, den: Bigint, ghost f: nat, ghost e: int, ghost exp10: int) returns (digit: nat)
    requires num != den && num.View().HasLeading() && den.View().HasLeading() && num.Value() < 10 * den.Value()
    requires Equals(num.Value(), den.Value(), f, e, exp10)
    modifies den
    ensures digit <= 1 && Rounds(digit, Numer(f, e, exp10 + 1), Denom(e, exp10 + 1))
  {
    ghost var a, b := num.Value(), den.Value();
    den.Multiply(10);
    var c := AddCompare(num.View(), num.View(), den.View());
    digit := if c > 0 then 1 else 0;
    RoundsFromRemainder(a, 10 * b, 0, a);
    OneExponentMore(a, b, f, e, exp10);
    SameRounding(digit, a, 10 * b, f, e, exp10 + 1);
  }
}
