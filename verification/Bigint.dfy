/**
 fmt's `bigint` as an object: a number kept as 32-bit digits times a power of the digit base, which
 every operation updates in place to exactly the number it stands for.
 */
module BigInteger {
  import opened Numbers
  import opened Positional
  import opened BigitLoops
  import opened Convolution
  import opened Comparison

  // ---------- normal form ----------

  lemma LeadingIsPositive(s: seq<Bigit>)
    requires Leading(s)
    ensures Val(s) > 0
  {
    ValTop(s);
    PowPositive(B, |s| - 1);
  }

  /** Digits of a value that has not shrunk below `s`, and no shorter than `s`, still lead. */
  lemma StillLeading(s: seq<Bigit>, r: seq<Bigit>)
    requires Leading(s) && |r| >= |s| && Val(r) >= Val(s)
    requires |r| > |s| ==> r[|r| - 1] != 0
    ensures Leading(r)
  {
    if |r| == |s| {
      ValTop(s);
      ValTop(r);
    }
  }

  /** The factor below the exponent commutes with any other. */
  lemma ScaleValue(v: int, k: int, p: int)
    ensures (v * k) * p == (v * p) * k
  {
    Associate(v, k, p);
    Associate(v, p, k);
  }

  lemma {:induction false} DigitBits(n: nat)
    ensures Pow(B, n) == Pow(2, 32 * n)
  {
    if n > 0 {
      DigitBits(n - 1);
      TwoToThe32();
      PowAdd(2, 32, 32 * (n - 1));
    }
  }

  /** A shift by whole digits and by the bits that remain */
  lemma ShiftParts(shift: nat)
    ensures Pow(2, shift) == Pow(B, shift / 32) * Pow(2, shift % 32)
    ensures Pow(2, shift % 32) * Pow(2, 32 - shift % 32) == B
  {
    var d, m := shift / 32, shift % 32;
    TwoToThe32();
    DigitBits(d);
    PowAdd(2, 32 * d, m);
    PowAdd(2, m, 32 - m);
    assert shift == 32 * d + m;
  }

  lemma TwoToThe32()
    ensures Pow(2, 32) == B
  {
    assert Pow(2, 8) == 0x100;
    PowAdd(2, 8, 8);
    PowAdd(2, 16, 16);
  }

  /** A quotient that fits in an `int` means a minuend at most one digit longer than the divisor. */
  lemma QuotientLength(n: Big, d: Big)
    requires n.HasLeading() && n.Value() < 0x8000_0000 * d.Value()
    ensures n.NumBigits() <= d.NumBigits() + 1
  {
    ValueBound(n);
    ValueBound(d);
    if n.NumBigits() > d.NumBigits() + 1 {
      PowMonotone(B, d.NumBigits() + 1, n.NumBigits() - 1);
    }
  }

  class Bigint {
    var bigits: seq<Bigit>
    var exp: nat

    function View(): Big
      reads this
    {
      Big(bigits, exp)
    }

    ghost function Value(): nat
      reads this
    {
      View().Value()
    }

    constructor ()
      ensures View() == Big([], 0)
    {
      bigits, exp := [], 0;
    }

    /** `assign(const bigint&)` */
    method Assign(other: Bigint)
      modifies this
      ensures View() == old(other.View())
    {
      bigits, exp := other.bigits, other.exp;
    }

    /** `assign(uint64_t)` */
    method AssignNumber(n: nat)
      requires n < DOUBLE
      modifies this
      ensures Value() == n && exp == 0
      ensures if n == 0 then bigits == [0] else View().HasLeading()
    {
      bigits := AssignDigits(n);
      exp := 0;
      assert Pow(B, 0) == 1;
    }

    /** `multiply(uint32_t)` */
    method Multiply(value: Bigit)
      requires value > 0
      modifies this
      ensures Value() == old(Value()) * value && exp == old(exp)
      ensures old(View().HasLeading()) ==> View().HasLeading()
      ensures old(bigits) == [0] ==> bigits == [0]
    {
      ghost var s := bigits;
      bigits := MultiplyDigits(bigits, value);
      Multiplied(s, bigits, value, exp);
    }

    /** `multiply(uint64_t)` */
    method MultiplyWide(value: nat)
      requires 0 < value < DOUBLE
      modifies this
      ensures Value() == old(Value()) * value && exp == old(exp)
      ensures old(View().HasLeading()) ==> View().HasLeading()
    {
      ghost var s := bigits;
      ghost var carries;
      bigits, carries := MultiplyDigitsWide(bigits, value);
      Multiplied(s, bigits, value, exp);
    }

    /** `operator<<=` */
    method ShiftLeft(shift: nat)
      modifies this
      ensures Value() == old(Value()) * Pow(2, shift) && exp == old(exp) + shift / 32
      ensures old(View().HasLeading()) ==> View().HasLeading()
    {
      ghost var s, e := bigits, exp;
      ShiftParts(shift);
      exp := exp + shift / 32;
      var bits := shift % 32;
      if bits != 0 {
        bigits := ShiftDigits(bigits, Pow(2, bits), Pow(2, 32 - bits));
      }
      PowPositive(2, bits);
      Shifted(s, bigits, Pow(2, bits), e, shift / 32);
    }

    method Square()
      requires bigits != [] && |bigits| <= MAX_DIGITS
      modifies this
      ensures Value() == old(Value()) * old(Value()) && View().Normal()
      ensures exp == 2 * old(exp)
    {
      ghost var s, e := bigits, exp;
      var r := SquareDigits(bigits);
      bigits := RemoveLeadingZeros(r);
      exp := exp * 2;
      PowAdd(B, e, e);
      Shuffle(Val(s), Val(s), Pow(B, e), Pow(B, e));
    }

    /** `align` */
    method Align(other: Bigint)
      modifies this
      ensures Value() == old(Value())
      ensures exp == Min(old(exp), old(other.exp)) && View().NumBigits() == old(View().NumBigits())
      ensures old(View().HasLeading()) ==> View().HasLeading()
    {
      if exp > other.exp {
        var d := exp - other.exp;
        ghost var s := bigits;
        bigits := AlignDigits(bigits, d);
        exp := exp - d;
        PowAdd(B, d, exp);
        Reorder(Pow(B, d), Val(s), Pow(B, exp));
      }
    }

    /** `subtract_aligned`: the difference, but for what the borrow loop may add to it */
    method SubtractAligned(other: Bigint)
      requires other != this && other.View().HasLeading()
      requires exp <= other.exp && Value() >= other.Value()
      modifies this
      ensures other.exp - old(exp) + |other.bigits| <= |old(bigits)|
      ensures exp == old(exp) && View().Normal() && |bigits| <= |old(bigits)|
      ensures Value() + other.Value()
              == old(Value()) + BorrowError(old(bigits), other.bigits, other.exp - old(exp)) * Pow(B, exp)
    {
      ghost var s := bigits;
      var shift := other.exp - exp;
      Aligned(View(), other.View());
      var r := SubtractDigits(bigits, other.bigits, shift);
      bigits := RemoveLeadingZeros(r);
      Subtracted(s, other.bigits, r, shift, exp);
    }

    /** Subtraction inside a division whose quotient fits in an `int`: exact */
    method SubtractOnce(divisor: Bigint)
      requires divisor != this && divisor.View().HasLeading() && View().Normal()
      requires exp <= divisor.exp && divisor.Value() <= Value() < 0x8000_0000 * divisor.Value()
      modifies this
      ensures Value() == old(Value()) - divisor.Value() && exp == old(exp)
      ensures View().Normal() && Comparable(View(), divisor.View())
    {
      ghost var s := bigits;
      LeadingIsLarge(divisor.View());
      ZeroOrLeading(View());
      QuotientLength(View(), divisor.View());
      NoBorrow(s, divisor.bigits, divisor.exp - exp, exp);
      SubtractAligned(divisor);
      NormalIsComparable(View(), divisor.View());
    }

    /**
     `divmod_assign`: the true quotient and remainder, whenever the quotient fits in its `int`; except
     that equal numbers, the minuend with the larger exponent, are taken to divide 0 times.
     */
    method DivmodAssign(divisor: Bigint) returns (quotient: nat)
      requires divisor != this && divisor.View().HasLeading()
      requires View().Normal() && Comparable(View(), divisor.View())
      requires Value() < 0x8000_0000 * divisor.Value()
      modifies this
      ensures View().Normal() && Comparable(View(), divisor.View())
      ensures if quotient == 0 then View() == old(View()) else exp <= divisor.exp
      ensures old(Value()) == quotient * divisor.Value() + Value()
      ensures Value() < divisor.Value() <==> !(old(exp) > divisor.exp && old(Value()) == divisor.Value())
      ensures Value() <= divisor.Value()
    {
      ghost var before, d := Value(), divisor.Value();
      LeadingIsLarge(divisor.View());
      var c := Compare(View(), divisor.View());
      if c < 0 {
        return 0;
      }
      ZeroOrLeading(View());
      Align(divisor);
      quotient := 0;
      while c >= 0
        invariant exp <= divisor.exp && View().Normal() && quotient < 0x8000_0000
        invariant before == quotient * d + Value() && (c >= 0 <==> Value() >= d)
        invariant (quotient > 0 || c >= 0) && Comparable(View(), divisor.View())
        invariant d == divisor.Value() && divisor.View().HasLeading()
        decreases Value()
      {
        SubtractOnce(divisor);
        Again(quotient, d, before, Value());
        quotient := quotient + 1;
        c := Compare(View(), divisor.View());
      }
    }

    /** `assign_pow10`: ten to any power for which the top bit can be found in an `int` */
    method AssignPow10(e: nat)
      requires e < 0x4000_0000
      modifies this
      ensures Value() == Pow(10, e) && View().HasLeading()
    {
      assert Pow(10, 0) == 1;
      if e == 0 {
        AssignNumber(1);
        return;
      }
      var bitmask := 1;
      ghost var k: nat := 0;
      while e >= bitmask
        invariant bitmask == Pow(2, k) && 0 < bitmask < 0x8000_0000
        invariant k > 0 ==> e >= Pow(2, k - 1)
        decreases 0x8000_0000 - bitmask
      {
        k := k + 1;
        bitmask := bitmask * 2;
      }
      bitmask := bitmask / 2;
      k := k - 1;
      AssignNumber(5);
      FirstPower(e, bitmask);
      ghost var done := bitmask;
      bitmask := bitmask / 2;
      while bitmask != 0
        invariant done == Pow(2, k) && done > 0 && bitmask == done / 2
        invariant Value() == Pow(5, Prefix(e, done)) && exp == 0 && View().HasLeading()
        decreases k
      {
        Scale(2, done, Prefix(e, done));
        PowerLength(bigits, Prefix(e, done));
        Square();
        NextBit(e, bitmask);
        NextPower(Prefix(e, done), Prefix(e, bitmask));
        if Prefix(e, bitmask) % 2 == 1 {
          Multiply(5);
        }
        ZeroOrLeading(View());
        done := bitmask;
        bitmask := bitmask / 2;
        k := k - 1;
      }
      TenAsFives(e);
      ShiftLeft(e);
    }
  }

  lemma Multiplied(s: seq<Bigit>, r: seq<Bigit>, value: nat, exp: nat)
    requires value > 0 && Val(r) == Val(s) * value && |s| <= |r| && (|r| > |s| ==> r[|r| - 1] != 0)
    ensures Big(r, exp).Value() == Big(s, exp).Value() * value
    ensures Leading(s) ==> Leading(r)
    ensures s == [0] ==> r == [0]
  {
    ScaleValue(Val(s), value, Pow(B, exp));
    Scale(1, value, Val(s));
    if Leading(s) {
      StillLeading(s, r);
    }
    if s == [0] {
      ValOne(0);
      if Leading(r) { LeadingIsPositive(r); }
    }
  }

  lemma Shifted(s: seq<Bigit>, r: seq<Bigit>, p: nat, exp: nat, d: nat)
    requires p > 0 && Val(r) == Val(s) * p && |s| <= |r| && (|r| > |s| ==> r[|r| - 1] != 0)
    ensures Big(r, exp + d).Value() == Big(s, exp).Value() * (Pow(B, d) * p)
    ensures Leading(s) ==> Leading(r)
  {
    Multiplied(s, r, p, exp);
    PowAdd(B, exp, d);
    Associate(Val(r), Pow(B, exp), Pow(B, d));
    Associate(Big(s, exp).Value(), p, Pow(B, d));
  }

  lemma ZeroOrLeading(x: Big)
    requires x.Normal()
    ensures x.HasLeading() <==> x.Value() > 0
  {
    if x.HasLeading() {
      LeadingIsLarge(x);
    } else {
      ValOne(0);
    }
  }

  lemma LeadingIsLarge(x: Big)
    requires x.HasLeading()
    ensures x.Value() > 0 && x.Value() >= Pow(B, x.exp)
  {
    LeadingIsPositive(x.bigits);
    PowPositive(B, x.exp);
    Scale(1, Val(x.bigits), Pow(B, x.exp));
  }

  /** A number in normal form that is aligned to another compares with it. */
  lemma NormalIsComparable(x: Big, y: Big)
    requires x.Normal() && y.HasLeading() && x.exp <= y.exp
    ensures Comparable(x, y)
  {
  }

  // ---------- subtraction ----------

  lemma ValueFrom(x: Big, e: nat)
    requires e <= x.exp
    ensures x.Value() == Pow(B, x.exp - e) * Val(x.bigits) * Pow(B, e)
  {
    PowAdd(B, x.exp - e, e);
    Reorder(Pow(B, x.exp - e), Val(x.bigits), Pow(B, e));
  }

  lemma Aligned(x: Big, y: Big)
    requires x.exp <= y.exp && y.HasLeading() && x.Value() >= y.Value()
    ensures y.exp - x.exp + |y.bigits| <= |x.bigits|
    ensures Val(x.bigits) >= Pow(B, y.exp - x.exp) * Val(y.bigits)
  {
    if y.NumBigits() > x.NumBigits() {
      LongerIsLarger(y, x);
    }
    ValueFrom(y, x.exp);
    PowPositive(B, x.exp);
    var v, w := Val(x.bigits), Pow(B, y.exp - x.exp) * Val(y.bigits);
    if v < w { ScaleStrict(v, w, Pow(B, x.exp)); }
  }

  lemma Subtracted(s: seq<Bigit>, t: seq<Bigit>, r: seq<Bigit>, shift: nat, exp: nat)
    requires shift + |t| <= |s|
    requires Val(r) + Pow(B, shift) * Val(t) == Val(s) + BorrowError(s, t, shift)
    ensures Big(r, exp).Value() + Big(t, exp + shift).Value()
            == Big(s, exp).Value() + BorrowError(s, t, shift) * Pow(B, exp)
  {
    ValueFrom(Big(t, exp + shift), exp);
    Distribute(Pow(B, exp), Val(r), Pow(B, shift) * Val(t));
    Distribute(Pow(B, exp), Val(s), BorrowError(s, t, shift));
  }

  lemma NoBorrow(s: seq<Bigit>, t: seq<Bigit>, shift: nat, exp: nat)
    requires Big(s, exp).NumBigits() <= Big(t, exp + shift).NumBigits() + 1 && Leading(t)
    requires Big(s, exp).Value() >= Big(t, exp + shift).Value()
    ensures shift + |t| <= |s| && BorrowError(s, t, shift) == 0
  {
    Aligned(Big(s, exp), Big(t, exp + shift));
    NoBorrowError(s, t, shift);
  }

  lemma Again(quotient: nat, d: nat, before: nat, rest: nat)
    requires before == quotient * d + (rest + d) && before < 0x8000_0000 * d
    ensures before == (quotient + 1) * d + rest && quotient + 1 < 0x8000_0000
  {
    Distribute(d, quotient, 1);
    if quotient + 1 >= 0x8000_0000 { Scale(0x8000_0000, quotient + 1, d); }
  }

  // ---------- powers of ten ----------

  /** The bits of `e` from `bit` up, read as a number */
  function Prefix(e: nat, bit: nat): (q: nat)
    requires bit > 0
    ensures q * bit <= e < q * bit + bit && q <= e
  {
    QuotientBound(e, bit);
    e / bit
  }

  lemma QuotientBound(e: nat, m: nat)
    requires m > 0
    ensures 0 <= e / m <= e && e / m * m <= e < e / m * m + m
  {
    assert e == e / m * m + e % m;
    Scale(1, m, e / m);
  }

  lemma PrefixIs(e: nat, bit: nat, q: nat)
    requires bit > 0 && q * bit <= e < q * bit + bit
    ensures Prefix(e, bit) == q
  {
    var p := Prefix(e, bit);
    if p < q { ScaleStrict(p, q, bit); }
    if p > q { ScaleStrict(q, p, bit); }
  }

  lemma FirstPower(e: nat, top: nat)
    requires 0 < top <= e < 2 * top
    ensures Pow(5, Prefix(e, top)) == 5
  {
    PrefixIs(e, top, 1);
    assert Pow(5, 1) == 5;
  }

  /** One more bit of the exponent. */
  lemma NextBit(e: nat, bit: nat)
    requires bit > 0
    ensures Prefix(e, bit) == 2 * Prefix(e, 2 * bit) + Prefix(e, bit) % 2
  {
    var q := Prefix(e, 2 * bit);
    TwiceBit(q, bit);
    if e < q * (2 * bit) + bit {
      PrefixIs(e, bit, 2 * q);
    } else {
      PrefixIs(e, bit, 2 * q + 1);
    }
  }

  lemma TwiceBit(q: int, bit: int)
    ensures q * (2 * bit) == 2 * q * bit && (2 * q + 1) * bit == 2 * q * bit + bit
  {
    Associate(q, 2, bit);
    Distribute(bit, 2 * q, 1);
  }

  /** ... means to square, and to multiply if the bit is set. */
  lemma NextPower(q: nat, q': nat)
    requires q' == 2 * q + q' % 2
    ensures Pow(5, q') == Pow(5, q) * Pow(5, q) * (if q' % 2 == 1 then 5 else 1) > 0
  {
    PowAdd(5, q, q);
    PowPositive(5, q');
    if q' % 2 == 1 { PowAdd(5, 2 * q, 1); }
  }

  lemma {:induction false} PowBase(a: nat, b: nat, e: nat)
    requires a <= b
    ensures Pow(a, e) <= Pow(b, e)
  {
    if e > 0 {
      PowBase(a, b, e - 1);
      Scale(a, b, Pow(a, e - 1));
      Scale(Pow(a, e - 1), Pow(b, e - 1), b);
    }
  }

  /** A power of five has no more digits than its exponent and one, so they can be counted. */
  lemma PowerLength(s: seq<Bigit>, j: nat)
    requires j < 0x2000_0000 && Leading(s) && Big(s, 0).Value() == Pow(5, j)
    ensures |s| <= MAX_DIGITS
  {
    assert Pow(B, 0) == 1;
    ValTop(s);
    FivesAreShort(|s| - 1, j);
  }

  lemma FivesAreShort(n: nat, j: nat)
    requires Pow(B, n) <= Pow(5, j)
    ensures n <= j
  {
    if n > j {
      PowBase(5, B, j);
      PowMonotone(B, j + 1, n);
      PowPositive(B, j);
    }
  }

  lemma TenAsFives(e: nat)
    ensures Pow(5, e) * Pow(2, e) == Pow(10, e) && Prefix(e, 1) == e
  {
    PowProduct(5, 2, e);
    PrefixIs(e, 1, e);
  }
}
