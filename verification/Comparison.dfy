/**
 The numbers of fmt's `bigint`, digits times a power of the digit base, as values; and the two
 comparisons that read them, `compare` and `add_compare`, with what they decide for all operands.
 */
module Comparison {
  import opened Numbers
  import opened Positional
  import opened BigitLoops
  import opened Convolution

  datatype Big = Big(bigits: seq<Bigit>, exp: nat) {
    ghost function Value(): nat {
      Val(bigits) * Pow(B, exp)
    }

    function NumBigits(): nat {
      |bigits| + exp
    }

    /** `get_bigit` */
    function Digit(i: int): Bigit {
      if exp <= i < exp + |bigits| then bigits[i - exp] else 0
    }

    /** The value without its digits below position `i` */
    ghost function High(i: nat): nat {
      if i <= exp then Val(bigits) * Pow(B, exp - i)
      else if i >= NumBigits() then 0
      else Val(bigits[i - exp..])
    }

    ghost predicate HasLeading() {
      Leading(bigits)
    }

    ghost predicate Normal() {
      HasLeading() || bigits == [0]
    }
  }

  lemma HighStep(x: Big, i: nat)
    ensures x.High(i) == x.Digit(i) + B * x.High(i + 1)
  {
    if i < x.exp {
      Rotate(Val(x.bigits), B, Pow(B, x.exp - i - 1));
    } else if i < x.NumBigits() {
      HighStepInside(x.bigits, i - x.exp);
      HighAsSuffix(x, i);
      HighAsSuffix(x, i + 1);
    } else {
      HighAsSuffix(x, i);
      HighAsSuffix(x, i + 1);
    }
  }

  /** From its exponent on, the high part of a number is the value of its higher digits. */
  lemma HighAsSuffix(x: Big, i: nat)
    requires i >= x.exp
    ensures x.High(i) == if i >= x.NumBigits() then 0 else Val(x.bigits[i - x.exp..])
  {
    if i == x.exp {
      assert Pow(B, 0) == 1;
      assert x.bigits[0..] == x.bigits;
    }
  }

  lemma HighStepInside(s: seq<Bigit>, k: nat)
    requires k < |s|
    ensures Val(s[k..]) == s[k] + B * if k + 1 >= |s| then 0 else Val(s[k + 1..])
  {
    assert s[k..][1..] == s[k + 1..];
    if k + 1 == |s| { assert s[k + 1..] == []; }
  }

  lemma Rotate(v: int, b: int, p: int)
    ensures v * (b * p) == b * (v * p)
  {
    Associate(v, b, p);
    Associate(b, v, p);
  }

  lemma HighBounds(x: Big, i: nat)
    ensures x.High(i) * Pow(B, i) <= x.Value() < x.High(i) * Pow(B, i) + Pow(B, i)
    ensures i <= x.exp ==> x.Value() == x.High(i) * Pow(B, i)
  {
    PowPositive(B, i);
    if i <= x.exp {
      PowAdd(B, x.exp - i, i);
      Associate(Val(x.bigits), Pow(B, x.exp - i), Pow(B, i));
    } else if i >= x.NumBigits() {
      ValueBound(x);
      PowMonotone(B, x.NumBigits(), i);
    } else {
      HighBoundsInside(x, i - x.exp);
    }
  }

  lemma HighBoundsInside(x: Big, k: nat)
    requires k < |x.bigits|
    ensures var h, p := Val(x.bigits[k..]), Pow(B, k + x.exp); h * p <= x.Value() < h * p + p
  {
    var low, high, q := Val(x.bigits[..k]), Val(x.bigits[k..]), Pow(B, x.exp);
    ValSplit(x.bigits, k);
    ValBound(x.bigits[..k]);
    PowAdd(B, k, x.exp);
    PowPositive(B, x.exp);
    ScaleStrict(low, Pow(B, k), q);
    Distribute(q, low, Pow(B, k) * high);
    Reorder(Pow(B, k), high, q);
    Scale(0, low, q);
  }

  lemma Reorder(p: int, h: int, q: int)
    ensures (p * h) * q == h * (p * q)
  {
    Associate(h, p, q);
  }

  lemma ValueBound(x: Big)
    ensures x.Value() < Pow(B, x.NumBigits())
    ensures x.HasLeading() ==> x.Value() >= Pow(B, x.NumBigits() - 1)
  {
    ValBound(x.bigits);
    PowPositive(B, x.exp);
    PowAdd(B, |x.bigits|, x.exp);
    ScaleStrict(Val(x.bigits), Pow(B, |x.bigits|), Pow(B, x.exp));
    if x.HasLeading() {
      ValTop(x.bigits);
      PowAdd(B, |x.bigits| - 1, x.exp);
      Scale(Pow(B, |x.bigits| - 1), Val(x.bigits), Pow(B, x.exp));
    }
  }

  lemma LongerIsLarger(x: Big, y: Big)
    requires x.HasLeading() && x.NumBigits() > y.NumBigits()
    ensures x.Value() > y.Value()
  {
    ValueBound(x);
    ValueBound(y);
    PowMonotone(B, y.NumBigits(), x.NumBigits() - 1);
  }

  /** Once the parts above some position differ, the parts below it cannot make up for that. */
  lemma HighDecides(x: Big, y: Big, i: nat)
    requires x.High(i) > y.High(i)
    ensures x.Value() > y.Value()
  {
    HighBounds(x, i);
    HighBounds(y, i);
    PowPositive(B, i);
    ScaleStrict(y.High(i), x.High(i), Pow(B, i));
  }

  /** The number with more digits has a leading digit, so that counting digits compares. */
  ghost predicate Comparable(x: Big, y: Big) {
    && (x.NumBigits() > y.NumBigits() ==> x.HasLeading())
    && (y.NumBigits() > x.NumBigits() ==> y.HasLeading())
  }

  /** `compare` orders by value and, between equal values, puts the smaller exponent above. */
  ghost function Order(x: Big, y: Big): int {
    if x.Value() != y.Value() then (if x.Value() > y.Value() then 1 else -1)
    else if x.exp != y.exp then (if x.exp < y.exp then 1 else -1)
    else 0
  }

  method Compare(lhs: Big, rhs: Big) returns (c: int)
    requires Comparable(lhs, rhs)
    ensures c == Order(lhs, rhs)
    ensures c == 1 <==> lhs.Value() > rhs.Value() || (lhs.Value() == rhs.Value() && lhs.exp < rhs.exp)
    ensures c == 0 <==> lhs.Value() == rhs.Value() && lhs.exp == rhs.exp
    ensures -1 <= c <= 1
  {
    if lhs.NumBigits() != rhs.NumBigits() {
      if lhs.NumBigits() > rhs.NumBigits() {
        LongerIsLarger(lhs, rhs);
        return 1;
      }
      LongerIsLarger(rhs, lhs);
      return -1;
    }
    c := CompareDigits(lhs, rhs);
  }

  ghost predicate SameFrom(x: Big, y: Big, a: int) {
    forall p :: a <= p < x.NumBigits() ==> x.Digit(p) == y.Digit(p)
  }

  lemma {:induction false} SameHigh(x: Big, y: Big, a: nat)
    requires x.NumBigits() == y.NumBigits() && SameFrom(x, y, a) && a <= x.NumBigits()
    ensures x.High(a) == y.High(a)
    decreases x.NumBigits() - a
  {
    if a < x.NumBigits() {
      SameHigh(x, y, a + 1);
      HighStep(x, a);
      HighStep(y, a);
    } else {
      HighTop(x);
      HighTop(y);
    }
  }

  lemma HighTop(x: Big)
    ensures x.High(x.NumBigits()) == 0
  {
    if x.bigits == [] { assert Val(x.bigits) == 0; }
  }

  /** `compare` for equal numbers of digits */
  method CompareDigits(lhs: Big, rhs: Big) returns (c: int)
    requires lhs.NumBigits() == rhs.NumBigits()
    ensures c == Order(lhs, rhs)
  {
    var i, j := |lhs.bigits| - 1, |rhs.bigits| - 1;
    var end := if i - j < 0 then 0 else i - j;
    while i >= end
      invariant end - 1 <= i < |lhs.bigits| && j < |rhs.bigits| && i - j == |lhs.bigits| - |rhs.bigits|
      invariant SameFrom(lhs, rhs, i + 1 + lhs.exp)
    {
      if lhs.bigits[i] != rhs.bigits[j] {
        FirstDifference(lhs, rhs, i + lhs.exp);
        return if lhs.bigits[i] > rhs.bigits[j] then 1 else -1;
      }
      i, j := i - 1, j - 1;
    }
    CompareEnd(lhs, rhs);
    if i != j {
      return if i > j then 1 else -1;
    }
    c := 0;
  }

  lemma FirstDifference(x: Big, y: Big, a: nat)
    requires x.NumBigits() == y.NumBigits() && SameFrom(x, y, a + 1) && a < x.NumBigits()
    requires x.Digit(a) != y.Digit(a)
    ensures Order(x, y) == if x.Digit(a) > y.Digit(a) then 1 else -1
  {
    SameHigh(x, y, a + 1);
    HighStep(x, a);
    HighStep(y, a);
    if x.Digit(a) > y.Digit(a) {
      HighDecides(x, y, a);
    } else {
      HighDecides(y, x, a);
    }
  }

  /** When the shorter number's digits are used up without a difference, the longer is not below it. */
  lemma CompareEnd(x: Big, y: Big)
    requires x.NumBigits() == y.NumBigits() && SameFrom(x, y, Max(x.exp, y.exp))
    ensures Order(x, y) == if x.exp < y.exp then 1 else if x.exp > y.exp then -1 else 0
  {
    var m := Max(x.exp, y.exp);
    SameHigh(x, y, m);
    HighBounds(x, m);
    HighBounds(y, m);
  }

  /** With the smaller exponent on the left, the result is non-negative exactly for `>=`. */
  lemma CompareDecidesGe(x: Big, y: Big)
    requires x.exp <= y.exp
    ensures Order(x, y) >= 0 <==> x.Value() >= y.Value()
  {
  }

  /** With the larger exponent on the left it is not: equal numbers compare as less. */
  lemma CompareMissesEqual()
    ensures var x, y := Big([1], 1), Big([0, 1], 0);
      Comparable(x, y) && x.Value() == y.Value() && Order(x, y) == -1
  {
    ValOne(1);
    ValNext([0, 1], 1);
    assert [0, 1][..2] == [0, 1] && Val([0, 1][..1]) == 0 && Pow(B, 0) == 1 && Pow(B, 1) == B;
  }

  ghost function Sign(x: int): int {
    if x > 0 then 1 else if x < 0 then -1 else 0
  }

  /** `add_compare`: the sign of `lhs1 + lhs2 - rhs`, found without adding and often early. */
  method AddCompare(lhs1: Big, lhs2: Big, rhs: Big) returns (c: int)
    requires rhs.HasLeading()
    requires lhs1.NumBigits() > rhs.NumBigits() ==> lhs1.HasLeading()
    requires lhs2.NumBigits() > rhs.NumBigits() ==> lhs2.HasLeading()
    ensures c == Sign(lhs1.Value() + lhs2.Value() - rhs.Value())
    ensures c > 0 <==> lhs1.Value() + lhs2.Value() > rhs.Value()
    ensures c == 0 <==> lhs1.Value() + lhs2.Value() == rhs.Value()
  {
    var maxLhs := Max(lhs1.NumBigits(), lhs2.NumBigits());
    var numRhs := rhs.NumBigits();
    if maxLhs + 1 < numRhs {
      SumTooShort(lhs1, lhs2, rhs);
      return -1;
    }
    if maxLhs > numRhs {
      if lhs1.NumBigits() > numRhs { LongerIsLarger(lhs1, rhs); } else { LongerIsLarger(lhs2, rhs); }
      return 1;
    }
    var borrow := 0;
    var minExp := Min(Min(lhs1.exp, lhs2.exp), rhs.exp);
    var i := numRhs - 1;
    while i >= minExp
      invariant minExp - 1 <= i < numRhs && (borrow == 0 || borrow == B)
      invariant B * Gap(lhs1, lhs2, rhs, i + 1) == borrow
    {
      var sum := lhs1.Digit(i) as int + lhs2.Digit(i) as int;
      var rhsBigit := rhs.Digit(i);
      GapStep(lhs1, lhs2, rhs, i);
      assert Gap(lhs1, lhs2, rhs, i) == rhsBigit + borrow - sum;
      if sum > rhsBigit + borrow {
        GapDecides(lhs1, lhs2, rhs, i);
        return 1;
      }
      borrow := rhsBigit + borrow - sum;
      if borrow > 1 {
        GapDecides(lhs1, lhs2, rhs, i);
        return -1;
      }
      borrow := borrow * B;
      i := i - 1;
    }
    GapDecides(lhs1, lhs2, rhs, minExp);
    return if borrow != 0 then -1 else 0;
  }

  /** How far the part of `rhs` above position `i` exceeds those of the two summands together */
  ghost function Gap(lhs1: Big, lhs2: Big, rhs: Big, i: nat): int {
    rhs.High(i) - lhs1.High(i) - lhs2.High(i)
  }

  lemma GapStep(lhs1: Big, lhs2: Big, rhs: Big, i: nat)
    ensures Gap(lhs1, lhs2, rhs, i)
            == rhs.Digit(i) as int - lhs1.Digit(i) as int - lhs2.Digit(i) as int + B * Gap(lhs1, lhs2, rhs, i + 1)
  {
    HighStep(lhs1, i);
    HighStep(lhs2, i);
    HighStep(rhs, i);
  }

  /** A gap below 0 or above 1 settles the comparison; at the lowest position any gap does. */
  lemma GapDecides(lhs1: Big, lhs2: Big, rhs: Big, i: nat)
    ensures Gap(lhs1, lhs2, rhs, i) < 0 ==> lhs1.Value() + lhs2.Value() > rhs.Value()
    ensures Gap(lhs1, lhs2, rhs, i) > 1 ==> lhs1.Value() + lhs2.Value() < rhs.Value()
    ensures i <= lhs1.exp && i <= lhs2.exp && i <= rhs.exp ==>
      Sign(lhs1.Value() + lhs2.Value() - rhs.Value()) == -Sign(Gap(lhs1, lhs2, rhs, i))
  {
    HighBounds(lhs1, i);
    HighBounds(lhs2, i);
    HighBounds(rhs, i);
    var p, g := Pow(B, i), Gap(lhs1, lhs2, rhs, i);
    var sum := lhs1.High(i) + lhs2.High(i);
    PowPositive(B, i);
    Distribute(p, lhs1.High(i), lhs2.High(i));
    Distribute(p, sum, g);
    if g < 0 {
      ScaleStrict(rhs.High(i), sum, p);
    } else if g > 1 {
      Scale(2, g, p);
      Distribute(p, 1, 1);
    } else if g == 1 {
      assert g * p == p;
    }
  }

  lemma SumTooShort(lhs1: Big, lhs2: Big, rhs: Big)
    requires rhs.HasLeading() && Max(lhs1.NumBigits(), lhs2.NumBigits()) + 1 < rhs.NumBigits()
    ensures lhs1.Value() + lhs2.Value() < rhs.Value()
  {
    var m := Max(lhs1.NumBigits(), lhs2.NumBigits());
    ValueBound(lhs1);
    ValueBound(lhs2);
    ValueBound(rhs);
    PowMonotone(B, lhs1.NumBigits(), m);
    PowMonotone(B, lhs2.NumBigits(), m);
    PowMonotone(B, m + 1, rhs.NumBigits() - 1);
    Scale(2, B, Pow(B, m));
  }
}
