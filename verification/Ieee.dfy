/** Binary64 numbers and what IEEE 754-2008 asks of a correctly rounded quotient,
    square root and comparison.  Every magnitude is an integer, in units of the
    smallest subnormal, 2^-1074. */
module Ieee {
  import opened Bits

  datatype Double = Double(sign: bool, E: nat, F: nat) {
    predicate Valid() { E < 2048 && F < B52 }
    predicate IsNaN() { E == 2047 && F != 0 }
    predicate IsInf() { E == 2047 && F == 0 }
    predicate IsZero() { E == 0 && F == 0 }
    predicate Finite() { E < 2047 }
  }

  /** A 64-bit word, by its binary64 fields. */
  type Word = d: Double | d.Valid() witness Double(false, 0, 0)

  /** The magnitude of a finite number, in units of 2^-1074. */
  function Mag(d: Double): nat {
    if d.E == 0 then d.F else (B52 + d.F) * Pow2(d.E - 1)
  }

  /** An exact nonnegative value: num / den, or the square root of n. */
  datatype Exact = Ratio(num: nat, den: nat) | Sqrt(n: nat)

  /** 2x <= s and 2x >= s, in integers. */
  predicate TwiceAtMost(x: Exact, s: nat) {
    match x
    case Ratio(num, den) => 2 * num <= s * den
    case Sqrt(n) => 4 * n <= s * s
  }

  predicate TwiceAtLeast(x: Exact, s: nat) {
    match x
    case Ratio(num, den) => 2 * num >= s * den
    case Sqrt(n) => 4 * n >= s * s
  }

  /** y is nearest to x among all finite numbers, and even when another is as near. */
  ghost predicate NearestEven(x: Exact, y: Double) {
    forall z: Double :: z.Valid() && z.Finite() ==> NoCloser(x, y, z)
  }

  ghost predicate NoCloser(x: Exact, y: Double, z: Double) {
    var s := Mag(y) + Mag(z);
    && (Mag(z) > Mag(y) ==> TwiceAtMost(x, s))
    && (Mag(z) < Mag(y) ==> TwiceAtLeast(x, s))
    && (Mag(z) != Mag(y) && TwiceAtMost(x, s) && TwiceAtLeast(x, s) ==> y.F % 2 == 0)
  }

  /** x is at least half a unit above the largest finite number (section 4.3.1). */
  predicate Overflows(x: Exact) {
    TwiceAtLeast(x, (B54 - 1) * Pow2(2045))
  }

  /** Round to nearest, ties to even. */
  ghost predicate RoundsTo(x: Exact, y: Double) {
    y.Valid() && if Overflows(x) then y.IsInf() else y.Finite() && NearestEven(x, y)
  }

  /** Section 5.4.1, division: y is the correctly rounded a / b. */
  ghost predicate IsQuotient(a: Double, b: Double, y: Double) {
    y.Valid() &&
    if a.IsNaN() || b.IsNaN() || (a.IsInf() && b.IsInf()) || (a.IsZero() && b.IsZero()) then y.IsNaN()
    else
      && y.sign == (a.sign != b.sign)
      && if a.IsInf() || b.IsZero() then y.IsInf()
         else if a.IsZero() || b.IsInf() then y.IsZero()
         else RoundsTo(Ratio(Mul(Mag(a), Pow2(1074)), Mag(b)), y)
  }

  /** Section 5.4.1, square root. */
  ghost predicate IsRoot(a: Double, y: Double) {
    y.Valid() &&
    if a.IsNaN() then y.IsNaN()
    else if a.IsZero() then y == a
    else if a.sign then y.IsNaN()
    else if a.IsInf() then y == a
    else !y.sign && RoundsTo(Sqrt(Mul(Mag(a), Pow2(1074))), y)
  }

  /** The number a finite double is, in units of 2^-1074. */
  function Value(d: Double): int {
    var m: int := Mag(d);
    if d.sign then -m else m
  }

  function Abs(v: int): nat {
    if v < 0 then -v else v
  }

  /** y is the correctly rounded v / den, or a zero of the sign given when v is zero. */
  ghost predicate RoundsSigned(v: int, den: nat, zeroSign: bool, y: Double) {
    y.Valid() &&
    if v == 0 then y.IsZero() && y.sign == zeroSign
    else y.sign == (v < 0) && RoundsTo(Ratio(Abs(v), den), y)
  }

  /** Section 5.4.1, addition; an exact zero is negative only as the sum of two
      negative zeros (section 6.3). */
  ghost predicate IsSum(a: Double, b: Double, y: Double) {
    y.Valid() &&
    if a.IsNaN() || b.IsNaN() || (a.IsInf() && b.IsInf() && a.sign != b.sign) then y.IsNaN()
    else if a.IsInf() || b.IsInf() then y.IsInf() && y.sign == if a.IsInf() then a.sign else b.sign
    else RoundsSigned(Value(a) + Value(b), 1, a.sign && b.sign, y)
  }

  /** Subtraction: the sum with the opposite. */
  ghost predicate IsDifference(a: Double, b: Double, y: Double) {
    IsSum(a, b.(sign := !b.sign), y)
  }

  /** Multiplication: every product has the sign of its operands. */
  ghost predicate IsProduct(a: Double, b: Double, y: Double) {
    y.Valid() &&
    if a.IsNaN() || b.IsNaN() || (a.IsInf() && b.IsZero()) || (a.IsZero() && b.IsInf()) then y.IsNaN()
    else
      && y.sign == (a.sign != b.sign)
      && if a.IsInf() || b.IsInf() then y.IsInf()
         else if a.IsZero() || b.IsZero() then y.IsZero()
         else RoundsTo(Ratio(Mul(Mag(a), Mag(b)), Pow2(1074)), y)
  }

  /** fusedMultiplyAdd: a * b + c, rounded once. */
  ghost predicate IsFusedMultiplyAdd(a: Double, b: Double, c: Double, y: Double) {
    var sign := a.sign != b.sign;
    y.Valid() &&
    if a.IsNaN() || b.IsNaN() || c.IsNaN() || (a.IsInf() && b.IsZero()) || (a.IsZero() && b.IsInf()) then y.IsNaN()
    else if a.IsInf() || b.IsInf() then (if c.IsInf() && c.sign != sign then y.IsNaN() else y.IsInf() && y.sign == sign)
    else if c.IsInf() then y.IsInf() && y.sign == c.sign
    else RoundsSigned(Value(a) * Value(b) + Value(c) * Pow2(1074), Pow2(1074), sign && c.sign, y)
  }

  /** Section 5.11: less and equal on the represented values; NaN is unordered,
      the zeros are equal. */
  predicate IeeeLess(a: Double, b: Double) {
    !a.IsNaN() && !b.IsNaN() &&
    if a.IsZero() && b.IsZero() then false
    else if a.sign != b.sign then a.sign
    else if a.sign then MagLess(b, a)
    else MagLess(a, b)
  }

  predicate IeeeEqual(a: Double, b: Double) {
    !a.IsNaN() && !b.IsNaN() &&
    ((a.IsZero() && b.IsZero()) || (a.sign == b.sign && !MagLess(a, b) && !MagLess(b, a)))
  }

  predicate MagLess(a: Double, b: Double) {
    if a.IsInf() then false else if b.IsInf() then true else Mag(a) < Mag(b)
  }

  // ---- facts about the number line ----

  lemma {:induction false} TwiceMono(x: Exact, s: nat, s': nat)
    requires s <= s'
    ensures TwiceAtMost(x, s) ==> TwiceAtMost(x, s')
    ensures TwiceAtLeast(x, s') ==> TwiceAtLeast(x, s)
  {
  }

  lemma {:induction false} TwiceStrict(x: Exact, s: nat, s': nat)
    requires s < s' && TwiceAtMost(x, s)
    requires x.Ratio? ==> x.den > 0
    ensures !TwiceAtLeast(x, s')
  {
  }

  /** Numbers of magnitude at least 2^(52+q) are multiples of 2^q, so the next one
      above m * 2^q is at least one step away; below, it is a step away unless m
      is the power of two where the spacing changes. */
  lemma {:induction false} Spacing(z: Double, m: nat, q: nat)
    requires z.Valid() && z.Finite()
    requires q > 0 ==> m >= B52
    ensures Mag(z) > m * Pow2(q) ==> Mag(z) >= m * Pow2(q) + Pow2(q)
    ensures Mag(z) < m * Pow2(q) && (q == 0 || m > B52) ==> Mag(z) + Pow2(q) <= m * Pow2(q)
  {
    var p := Pow2(q);
    if q == 0 {
    } else if z.E == 0 || z.E - 1 < q {
      SmallMag(z, q);
      StepCut(B52, m, p);
    } else {
      Pow2Add(z.E - 1 - q, q);
      var c := (B52 + z.F) * Pow2(z.E - 1 - q);
      Assoc(B52 + z.F, Pow2(z.E - 1 - q), p);
      StepCut(c, m, p);
    }
  }

  lemma {:induction false} StepCut(c: nat, m: nat, p: nat)
    requires p > 0
    ensures c > m ==> c * p >= m * p + p
    ensures c < m ==> c * p + p <= m * p
    ensures c == m ==> c * p == m * p
  {
    if c > m { MulMono(p, m + 1, c); } else if c < m { MulMono(p, c + 1, m); }
  }

  lemma {:induction false} Assoc(a: nat, b: nat, c: nat)
    ensures a * (b * c) == (a * b) * c
  {
  }

  lemma {:induction false} SmallMag(z: Double, q: nat)
    requires z.Valid() && q > 0 && (z.E == 0 || z.E - 1 < q)
    ensures Mag(z) < B52 * Pow2(q)
  {
    if z.E == 0 {
      MulMono(B52, 1, Pow2(q));
    } else {
      var p := Pow2(z.E - 1);
      Pow2Mono(z.E, q);
      assert Pow2(z.E) == 2 * p;
      MulStrict(p, B52 + z.F, 2 * B52);
      assert (2 * B52) * p == B52 * (2 * p);
      MulMono(B52, 2 * p, Pow2(q));
    }
  }

  /** What a rounder has to show: y = m * 2^q is nearest if x is within half a
      step of it, at least y where the step below is finer, and m is even at ties. */
  lemma {:induction false} NearestFromCuts(x: Exact, y: Double, m: nat, q: nat)
    requires Mag(y) == m * Pow2(q)
    requires x.Ratio? ==> x.den > 0
    requires q > 0 ==> m >= B52
    requires TwiceAtMost(x, (2 * m + 1) * Pow2(q))
    requires m > 0 ==> TwiceAtLeast(x, (2 * m - 1) * Pow2(q))
    requires q > 0 && m == B52 ==> TwiceAtLeast(x, 2 * m * Pow2(q))
    requires TwiceAtLeast(x, (2 * m + 1) * Pow2(q)) ==> y.F % 2 == 0
    requires m > 0 && TwiceAtMost(x, (2 * m - 1) * Pow2(q)) ==> y.F % 2 == 0
    ensures NearestEven(x, y)
  {
    forall z: Double | z.Valid() && z.Finite()
      ensures NoCloser(x, y, z)
    {
      NearestAt(x, y, z, m, q);
    }
  }

  lemma {:induction false} NearestAt(x: Exact, y: Double, z: Double, m: nat, q: nat)
    requires Mag(y) == m * Pow2(q) && z.Valid() && z.Finite()
    requires x.Ratio? ==> x.den > 0
    requires q > 0 ==> m >= B52
    requires TwiceAtMost(x, (2 * m + 1) * Pow2(q))
    requires m > 0 ==> TwiceAtLeast(x, (2 * m - 1) * Pow2(q))
    requires q > 0 && m == B52 ==> TwiceAtLeast(x, 2 * m * Pow2(q))
    requires TwiceAtLeast(x, (2 * m + 1) * Pow2(q)) ==> y.F % 2 == 0
    requires m > 0 && TwiceAtMost(x, (2 * m - 1) * Pow2(q)) ==> y.F % 2 == 0
    ensures NoCloser(x, y, z)
  {
    var p := Pow2(q);
    var s := Mag(y) + Mag(z);
    Spacing(z, m, q);
    var mp := m * p;
    Steps(m, p);
    if Mag(z) > mp {
      TwiceMono(x, (2 * m + 1) * p, s);
    } else if Mag(z) < mp {
      if q == 0 || m > B52 {
        TwiceMono(x, s, (2 * m - 1) * p);
      } else {
        TwiceMono(x, s, 2 * m * p);
        if TwiceAtMost(x, s) {
          TwiceStrict(x, s, 2 * m * p);
        }
      }
    }
  }

  // ---- the answers are determined ----

  /** Finite numbers are ordered by exponent, then fraction. */
  lemma {:induction false} MagOrder(y: Double, z: Double)
    requires y.Valid() && z.Valid() && y.Finite() && z.Finite()
    requires y.E < z.E || (y.E == z.E && y.F < z.F)
    ensures Mag(y) < Mag(z)
  {
    hide Pow2;
    Pow2Zero();
    if y.E == z.E {
      if y.E > 0 {
        MulStrict(Pow2(y.E - 1), B52 + y.F, B52 + z.F);
      }
    } else if z.E > 1 {
      SmallMag(y, z.E - 1);
      MulMono(Pow2(z.E - 1), B52, B52 + z.F);
    }
  }

  /** Two nearest numbers, both even, would have an odd one between them that is nearer. */
  lemma {:induction false} NotBelow(x: Exact, y: Double, z: Double)
    requires y.Valid() && z.Valid() && y.Finite() && z.Finite() && (x.Ratio? ==> x.den > 0)
    requires NearestEven(x, y) && NearestEven(x, z)
    ensures Mag(y) >= Mag(z)
  {
    hide Mag, TwiceAtMost, TwiceAtLeast;
    if Mag(y) < Mag(z) {
      var u := Double(false, y.E, y.F + 1);
      assert NoCloser(x, y, z) && NoCloser(x, z, y);
      assert y.F % 2 == 0 && z.F % 2 == 0;
      MagOrder(y, u);
      if z.E < y.E || (z.E == y.E && z.F < y.F) {
        MagOrder(z, y);
      } else {
        assert z.E == y.E ==> z.F != y.F by { SameMag(y, z); }
        MagOrder(u, z);
        assert NoCloser(x, y, u);
        TwiceStrict(x, Mag(y) + Mag(u), Mag(y) + Mag(z));
      }
    }
  }

  lemma {:induction false} SameMag(y: Double, z: Double)
    ensures y.E == z.E && y.F == z.F ==> Mag(y) == Mag(z)
  {
  }

  /** A value rounds to one number only, but for the sign. */
  lemma {:induction false} RoundsToOne(x: Exact, y: Double, z: Double)
    requires RoundsTo(x, y) && RoundsTo(x, z) && (x.Ratio? ==> x.den > 0)
    ensures y.E == z.E && y.F == z.F
  {
    hide Mag, NearestEven;
    if !Overflows(x) {
      NotBelow(x, y, z);
      NotBelow(x, z, y);
      if y.E < z.E || (y.E == z.E && y.F < z.F) {
        MagOrder(y, z);
      } else if z.E < y.E || z.F < y.F {
        MagOrder(z, y);
      }
    }
  }

  /** So the specification leaves an answer no freedom but a NaN's payload and sign. */
  lemma {:induction false} QuotientOne(a: Double, b: Double, y: Double, z: Double)
    requires b.Valid() && IsQuotient(a, b, y) && IsQuotient(a, b, z)
    ensures y == z || (y.IsNaN() && z.IsNaN())
  {
    hide RoundsTo, Pow2;
    if !a.IsNaN() && !b.IsNaN() && !a.IsInf() && !b.IsZero() && !a.IsZero() && !b.IsInf() {
      assert Mag(b) > 0 by { MagPositive(b); }
      RoundsToOne(Ratio(Mul(Mag(a), Pow2(1074)), Mag(b)), y, z);
    }
  }

  lemma {:induction false} MagPositive(b: Double)
    requires !b.IsZero()
    ensures Mag(b) > 0
  {
    if b.E > 0 {
      MulStrict(Pow2(b.E - 1), 0, B52 + b.F);
    }
  }

  lemma {:induction false} RootOne(a: Double, y: Double, z: Double)
    requires IsRoot(a, y) && IsRoot(a, z)
    ensures y == z || (y.IsNaN() && z.IsNaN())
  {
    hide RoundsTo, Pow2;
    if !a.IsNaN() && !a.IsZero() && !a.sign && !a.IsInf() {
      RoundsToOne(Sqrt(Mul(Mag(a), Pow2(1074))), y, z);
    }
  }

  // ---- sums and products from the fused multiply-add ----

  const ONE := Double(false, 1023, 0)

  lemma {:induction false} OneMag()
    ensures Mag(ONE) == Pow2(1074) && ONE.Valid()
  {
    hide Pow2;
    Pow2Values();
    Pow2Add(52, 1022);
  }

  lemma {:induction false} TwiceScaled(n: nat, p: nat, s: nat)
    requires p > 0
    ensures TwiceAtMost(Ratio(Mul(n, p), p), s) <==> TwiceAtMost(Ratio(n, 1), s)
    ensures TwiceAtLeast(Ratio(Mul(n, p), p), s) <==> TwiceAtLeast(Ratio(n, 1), s)
  {
    MulStrict(p, 2 * n, s);
    assert p * (2 * n) == 2 * Mul(n, p) && p * s == s * p;
  }

  lemma {:induction false} RoundsScaled(n: nat, p: nat, y: Double)
    requires p > 0
    ensures RoundsTo(Ratio(Mul(n, p), p), y) <==> RoundsTo(Ratio(n, 1), y)
  {
    hide TwiceAtMost, TwiceAtLeast;
    TwiceScaled(n, p, (B54 - 1) * Pow2(2045));
    forall z: Double | z.Valid() && z.Finite()
      ensures NoCloser(Ratio(Mul(n, p), p), y, z) <==> NoCloser(Ratio(n, 1), y, z)
    {
      TwiceScaled(n, p, Mag(y) + Mag(z));
    }
  }

  /** a * 1 + b is a + b. */
  lemma {:induction false} FusedSum(a: Double, b: Double, y: Double)
    requires IsFusedMultiplyAdd(a, ONE, b, y)
    ensures IsSum(a, b, y)
  {
    hide RoundsTo, Pow2, Mag;
    OneMag();
    var p, v := Pow2(1074), Value(a) + Value(b);
    SumScaled(Value(a), Value(b), p);
    RoundsScaled(Abs(v), p, y);
  }

  lemma {:induction false} SumScaled(a: int, b: int, p: nat)
    requires p > 0
    ensures a * p + b * p == (a + b) * p
    ensures (a + b) * p == 0 <==> a + b == 0
    ensures (a + b) * p < 0 <==> a + b < 0
    ensures Abs((a + b) * p) == Mul(Abs(a + b), p)
  {
    SignedProduct(a + b, p);
  }

  lemma {:induction false} SignedProduct(v: int, p: nat)
    requires p > 0
    ensures (v * p == 0 <==> v == 0) && (v * p < 0 <==> v < 0) && Abs(v * p) == Mul(Abs(v), p)
  {
    if v < 0 {
      assert (-v) * p == -(v * p);
      MulPos(-v, p);
    } else if v > 0 {
      MulPos(v, p);
    }
  }

  /** a * b plus a zero of the product's sign is a * b. */
  lemma {:induction false} FusedProduct(a: Double, b: Double, y: Double)
    requires a.Valid() && b.Valid() && IsFusedMultiplyAdd(a, b, Double(a.sign != b.sign, 0, 0), y)
    ensures IsProduct(a, b, y)
  {
    hide RoundsTo, Pow2;
    var zero := Double(a.sign != b.sign, 0, 0);
    assert Value(zero) * Pow2(1074) == 0;
    if a.Finite() && b.Finite() {
      if !a.IsZero() {
        MagPositive(a);
      }
      if !b.IsZero() {
        MagPositive(b);
      }
      ProductSigns(Mag(a), Mag(b));
    }
  }

  lemma {:induction false} ProductSigns(m: int, n: int)
    requires m >= 0 && n >= 0
    ensures m * n == (-m) * (-n) == Mul(m, n) && m * (-n) == (-m) * n == -(m * n)
    ensures Mul(m, n) == 0 <==> m == 0 || n == 0
  {
    if m > 0 && n > 0 {
      MulPos(m, n);
    }
  }

  lemma {:induction false} Steps(m: nat, p: nat)
    ensures (m + 1) * p == m * p + p
    ensures (2 * m + 1) * p == 2 * (m * p) + p
    ensures m > 0 ==> (2 * m - 1) * p == 2 * (m * p) - p
    ensures 2 * m * p == 2 * (m * p)
  {
  }
}
