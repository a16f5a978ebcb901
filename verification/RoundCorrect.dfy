/** The rounder on a finished job returns the double nearest to the exact value,
    ties to even, for every exponent: normal, subnormal, zero and infinity. */
module RoundCorrect {
  import opened Bits
  import opened DivSqrt
  import opened DivSqrtProof
  import opened Ieee
  import opened Recode
  import opened Rounder
  import opened RoundProof

  // ---- rounding a significand ----

  /** The rounded quotient is within half a step, and even at a tie. */
  lemma {:induction false} RneCut(x: nat, h: nat)
    requires h > 0
    ensures var m := Rne(x, 2 * h);
      && x <= Mul(2 * m + 1, h) && (x == Mul(2 * m + 1, h) ==> m % 2 == 0)
      && (m > 0 ==> x >= Mul(2 * m - 1, h)) && (m > 0 && x == Mul(2 * m - 1, h) ==> m % 2 == 0)
  {
    var q, r := DivMod(x, 2 * h);
    HalfSteps(x, h, q, r);
  }

  lemma {:induction false} HalfSteps(x: nat, h: nat, q: nat, r: nat)
    requires x == 2 * h * q + r && 0 <= r < 2 * h
    ensures (2 * q + 1) * h == x - r + h
    ensures (2 * (q + 1) + 1) * h == x - r + 3 * h
    ensures (2 * (q + 1) - 1) * h == x - r + h
    ensures q > 0 ==> (2 * q - 1) * h == x - r - h
  {
  }

  /** The rounded quotient of a value between two multiples lies between them. */
  lemma {:induction false} RneRange(x: nat, p: nat, a: nat, b: nat)
    requires p > 0 && a * p <= x < b * p
    ensures a <= Rne(x, p) <= b
  {
    var q, r := DivMod(x, p);
    if q < a { MulMono(p, q + 1, a); }
    if q >= b { MulMono(p, b, q); }
  }

  // ---- the exact value against a grid point ----

  /** Cuts of x at c * 2^q are cuts of the job's value at the matching power. */
  ghost predicate LinkAt(x: Exact, job: Job, sExp: int, c: nat, q: nat)
    requires q - sExp + 1027 >= 0
  {
    var k := Mul(c, Pow2(q - sExp + 1027));
    && (TwiceAtMost(x, Mul(c, Pow2(q))) <==> AtMost(job, k))
    && (TwiceAtLeast(x, Mul(c, Pow2(q))) <==> AtLeast(job, k))
  }

  ghost predicate Linked(x: Exact, job: Job, sExp: int) {
    forall c: nat, q: nat :: q - sExp + 1027 >= 0 ==> LinkAt(x, job, sExp, c, q)
  }

  /** A finished job whose raw result is normal, and the exact value it stands for. */
  ghost predicate Finished(s: State, job: Job, x: Exact) {
    && Running(s, job) && s.cycleNum == 1
    && (x.Ratio? ==> x.den > 0)
    && -60 <= s.req.sExp < 3584
    && Linked(x, job, s.req.sExp)
  }

  /** Multiples of a large enough power of two are grid points. */
  lemma {:induction false} FaithfulAt(s: State, job: Job, c: nat, n: nat)
    requires Running(s, job) && s.cycleNum == 1
    requires n >= (if RawOutSig(s) >= B55 then 2 else 1)
    ensures AtMost(job, Mul(c, Pow2(n))) <==> RawOutSig(s) <= Mul(c, Pow2(n))
    ensures AtLeast(job, Mul(c, Pow2(n))) <==> RawOutSig(s) >= Mul(c, Pow2(n))
  {
    var g := Grain(RawOutSig(s));
    var p := Pow2(if g == 4 then n - 2 else n - 1);
    assert Pow2(n) == g * p by { assert n >= 2 ==> Pow2(n) == 2 * Pow2(n - 1) == 4 * Pow2(n - 2); }
    Regroup(c, g, p);
    Faithful(s, job, Mul(c, p));
  }

  lemma {:induction false} Regroup(c: nat, g: nat, p: nat)
    ensures c * (g * p) == g * (c * p)
  {
  }

  function D(sig: nat): nat {
    B(ShiftDown1(sig))
  }

  lemma {:induction false} TopBits(sig: nat)
    requires B54 <= sig < 2 * B55
    ensures D(sig) == (if sig >= B55 then 1 else 0)
    ensures sig >= B54 * Pow2(D(sig)) && sig < B55 * Pow2(D(sig))
  {
  }

  /** At the rounding position a cut of the exact value is a cut of the significand. */
  ghost predicate CutLaw(x: Exact, sig: nat, h: nat, p: nat) {
    forall c: nat :: CutAt(x, sig, h, p, c)
  }

  ghost predicate CutAt(x: Exact, sig: nat, h: nat, p: nat, c: nat) {
    && (TwiceAtMost(x, Mul(c, p)) <==> sig <= Mul(c, h))
    && (TwiceAtLeast(x, Mul(c, p)) <==> sig >= Mul(c, h))
  }

  lemma {:induction false} FinishedCuts(s: State, job: Job, x: Exact, l: nat, q: nat)
    requires Finished(s, job, x)
    requires l == Dropped(s.req.sExp, RawOutSig(s)) && q == l + s.req.sExp - 1028
    ensures CutLaw(x, RawOutSig(s), Pow2(l - 1), Pow2(q))
  {
    Faithful(s, job, 0);
    TopBits(RawOutSig(s));
    var sig, h, p := RawOutSig(s), Pow2(l - 1), Pow2(q);
    forall c: nat
      ensures CutAt(x, sig, h, p, c)
    {
      FaithfulAt(s, job, c, l - 1);
      assert LinkAt(x, job, s.req.sExp, c, q);
      assert q - s.req.sExp + 1027 == l - 1;
    }
  }

  /** x is within half a step p of m * p, and m is even when it is exactly half. */
  ghost predicate HalfStep(x: Exact, m: nat, p: nat) {
    && TwiceAtMost(x, Mul(2 * m + 1, p))
    && (TwiceAtLeast(x, Mul(2 * m + 1, p)) ==> m % 2 == 0)
    && (m > 0 ==> TwiceAtLeast(x, Mul(2 * m - 1, p)))
    && (m > 0 && TwiceAtMost(x, Mul(2 * m - 1, p)) ==> m % 2 == 0)
  }

  lemma {:induction false} RoundedHalfStep(x: Exact, sig: nat, h: nat, p: nat)
    requires h > 0 && CutLaw(x, sig, h, p)
    ensures HalfStep(x, Rne(sig, 2 * h), p)
  {
    var m := Rne(sig, 2 * h);
    RneCut(sig, h);
    assert CutAt(x, sig, h, p, 2 * m + 1);
    if m > 0 {
      assert CutAt(x, sig, h, p, 2 * m - 1);
    }
  }

  // ---- the fields the rounder packs ----

  /** What rounded significand r makes of exponent and fraction. */
  function ExpOf(sExp: int, r: nat): int {
    sExp + r / B53
  }

  function FractOf(sig: nat, r: nat): nat {
    (if ShiftDown1(sig) then r / 2 else r) % B52
  }

  /** A rounded significand between one and two, at its own scale. */
  lemma {:induction false} Fields(sExp: nat, sig: nat, r: nat, e: nat, f: nat)
    requires e == ExpOf(sExp, r) && f == FractOf(sig, r)
    requires var base := if ShiftDown1(sig) then B53 else B52; base <= r <= 2 * base
    requires ShiftDown1(sig) ==> r % 2 == 0
    ensures (B52 + f) * Pow2(e) == r * Pow2(sExp)
    ensures f < B52
    ensures if ShiftDown1(sig)
      then if r == B54 then e == sExp + 2 && f == 0 else e == sExp + 1 && r == 2 * (B52 + f)
      else if r == B53 then e == sExp + 1 && f == 0 else e == sExp && r == B52 + f
  {
    var p := Pow2(sExp);
    assert Pow2(sExp + 1) == 2 * p && Pow2(sExp + 2) == 4 * p;
    FieldBits(r);
    if ShiftDown1(sig) {
      DoubleBoth(B52 + f, p);
    }
  }

  lemma {:induction false} FieldBits(r: nat)
    requires B52 <= r <= B54
    ensures r / B53 == if r < B53 then 0 else if r < B54 then 1 else 2
    ensures r <= B53 ==> r % B52 == if r < B53 then r - B52 else 0
    ensures r >= B53 ==> r / 2 % B52 == if r / 2 < B53 then r / 2 - B52 else 0
  {
  }

  lemma {:induction false} DoubleBoth(a: nat, p: nat)
    ensures a * (2 * p) == (2 * a) * p
  {
  }

  /** Significand m in normal position, exponent at least 1026. */
  lemma {:induction false} FieldsNormal(sExp: nat, sig: nat, m: nat, r: nat, e: nat, f: nat)
    requires B54 <= sig < 2 * B55
    requires sExp + D(sig) >= 1026 && m == Rne(sig, Pow2(D(sig) + 2))
    requires r == m * Pow2(D(sig)) && e == ExpOf(sExp, r) && f == FractOf(sig, r)
    ensures B52 <= m <= B53 && f < B52 && f % 2 == m % 2
    ensures e == sExp + D(sig) + (if m == B53 then 1 else 0)
    ensures (B52 + f) * Pow2(e) == m * Pow2(sExp + D(sig) - 1026) * Pow2(1026)
  {
    TopBits(sig);
    assert Pow2(0) == 1 && Pow2(1) == 2 && Pow2(2) == 4 && Pow2(3) == 8;
    RneRange(sig, if ShiftDown1(sig) then 8 else 4, B52, B53);
    assert r == if ShiftDown1(sig) then 2 * m else m;
    Fields(sExp, sig, r, e, f);
    NormalValue(m, D(sig), sExp);
    NormalParity(m, f);
  }

  lemma {:induction false} NormalParity(m: nat, f: nat)
    requires m == B52 + f || (m == B53 && f == 0)
    ensures f % 2 == m % 2
  {
  }

  lemma {:induction false} NormalValue(m: nat, d: nat, sExp: nat)
    requires sExp + d >= 1026
    ensures m * Pow2(d) * Pow2(sExp) == m * Pow2(sExp + d - 1026) * Pow2(1026)
  {
    Pow2Add(d, sExp);
    Pow2Add(sExp + d - 1026, 1026);
    Assoc(m, Pow2(d), Pow2(sExp));
    Assoc(m, Pow2(sExp + d - 1026), Pow2(1026));
  }

  /** A subnormal result: the fields stand for m itself. */
  lemma {:induction false} FieldsSubnormal(sExp: nat, sig: nat, m: nat, r: nat, e: nat, f: nat)
    requires B54 <= sig < 2 * B55
    requires 972 <= sExp && sExp + D(sig) < 1026 && m == Rne(sig, Pow2(1028 - sExp))
    requires r == m * Pow2(1026 - sExp) && e == ExpOf(sExp, r) && f == FractOf(sig, r)
    ensures m <= B52
    ensures m == 0 ==> e < 974
    ensures m > 0 ==> f < B52 && sExp <= e <= 1026 && (B52 + f) * Pow2(e) == m * Pow2(1026)
    ensures m > 0 && e == 1026 ==> f == 0 && m % 2 == 0
  {
    hide Rne, Pow2;
    var n, d := 1026 - sExp, D(sig);
    TopBits(sig);
    Pow2Next(n - 1);
    Pow2Next(n);
    Pow2Next(n + 1);
    assert Pow2(d) == 1 + d by { SmallPowers(); }
    if n <= 52 + d {
      SubnormalRange(sig, m, n, d);
      EvenProduct(m, Pow2(n - 1));
    } else {
      SubnormalLow(sig, m, n, d);
    }
    if m > 0 {
      Fields(sExp, sig, r, e, f);
      SubnormalUnits(m, n, sExp, n + sExp);
    }
  }

  lemma {:induction false} SmallPowers()
    ensures Pow2(0) == 1 && Pow2(1) == 2
  {
  }

  lemma {:induction false} SubnormalUnits(m: nat, n: nat, e: nat, k: nat)
    requires k == n + e
    ensures (m * Pow2(n)) * Pow2(e) == m * Pow2(k)
  {
    Pow2Add(n, e);
    Assoc(m, Pow2(n), Pow2(e));
  }

  lemma {:induction false} EvenProduct(m: nat, p: nat)
    ensures m * (2 * p) % 2 == 0
  {
    assert m * (2 * p) == 2 * (m * p);
  }

  lemma {:induction false} SubnormalRange(sig: nat, m: nat, n: nat, d: nat)
    requires d <= 1 && d < n <= 52 + d
    requires B54 * Pow2(d) <= sig < B55 * Pow2(d) && m == Rne(sig, 4 * Pow2(n))
    ensures 0 < m <= B52
    ensures B52 * Pow2(d) <= m * Pow2(n) <= 2 * (B52 * Pow2(d))
    ensures n == d + 1 && m * Pow2(n) == 2 * (B52 * Pow2(d)) ==> m % 2 == 0
  {
    var p := Pow2(n);
    var c := SubnormalGrid(n, d);
    RneRange(sig, 4 * p, c, 2 * c);
    Between(c, m, p);
  }

  lemma {:induction false} SubnormalGrid(n: nat, d: nat) returns (c: nat)
    requires d <= 1 && d < n <= 52 + d
    ensures 0 < c <= B51
    ensures c * Pow2(n) == B52 * Pow2(d)
    ensures c * (4 * Pow2(n)) == B54 * Pow2(d) && (2 * c) * (4 * Pow2(n)) == B55 * Pow2(d)
  {
    c := Pow2(52 + d - n);
    Pow2Values();
    assert Pow2(0) == 1 && Pow2(1) == 2;
    assert Pow2(52 + d) == B52 * Pow2(d);
    Pow2Add(52 + d - n, n);
    Pow2Mono(52 + d - n, 51);
    Quarters(c, Pow2(n));
  }

  lemma {:induction false} Quarters(c: nat, p: nat)
    ensures c * (4 * p) == 4 * (c * p)
    ensures (2 * c) * (4 * p) == 8 * (c * p)
  {
  }

  lemma {:induction false} Between(c: nat, m: nat, p: nat)
    requires c <= m <= 2 * c
    ensures c * p <= m * p <= 2 * (c * p)
    ensures p > 0 && m * p == 2 * (c * p) ==> m % 2 == 0
  {
    MulMono(p, c, m);
    MulMono(p, m, 2 * c);
    assert p * (2 * c) == 2 * (c * p);
    if p > 0 {
      MulStrict(p, m, 2 * c);
    }
  }

  lemma {:induction false} SubnormalLow(sig: nat, m: nat, n: nat, d: nat)
    requires d <= 1 && 52 + d < n <= 54
    requires B54 * Pow2(d) <= sig < B55 * Pow2(d) && m == Rne(sig, 4 * Pow2(n))
    ensures m == 0 || (m == 1 && m * Pow2(n) == 2 * (B52 * Pow2(d)))
  {
    Pow2Values();
    assert Pow2(0) == 1 && Pow2(1) == 2;
    if n == 53 {
      RneRange(sig, 4 * B53, 0, 1);
    } else {
      RneRange(sig, 4 * B54, 0, 1);
      if d == 0 {
        DivModSmall(sig, 4 * B54);
      }
    }
  }

  /** Far below the least subnormal the exponent stays below 974. */
  lemma {:induction false} FieldsTiny(sExp: int, sig: nat)
    requires B54 <= sig < 2 * B55 && -60 <= sExp <= 971
    ensures var l := Dropped(sExp, sig); ExpOf(sExp, Mul(Rne(sig, Pow2(l)), Pow2(l - 2))) < 974
  {
    var l := Dropped(sExp, sig);
    Pow2Values();
    TopBits(sig);
    assert Pow2(0) == 1 && Pow2(1) == 2;
    if sExp >= 0 {
      assert l == 56 && Pow2(56) == 4 * Pow2(54);
      RneRange(sig, 4 * B54, 0, 1);
    } else {
      assert sExp % 4096 == sExp + 4096;
      var p := Pow2(D(sig));
      assert l == D(sig) + 2 && Pow2(l) == 4 * p;
      RneRange(sig, 4 * p, B52, B53);
    }
  }

  // ---- the theorem ----

  /** The double the rounder's output stands for, in round-to-nearest-even. */
  function Result(s: State): Double {
    Derecoded(Round(false, false, RawOf(s), RNE))
  }

  function RawOf(s: State): RawOut {
    RawOut(s.req.isNaN, s.req.isInf, s.req.isZero, s.req.sign, s.req.sExp, RawOutSig(s))
  }

  ghost predicate Plain(s: State) {
    !s.req.isNaN && !s.req.isInf && !s.req.isZero
  }

  /** The value v, with low bit m at its own spacing, is what the double holds, or it is infinite. */
  ghost predicate Holds(y: Double, v: nat, m: nat) {
    if v >= Pow2(2098) then y.IsInf()
    else y.Valid() && y.Finite() && Mag(y) == v && y.F % 2 == m % 2
  }

  /** What the rounder makes of the fields: the class follows the exponent. */
  ghost predicate CarriedTo(y: Rec, sExp: int, sig: nat, r: nat) {
    var e := ExpOf(sExp, r);
    && (e < 974 ==> RecZero(y)) && (e >= 3072 ==> RecInf(y))
    && (974 <= e < 3072 ==> y.exp == e && y.fract == FractOf(sig, r))
  }

  lemma {:induction false} Carried(s: State, l: nat, r: nat)
    requires Plain(s)
    requires l == Dropped(s.req.sExp, RawOutSig(s)) && r == Mul(Rne(RawOutSig(s), Pow2(l)), Pow2(l - 2))
    ensures var y := Round(false, false, RawOf(s), RNE);
      y.sign == s.req.sign && CarriedTo(y, s.req.sExp, RawOutSig(s), r)
  {
    hide Pow2;
    RoundedSigIs(s.req.sExp, RawOutSig(s), s.req.sign);
    PackedClass(false, false, RawOf(s), r);
  }

  lemma {:induction false} ZeroOutcome(y: Rec)
    requires RecZero(y)
    ensures var d := Derecoded(y); d.IsZero() && d.sign == y.sign
  {
  }

  lemma {:induction false} InfOutcome(y: Rec)
    requires RecInf(y)
    ensures var d := Derecoded(y); d.IsInf() && d.sign == y.sign
  {
  }

  lemma {:induction false} NormalOutcome(y: Rec, sExp: nat, sig: nat, m: nat, r: nat, q: nat)
    requires B54 <= sig < 2 * B55 && sExp + D(sig) >= 1026 && q == sExp + D(sig) - 1026
    requires m == Rne(sig, Pow2(D(sig) + 2)) && r == Mul(m, Pow2(D(sig)))
    requires CarriedTo(y, sExp, sig, r)
    ensures B52 <= m <= B53 && Holds(Derecoded(y), Mul(m, Pow2(q)), m)
  {
    var e, f := ExpOf(sExp, r), FractOf(sig, r);
    FieldsNormal(sExp, sig, m, r, e, f);
    OverflowSize(m, q, e);
    Unpacked(y, e, f, Mul(m, Pow2(q)), m);
  }

  /** The packed fields, read back. */
  lemma {:induction false} Unpacked(y: Rec, e: nat, f: nat, v: nat, m: nat)
    requires 974 <= e && f < B52 && (B52 + f) * Pow2(e) == v * Pow2(1026)
    requires if e >= 3072 then RecInf(y) else y.exp == e && y.fract == f
    requires if e >= 1026 then f % 2 == m % 2 else v == m
    ensures e >= 3072 ==> Derecoded(y).IsInf()
    ensures e < 3072 ==> var d := Derecoded(y); d.Valid() && d.Finite() && Mag(d) == v && d.F % 2 == m % 2
  {
    if e >= 3072 {
      InfOutcome(y);
    } else {
      assert Stands(y, v);
      if e >= 1026 {
        DerecodedNormal(y, v);
      } else {
        DerecodedSubnormal(y, v);
      }
    }
  }

  lemma {:induction false} OverflowSize(m: nat, q: nat, e: int)
    requires B52 <= m <= B53 && e == q + 1026 + (if m == B53 then 1 else 0)
    ensures Mul(m, Pow2(q)) >= Pow2(2098) <==> e >= 3072
  {
    hide Pow2;
    var t, p := Pow2(2045), Pow2(q);
    GreatPowers(q);
    if q >= 2046 {
      BigProduct(m, p, t);
    } else if q == 2045 {
      MulStrict(p, m, B53);
    } else {
      SmallProduct(m, p, t);
    }
  }

  /** The largest numbers' spacing, and another next to it. */
  lemma {:induction false} GreatPowers(q: nat)
    ensures Pow2(2098) == B53 * Pow2(2045)
    ensures q >= 2046 ==> Pow2(q) >= 2 * Pow2(2045)
    ensures q < 2045 ==> 2 * Pow2(q) <= Pow2(2045)
  {
    hide Pow2;
    Pow2Values();
    Pow2Add(53, 2045);
    Pow2Next(2045);
    Pow2Next(q);
    if q >= 2046 {
      Pow2Mono(2046, q);
    } else if q < 2045 {
      Pow2Mono(q + 1, 2045);
    }
  }

  lemma {:induction false} BigProduct(m: nat, p: nat, t: nat)
    requires m >= B52 && p >= 2 * t
    ensures Mul(m, p) >= B53 * t
  {
  }

  lemma {:induction false} SmallProduct(m: nat, p: nat, t: nat)
    requires m <= B53 && 2 * p <= t && t > 0
    ensures Mul(m, p) < B53 * t
  {
    MulMono(p, m, B53);
  }

  lemma {:induction false} SubnormalOutcome(y: Rec, sExp: nat, sig: nat, m: nat, r: nat)
    requires B54 <= sig < 2 * B55 && 972 <= sExp && sExp + D(sig) < 1026
    requires m == Rne(sig, Pow2(1028 - sExp)) && r == Mul(m, Pow2(1026 - sExp))
    requires CarriedTo(y, sExp, sig, r)
    ensures m <= B52 && Holds(Derecoded(y), m, m)
  {
    hide Pow2;
    var e, f := ExpOf(sExp, r), FractOf(sig, r);
    FieldsSubnormal(sExp, sig, m, r, e, f);
    Pow2Values();
    Pow2Mono(53, 2098);
    if m == 0 {
      ZeroOutcome(y);
    } else {
      ExpAtLeast(B52 + f, e, m);
      Unpacked(y, e, f, m, m);
    }
  }

  lemma {:induction false} ExpAtLeast(a: nat, e: nat, m: nat)
    requires a < B53 && m > 0 && a * Pow2(e) == m * Pow2(1026)
    ensures e >= 974
  {
    Pow2Values();
    ExpAbove(a, e, m, 973, 1026);
  }

  lemma {:induction false} ExpAbove(a: nat, e: nat, m: nat, k: nat, n: nat)
    requires Pow2(53) == B53 && n == 53 + k
    requires a < B53 && m > 0 && a * Pow2(e) == m * Pow2(n)
    ensures e > k
  {
    if e <= k {
      Pow2Add(53, k);
      Pow2Mono(e, k);
      ProductBelow(a, Pow2(e), Pow2(k));
      MulMono(Pow2(n), 1, m);
    }
  }

  lemma {:induction false} ProductBelow(a: nat, p: nat, q: nat)
    requires a < B53 && 0 < p <= q
    ensures a * p < B53 * q
  {
  }

  lemma {:induction false} TinyOutcome(y: Rec, sExp: int, sig: nat, l: nat, r: nat)
    requires B54 <= sig < 2 * B55 && -60 <= sExp <= 971
    requires l == Dropped(sExp, sig) && r == Mul(Rne(sig, Pow2(l)), Pow2(l - 2))
    requires CarriedTo(y, sExp, sig, r)
    ensures Derecoded(y).IsZero()
  {
    FieldsTiny(sExp, sig);
    ZeroOutcome(y);
  }

  /** Whether the rounded value passes the largest finite number is whether the exact one overflows. */
  lemma {:induction false} OverflowCut(x: Exact, m: nat, q: nat)
    requires HalfStep(x, m, Pow2(q)) && m <= B53 && (x.Ratio? ==> x.den > 0)
    requires q > 0 ==> m >= B52
    requires q > 0 && m == B52 ==> TwiceAtLeast(x, Mul(2 * m, Pow2(q)))
    ensures Overflows(x) <==> Mul(m, Pow2(q)) >= Pow2(2098)
  {
    hide Pow2;
    var t, p := Pow2(2045), Pow2(q);
    GreatPowers(q);
    if q >= 2046 {
      BigProduct(m, p, t);
      BigCut(x, m, p, t);
    } else if q == 2045 {
      MulStrict(t, m, B53);
      TopCut(x, m, t);
    } else {
      SmallProduct(m, p, t);
      SmallCut(x, m, p, t);
    }
  }

  lemma {:induction false} BigCut(x: Exact, m: nat, p: nat, t: nat)
    requires HalfStep(x, m, p) && m >= B52 && p >= 2 * t
    requires m == B52 ==> TwiceAtLeast(x, Mul(2 * m, p))
    ensures TwiceAtLeast(x, Mul(B54 - 1, t))
  {
    var c := if m == B52 then 2 * m else 2 * m - 1;
    MulMono(p, B53, c);
    TwiceMono(x, Mul(B54 - 1, t), Mul(c, p));
  }

  lemma {:induction false} TopCut(x: Exact, m: nat, t: nat)
    requires HalfStep(x, m, t) && 0 < m <= B53 && (x.Ratio? ==> x.den > 0) && t > 0
    ensures TwiceAtLeast(x, Mul(B54 - 1, t)) <==> m == B53
  {
    if m < B53 - 1 {
      MulStrict(t, 2 * m + 1, B54 - 1);
      TwiceStrict(x, Mul(2 * m + 1, t), Mul(B54 - 1, t));
    }
  }

  lemma {:induction false} SmallCut(x: Exact, m: nat, p: nat, t: nat)
    requires HalfStep(x, m, p) && m <= B53 && (x.Ratio? ==> x.den > 0) && 2 * p <= t && t > 0
    ensures !TwiceAtLeast(x, Mul(B54 - 1, t))
  {
    MulMono(p, 2 * m + 1, B54 + 1);
    TwiceStrict(x, Mul(2 * m + 1, p), Mul(B54 - 1, t));
  }

  /** A double holding m * 2^q with x within half a step is the correctly rounded x. */
  lemma {:induction false} HoldsRounds(x: Exact, y: Double, m: nat, q: nat)
    requires HalfStep(x, m, Pow2(q)) && m <= B53 && (x.Ratio? ==> x.den > 0)
    requires q > 0 ==> m >= B52
    requires q > 0 && m == B52 ==> TwiceAtLeast(x, Mul(2 * m, Pow2(q)))
    requires Holds(y, Mul(m, Pow2(q)), m)
    ensures RoundsTo(x, y)
  {
    OverflowCut(x, m, q);
    if Mul(m, Pow2(q)) < Pow2(2098) {
      NearestFromCuts(x, y, m, q);
    }
  }

  /** From the cuts at the rounding position to the correctly rounded double. */
  lemma {:induction false} CutsRoundNormal(x: Exact, y: Rec, sExp: nat, sig: nat, r: nat, q: nat)
    requires B54 <= sig < 2 * B55 && sExp + D(sig) >= 1026 && (x.Ratio? ==> x.den > 0)
    requires q == sExp + D(sig) - 1026
    requires r == Mul(Rne(sig, Pow2(D(sig) + 2)), Pow2(D(sig))) && CarriedTo(y, sExp, sig, r)
    requires CutLaw(x, sig, Pow2(D(sig) + 1), Pow2(q))
    ensures RoundsTo(x, Derecoded(y))
  {
    var m := Rne(sig, Pow2(D(sig) + 2));
    assert Pow2(D(sig) + 2) == 2 * Pow2(D(sig) + 1);
    RoundedHalfStep(x, sig, Pow2(D(sig) + 1), Pow2(q));
    NormalOutcome(y, sExp, sig, m, r, q);
    AtLeastOne(x, sig, q);
    HoldsRounds(x, Derecoded(y), m, q);
  }

  lemma {:induction false} CutsRoundSubnormal(x: Exact, y: Rec, sExp: nat, sig: nat, r: nat)
    requires B54 <= sig < 2 * B55 && 972 <= sExp && sExp + D(sig) < 1026 && (x.Ratio? ==> x.den > 0)
    requires r == Mul(Rne(sig, Pow2(1028 - sExp)), Pow2(1026 - sExp)) && CarriedTo(y, sExp, sig, r)
    requires CutLaw(x, sig, Pow2(1027 - sExp), Pow2(0))
    ensures RoundsTo(x, Derecoded(y))
  {
    var m := Rne(sig, Pow2(1028 - sExp));
    assert Pow2(1028 - sExp) == 2 * Pow2(1027 - sExp) && Pow2(0) == 1;
    RoundedHalfStep(x, sig, Pow2(1027 - sExp), Pow2(0));
    SubnormalOutcome(y, sExp, sig, m, r);
    HoldsRounds(x, Derecoded(y), m, 0);
  }

  lemma {:induction false} ZeroRounds(x: Exact, y: Double)
    requires y.IsZero() && HalfStep(x, 0, Pow2(0)) && (x.Ratio? ==> x.den > 0)
    ensures RoundsTo(x, y)
  {
    HoldsRounds(x, y, 0, 0);
  }

  lemma {:induction false} DroppedIs(sExp: int, sig: nat)
    requires 972 <= sExp < 3584
    ensures Dropped(sExp, sig) == if sExp + D(sig) >= 1026 then D(sig) + 2 else 1028 - sExp
  {
  }

  lemma {:induction false} CarriedRounds(s: State, job: Job, x: Exact, y: Rec, l: nat, r: nat)
    requires Finished(s, job, x)
    requires l == Dropped(s.req.sExp, RawOutSig(s)) && r == Mul(Rne(RawOutSig(s), Pow2(l)), Pow2(l - 2))
    requires CarriedTo(y, s.req.sExp, RawOutSig(s), r)
    ensures RoundsTo(x, Derecoded(y))
  {
    hide Pow2, Rne, Derecoded, RawOutSig, Dropped, RoundsTo, CarriedTo;
    var sig, sExp := RawOutSig(s), s.req.sExp;
    Faithful(s, job, 0);
    if sExp < 972 {
      TinyOutcome(y, sExp, sig, l, r);
      Tiny(s, job, x);
      ZeroRounds(x, Derecoded(y));
    } else {
      DroppedIs(sExp, sig);
      FinishedCuts(s, job, x, l, l + sExp - 1028);
      if sExp + D(sig) >= 1026 {
        CutsRoundNormal(x, y, sExp, sig, r, l + sExp - 1028);
      } else {
        CutsRoundSubnormal(x, y, sExp, sig, r);
      }
    }
  }

  /** The theorem: from any finished job the rounder's double is the exact value
      correctly rounded, over the normal, subnormal, underflow and overflow ranges. */
  lemma {:induction false} CorrectlyRounded(s: State, job: Job, x: Exact)
    requires Finished(s, job, x) && Plain(s)
    ensures RoundsTo(x, Result(s)) && Result(s).sign == s.req.sign
  {
    var l := Dropped(s.req.sExp, RawOutSig(s));
    var r := Mul(Rne(RawOutSig(s), Pow2(l)), Pow2(l - 2));
    Carried(s, l, r);
    CarriedRounds(s, job, x, Round(false, false, RawOf(s), RNE), l, r);
  }

  /** In normal position the value is at least the power of two below it. */
  lemma {:induction false} AtLeastOne(x: Exact, sig: nat, q: nat)
    requires B54 <= sig < 2 * B55 && CutLaw(x, sig, Pow2(D(sig) + 1), Pow2(q))
    ensures TwiceAtLeast(x, Mul(B53, Pow2(q)))
  {
    TopBits(sig);
    assert Pow2(D(sig) + 1) == 2 * Pow2(D(sig));
    assert CutAt(x, sig, Pow2(D(sig) + 1), Pow2(q), B53);
  }

  /** Below half the least subnormal. */
  lemma {:induction false} Tiny(s: State, job: Job, x: Exact)
    requires Finished(s, job, x) && s.req.sExp <= 971
    ensures HalfStep(x, 0, Pow2(0))
  {
    var sig, n := RawOutSig(s), 1027 - s.req.sExp;
    Faithful(s, job, 0);
    Pow2Values();
    assert Pow2(0) == 1 && Pow2(56) == 2 * B55;
    Pow2Mono(56, n);
    FaithfulAt(s, job, 1, n);
    assert LinkAt(x, job, s.req.sExp, 1, 0);
  }
}
