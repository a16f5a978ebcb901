/** The boundary between binary64 and the recoded format: both directions, the
    round trip, the value a recoded number stands for, and the comparator. */
module Recode {
  import opened Bits
  import opened Ieee
  import opened Rounder

  // ---- in: recode64 ----

  /** Leading zeros of a 52-bit fraction, 52 for none set. */
  function LeadingZeros(f: nat): nat
    requires f < B52
  {
    if f == 0 then 52 else
      Pow2Values();
      TopBitBelow(f, 52);
      51 - TopBit(f)
  }

  /** The position of the top set bit. */
  function TopBit(f: nat): nat
    requires f > 0
    ensures Pow2(TopBit(f)) <= f < 2 * Pow2(TopBit(f))
  {
    if f == 1 then 0 else TopBit(f / 2) + 1
  }

  lemma {:induction false} TopBitBelow(f: nat, k: nat)
    requires 0 < f < Pow2(k)
    ensures TopBit(f) < k
  {
    if k <= TopBit(f) {
      Pow2Mono(k, TopBit(f));
    }
  }

  /** The module's loop: it runs upward, so the last assignment is the top set bit. */
  method CountLeadingZeros(f: nat) returns (lz: nat)
    requires f < B52
    ensures lz == LeadingZeros(f)
  {
    Pow2Values();
    lz := 52;
    var i := 0;
    while i < 52
      invariant 0 <= i <= 52
      invariant f % Pow2(i) < B52
      invariant lz == LeadingZeros(f % Pow2(i))
    {
      LowBits(f, i);
      Pow2Mono(i + 1, 52);
      if Bit(f, i) {
        lz := 51 - i;
      }
      i := i + 1;
    }
    DivModSmall(f, B52);
  }

  /** One more low bit: unset, nothing changes; set, it is the top one. */
  lemma {:induction false} LowBits(f: nat, i: nat)
    ensures !Bit(f, i) ==> f % Pow2(i + 1) == f % Pow2(i)
    ensures Bit(f, i) ==> f % Pow2(i + 1) > 0 && TopBit(f % Pow2(i + 1)) == i
    ensures f % Pow2(i + 1) > 0 ==> TopBit(f % Pow2(i + 1)) < i + 1
  {
    var p := Pow2(i);
    var q, r := DivMod(f, p);
    var h, b := DivMod(q, 2);
    assert p * q == (2 * p) * h + p * b by { assert q == 2 * h + b; Spread(p, h, b); }
    assert p * b + r < 2 * p by { MulMono(p, b, 1); }
    DivModUnique(f, 2 * p, h, p * b + r);
    assert Pow2(i + 1) == 2 * p;
    var t := f % Pow2(i + 1);
    assert t == p * b + r;
    if b == 1 {
      TopBitUnique(t, i);
    }
    if t > 0 {
      TopBitBelow(t, i + 1);
    }
  }

  lemma {:induction false} Spread(p: nat, h: nat, b: nat)
    ensures p * (2 * h + b) == (2 * p) * h + p * b
  {
  }

  lemma {:induction false} TopBitUnique(f: nat, k: nat)
    requires Pow2(k) <= f < 2 * Pow2(k)
    ensures TopBit(f) == k
  {
    var t := TopBit(f);
    if t < k {
      Pow2Mono(t + 1, k);
    }
    TopBitBelow(f, k + 1);
  }

  /** A recoded number with fields of the widths it is stored in. */
  type RecWord = r: Rec | r.exp < 4096 && r.fract < B52 witness Rec(false, 0, 0)

  function Recoded(d: Double): RecWord
    requires d.Valid()
  {
    var lz := LeadingZeros(d.F);
    if d.E == 0 && d.F == 0 then Rec(d.sign, 0, 0)
    else if d.E == 2047 then
      if d.F == 0 then Rec(d.sign, 0xc00, 0) else Rec(d.sign, 0xe00, B51 + d.F % B51)
    else if d.E == 0 then
      Rec(d.sign, 1025 - lz, d.F * Pow2(lz) % B52 * 2 % B52)
    else Rec(d.sign, d.E + 1025, d.F)
  }

  // ---- out: derecode64 ----

  predicate RecZero(r: Rec) { r.exp / 512 == 0 }
  predicate RecSpecial(r: Rec) { r.exp / 1024 == 3 }
  predicate RecNaN(r: Rec) { RecSpecial(r) && r.exp / 512 % 2 == 1 }
  predicate RecInf(r: Rec) { RecSpecial(r) && r.exp / 512 % 2 == 0 }

  function Derecoded(r: Rec): (d: Double)
    ensures r.fract < B52 ==> d.Valid()
  {
    var e := r.exp - 1025;
    var subnormal := !RecSpecial(r) && !RecZero(r) && e < 1;
    var shift := (1 - e) % 128;
    var shifted := if shift >= 53 then 0 else (B52 + r.fract) / Pow2(shift);
    Double(r.sign,
           if RecZero(r) || subnormal then 0 else if RecSpecial(r) then 2047 else e % 2048,
           if RecZero(r) then 0
           else if RecSpecial(r) then (if RecNaN(r) then B51 + r.fract % B51 else 0)
           else if subnormal then shifted % B52
           else r.fract)
  }

  // ---- the value of a recoded finite number ----

  /** r stands for v units of 2^-1074: (2^52 + fract) * 2^exp = v * 2^1026. */
  ghost predicate Stands(r: Rec, v: nat) {
    974 <= r.exp < 3072 && r.fract < B52 && (B52 + r.fract) * Pow2(r.exp) == v * Pow2(1026)
  }

  /** A subnormal is shifted until its top bit is the implied one. */
  lemma {:induction false} Normalised(f: nat)
    requires 0 < f < B52
    ensures LeadingZeros(f) <= 51
    ensures f * Pow2(LeadingZeros(f)) < B52
    ensures f * Pow2(LeadingZeros(f)) % B52 * 2 % B52 == f * Pow2(LeadingZeros(f) + 1) - B52
    ensures B52 <= f * Pow2(LeadingZeros(f) + 1) < B53
  {
    hide TopBit;
    Pow2Values();
    TopBitBelow(f, 52);
    var t := TopBit(f);
    var p, q := Pow2(51 - t), Pow2(t);
    Pow2Add(t, 51 - t);
    assert Pow2(52 - t) == 2 * p;
    hide Pow2;
    ShiftRange(f, q, p);
    NormalField(f, p);
  }

  lemma {:induction false} NormalField(f: nat, p: nat)
    requires B51 <= f * p < B52
    ensures f * p % B52 * 2 % B52 == f * (2 * p) - B52
    ensures B52 <= f * (2 * p) < B53
  {
    Assoc2(f, p);
  }

  lemma {:induction false} ShiftRange(f: nat, q: nat, p: nat)
    requires q <= f < 2 * q && q * p == B51
    ensures B51 <= f * p < B52
  {
  }

  lemma {:induction false} Assoc2(f: nat, p: nat)
    ensures f * (2 * p) == 2 * (f * p)
  {
  }

  lemma {:induction false} RecodedStands(d: Double)
    requires d.Valid() && d.Finite() && !d.IsZero()
    ensures Stands(Recoded(d), Mag(d)) && Recoded(d).sign == d.sign
  {
    hide Pow2, LeadingZeros;
    var r := Recoded(d);
    if d.E == 0 {
      Normalised(d.F);
      var lz := LeadingZeros(d.F);
      Pow2Add(lz + 1, 1025 - lz);
      Assoc(d.F, Pow2(lz + 1), Pow2(1025 - lz));
    } else {
      Pow2Add(d.E - 1, 1026);
      Assoc(B52 + d.F, Pow2(d.E - 1), Pow2(1026));
    }
  }

  /** The number a recoded value comes back as has that value, and its low
      fraction bit is the low bit of the significand at its own spacing. */
  lemma {:induction false} DerecodedMag(r: Rec, v: nat)
    requires Stands(r, v)
    ensures var d := Derecoded(r);
      d.Valid() && d.Finite() && Mag(d) == v && d.sign == r.sign && v > 0
      && d.F % 2 == (if r.exp <= 1025 then v else r.fract) % 2
  {
    if r.exp >= 1026 {
      DerecodedNormal(r, v);
    } else {
      DerecodedSubnormal(r, v);
    }
  }

  lemma {:induction false} DerecodedNormal(r: Rec, v: nat)
    requires Stands(r, v) && r.exp >= 1026
    ensures var d := Derecoded(r); d == Double(r.sign, r.exp - 1025, r.fract) && Mag(d) == v && v > 0
  {
    StandsAbove(r, v);
    MulPos(B52 + r.fract, Pow2(r.exp - 1026));
    DivModSmall(r.exp - 1025, 2048);
  }

  lemma {:induction false} StandsAbove(r: Rec, v: nat)
    requires Stands(r, v) && r.exp >= 1026
    ensures v == (B52 + r.fract) * Pow2(r.exp - 1026)
  {
    hide Pow2;
    var s, p, u := B52 + r.fract, Pow2(r.exp - 1026), Pow2(1026);
    Pow2Add(r.exp - 1026, 1026);
    Assoc(s, p, u);
    Cancel(s * p, v, u);
  }

  lemma {:induction false} DerecodedSubnormal(r: Rec, v: nat)
    requires Stands(r, v) && r.exp < 1026
    ensures Derecoded(r) == Double(r.sign, 0, v) && 0 < v < B52
  {
    hide Pow2;
    var s, e := B52 + r.fract, r.exp;
    var h := 1026 - e;
    Pow2Add(h, e);
    Assoc(v, Pow2(h), Pow2(e));
    Cancel(s, v * Pow2(h), Pow2(e));
    DivModUnique(s, Pow2(h), v, 0);
    HalfAtMost(s, v, h);
    DivModSmall(v, B52);
    DivModSmall(h, 128);
  }

  lemma {:induction false} HalfAtMost(s: nat, v: nat, h: nat)
    requires s == Pow2(h) * v && 0 < s < B53 && h >= 1
    ensures 0 < v < B52
  {
  }

  lemma {:induction false} Cancel(a: nat, b: nat, c: nat)
    requires c > 0 && a * c == b * c
    ensures a == b
  {
  }

  // ---- the round trip ----

  /** Every number but a NaN comes back as it went in; a NaN comes back quiet. */
  lemma {:induction false} RoundTrip(d: Double)
    requires d.Valid()
    ensures Derecoded(Recoded(d)) == if d.IsNaN() then d.(F := B51 + d.F % B51) else d
  {
    if d.Finite() && !d.IsZero() {
      RecodedStands(d);
      if d.E == 0 {
        Normalised(d.F);
        DerecodedSubnormal(Recoded(d), Mag(d));
      } else {
        DerecodedNormal(Recoded(d), Mag(d));
      }
    }
  }

  // ---- the comparator ----

  /** Exponent first, then significand. */
  predicate LtMags(a: Rec, b: Rec) {
    a.exp < b.exp || (a.exp == b.exp && Sig(a) < Sig(b))
  }

  predicate EqMags(a: Rec, b: Rec) {
    a.exp == b.exp && Sig(a) == Sig(b)
  }

  function Sig(r: Rec): nat {
    (if RecZero(r) then 0 else B52) + r.fract
  }

  predicate CmpLess(a: Rec, b: Rec) {
    var bothInfs, bothZeros := RecInf(a) && RecInf(b), RecZero(a) && RecZero(b);
    && !RecNaN(a) && !RecNaN(b)
    && !bothZeros
    && ((a.sign && !b.sign)
        || (!bothInfs && ((a.sign && !LtMags(a, b) && !EqMags(a, b)) || (!b.sign && LtMags(a, b)))))
  }

  predicate CmpEqual(a: Rec, b: Rec) {
    var bothInfs, bothZeros := RecInf(a) && RecInf(b), RecZero(a) && RecZero(b);
    && !RecNaN(a) && !RecNaN(b)
    && (bothZeros || (a.sign == b.sign && (bothInfs || EqMags(a, b))))
  }

  /** Recoding keeps the order of magnitudes. */
  lemma {:induction false} StandsOrder(a: Rec, va: nat, b: Rec, vb: nat)
    requires Stands(a, va) && Stands(b, vb)
    ensures LtMags(a, b) <==> va < vb
    ensures EqMags(a, b) <==> va == vb
  {
    if a.exp < b.exp {
      StandsBelow(a, va, b, vb);
    } else if b.exp < a.exp {
      StandsBelow(b, vb, a, va);
    } else {
      StandsSame(B52 + a.fract, va, B52 + b.fract, vb, Pow2(a.exp), Pow2(1026));
    }
  }

  lemma {:induction false} StandsSame(sa: nat, va: nat, sb: nat, vb: nat, p: nat, u: nat)
    requires p > 0 && u > 0 && sa * p == va * u && sb * p == vb * u
    ensures sa < sb <==> va < vb
    ensures sa == sb <==> va == vb
  {
  }

  lemma {:induction false} StandsBelow(a: Rec, va: nat, b: Rec, vb: nat)
    requires Stands(a, va) && Stands(b, vb) && a.exp < b.exp
    ensures va < vb
  {
    hide Pow2;
    var p, p' := Pow2(a.exp), Pow2(b.exp);
    Pow2Next(a.exp);
    Pow2Mono(a.exp + 1, b.exp);
    MulStrict(p, B52 + a.fract, B53);
    assert B53 * p == B52 * (2 * p);
    MulMono(B52, 2 * p, p');
    MulMono(p', B52, B52 + b.fract);
    MulStrict(Pow2(1026), va, vb);
  }

  /** The comparator on recoded operands is the comparison of the numbers. */
  lemma {:induction false} CompareCorrect(a: Double, b: Double)
    requires a.Valid() && b.Valid()
    ensures CmpLess(Recoded(a), Recoded(b)) <==> IeeeLess(a, b)
    ensures CmpEqual(Recoded(a), Recoded(b)) <==> IeeeEqual(a, b)
  {
    Classes(a);
    Classes(b);
    if a.Finite() && !a.IsZero() && b.Finite() && !b.IsZero() {
      StandsOrder(Recoded(a), Mag(a), Recoded(b), Mag(b));
    }
  }

  lemma {:induction false} Classes(d: Double)
    requires d.Valid()
    ensures var r := Recoded(d);
      && r.sign == d.sign && r.exp < 4096 && r.fract < B52
      && (RecNaN(r) <==> d.IsNaN()) && (RecInf(r) <==> d.IsInf()) && (RecZero(r) <==> d.IsZero())
      && (d.IsInf() ==> r.exp == 0xc00 && r.fract == 0)
      && (d.IsZero() ==> r.exp == 0 && r.fract == 0 && Mag(d) == 0)
      && (d.Finite() && !d.IsZero() ==> Stands(r, Mag(d)) && Mag(d) > 0)
  {
    if d.Finite() && !d.IsZero() {
      RecodedStands(d);
      DerecodedMag(Recoded(d), Mag(d));
    }
  }
}
