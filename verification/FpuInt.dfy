/** The integer conversions: exact in, truncating out, and inverse to each other. */
module FpuInt {
  import opened Bits
  import opened Ieee
  import opened Recode

  const TWO31: nat := 0x8000_0000
  const TWO32: nat := 0x1_0000_0000

  /** The low half of the word. */
  function Low32(a: Word): nat {
    a.F % TWO32
  }

  /** The magnitude of the 32-bit two's complement number n. */
  function IntMag(n: nat): nat
    requires n < TWO32
  {
    if n >= TWO31 then TWO32 - n else n
  }

  function OfInt32(a: Word): Word {
    var n := Low32(a);
    var mag := IntMag(n);
    if mag == 0 then Double(false, 0, 0)
    else
      TopBitBelow32(mag);
      Double(n >= TWO31, 1023 + TopBit(mag), mag * Pow2(52 - TopBit(mag)) % B52)
  }

  lemma {:induction false} Pow2Words()
    ensures Pow2(31) == TWO31 && Pow2(32) == TWO32
  {
    assert Pow2(8) == 256;
    Pow2Add(8, 8);
    Pow2Add(16, 16);
    assert Pow2(32) == 2 * Pow2(31);
  }

  lemma {:induction false} TopBitBelow32(mag: nat)
    requires 0 < mag < TWO32
    ensures TopBit(mag) < 32
    ensures mag <= TWO31 ==> (TopBit(mag) == 31 <==> mag == TWO31)
  {
    Pow2Words();
    TopBitBelow(mag, 32);
    if mag < TWO31 {
      TopBitBelow(mag, 31);
    } else if mag == TWO31 {
      TopBitUnique(mag, 31);
    }
  }

  /** The module's loop: it runs upward, so the last assignment is the top set bit. */
  method FindMsb(mag: nat) returns (msb: nat)
    requires mag < TWO32
    ensures msb == if mag == 0 then 0 else TopBit(mag)
  {
    Pow2Words();
    msb := 0;
    for k := 0 to 32
      invariant msb == if mag % Pow2(k) == 0 then 0 else TopBit(mag % Pow2(k))
    {
      LowBits(mag, k);
      if Bit(mag, k) {
        msb := k;
      }
    }
    DivModSmall(mag, TWO32);
  }

  /** Truncation toward zero; out of range answers zero. */
  function ToInt32(a: Word): Word {
    var mag := TruncMag(a);
    Double(false, 0, if a.sign then (TWO32 - mag) % TWO32 else mag)
  }

  function TruncMag(a: Word): (mag: nat)
    ensures mag < TWO32
  {
    var e := a.E - 1023;
    if 0 <= e < 31 then (B52 + a.F) / Pow2(52 - e) % TWO32 else 0
  }

  // ---- what the conversions mean ----

  /** The significand of an integer: its bits, shifted up to position 52. */
  lemma {:induction false} IntSig(mag: nat, t: nat, p: nat)
    requires Pow2(t) <= mag < 2 * Pow2(t) && Pow2(t) * p == B52
    ensures B52 <= mag * p < B53 && B52 + mag * p % B52 == mag * p
  {
  }

  lemma {:induction false} OfIntSig(a: Word)
    requires IntMag(Low32(a)) > 0
    ensures var d := OfInt32(a); var mag := IntMag(Low32(a)); var t := TopBit(mag);
      t <= 31 && d.sign == (Low32(a) >= TWO31) && d.E == 1023 + t && B52 + d.F == mag * Pow2(52 - t)
  {
    var mag := IntMag(Low32(a));
    TopBitBelow32(mag);
    var t := TopBit(mag);
    Pow2Values();
    Pow2Add(t, 52 - t);
    IntSig(mag, t, Pow2(52 - t));
  }

  /** The 32-bit two's complement number n stands for. */
  function Signed(n: nat): int {
    if n >= TWO31 then n - TWO32 else n
  }

  /** y is the number in the low 32 bits of the word a, exactly; zero is positive. */
  ghost predicate IsOfInt(a: Word, y: Double) {
    var n := Signed(a.F % 0x1_0000_0000);
    y.Valid() && Value(y) == n * Pow2(1074) && (n == 0 ==> y == Double(false, 0, 0))
  }

  /** The conversion from integers is exact. */
  lemma {:induction false} OfIntExact(a: Word)
    ensures IsOfInt(a, OfInt32(a))
  {
    hide Pow2;
    OfIntMag(a);
    Opposite(IntMag(Low32(a)), Pow2(1074));
  }

  lemma {:induction false} Opposite(m: int, p: int)
    ensures (-m) * p == -(m * p)
  {
  }

  lemma {:induction false} OfIntMag(a: Word)
    ensures var d := OfInt32(a);
      Mag(d) == IntMag(Low32(a)) * Pow2(1074) && (IntMag(Low32(a)) > 0 ==> d.sign == (Low32(a) >= TWO31))
  {
    hide Pow2;
    var mag := IntMag(Low32(a));
    if mag > 0 {
      OfIntSig(a);
      var t := TopBit(mag);
      Pow2Add(52 - t, 1022 + t);
      Triple(mag, Pow2(52 - t), Pow2(1022 + t));
    }
  }

  lemma {:induction false} Triple(a: nat, b: nat, c: nat)
    ensures (a * b) * c == a * (b * c)
  {
  }

  /** The word y is a 32-bit two's complement number, its upper half zero: the number
      a truncated toward zero, or zero from a magnitude of 2^31 up. */
  ghost predicate IsToInt(a: Word, y: Double) {
    var n := Signed(y.F);
    && !y.sign && y.E == 0 && y.F < 0x1_0000_0000
    && if a.Finite() && Mag(a) < 0x8000_0000 * Pow2(1074)
       then (if a.sign then n <= 0 && Truncated(a, -n) else n >= 0 && Truncated(a, n))
       else n == 0
  }

  /** The conversion to integers is that. */
  lemma {:induction false} ToIntTruncates(a: Word)
    ensures IsToInt(a, ToInt32(a))
  {
    hide Pow2;
    MagnitudeTruncates(a);
  }

  /** The magnitude of a is m and a fraction. */
  predicate Truncated(a: Word, m: nat) {
    m * Pow2(1074) <= Mag(a) < (m + 1) * Pow2(1074)
  }

  lemma {:induction false} MagnitudeTruncates(a: Word)
    ensures var m := TruncMag(a);
      if a.Finite() && Mag(a) < TWO31 * Pow2(1074) then m < TWO31 && Truncated(a, m) else m == 0
  {
    hide Pow2;
    if a.E < 1023 {
      SmallMag(a, 1074);
    } else if a.E < 1054 {
      MidMag(a, a.E - 1023, 1074);
    } else if a.Finite() {
      BigMag(a, 1074);
    }
  }

  lemma {:induction false} MidMag(a: Word, e: nat, u: nat)
    requires a.E == 1023 + e && e < 31 && u == (52 - e) + (e + 1022)
    ensures var m := TruncMag(a);
      m < TWO31 && m * Pow2(u) <= Mag(a) < (m + 1) * Pow2(u) <= TWO31 * Pow2(u)
  {
    var f, l := 52 - e, e + 1022;
    MidPowers(e, f);
    Pow2Add(f, l);
    var q, r := DivMod(B52 + a.F, Pow2(f));
    MidArith(B52 + a.F, Pow2(f), Pow2(e + 1), Pow2(l), q, r);
  }

  lemma {:induction false} MidPowers(e: nat, f: nat)
    requires e + f == 52 && e < 31
    ensures Pow2(f) * Pow2(e + 1) == B53 && Pow2(e + 1) <= TWO31
  {
    Pow2Words();
    Pow2Values();
    Pow2Add(f, e + 1);
    Pow2Mono(e + 1, 31);
  }

  lemma {:induction false} MidArith(x: nat, p: nat, h: nat, w: nat, q: nat, r: nat)
    requires x == p * q + r && r < p && w > 0 && x < B53 && p * h == B53 && h <= TWO31
    ensures q < TWO31 && q % TWO32 == q && q * (p * w) <= x * w < (q + 1) * (p * w) <= TWO31 * (p * w)
  {
    MulStrict(p, q, h);
    DivModSmall(q, TWO32);
    Floors(x, p, q, r, w);
    MulMono(p * w, q + 1, TWO31);
  }

  /** x = p*q + r, scaled by w. */
  lemma {:induction false} Floors(x: nat, p: nat, q: nat, r: nat, w: nat)
    requires x == p * q + r && r < p && w > 0
    ensures q * (p * w) <= x * w < (q + 1) * (p * w)
  {
  }

  lemma {:induction false} SmallMag(a: Word, u: nat)
    requires a.E < 1023 && u >= 1074
    ensures Mag(a) < Pow2(u) <= TWO31 * Pow2(u)
  {
    hide Pow2;
    Pow2Values();
    if a.E == 0 {
      Pow2Mono(52, u);
    } else {
      var e := a.E - 1;
      MulStrict(Pow2(e), B52 + a.F, B53);
      Pow2Add(53, e);
      Pow2Mono(53 + e, u);
    }
  }

  lemma {:induction false} BigMag(a: Word, u: nat)
    requires a.E >= 1054 && u <= 1074
    ensures Mag(a) >= TWO31 * Pow2(u)
  {
    hide Pow2;
    Pow2Words();
    Pow2Values();
    var e := a.E - 1;
    MulMono(Pow2(e), B52, B52 + a.F);
    Pow2Add(52, e);
    Pow2Add(31, u);
    Pow2Mono(31 + u, 52 + e);
  }

  /** There and back: every 32-bit integer comes back, except the one whose
      magnitude is out of range. */
  lemma {:induction false} IntRoundTrip(a: Word)
    ensures ToInt32(OfInt32(a)) == Double(false, 0, Low32(a)) <==> Low32(a) != TWO31
  {
    hide OfInt32;
    TruncOfInt(a, OfInt32(a));
  }

  lemma {:induction false} TruncOfInt(a: Word, d: Word)
    requires d == OfInt32(a)
    ensures TruncMag(d) == (if Low32(a) == TWO31 then 0 else IntMag(Low32(a)))
    ensures TruncMag(d) > 0 ==> d.sign == (Low32(a) >= TWO31)
  {
    var mag := IntMag(Low32(a));
    if mag > 0 {
      OfIntSig(a);
      TopBitBelow32(mag);
      var t := TopBit(mag);
      SigOver(mag, Pow2(52 - t), B52 + d.F);
    }
  }

  lemma {:induction false} SigOver(mag: nat, p: nat, sig: nat)
    requires p > 0 && sig == mag * p && mag < TWO32
    ensures sig / p % TWO32 == mag
  {
    DivModUnique(sig, p, mag, 0);
    DivModSmall(mag, TWO32);
  }
}
