/** The rounder: a raw result with a sticky bit becomes a recoded number. */
module Rounder {
  import opened Bits

  /** A recoded number: sign, 12-bit exponent, 52-bit fraction. */
  datatype Rec = Rec(sign: bool, exp: nat, fract: nat)

  /** A raw result: a 13-bit signed exponent and a 56-bit significand. */
  datatype RawOut = RawOut(isNaN: bool, isInf: bool, isZero: bool, sign: bool, sExp: int, sig: nat)

  const RNE: nat := 0

  // ---- the round mask ----

  /** Bit j of the 65-bit arithmetic shift of 2^64 by k. */
  predicate ShiftBit(k: nat, j: nat) {
    j + k >= 64
  }

  /** Where bit i comes from in a stage that swaps neighbouring groups of k bits:
      the word shifted down k under one mask, or shifted up k under the other. */
  function Swapped(i: nat, k: nat): nat
    requires k == 1 || k == 2 || k == 4 || k == 8 || k == 16
  {
    if i / k % 2 == 0 then i + k else i - k
  }

  /** Bit i of the shift word's bits 44 to 13, and 60 to 45, through their stages. */
  predicate Swapped32Bit(k: nat, i: nat) {
    ShiftBit(k, 13 + Swapped(Swapped(Swapped(Swapped(Swapped(i, 1), 2), 4), 8), 16))
  }

  predicate Swapped16Bit(k: nat, i: nat) {
    ShiftBit(k, 45 + Swapped(Swapped(Swapped(Swapped(i, 1), 2), 4), 8))
  }

  /** Bit i of the 51 bits put together from both, and three bits one by one. */
  predicate MaskWordBit(k: nat, i: nat) {
    if i < 3 then ShiftBit(k, 63 - i) else if i < 19 then Swapped16Bit(k, i - 3) else Swapped32Bit(k, i - 19)
  }

  /** A stage extends a reversal of k bits to one of 2k. */
  lemma {:induction false} StageReverses(i: nat, r: nat, k: nat)
    requires k == 1 || k == 2 || k == 4 || k == 8 || k == 16
    requires r / k == i / k && r % k == k - 1 - i % k
    ensures Swapped(r, k) / (2 * k) == i / (2 * k) && Swapped(r, k) % (2 * k) == 2 * k - 1 - i % (2 * k)
  {
    var q, m := DivMod(i, k);
    var h, b := DivMod(q, 2);
    var g := Mul(2 * k, h);
    Groups(k, h);
    DivModUnique(i, 2 * k, h, if b == 0 then m else k + m);
    DivModUnique(Swapped(r, k), 2 * k, h, if b == 0 then 2 * k - 1 - m else k - 1 - m);
  }

  lemma {:induction false} Groups(k: nat, h: nat)
    ensures k * (2 * h) == (2 * k) * h
    ensures k * (2 * h + 1) == (2 * k) * h + k
  {
  }

  /** All of them reverse the word. */
  lemma {:induction false} StagesReverse(i: nat)
    ensures i < 16 ==> Swapped(Swapped(Swapped(Swapped(i, 1), 2), 4), 8) == 15 - i
    ensures i < 32 ==> Swapped(Swapped(Swapped(Swapped(Swapped(i, 1), 2), 4), 8), 16) == 31 - i
  {
    hide Swapped;
    var a := Swapped(i, 1);
    var b := Swapped(a, 2);
    var c := Swapped(b, 4);
    var d := Swapped(c, 8);
    StageReverses(i, i, 1);
    StageReverses(i, a, 2);
    StageReverses(i, b, 4);
    StageReverses(i, c, 8);
    StageReverses(i, d, 16);
  }

  lemma {:induction false} MaskWordReversed(k: nat, i: nat)
    requires i < 51
    ensures MaskWordBit(k, i) == ShiftBit(k, 63 - i)
  {
    hide Swapped;
    if i >= 19 {
      StagesReverse(i - 19);
    } else if i >= 3 {
      StagesReverse(i - 3);
    }
  }

  /** Bit i of the 54-bit round mask: the complemented exponent picks, bit group
      by bit group, between ones, nothing, and the reversed shift word. */
  predicate RoundMaskBit(sExp: int, i: nat) {
    var n := 4095 - sExp % 4096;
    var msb, msb1 := n / 2048 % 2 == 1, n / 1024 % 2 == 1;
    var msb2, msb3, msb4, msb5 := n / 512 % 2 == 1, n / 256 % 2 == 1, n / 128 % 2 == 1, n / 64 % 2 == 1;
    var k := n % 64;
    msb &&
    if msb1 then
      i < 3 || msb2 || msb3 || msb4 || msb5 || (i <= 53 && MaskWordBit(k, i - 3))
    else
      i < 3 && msb2 && msb3 && msb4 && msb5 && ShiftBit(k, 2 - i)
  }

  function RoundMask(sExp: int, w: nat): nat {
    if w == 0 then 0 else RoundMask(sExp, w - 1) + B(RoundMaskBit(sExp, w - 1)) * Pow2(w - 1)
  }

  /** How many low ones the mask holds: one for each exponent step below 1026,
      none for an exponent whose twelve low bits read as at least 2048. */
  function MaskOnes(sExp: int): nat {
    var e := sExp % 4096;
    if e >= 1026 then 0 else if e <= 972 then 54 else 1026 - e
  }

  lemma {:induction false} MaskBitIs(sExp: int, i: nat)
    requires i < 54
    ensures RoundMaskBit(sExp, i) <==> i < MaskOnes(sExp)
  {
    hide Swapped, MaskWordBit;
    var e := sExp % 4096;
    var n := 4095 - e;
    if i >= 3 {
      MaskWordReversed(n % 64, i - 3);
    }
    if e >= 2048 {
      assert n / 2048 == 0;
    } else {
      assert n / 2048 == 1;
      if 960 <= e < 1024 {
        assert n / 1024 == 3 && n / 512 == 6 && n / 256 == 12 && n / 128 == 24 && n / 64 == 48 && n % 64 == 1023 - e;
      } else if e < 960 {
        assert n / 1024 == 3;
        assert n / 64 >= 49 && n / 64 <= 63;
        SomeBit(n);
      } else {
        assert n / 1024 == 2;
        if e < 1088 {
          assert n / 512 == 5 && n / 256 == 11 && n / 128 == 23 && n / 64 == 47 && n % 64 == 1087 - e;
        } else {
          assert n / 64 < 47;
          SomeBitClear(n);
        }
      }
    }
  }

  lemma {:induction false} SomeBit(n: nat)
    requires 49 <= n / 64 <= 63
    ensures n / 512 % 2 == 1 || n / 256 % 2 == 1 || n / 128 % 2 == 1 || n / 64 % 2 == 1
  {
  }

  lemma {:induction false} SomeBitClear(n: nat)
    requires 32 <= n / 64 < 47
    ensures !(n / 512 % 2 == 1 && n / 256 % 2 == 1 && n / 128 % 2 == 1 && n / 64 % 2 == 1)
  {
  }

  /** The mask network is a run of MaskOnes ones. */
  lemma {:induction false} RoundMaskIs(sExp: int, w: nat)
    requires w <= 54
    ensures RoundMask(sExp, w) == Pow2(if MaskOnes(sExp) < w then MaskOnes(sExp) else w) - 1
  {
    if w > 0 {
      RoundMaskIs(sExp, w - 1);
      MaskBitIs(sExp, w - 1);
    }
  }

  // ---- the datapath ----

  predicate NearEven(mode: nat) { mode == 0 }
  predicate Near(mode: nat) { mode == 0 || mode == 4 }
  predicate MagUp(mode: nat, sign: bool) { (mode == 2 && sign) || (mode == 3 && !sign) }
  predicate ToOdd(mode: nat) { mode == 6 }

  predicate ShiftDown1(sig: nat) {
    sig / B55 % 2 == 1
  }

  /** The significand rounded at the mask, in units of four: 55 bits. */
  function RoundedSig(sExp: int, sig: nat, sign: bool, mode: nat): nat {
    var roundMask := Or(RoundMask(sExp, 54), B(ShiftDown1(sig))) * 4 + 3;
    var shifted := roundMask / 2;
    var posMask := Clear(roundMask, shifted);
    var roundPosBit := And(sig, posMask) != 0;
    var anyExtra := And(sig, shifted) != 0;
    var anyRound := roundPosBit || anyExtra;
    var incr := (Near(mode) && roundPosBit) || (MagUp(mode, sign) && anyRound);
    if incr then
      var up := Or(sig, roundMask) / 4 + 1;
      Clear(up, if NearEven(mode) && roundPosBit && !anyExtra then roundMask / 2 else 0)
    else
      Or(Clear(sig, roundMask) / 4, if ToOdd(mode) && anyRound then posMask / 2 else 0)
  }

  /** Which special outcomes a result has: zero, pegged to the least or greatest
      magnitude, infinity, NaN. */
  datatype Outcome = Outcome(zero: bool, pegMin: bool, pegMax: bool, inf: bool, nan: bool)

  function OutcomeOf(invalidExc: bool, infiniteExc: bool, r: RawOut, mode: nat, sRoundedExp: int): Outcome {
    var isNaNOut := invalidExc || r.isNaN;
    var specialInf := infiniteExc || r.isInf;
    var commonCase := !isNaNOut && !specialInf && !r.isZero;
    var overflow := commonCase && sRoundedExp / 1024 >= 3;
    var totalUnderflow := sRoundedExp < 0x3ce;
    var overflowUp := Near(mode) || MagUp(mode, r.sign);
    Outcome(r.isZero || totalUnderflow,
            commonCase && totalUnderflow && (MagUp(mode, r.sign) || ToOdd(mode)),
            overflow && !overflowUp,
            specialInf || (overflow && overflowUp),
            isNaNOut)
  }

  /** The exponent field as the outcome shapes it: bits cleared, then bits set. */
  function ExpField(e: nat, o: Outcome): nat {
    var e0 := Clear(e, if o.zero then 0xe00 else 0);
    var e1 := Clear(e0, if o.pegMin then 0xc31 else 0);
    var e2 := Clear(e1, if o.pegMax then 0x400 else 0);
    var e3 := Clear(e2, if o.inf then 0x200 else 0);
    Or(Or(Or(Or(e3, if o.pegMin then 0x3ce else 0), if o.pegMax then 0xbff else 0),
          if o.inf then 0xc00 else 0), if o.nan then 0xe00 else 0)
  }

  function FractField(f: nat, o: Outcome): nat {
    Or(if o.nan || o.zero then (if o.nan then B51 else 0) else f, if o.pegMax then B52 - 1 else 0)
  }

  /** The whole rounder: every special case, underflow to zero or to the least
      magnitude, overflow to infinity or to the greatest. */
  function Round(invalidExc: bool, infiniteExc: bool, r: RawOut, mode: nat): Rec {
    Packed(invalidExc, infiniteExc, r, mode, RoundedSig(r.sExp, r.sig, r.sign, mode))
  }

  function Packed(invalidExc: bool, infiniteExc: bool, r: RawOut, mode: nat, rounded: nat): Rec {
    var sRoundedExp := r.sExp + rounded / B53;
    var commonFract := if ShiftDown1(r.sig) then rounded / 2 % B52 else rounded % B52;
    var o := OutcomeOf(invalidExc, infiniteExc, r, mode, sRoundedExp);
    Rec(!o.nan && r.sign, ExpField(sRoundedExp % 4096, o), FractField(commonFract, o))
  }

  /** The round-to-nearest quotient of x by p, ties to even. */
  function Rne(x: nat, p: nat): nat
    requires p > 0
  {
    var q, r := x / p, x % p;
    if 2 * r < p || (2 * r == p && q % 2 == 0) then q else q + 1
  }

  function Max(x: int, y: int): int {
    if x >= y then x else y
  }

  /** The number of low bits the rounder drops. */
  function Dropped(sExp: int, sig: nat): nat {
    Max(MaskOnes(sExp), B(ShiftDown1(sig))) + 2
  }

  lemma {:induction false} MaskValue(sExp: int, sig: nat)
    ensures Or(RoundMask(sExp, 54), B(ShiftDown1(sig))) * 4 + 3 == Pow2(Dropped(sExp, sig)) - 1
  {
    var n := MaskOnes(sExp);
    RoundMaskIs(sExp, 54);
    var m := Pow2(n) - 1;
    assert Pow2(n + 2) == 2 * Pow2(n + 1) == 4 * Pow2(n);
    if ShiftDown1(sig) {
      assert Pow2(1) == 2 && Pow2(3) == 8;
      OrLow(m, 1);
      assert n > 0 ==> Pow2(n) == 2 * Pow2(n - 1);
    }
  }

  /** In round-to-nearest-even the datapath divides by 2^Dropped, rounds, and
      leaves the result in place. */
  lemma {:induction false} RoundedSigIs(sExp: int, sig: nat, sign: bool)
    ensures var d := Dropped(sExp, sig);
      RoundedSig(sExp, sig, sign, RNE) == Rne(sig, Pow2(d)) * Pow2(d - 2)
  {
    var d := Dropped(sExp, sig);
    var u := Pow2(d - 2);
    var q, r := DivMod(sig, 4 * u);
    MaskValue(sExp, sig);
    MaskFacts(sig, d, u);
    UpDown(sig, u, q, r);
    TieFact(d, u, q);
    RoundedCases(sExp, sig, sign, u, q, r);
    RneTimes(sig, u, q, r);
  }

  /** The three masks of the datapath, applied to the significand. */
  lemma {:induction false} MaskFacts(sig: nat, d: nat, u: nat)
    requires d >= 2 && u == Pow2(d - 2)
    ensures Pow2(d) == 4 * u && (4 * u - 1) / 2 == 2 * u - 1
    ensures Clear(4 * u - 1, 2 * u - 1) == 2 * u
    ensures var r := sig % (4 * u);
      && (And(sig, 2 * u) != 0 <==> r >= 2 * u)
      && (And(sig, 2 * u - 1) != 0 <==> r != 0 && r != 2 * u)
      && And(sig, 4 * u - 1) == r
      && Or(sig, 4 * u - 1) == sig - r + 4 * u - 1
  {
    hide Pow2, And, Or;
    Pow2Next(d - 2);
    Pow2Next(d - 1);
    PosMask(d, u);
    AndBit(sig, d - 1);
    AndLow(sig, d - 1);
    AndLow(sig, d);
    OrLow(sig, d);
    SplitTwice(sig, u);
  }

  lemma {:induction false} PosMask(d: nat, u: nat)
    requires d >= 2 && u == Pow2(d - 2)
    ensures Clear(4 * u - 1, 2 * u - 1) == 2 * u
  {
    assert Pow2(d - 1) == 2 * u;
    AndLow(4 * u - 1, d - 1);
    DivModUnique(4 * u - 1, 2 * u, 1, 2 * u - 1);
  }

  lemma {:induction false} TieFact(d: nat, u: nat, q: nat)
    requires d >= 2 && u == Pow2(d - 2)
    ensures And(q * u + u, 2 * u - 1) == if q % 2 == 0 then u else 0
  {
    hide And;
    assert Pow2(d - 1) == 2 * u;
    AndLow(q * u + u, d - 1);
    EvenOdd(q, u);
  }

  lemma {:induction false} RneTimes(sig: nat, u: nat, q: nat, r: nat)
    requires u > 0 && q == sig / (4 * u) && r == sig % (4 * u)
    ensures Rne(sig, 4 * u) * u == if r > 2 * u || (r == 2 * u && q % 2 == 1) then q * u + u else q * u
  {
  }

  /** The datapath's branches, with every mask already a number. */
  lemma {:induction false} RoundedCases(sExp: int, sig: nat, sign: bool, u: nat, q: nat, r: nat)
    requires u > 0 && q == sig / (4 * u) && r == sig % (4 * u)
    requires Or(RoundMask(sExp, 54), B(ShiftDown1(sig))) * 4 + 3 == 4 * u - 1
    requires (4 * u - 1) / 2 == 2 * u - 1 && Clear(4 * u - 1, 2 * u - 1) == 2 * u
    requires And(sig, 2 * u) != 0 <==> r >= 2 * u
    requires And(sig, 2 * u - 1) != 0 <==> r != 0 && r != 2 * u
    requires And(sig, 4 * u - 1) == r
    requires Or(sig, 4 * u - 1) / 4 + 1 == q * u + u && (sig - r) / 4 == q * u
    requires r == 2 * u ==> And(q * u + u, 2 * u - 1) == if q % 2 == 0 then u else 0
    ensures RoundedSig(sExp, sig, sign, RNE) == if r > 2 * u || (r == 2 * u && q % 2 == 1) then q * u + u else q * u
  {
  }

  lemma {:induction false} UpDown(sig: nat, u: nat, q: nat, r: nat)
    requires sig == 4 * u * q + r
    ensures (sig - r + 4 * u - 1) / 4 + 1 == q * u + u
    ensures (sig - r) / 4 == q * u
    ensures (q + 1) * u == q * u + u
  {
  }

  lemma {:induction false} SplitTwice(x: nat, u: nat)
    requires u > 0
    ensures var r := x % (4 * u);
      && (x / (2 * u) % 2 * (2 * u) != 0 <==> r >= 2 * u)
      && (x % (2 * u) != 0 <==> r != 0 && r != 2 * u)
  {
    var q, r := x / (4 * u), x % (4 * u);
    assert x == (4 * u) * q + r;
    if r >= 2 * u {
      assert x == (2 * u) * (2 * q + 1) + (r - 2 * u);
      DivModUnique(x, 2 * u, 2 * q + 1, r - 2 * u);
    } else {
      assert x == (2 * u) * (2 * q) + r;
      DivModUnique(x, 2 * u, 2 * q, r);
    }
  }

  lemma {:induction false} EvenOdd(q: nat, u: nat)
    requires u > 0
    ensures (q * u + u) % (2 * u) == if q % 2 == 0 then u else 0
  {
    var h := q / 2;
    var z := q * u + u;
    var hu := h * u;
    if q % 2 == 0 {
      assert q * u == 2 * hu by { assert q == 2 * h; }
      assert (2 * u) * h == 2 * hu;
      DivModUnique(z, 2 * u, h, u);
    } else {
      assert q * u == 2 * hu + u by { assert q == 2 * h + 1; }
      assert (2 * u) * (h + 1) == 2 * hu + 2 * u;
      DivModUnique(z, 2 * u, h + 1, 0);
    }
  }
}
