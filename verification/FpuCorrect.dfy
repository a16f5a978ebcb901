/** Division and square root from operand doubles to result double: recode, run
    the divider, round, and come back.  The result is the IEEE 754 one. */
module FpuCorrect {
  import opened Bits
  import opened DivSqrt
  import opened DivSqrtProof
  import opened Ieee
  import opened Recode
  import opened Rounder
  import opened RoundProof
  import opened RoundCorrect

  /** The unpacked operand the divider is given. */
  function RawIn(r: Rec): Raw {
    Raw(RecNaN(r), RecInf(r), RecZero(r), r.sign, r.exp, Sig(r))
  }

  function Asked(sqrtOp: bool, a: Double, b: Double): Inputs
    requires a.Valid() && b.Valid()
  {
    Inputs(true, sqrtOp, RawIn(Recoded(a)), RawIn(Recoded(b)), RNE)
  }

  /** What the divider's outputs become: rounded, and recoded back. */
  function DivOut(s: State): RecWord {
    PackedFits(s.req.majorExc && s.req.isNaN, s.req.majorExc && !s.req.isNaN, RawOf(s),
               RoundedSig(s.req.sExp, RawOutSig(s), s.req.sign, RNE));
    Round(s.req.majorExc && s.req.isNaN, s.req.majorExc && !s.req.isNaN, RawOf(s), RNE)
  }

  function Answer(s: State): Word {
    Derecoded(DivOut(s))
  }

  /** A divider whose answer is out: a finished job, or a special case latched. */
  ghost predicate Answered(s: State, i: Inputs) {
    && s.cycleNum == 1
    && s.req == Latched(i)
    && (NormalCase(i) ==> Running(s, JobOf(i)))
  }

  // ---- operands ----

  lemma {:induction false} Operand(d: Double)
    requires d.Valid()
    ensures var r := RawIn(Recoded(d));
      && r.isNaN == d.IsNaN() && r.isInf == d.IsInf() && r.isZero == d.IsZero() && r.sign == d.sign
      && (!Special(r) ==> Stands(Recoded(d), Mag(d)) && Mag(d) > 0 && NormalSig(r.sig)
                          && r.sig * Pow2(r.sExp) == Mag(d) * Pow2(1026) && 974 <= r.sExp < 3072)
  {
    Classes(d);
  }

  // ---- the exact value of a job ----

  /** Two comparisons that differ by positive factors on both sides agree. */
  lemma {:induction false} Scaled(x: nat, y: nat, u: nat, x': nat, y': nat, p: nat)
    requires u > 0 && p > 0 && x * u == x' * p && y * u == y' * p
    ensures x <= y <==> x' <= y'
    ensures x >= y <==> x' >= y'
  {
  }

  lemma {:induction false} QuotientPowers(ea: nat, eb: nat, n: nat, q: nat)
    requires q + eb == n + ea + 1020
    ensures 2 * (Pow2(ea) * Pow2(1074)) == B55 * Pow2(ea + 1020)
    ensures Pow2(q) * Pow2(eb) == Pow2(n) * Pow2(ea + 1020)
  {
    hide Pow2;
    Pow2Values();
    Pow2Add(ea, 1074);
    Pow2Next(ea + 1074);
    Pow2Add(55, ea + 1020);
    ShiftPowers(q, eb, n, ea + 1020);
  }

  lemma {:induction false} QuotientLinkAt(va: nat, vb: nat, sa: nat, sb: nat, ea: nat, eb: nat, c: nat, q: nat)
    requires sa * Pow2(ea) == va * Pow2(1026) && sb * Pow2(eb) == vb * Pow2(1026)
    requires q - (ea - eb + 2047) + 1027 >= 0
    ensures LinkAt(Ratio(Mul(va, Pow2(1074)), vb), Quotient(sa, sb), ea - eb + 2047, c, q)
  {
    hide Pow2;
    var n := q - (ea - eb + 2047) + 1027;
    QuotientPowers(ea, eb, n, q);
    var pa, pb, u, s, pq, pn, p := Pow2(ea), Pow2(eb), Pow2(1026), Pow2(1074), Pow2(q), Pow2(n), Pow2(ea + 1020);
    QuotientCompare(va, vb, sa, sb, pa, pb, u, s, c, pq, pn, p);
  }

  lemma {:induction false} QuotientCompare(va: nat, vb: nat, sa: nat, sb: nat, pa: nat, pb: nat, u: nat, s: nat, c: nat,
      pq: nat, pn: nat, p: nat)
    requires u > 0 && p > 0 && sa * pa == va * u && sb * pb == vb * u
    requires 2 * (pa * s) == B55 * p && pq * pb == pn * p
    ensures TwiceAtMost(Ratio(Mul(va, s), vb), Mul(c, pq)) <==> AtMost(Quotient(sa, sb), Mul(c, pn))
    ensures TwiceAtLeast(Ratio(Mul(va, s), vb), Mul(c, pq)) <==> AtLeast(Quotient(sa, sb), Mul(c, pn))
  {
    QuotientNum(va, sa, pa, u, s, p);
    QuotientDen(vb, sb, pb, u, c, pq, pn, p);
    Scaled(2 * Mul(va, s), Mul(Mul(c, pq), vb), u, sa * B55, Mul(Mul(c, pn), sb), p);
  }

  lemma {:induction false} QuotientNum(va: nat, sa: nat, pa: nat, u: nat, s: nat, p: nat)
    requires sa * pa == va * u && 2 * (pa * s) == B55 * p
    ensures 2 * (va * s) * u == sa * B55 * p
  {
    assert 2 * (va * s) * u == 2 * s * (va * u);
    assert 2 * s * (sa * pa) == sa * (2 * (pa * s));
  }

  lemma {:induction false} QuotientDen(vb: nat, sb: nat, pb: nat, u: nat, c: nat, pq: nat, pn: nat, p: nat)
    requires sb * pb == vb * u && pq * pb == pn * p
    ensures c * pq * vb * u == c * pn * sb * p
  {
    assert c * pq * vb * u == c * pq * (vb * u);
    assert c * pq * (sb * pb) == c * sb * (pq * pb);
    assert c * sb * (pn * p) == c * pn * sb * p;
  }

  lemma {:induction false} RootPowers(e: nat, h: nat, o: nat, n: nat, q: nat)
    requires e == 2 * h + o && o <= 1 && h >= 3 && q == n + h - 3
    ensures Pow2(e) * Pow2(1074) == Pow2(e + 48) * Pow2(1026)
    ensures Pow2(e + 48) == (if o == 1 then B55 else B54) * (Pow2(h - 3) * Pow2(h - 3))
    ensures Pow2(q) == Pow2(n) * Pow2(h - 3)
  {
    hide Pow2;
    ShiftPowers(e, 1074, e + 48, 1026);
    RadicandPower(e, h, o);
    Pow2Add(n, h - 3);
  }

  lemma {:induction false} ShiftPowers(a: nat, b: nat, c: nat, d: nat)
    requires a + b == c + d
    ensures Pow2(a) * Pow2(b) == Pow2(c) * Pow2(d)
  {
    Pow2Add(a, b);
    Pow2Add(c, d);
  }

  lemma {:induction false} RadicandPower(e: nat, h: nat, o: nat)
    requires e == 2 * h + o && o <= 1 && h >= 3
    ensures Pow2(e + 48) == (if o == 1 then B55 else B54) * (Pow2(h - 3) * Pow2(h - 3))
  {
    Pow2Values();
    Pow2Add(54 + o, 2 * (h - 3));
    Pow2Add(h - 3, h - 3);
    assert 2 * (h - 3) == (h - 3) + (h - 3) && e + 48 == (54 + o) + 2 * (h - 3);
  }

  lemma {:induction false} RootLinkAt(va: nat, sa: nat, e: nat, c: nat, q: nat)
    requires sa * Pow2(e) == va * Pow2(1026) && e >= 6
    requires q - (e / 2 + 1024) + 1027 >= 0
    ensures LinkAt(Sqrt(Mul(va, Pow2(1074))), Root(sa * (if e % 2 == 1 then B55 else B54)), e / 2 + 1024, c, q)
  {
    hide Pow2;
    var h, o := e / 2, e % 2;
    var n := q - (h + 1024) + 1027;
    RootPowers(e, h, o, n, q);
    var b, g := if o == 1 then B55 else B54, Pow2(h - 3);
    RootRadicand(va, sa, Pow2(e), Pow2(1074), Pow2(e + 48), Pow2(1026));
    RootSides(sa, b, g, c, Pow2(n));
    var k, k' := Mul(c, Pow2(q)), Mul(c, Pow2(n));
    assert k == k' * g by { Assoc(c, Pow2(n), g); }
    Scaled(Mul(4, Mul(va, Pow2(1074))), Mul(k, k), 1, Mul(4, Mul(sa, b)), Mul(k', k'), Mul(g, g));
  }

  lemma {:induction false} RootRadicand(va: nat, sa: nat, pe: nat, s: nat, pf: nat, u: nat)
    requires u > 0 && sa * pe == va * u && pe * s == pf * u
    ensures va * s == sa * pf
  {
  }

  lemma {:induction false} RootSides(sa: nat, b: nat, g: nat, c: nat, pn: nat)
    requires g > 0
    ensures 4 * (sa * (b * (g * g))) == (4 * (sa * b)) * (g * g)
    ensures ((c * pn) * g) * ((c * pn) * g) == ((c * pn) * (c * pn)) * (g * g)
    ensures g * g > 0
  {
  }

  // ---- the normal cases ----

  lemma {:induction false} QuotientFinished(s: State, a: Double, b: Double)
    requires a.Valid() && b.Valid() && Answered(s, Asked(false, a, b)) && NormalCase(Asked(false, a, b))
    requires Recoded(a).exp - Recoded(b).exp + 2047 < 3584
    ensures Finished(s, JobOf(Asked(false, a, b)), Ratio(Mul(Mag(a), Pow2(1074)), Mag(b)))
  {
    Operand(a);
    Operand(b);
    var ra, rb := RawIn(Recoded(a)), RawIn(Recoded(b));
    QuotExpIs(ra.sExp, rb.sExp);
    QuotientLinked(Mag(a), Mag(b), ra.sig, rb.sig, ra.sExp, rb.sExp, s.req.sExp);
  }

  lemma {:induction false} QuotientLinked(va: nat, vb: nat, sa: nat, sb: nat, ea: nat, eb: nat, sExp: int)
    requires sa * Pow2(ea) == va * Pow2(1026) && sb * Pow2(eb) == vb * Pow2(1026)
    requires sExp == ea - eb + 2047
    ensures Linked(Ratio(Mul(va, Pow2(1074)), vb), Quotient(sa, sb), sExp)
  {
    var x, job := Ratio(Mul(va, Pow2(1074)), vb), Quotient(sa, sb);
    forall c: nat, q: nat | q - sExp + 1027 >= 0
      ensures LinkAt(x, job, sExp, c, q)
    {
      QuotientLinkAt(va, vb, sa, sb, ea, eb, c, q);
    }
  }

  lemma {:induction false} QuotExpIs(ea: int, eb: int)
    requires 974 <= ea < 3072 && 974 <= eb < 3072
    ensures ea - eb + 2047 < 3584 ==> QuotExp(ea, eb) == ea - eb + 2047
    ensures ea - eb + 2047 >= 3584 ==> 3072 <= QuotExp(ea, eb) < 3584
  {
  }

  lemma {:induction false} RootLinked(va: nat, sa: nat, e: nat, sExp: int)
    requires sa * Pow2(e) == va * Pow2(1026) && e >= 6 && sExp == e / 2 + 1024
    ensures Linked(Sqrt(Mul(va, Pow2(1074))), Root(sa * (if e % 2 == 1 then B55 else B54)), sExp)
  {
    var x, job := Sqrt(Mul(va, Pow2(1074))), Root(sa * (if e % 2 == 1 then B55 else B54));
    forall c: nat, q: nat | q - sExp + 1027 >= 0
      ensures LinkAt(x, job, sExp, c, q)
    {
      RootLinkAt(va, sa, e, c, q);
    }
  }

  lemma {:induction false} RootFinished(s: State, a: Double, b: Double)
    requires a.Valid() && b.Valid() && Answered(s, Asked(true, a, b)) && NormalCase(Asked(true, a, b))
    ensures Finished(s, JobOf(Asked(true, a, b)), Sqrt(Mul(Mag(a), Pow2(1074))))
  {
    Operand(a);
    var ra := RawIn(Recoded(a));
    RootLinked(Mag(a), ra.sig, ra.sExp, s.req.sExp);
  }

  // ---- the quotient whose exponent saturates ----

  /** It is far past the largest finite number. */
  lemma {:induction false} HugeQuotient(va: nat, vb: nat, sa: nat, sb: nat, ea: nat, eb: nat)
    requires sa * Pow2(ea) == va * Pow2(1026) && sb * Pow2(eb) == vb * Pow2(1026)
    requires NormalSig(sa) && NormalSig(sb) && ea >= eb + 1537
    ensures Overflows(Ratio(Mul(va, Pow2(1074)), vb))
  {
    Pow2Mono(eb + 1537, ea);
    Pow2Add(eb, 1537);
    Pow2Values();
    Pow2Add(1537, 1074);
    Pow2Add(54, 2045);
    Pow2Mono(54 + 2045, 1537 + 1074);
    HugeArith(va, vb, sa, sb, Pow2(ea), Pow2(eb), Pow2(1026), Pow2(1537), Pow2(1074), Pow2(2045));
  }

  lemma {:induction false} HugeArith(va: nat, vb: nat, sa: nat, sb: nat, pa: nat, pb: nat, u: nat, g: nat, s: nat,
      t: nat)
    requires u > 0 && sa * pa == va * u && sb * pb == vb * u && NormalSig(sa) && NormalSig(sb)
    requires pa >= pb * g && g * s >= B54 * t
    ensures 2 * (va * s) >= (B54 - 1) * t * vb
  {
    var x, y, z := Mul(va, s), Mul(t, vb), Mul(pb, t);
    HugeAbove(va, sa, pa, pb, u, g, s, t);
    HugeBelow(vb, sb, pb, u, t);
    MulMono(z, sb, B53);
    HugeOrder(u, x, y, z, Mul(z, sb));
    assert (B54 - 1) * t * vb == B54 * y - y;
  }

  lemma {:induction false} HugeAbove(va: nat, sa: nat, pa: nat, pb: nat, u: nat, g: nat, s: nat, t: nat)
    requires sa * pa == va * u && sa >= B52 && pa >= pb * g && g * s >= B54 * t
    ensures u * (va * s) >= B52 * (B54 * (pb * t))
  {
  }

  lemma {:induction false} HugeBelow(vb: nat, sb: nat, pb: nat, u: nat, t: nat)
    requires sb * pb == vb * u
    ensures u * (t * vb) == (pb * t) * sb
  {
  }

  lemma {:induction false} HugeOrder(u: nat, x: nat, y: nat, z: nat, zs: nat)
    requires u > 0 && u * x >= B52 * (B54 * z) && u * y == zs && zs <= z * B53
    ensures 2 * x >= B54 * y
  {
  }

  // ---- the theorems ----

  /** The NaN the unit answers: positive and quiet. */
  const QUIET := Double(false, 2047, B51)

  /** The answer's class when the operands, or the exponent, settle it. */
  lemma {:induction false} SettledAnswer(s: State)
    ensures var y := Answer(s);
      && (s.req.isNaN ==> y.IsNaN())
      && (!s.req.isNaN ==>
            && y.sign == s.req.sign
            && (s.req.majorExc || s.req.isInf ==> y.IsInf())
            && (!s.req.majorExc && !s.req.isInf && s.req.isZero ==> y.IsZero())
            && (!s.req.majorExc && Plain(s) && s.req.sExp >= 3072 ==> y.IsInf()))
  {
    var inv, inf := s.req.majorExc && s.req.isNaN, s.req.majorExc && !s.req.isNaN;
    var raw := RawOf(s);
    var rounded := RoundedSig(raw.sExp, raw.sig, raw.sign, RNE);
    var y := Round(inv, inf, raw, RNE);
    PackedClass(inv, inf, raw, rounded);
    ClassOutcome(y);
  }

  lemma {:induction false} SettledNaN(s: State)
    requires s.req.isNaN
    ensures Answer(s) == QUIET
  {
    hide Packed, RoundedSig;
    var inv, raw := s.req.majorExc, RawOf(s);
    var rounded := RoundedSig(raw.sExp, raw.sig, raw.sign, RNE);
    PackedClass(inv, false, raw, rounded);
    PackedNaN(inv, false, raw, rounded);
    NaNOutcome(Packed(inv, false, raw, RNE, rounded));
  }

  lemma {:induction false} NaNOutcome(y: Rec)
    requires RecNaN(y) && !y.sign && y.fract == B51
    ensures Derecoded(y) == QUIET
  {
  }

  lemma {:induction false} ClassOutcome(y: Rec)
    ensures var d := Derecoded(y);
      && d.sign == y.sign
      && (RecNaN(y) ==> d.IsNaN()) && (RecInf(y) ==> d.IsInf()) && (RecZero(y) ==> d.IsZero())
  {
  }

  /** Division is IEEE 754 division: for all operands, special cases, subnormals,
      underflow and overflow included. */
  lemma {:induction false} DivisionCorrect(s: State, a: Double, b: Double)
    requires a.Valid() && b.Valid() && Answered(s, Asked(false, a, b))
    ensures IsQuotient(a, b, Answer(s)) && (Answer(s).IsNaN() ==> Answer(s) == QUIET)
  {
    hide Pow2, Recoded;
    var i := Asked(false, a, b);
    Operand(a);
    Operand(b);
    SettledAnswer(s);
    if s.req.isNaN {
      SettledNaN(s);
    }
    if NormalCase(i) {
      var ra, rb := i.a, i.b;
      QuotExpIs(ra.sExp, rb.sExp);
      assert Answer(s) == Result(s);
      if ra.sExp - rb.sExp + 2047 >= 3584 {
        HugeQuotient(Mag(a), Mag(b), ra.sig, rb.sig, ra.sExp, rb.sExp);
      } else {
        QuotientFinished(s, a, b);
        CorrectlyRounded(s, JobOf(i), Ratio(Mul(Mag(a), Pow2(1074)), Mag(b)));
      }
    }
  }

  /** Square root is IEEE 754 square root, likewise. */
  lemma {:induction false} SquareRootCorrect(s: State, a: Double, b: Double)
    requires a.Valid() && b.Valid() && Answered(s, Asked(true, a, b))
    ensures IsRoot(a, Answer(s)) && (Answer(s).IsNaN() ==> Answer(s) == QUIET)
  {
    hide Pow2, Recoded;
    Operand(a);
    SettledAnswer(s);
    if s.req.isNaN {
      SettledNaN(s);
    }
    if NormalCase(Asked(true, a, b)) {
      assert Answer(s) == Result(s);
      RootFinished(s, a, b);
      CorrectlyRounded(s, JobOf(Asked(true, a, b)), Sqrt(Mul(Mag(a), Pow2(1074))));
    }
  }
}
