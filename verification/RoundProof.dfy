/** The rounder returns the nearest recoded number, over the whole exponent range. */
module RoundProof {
  import opened Bits
  import opened Recode
  import opened Rounder

  // ---- the class bits of the exponent ----

  /** The twelve-bit exponent field with its class bits forced to zero, infinity or NaN. */
  lemma {:induction false} ClassBits(e: nat)
    requires e < 4096
    ensures Clear(e, 0xe00) / 512 == 0
    ensures Or(Clear(e, 0x200), 0xc00) / 512 == 6
    ensures Or(e, 0xe00) / 512 == 7
  {
    hide Pow2, And, Or;
    And512(e, 7);
    And512(e, 1);
    Or512(e, 7);
    Octal(e / 512);
    var c := Clear(e, 0x200);
    assert c == 512 * (e / 512 - e / 512 % 2) + e % 512;
    Or512(c, 6);
    Octal(c / 512);
  }

  lemma {:induction false} Octal(t: nat)
    requires t < 8
    ensures And(t, 7) == t && Or(t, 7) == 7 && And(t, 1) == t % 2
    ensures t % 2 == 0 ==> Or(t, 6) == 6
  {
    Quad(t / 2);
    AndLow(t, 1);
  }

  lemma {:induction false} Quad(h: nat)
    requires h < 4
    ensures And(h, 3) == h && Or(h, 3) == 3
  {
  }

  lemma {:induction false} ExpFieldClass(e: nat, o: Outcome)
    requires e < 4096 && !o.pegMin && !o.pegMax
    ensures var x := ExpField(e, o);
      (o.nan ==> x / 512 == 7) && (!o.nan && o.inf ==> x / 512 == 6)
      && (!o.nan && !o.inf && o.zero ==> x / 512 == 0) && (!o.nan && !o.inf && !o.zero ==> x == e)
  {
    var z := if o.zero then Clear(e, 0xe00) else e;
    ClassBits(e);
    InfNaN(z, o.inf, o.nan);
    assert ExpField(e, o) == Forced(z, o.inf, o.nan);
  }

  /** Infinity and NaN forced on an exponent field. */
  function Forced(z: nat, inf: bool, nan: bool): nat {
    var i := if inf then Or(Clear(z, 0x200), 0xc00) else z;
    if nan then Or(i, 0xe00) else i
  }

  lemma {:induction false} InfNaN(z: nat, inf: bool, nan: bool)
    requires z < 4096
    ensures var x := Forced(z, inf, nan);
      (nan ==> x / 512 == 7) && (!nan && inf ==> x / 512 == 6) && (!nan && !inf ==> x == z)
  {
    ClassBits(z);
    if inf {
      ClassBits(Or(Clear(z, 0x200), 0xc00));
    }
  }

  /** What the rounder puts out in round-to-nearest-even, class by class. */
  lemma {:induction false} PackedClass(inv: bool, inf: bool, r: RawOut, rounded: nat)
    ensures Classified(inv, inf, r, rounded, Packed(inv, inf, r, RNE, rounded))
  {
    var e := r.sExp + rounded / B53;
    var o := OutcomeOf(inv, inf, r, RNE, e);
    OutcomeRne(inv, inf, r, e);
    ExpFieldClass(e % 4096, o);
    var y := Packed(inv, inf, r, RNE, rounded);
    ThreeBits(y);
    if !o.nan && !o.zero {
      FractPlain(if ShiftDown1(r.sig) then rounded / 2 % B52 else rounded % B52, o);
    }
  }

  /** What comes out fits the fields it is stored in. */
  lemma {:induction false} PackedFits(inv: bool, inf: bool, r: RawOut, rounded: nat)
    ensures var y := Packed(inv, inf, r, RNE, rounded); y.exp < 4096 && y.fract < B52
  {
    var e := r.sExp + rounded / B53;
    var o := OutcomeOf(inv, inf, r, RNE, e);
    OutcomeRne(inv, inf, r, e);
    ExpFieldClass(e % 4096, o);
    FractFits(if ShiftDown1(r.sig) then rounded / 2 % B52 else rounded % B52, o);
  }

  /** A NaN comes out positive and quiet, with nothing else in its fraction. */
  lemma {:induction false} PackedNaN(inv: bool, inf: bool, r: RawOut, rounded: nat)
    requires inv || r.isNaN
    ensures var y := Packed(inv, inf, r, RNE, rounded); !y.sign && y.fract == B51
  {
    OutcomeRne(inv, inf, r, r.sExp + rounded / B53);
  }

  lemma {:induction false} FractFits(f: nat, o: Outcome)
    requires f < B52 && !o.pegMax
    ensures FractField(f, o) < B52
  {
  }

  lemma {:induction false} FractPlain(f: nat, o: Outcome)
    requires !o.nan && !o.zero && !o.pegMax
    ensures FractField(f, o) == f
  {
  }

  lemma {:induction false} OutcomeRne(inv: bool, inf: bool, r: RawOut, e: int)
    ensures var o := OutcomeOf(inv, inf, r, RNE, e);
      && !o.pegMin && !o.pegMax
      && (o.nan <==> inv || r.isNaN)
      && (o.zero <==> r.isZero || e < 974)
      && (o.inf <==> inf || r.isInf || (!o.nan && !r.isZero && e >= 3072))
    ensures 974 <= e < 3072 ==> e % 4096 == e
  {
  }

  lemma {:induction false} ThreeBits(y: Rec)
    ensures y.exp / 512 == 7 ==> RecNaN(y)
    ensures y.exp / 512 == 6 ==> RecInf(y)
    ensures y.exp / 512 == 0 ==> RecZero(y)
  {
  }

  predicate Classified(inv: bool, inf: bool, r: RawOut, rounded: nat, y: Rec) {
    var e := r.sExp + rounded / B53;
    if inv || r.isNaN then RecNaN(y)
    else
      && y.sign == r.sign
      && if inf || r.isInf then RecInf(y)
         else if r.isZero || e < 974 then RecZero(y)
         else if e >= 3072 then RecInf(y)
         else y.exp == e && y.fract == (if ShiftDown1(r.sig) then rounded / 2 else rounded) % B52
  }
}
