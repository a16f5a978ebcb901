/** The one-bit-per-cycle divider and square root of the floating-point unit:
    its clocked registers as a class, its transition function, and what every
    run of it computes. */
module DivSqrt {
  import opened Bits

  /** An unpacked operand: a 13-bit signed exponent, a 54-bit significand. */
  datatype Raw = Raw(isNaN: bool, isInf: bool, isZero: bool, sign: bool, sExp: int, sig: nat)

  datatype Inputs = Inputs(inValid: bool, sqrtOp: bool, a: Raw, b: Raw, mode: nat)

  /** The registers that remember the request until its result is out. */
  datatype Request = Request(sqrtOp: bool, majorExc: bool, isNaN: bool, isInf: bool, isZero: bool,
                             sign: bool, sExp: int, mode: nat)

  /** The registers. */
  datatype State = State(cycleNum: nat, inReady: bool, rawOutValid: bool, req: Request,
                         fractB: nat, rem: nat, notZeroRem: bool, sigX: nat)

  // ---- what a request asks for ----

  predicate InvalidDiv(a: Raw, b: Raw) {
    (a.isZero && b.isZero) || (a.isInf && b.isInf)
  }

  predicate InvalidSqrt(a: Raw) {
    !a.isNaN && !a.isZero && a.sign
  }

  predicate SigNaN(r: Raw) {
    r.isNaN && r.sig / B51 % 2 == 0
  }

  predicate Special(r: Raw) {
    r.isNaN || r.isInf || r.isZero
  }

  predicate NormalCase(i: Inputs) {
    if i.sqrtOp then !Special(i.a) && !i.a.sign else !Special(i.a) && !Special(i.b)
  }

  /** The quotient's exponent, a - b + 2047, saturated well inside overflow. */
  function QuotExp(ea: int, eb: int): int {
    var q := ea + (if Bit12(eb) then -2048 else 0) + (2047 - eb % 2048);
    if q >= 0xe00 then 6 * 512 + q % 512 else q
  }

  predicate Bit12(e: int) {
    e / 2048 % 2 == 1
  }

  predicate Odd(e: int) {
    e % 2 == 1
  }

  // ---- the transition function ----

  predicate Entering(s: State, i: Inputs) {
    s.inReady && i.inValid
  }

  predicate SkipCycle2(s: State) {
    s.cycleNum == 3 && s.sigX / B54 % 2 == 1
  }

  /** The cycle counter and the two handshake registers. */
  function NextControl(s: State, i: Inputs): (nat, bool, bool) {
    if Entering(s, i) then
      if NormalCase(i) then
        (if !i.sqrtOp then 55 else if Odd(i.a.sExp) then 53 else 54, false, false)
      else (1, true, true)
    else if s.cycleNum == 0 then (0, s.inReady, s.rawOutValid)
    else if SkipCycle2(s) then (1, true, true)
    else (s.cycleNum - 1, s.cycleNum - 1 <= 1, s.cycleNum - 1 == 1)
  }

  /** What the request registers take: the operation, its special cases and its exponent. */
  function Latched(i: Inputs): Request {
    var a, b := i.a, i.b;
    if i.sqrtOp then
      Request(true, SigNaN(a) || InvalidSqrt(a), a.isNaN || InvalidSqrt(a), a.isInf, a.isZero,
              a.sign, a.sExp / 2 + 0x400, i.mode)
    else
      Request(false,
              SigNaN(a) || SigNaN(b) || InvalidDiv(a, b) || (!a.isNaN && !a.isInf && b.isZero),
              a.isNaN || b.isNaN || InvalidDiv(a, b),
              a.isInf || b.isZero, a.isZero || b.isInf,
              a.sign != b.sign, QuotExp(a.sExp, b.sExp), i.mode)
  }

  /** Remainder and trial term of the first step, taken from the operands. */
  function FirstRem(i: Inputs): nat {
    if i.sqrtOp && Odd(i.a.sExp) then (i.a.sig / B51 + 3) % 4 * B54 + i.a.sig % B51 * 8
    else 2 * i.a.sig
  }

  function FirstTrial(i: Inputs): nat {
    if !i.sqrtOp then 2 * i.b.sig else if Odd(i.a.sExp) then 5 * B52 else B53
  }

  /** The step that accepts a request. */
  function First(s: State, i: Inputs): State {
    var trialRem := FirstRem(i) - FirstTrial(i);
    var newBit := trialRem >= 0;
    s.(req := Latched(i),
       fractB := if !i.sqrtOp then 2 * (i.b.sig % B52) else if Odd(i.a.sExp) then B51 else B52,
       rem := (if newBit then trialRem else FirstRem(i)) % B55,
       notZeroRem := trialRem != 0,
       sigX := if !i.sqrtOp then B(newBit) * B54
               else if Odd(i.a.sExp) then B53 + B(newBit) * B52
               else B53)
  }

  function BitMask(s: State): nat {
    Pow2(s.cycleNum) / 4
  }

  function Trial(s: State): nat {
    Or(if s.req.sqrtOp then 2 * s.sigX else B53, s.fractB)
  }

  /** One iteration: subtract the trial term if it fits, and keep the bit. */
  function Iterate(s: State): State {
    var trialRem := 2 * s.rem - Trial(s);
    var newBit := trialRem >= 0;
    s.(fractB := if s.req.sqrtOp then s.fractB / 2 else s.fractB,
       rem := (if newBit then trialRem else 2 * s.rem) % B55,
       notZeroRem := if newBit then trialRem != 0 else s.notZeroRem,
       sigX := (if newBit then Or(s.sigX, BitMask(s)) else s.sigX) % B55)
  }

  function Step(s: State, reset: bool, i: Inputs): State {
    var d := if Entering(s, i) then First(s, i)
             else if !s.inReady then Iterate(s)
             else s;
    var (c, ready, valid) := NextControl(s, i);
    d.(cycleNum := if reset then 0 else c, inReady := reset || ready, rawOutValid := !reset && valid)
  }

  // ---- outputs ----

  function RawOutSig(s: State): nat {
    Or(2 * s.sigX, B(s.notZeroRem))
  }

  /** The handshake invariant: ready and valid are functions of the counter. */
  ghost predicate Ctl(s: State) {
    && s.cycleNum <= 55
    && (s.inReady <==> s.cycleNum <= 1)
    && (s.rawOutValid <==> s.cycleNum == 1)
  }

  /** The registers, clocked as the module clocks them. */
  class Divider {
    var cycleNum: nat
    var inReady: bool
    var rawOutValid: bool
    var req_Z: Request
    var fractB_Z: nat
    var rem_Z: nat
    var notZeroRem_Z: bool
    var sigX_Z: nat

    function St(): State
      reads this
    {
      State(cycleNum, inReady, rawOutValid, req_Z, fractB_Z, rem_Z, notZeroRem_Z, sigX_Z)
    }

    /** Any register contents, after one clock with reset high. */
    constructor (junk: State)
      ensures St() == junk.(cycleNum := 0, inReady := true, rawOutValid := false)
      ensures Ctl(St())
    {
      cycleNum, inReady, rawOutValid := 0, true, false;
      req_Z, fractB_Z, rem_Z, notZeroRem_Z, sigX_Z := junk.req, junk.fractB, junk.rem, junk.notZeroRem, junk.sigX;
    }

    /** One rising edge of the clock.  The module's or-of-gated-terms muxes are
        written as branches on the signal that gates them. */
    method Clock(reset: bool, i: Inputs)
      requires Ctl(St())
      modifies this
      ensures St() == Step(old(St()), reset, i)
      ensures Ctl(St())
    {
      var entering := inReady && i.inValid;
      var skip := cycleNum == 3 && sigX_Z / B54 % 2 == 1;
      if inReady {
        if i.inValid {
          Accept(i);
        }
      } else {
        Advance();
      }
      if reset {
        cycleNum, inReady, rawOutValid := 0, true, false;
      } else {
        Count(entering, skip, i);
      }
    }

    /** The data registers on the edge that accepts a request. */
    method Accept(i: Inputs)
      modifies `req_Z, `fractB_Z, `rem_Z, `notZeroRem_Z, `sigX_Z
      ensures St() == First(old(St()), i)
    {
      req_Z := Latched(i);
      var trialRem := FirstRem(i) - FirstTrial(i);
      var newBit := trialRem >= 0;
      rem_Z := (if newBit then trialRem else FirstRem(i)) % B55;
      notZeroRem_Z := trialRem != 0;
      if !i.sqrtOp {
        sigX_Z := B(newBit) * B54;
        fractB_Z := 2 * (i.b.sig % B52);
      } else if Odd(i.a.sExp) {
        sigX_Z := B53 + B(newBit) * B52;
        fractB_Z := B51;
      } else {
        sigX_Z := B53;
        fractB_Z := B52;
      }
    }

    /** The data registers on an edge inside an iteration. */
    method Advance()
      modifies `fractB_Z, `rem_Z, `notZeroRem_Z, `sigX_Z
      ensures St() == Iterate(old(St()))
    {
      var rem := 2 * rem_Z;
      var trialRem := rem - Or(if req_Z.sqrtOp then 2 * sigX_Z else B53, fractB_Z);
      var newBit := trialRem >= 0;
      rem_Z := (if newBit then trialRem else rem) % B55;
      if newBit {
        notZeroRem_Z := trialRem != 0;
      }
      sigX_Z := (if newBit then Or(sigX_Z, Pow2(cycleNum) / 4) else sigX_Z) % B55;
      if req_Z.sqrtOp {
        fractB_Z := fractB_Z / 2;
      }
    }

    /** The control registers, reset low. */
    method Count(entering: bool, skip: bool, i: Inputs)
      requires Ctl(St())
      requires entering ==> inReady
      requires skip ==> cycleNum == 3
      modifies `cycleNum, `inReady, `rawOutValid
      ensures (cycleNum, inReady, rawOutValid) == old(
        if entering then
          if NormalCase(i) then (if !i.sqrtOp then 55 else if Odd(i.a.sExp) then 53 else 54, false, false)
          else (1, true, true)
        else if cycleNum == 0 then (0, inReady, rawOutValid)
        else if skip then (1, true, true)
        else (cycleNum - 1, cycleNum - 1 <= 1, cycleNum - 1 == 1))
      ensures Ctl(St())
    {
      var count := !entering && !skip;
      if cycleNum != 0 || entering {
        var special := entering && !NormalCase(i);
        inReady := special || (count && cycleNum - 1 <= 1) || skip;
        rawOutValid := special || (count && cycleNum - 1 == 1) || skip;
        if entering {
          cycleNum := if special then 1 else if !i.sqrtOp then 55 else if Odd(i.a.sExp) then 53 else 54;
        } else {
          cycleNum := if skip then 1 else cycleNum - 1;
        }
      }
    }
  }
}
