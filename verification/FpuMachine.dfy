/** The floating-point unit's request machine: start with an operation and two
    doubles, wait for done, take the result. */
module FpuMachine {
  import opened DivSqrt
  import opened DivSqrtProof
  import opened Ieee
  import opened Recode
  import opened Rounder
  import opened FpuCorrect
  import opened FpuInt

  /** The operations; the codes past 11 are taken as an addition. */
  datatype Op =
    | OpAdd | OpSub | OpMul | OpDiv | OpSqrt
    | OpLt | OpLe | OpEq
    | OpNeg | OpAbs | OpOfInt | OpToInt | OpOther

  datatype Phase = Idle | Recoding | Issue | Wait | Back

  datatype In = In(reset: bool, start: bool, op: Op, a: Word, b: Word)

  /** What the fused multiply-add is asked, and the unit itself: a function of that. */
  datatype FmaArgs = FmaArgs(op: nat, a: Rec, b: Rec, c: Rec)
  type Fma = FmaArgs -> RecWord

  /** The divider's registers and the two stages of the multiply-add. */
  datatype CoreRegs = CoreRegs(div: State, valid0: bool, args0: FmaArgs, valid1: bool, args1: FmaArgs)

  /** The unit's registers. */
  datatype Fpu = Fpu(phase: Phase, op: Op, a: Word, b: Word, aRec: RecWord, bRec: RecWord,
                     fmaValid: bool, divValid: bool, divSqrt: bool, resRec: RecWord,
                     done: bool, result: Word, flag: bool, cores: CoreRegs)

  // ---- the transition function ----

  const REC_ONE := Rec(false, 2048, 0)

  /** The multiply-add's operands: a * 1 + b, a * 1 - b, or a * b plus a zero of the product's sign. */
  function Operands(op: Op, a: Word, b: Word, ra: Rec, rb: Rec): FmaArgs {
    match op
    case OpMul => FmaArgs(0, ra, rb, Rec(a.sign != b.sign, 0, 0))
    case OpSub => FmaArgs(1, ra, REC_ONE, rb)
    case _ => FmaArgs(0, ra, REC_ONE, rb)
  }

  function DivIn(s: Fpu): Inputs {
    Inputs(s.divValid, s.divSqrt, RawIn(s.aRec), RawIn(s.bRec), RNE)
  }

  function FpuStep(fma: Fma, s: Fpu, i: In): Fpu {
    var c := NextCores(s, i.reset);
    if i.reset then AfterReset(c)
    else
      Advanced(s.(cores := c, done := false, fmaValid := false), i,
               s.cores.div.inReady, s.cores.div.rawOutValid, s.cores.valid1,
               DivOut(s.cores.div), fma(s.cores.args1))
  }

  function AfterReset(c: CoreRegs): Fpu {
    var zero, none := Double(false, 0, 0), Rec(false, 0, 0);
    Fpu(Idle, OpAdd, zero, zero, none, none, false, false, false, none, false, zero, false, c)
  }

  /** The divider and the multiply-add pipeline on this edge. */
  function NextCores(s: Fpu, reset: bool): CoreRegs {
    var c := s.cores;
    CoreRegs(DivSqrt.Step(c.div, reset, DivIn(s)),
             !reset && s.fmaValid,
             if s.fmaValid then Operands(s.op, s.a, s.b, s.aRec, s.bRec) else c.args0,
             !reset && c.valid0,
             if c.valid0 then c.args0 else c.args1)
  }

  /** The machine's own registers, given what the cores showed before the edge. */
  function Advanced(s: Fpu, i: In, divReady: bool, divDone: bool, fmaDone: bool, divOut: RecWord,
      fmaOut: RecWord): Fpu {
    match s.phase
    case Idle => if i.start then s.(a := i.a, b := i.b, op := i.op, phase := Recoding) else s
    case Recoding => s.(aRec := Recoded(s.a), bRec := Recoded(s.b), phase := Issue)
    case Issue => Issued(s)
    case Wait =>
      var w := if s.divValid && divReady then s.(divValid := false) else s;
      if fmaDone || divDone then
        w.(resRec := if Sequential(s.op) then divOut else fmaOut, phase := Back)
      else w
    case Back => s.(result := Derecoded(s.resRec), done := true, phase := Idle)
  }

  function Issued(s: Fpu): Fpu {
    match s.op
    case OpNeg => s.(result := s.a.(sign := !s.a.sign), done := true, phase := Idle)
    case OpAbs => s.(result := s.a.(sign := false), done := true, phase := Idle)
    case OpOfInt => s.(result := OfInt32(s.a), done := true, phase := Idle)
    case OpToInt => s.(result := ToInt32(s.a), done := true, phase := Idle)
    case OpLt => s.(flag := CmpLess(s.aRec, s.bRec), done := true, phase := Idle)
    case OpLe => s.(flag := CmpLess(s.aRec, s.bRec) || CmpEqual(s.aRec, s.bRec), done := true, phase := Idle)
    case OpEq => s.(flag := CmpEqual(s.aRec, s.bRec), done := true, phase := Idle)
    case OpDiv => s.(divValid := true, divSqrt := false, phase := Wait)
    case OpSqrt => s.(divValid := true, divSqrt := true, phase := Wait)
    case _ => s.(fmaValid := true, phase := Wait)
  }

  predicate Sequential(op: Op) { op.OpDiv? || op.OpSqrt? }
  predicate Fused(op: Op) { op.OpAdd? || op.OpSub? || op.OpMul? || op.OpOther? }

  // ---- what an answer is ----

  /** The multiply-add is that of IEEE 754: op 0 is a * b + c, op 1 is a * b - c. */
  ghost predicate MeetsIeee(fma: Fma) {
    forall a: Word, b: Word, c: Word :: FusesRight(fma, a, b, c)
  }

  ghost predicate FusesRight(fma: Fma, a: Word, b: Word, c: Word) {
    && IsFusedMultiplyAdd(a, b, c, Derecoded(fma(FmaArgs(0, Recoded(a), Recoded(b), Recoded(c)))))
    && IsFusedMultiplyAdd(a, b, c.(sign := !c.sign), Derecoded(fma(FmaArgs(1, Recoded(a), Recoded(b), Recoded(c)))))
  }

  /** A sum, difference or product of the operands. */
  ghost predicate Combines(op: Op, a: Word, b: Word, y: Double) {
    if op.OpMul? then IsProduct(a, b, y) else if op.OpSub? then IsDifference(a, b, y) else IsSum(a, b, y)
  }

  /** The operands make of the multiply-add a sum, a difference or a product, the sign
      of a zero included. */
  lemma {:induction false} OperandsCombine(fma: Fma, op: Op, a: Word, b: Word)
    requires MeetsIeee(fma) && Fused(op)
    ensures Combines(op, a, b, Derecoded(fma(Operands(op, a, b, Recoded(a), Recoded(b)))))
  {
    hide Derecoded, IsFusedMultiplyAdd, IsSum, IsProduct;
    var y := Derecoded(fma(Operands(op, a, b, Recoded(a), Recoded(b))));
    RecodedOne();
    if op.OpMul? {
      var zero := Double(a.sign != b.sign, 0, 0);
      assert FusesRight(fma, a, b, zero);
      assert Recoded(zero) == Rec(a.sign != b.sign, 0, 0);
      FusedProduct(a, b, y);
    } else {
      assert FusesRight(fma, a, ONE, b);
      FusedSum(a, if op.OpSub? then b.(sign := !b.sign) else b, y);
    }
  }

  lemma {:induction false} RecodedOne()
    ensures ONE.Valid() && Recoded(ONE) == REC_ONE
  {
  }

  /** The registers answer the operation as IEEE 754 asks; sums, differences and
      products given that the multiply-add does. */
  ghost predicate Answers(fma: Fma, s: Fpu, op: Op, a: Word, b: Word) {
    match op
    case OpDiv => IsQuotient(a, b, s.result)
    case OpSqrt => IsRoot(a, s.result)
    case OpLt => s.flag == IeeeLess(a, b)
    case OpLe => s.flag == (IeeeLess(a, b) || IeeeEqual(a, b))
    case OpEq => s.flag == IeeeEqual(a, b)
    case OpNeg => s.result == a.(sign := !a.sign)
    case OpAbs => s.result == a.(sign := false)
    case OpOfInt => IsOfInt(a, s.result)
    case OpToInt => IsToInt(a, s.result)
    case _ =>
      && s.result == Derecoded(fma(Operands(op, a, b, Recoded(a), Recoded(b))))
      && (MeetsIeee(fma) ==> Combines(op, a, b, s.result))
  }

  /** Ready for a request: the cores are idle too. */
  ghost predicate Ready(s: Fpu) {
    s.phase.Idle? && Rests(s) && !s.divValid && !s.fmaValid
  }

  ghost predicate Rests(s: Fpu) {
    Ctl(s.cores.div) && s.cores.div.cycleNum == 0 && !s.cores.valid0 && !s.cores.valid1
  }

  /** The run first signals done on its n-th edge, with the answer, and is ready again then. */
  ghost predicate AnswersAt(fma: Fma, s: Fpu, run: seq<In>, n: nat, op: Op, a: Word, b: Word)
    decreases n
  {
    && 0 < n <= |run|
    && var s' := FpuStep(fma, s, run[0]);
       if n == 1 then s'.done && Ready(s') && Answers(fma, s', op, a, b)
       else !s'.done && AnswersAt(fma, s', run[1..], n - 1, op, a, b)
  }

  ghost predicate NoReset(run: seq<In>) {
    forall k :: 0 <= k < |run| ==> !run[k].reset
  }

  // ---- the cores, when nothing is asked of them ----

  lemma {:induction false} DividerIdles(d: State, i: Inputs)
    requires Ctl(d) && d.cycleNum <= 1 && !i.inValid
    ensures var d' := DivSqrt.Step(d, false, i); Ctl(d') && d'.cycleNum == 0
  {
  }

  lemma {:induction false} CoresRest(s: Fpu)
    requires Ctl(s.cores.div) && s.cores.div.cycleNum <= 1 && !s.divValid && !s.fmaValid && !s.cores.valid0
    ensures Rests(s.(cores := NextCores(s, false)))
  {
  }

  // ---- latch, recode, issue ----

  /** An edge on which the cores keep resting: the machine advances beside them. */
  lemma {:induction false} RestingStep(fma: Fma, s: Fpu, i: In) returns (c: Fpu)
    requires Rests(s) && !s.divValid && !s.fmaValid && !i.reset
    ensures Rests(c) && c == s.(cores := c.cores, done := false)
    ensures FpuStep(fma, s, i)
         == Advanced(c, i, s.cores.div.inReady, s.cores.div.rawOutValid, s.cores.valid1,
                     DivOut(s.cores.div), fma(s.cores.args1))
  {
    hide DivOut;
    CoresRest(s);
    c := s.(cores := NextCores(s, false), done := false);
  }

  lemma {:induction false} Latches(fma: Fma, s: Fpu, i: In, i': In)
    requires Ready(s) && i.start && !i.reset && !i'.reset
    ensures !FpuStep(fma, s, i).done
    ensures var s2 := FpuStep(fma, FpuStep(fma, s, i), i'); !s2.done && Issuing(s2, i.op, i.a, i.b)
  {
    hide DivOut, Recoded;
    var _ := RestingStep(fma, s, i);
    var _ := RestingStep(fma, FpuStep(fma, s, i), i');
  }

  /** Operands recoded, the operation about to be issued. */
  ghost predicate Issuing(s: Fpu, op: Op, a: Word, b: Word) {
    && s.phase.Issue? && Rests(s) && !s.divValid && !s.fmaValid
    && Holds(s, op, a, b)
  }

  /** An operation that needs no core is answered at once. */
  lemma {:induction false} IssueAnswers(fma: Fma, s: Fpu, i: In, op: Op, a: Word, b: Word)
    requires Issuing(s, op, a, b) && !Sequential(op) && !Fused(op) && !i.reset
    ensures var f := FpuStep(fma, s, i); f.done && Ready(f) && Answers(fma, f, op, a, b)
  {
    hide DivOut, Recoded, CmpLess, CmpEqual, OfInt32, ToInt32, IsOfInt, IsToInt;
    var _ := RestingStep(fma, s, i);
    CompareCorrect(a, b);
    OfIntExact(a);
    ToIntTruncates(a);
  }

  /** Otherwise the request goes to its core. */
  lemma {:induction false} IssueSends(fma: Fma, s: Fpu, i: In, op: Op, a: Word, b: Word)
    requires Issuing(s, op, a, b) && (Sequential(op) || Fused(op)) && !i.reset
    ensures var f := FpuStep(fma, s, i); !f.done && Sent(f, op, a, b)
  {
    hide DivOut, Recoded, CmpLess, CmpEqual, OfInt32, ToInt32;
    var _ := RestingStep(fma, s, i);
  }

  ghost predicate Sent(s: Fpu, op: Op, a: Word, b: Word) {
    && s.phase.Wait? && Rests(s) && s.divValid == Sequential(op) && s.fmaValid == Fused(op)
    && (Sequential(op) || Fused(op)) && (Sequential(op) ==> s.divSqrt == op.OpSqrt?)
    && Holds(s, op, a, b)
  }

  predicate Holds(s: Fpu, op: Op, a: Word, b: Word) {
    s.op == op && s.a == a && s.b == b && s.aRec == Recoded(a) && s.bRec == Recoded(b)
  }

  // ---- the last two edges ----

  /** The result register is loaded: one edge to go. */
  ghost predicate Returning(s: Fpu, op: Op, a: Word, b: Word, y: Rec) {
    && s.phase.Back? && Rests(s) && !s.divValid && !s.fmaValid && Holds(s, op, a, b) && s.resRec == y
    && (Sequential(op) || Fused(op))
  }

  lemma {:induction false} Returns(fma: Fma, s: Fpu, i: In, op: Op, a: Word, b: Word, y: Rec)
    requires Returning(s, op, a, b, y) && !i.reset
    ensures var f := FpuStep(fma, s, i); f.done && Ready(f) && f.result == Derecoded(y)
  {
    hide DivOut, Recoded, Derecoded;
    var _ := RestingStep(fma, s, i);
  }

  // ---- the divider ----

  /** Waiting for the divider's answer to the operands held. */
  ghost predicate Waiting(s: Fpu, op: Op, a: Word, b: Word) {
    && s.phase.Wait? && !s.divValid && !s.fmaValid && !s.cores.valid0 && !s.cores.valid1
    && Sequential(op) && Holds(s, op, a, b)
    && Dividing(s.cores.div, Asked(op.OpSqrt?, a, b))
  }

  ghost predicate Dividing(d: State, i: Inputs) {
    Ctl(d) && d.cycleNum >= 1 && d.req == Latched(i)
        && (if NormalCase(i) then Running(d, JobOf(i)) else d.cycleNum == 1)
  }

  lemma {:induction false} DividerTakes(d: State, sqrtOp: bool, a: Word, b: Word)
    requires Ctl(d) && d.cycleNum == 0
    ensures var d' := DivSqrt.Step(d, false, Asked(sqrtOp, a, b));
        Dividing(d', Asked(sqrtOp, a, b)) && d'.cycleNum <= 55
  {
    var i := Asked(sqrtOp, a, b);
    if NormalCase(i) {
      Operand(a);
      Operand(b);
      Accepts(d, i);
    } else {
      AcceptsSpecial(d, i);
    }
  }

  lemma {:induction false} DividerWorks(d: State, i: Inputs, idle: Inputs)
    requires Dividing(d, i) && d.cycleNum > 1 && !idle.inValid
    ensures var d' := DivSqrt.Step(d, false, idle); Dividing(d', i) && d'.cycleNum < d.cycleNum
  {
    RunningStep(d, JobOf(i), idle);
  }

  lemma {:induction false} Handover(fma: Fma, s: Fpu, i: In, op: Op, a: Word, b: Word)
    requires Sent(s, op, a, b) && Sequential(op) && !i.reset
    ensures var s' := FpuStep(fma, s, i); !s'.done && Waiting(s', op, a, b) && s'.cores.div.cycleNum <= 55
  {
    hide DivOut, Recoded, DivSqrt.Step, Latched;
    assert DivIn(s) == Asked(op.OpSqrt?, a, b);
    DividerTakes(s.cores.div, op.OpSqrt?, a, b);
  }

  /** A waiting edge on which the divider moves on. */
  lemma {:induction false} WaitStep(fma: Fma, s: Fpu, i: In, op: Op, a: Word, b: Word)
    requires Waiting(s, op, a, b) && !i.reset && s.cores.div.cycleNum > 1
    ensures var s' := FpuStep(fma, s, i);
        !s'.done && Waiting(s', op, a, b) && s'.cores.div.cycleNum < s.cores.div.cycleNum
  {
    hide DivOut, Recoded, DivSqrt.Step, Latched;
    DividerWorks(s.cores.div, Asked(op.OpSqrt?, a, b), DivIn(s));
  }

  /** The waiting edge that takes the divider's answer. */
  lemma {:induction false} WaitTakes(fma: Fma, s: Fpu, i: In, op: Op, a: Word, b: Word)
    requires Waiting(s, op, a, b) && !i.reset && s.cores.div.cycleNum == 1
    ensures var s' := FpuStep(fma, s, i); !s'.done && Returning(s', op, a, b, DivOut(s.cores.div))
  {
    hide DivOut, Recoded, DivSqrt.Step, Latched;
    DividerIdles(s.cores.div, DivIn(s));
  }

  lemma {:induction false} DividerAnswers(fma: Fma, f: Fpu, d: State, op: Op, a: Word, b: Word)
    requires Sequential(op) && Dividing(d, Asked(op.OpSqrt?, a, b)) && d.cycleNum == 1
        && f.result == Derecoded(DivOut(d))
    ensures Answers(fma, f, op, a, b)
  {
    hide DivOut, Recoded, Derecoded, Latched, IsQuotient, IsRoot;
    if op.OpSqrt? {
      SquareRootCorrect(d, a, b);
    } else {
      DivisionCorrect(d, a, b);
    }
  }

  lemma {:induction false} DividerPath(fma: Fma, s: Fpu, run: seq<In>, op: Op, a: Word, b: Word) returns (n: nat)
    requires Waiting(s, op, a, b) && NoReset(run) && |run| >= s.cores.div.cycleNum + 1
    ensures n <= s.cores.div.cycleNum + 1 && AnswersAt(fma, s, run, n, op, a, b)
    decreases s.cores.div.cycleNum
  {
    hide DivOut, Recoded, DivSqrt.Step, Latched, FpuStep, Answers;
    var s' := FpuStep(fma, s, run[0]);
    if s.cores.div.cycleNum == 1 {
      WaitTakes(fma, s, run[0], op, a, b);
      Returns(fma, s', run[1..][0], op, a, b, DivOut(s.cores.div));
      DividerAnswers(fma, FpuStep(fma, s', run[1..][0]), s.cores.div, op, a, b);
      n := 2;
    } else {
      WaitStep(fma, s, run[0], op, a, b);
      var n' := DividerPath(fma, s', run[1..], op, a, b);
      n := n' + 1;
    }
  }

  // ---- the multiply-add ----

  /** The request is in a stage of the pipeline. */
  ghost predicate InStage(s: Fpu, stage: nat, op: Op, a: Word, b: Word) {
    && s.phase.Wait? && Ctl(s.cores.div) && s.cores.div.cycleNum == 0 && !s.divValid && !s.fmaValid && Fused(op)
        && Holds(s, op, a, b)
    && s.cores.valid0 == (stage == 0) && s.cores.valid1 == (stage == 1)
    && (if stage == 0 then s.cores.args0 else s.cores.args1) == Operands(op, a, b, Recoded(a), Recoded(b))
  }

  lemma {:induction false} EntersPipe(fma: Fma, s: Fpu, i: In, op: Op, a: Word, b: Word)
    requires Sent(s, op, a, b) && Fused(op) && !i.reset
    ensures var s' := FpuStep(fma, s, i); !s'.done && InStage(s', 0, op, a, b)
  {
    hide DivOut, Recoded, DivSqrt.Step, Operands;
    DividerIdles(s.cores.div, DivIn(s));
  }

  lemma {:induction false} MovesOn(fma: Fma, s: Fpu, i: In, op: Op, a: Word, b: Word)
    requires InStage(s, 0, op, a, b) && !i.reset
    ensures var s' := FpuStep(fma, s, i); !s'.done && InStage(s', 1, op, a, b)
  {
    hide DivOut, Recoded, DivSqrt.Step, Operands;
    DividerIdles(s.cores.div, DivIn(s));
  }

  lemma {:induction false} LeavesPipe(fma: Fma, s: Fpu, i: In, op: Op, a: Word, b: Word)
    requires InStage(s, 1, op, a, b) && !i.reset
    ensures var s' := FpuStep(fma, s, i);
        !s'.done && Returning(s', op, a, b, fma(Operands(op, a, b, Recoded(a), Recoded(b))))
  {
    hide DivOut, Recoded, DivSqrt.Step, Operands;
    DividerIdles(s.cores.div, DivIn(s));
  }

  lemma {:induction false} FusedPath(fma: Fma, s: Fpu, run: seq<In>, op: Op, a: Word, b: Word)
    requires Sent(s, op, a, b) && Fused(op) && NoReset(run) && |run| >= 4
    ensures AnswersAt(fma, s, run, 4, op, a, b)
  {
    hide DivOut, Recoded, DivSqrt.Step, FpuStep, MeetsIeee, Combines;
    var r1, r2, r3 := run[1..], run[1..][1..], run[1..][1..][1..];
    var s1 := FpuStep(fma, s, run[0]);
    var s2 := FpuStep(fma, s1, r1[0]);
    var s3 := FpuStep(fma, s2, r2[0]);
    if MeetsIeee(fma) {
      OperandsCombine(fma, op, a, b);
    }
    EntersPipe(fma, s, run[0], op, a, b);
    MovesOn(fma, s1, r1[0], op, a, b);
    LeavesPipe(fma, s2, r2[0], op, a, b);
    Returns(fma, s3, r3[0], op, a, b, fma(Operands(op, a, b, Recoded(a), Recoded(b))));
    assert AnswersAt(fma, s3, r3, 1, op, a, b);
    assert AnswersAt(fma, s2, r2, 2, op, a, b);
    assert AnswersAt(fma, s1, r1, 3, op, a, b);
  }

  // ---- the theorem ----

  /** Every request made of a ready unit is answered within 60 cycles, once, with
      the IEEE 754 result, whatever the inputs do meanwhile; and the unit is ready
      again on the edge that answers. */
  lemma {:induction false} EveryRequestAnswered(fma: Fma, s: Fpu, run: seq<In>) returns (n: nat)
    requires Ready(s) && |run| >= 60 && NoReset(run) && run[0].start
    ensures 3 <= n <= 60 && AnswersAt(fma, s, run, n, run[0].op, run[0].a, run[0].b)
  {
    hide DivOut, Recoded, DivSqrt.Step, FpuStep, Answers;
    var op, a, b := run[0].op, run[0].a, run[0].b;
    var r1, r2, r3 := run[1..], run[1..][1..], run[1..][1..][1..];
    var s1 := FpuStep(fma, s, run[0]);
    var s2 := FpuStep(fma, s1, r1[0]);
    var s3 := FpuStep(fma, s2, r2[0]);
    Latches(fma, s, run[0], r1[0]);
    if !Sequential(op) && !Fused(op) {
      IssueAnswers(fma, s2, r2[0], op, a, b);
      n := 3;
    } else {
      IssueSends(fma, s2, r2[0], op, a, b);
      var m: nat;
      if Fused(op) {
        FusedPath(fma, s3, r3, op, a, b);
        m := 4;
      } else {
        Handover(fma, s3, r3[0], op, a, b);
        var k := DividerPath(fma, FpuStep(fma, s3, r3[0]), r3[1..], op, a, b);
        m := k + 1;
      }
      n := m + 3;
    }
    assert AnswersAt(fma, s2, r2, n - 2, op, a, b);
    assert AnswersAt(fma, s1, r1, n - 1, op, a, b);
  }

  /** One edge with reset makes the unit ready, and with no request it stays so, silent. */
  lemma {:induction false} ReadyKept(fma: Fma, s: Fpu, i: In)
    requires i.reset || (Ready(s) && !i.start)
    ensures var s' := FpuStep(fma, s, i);
      && Ready(s') && !s'.done
      && (if i.reset then s'.result == Double(false, 0, 0) && !s'.flag else s'.result == s.result && s'.flag == s.flag)
  {
  }

  // ---- over every run, from a reset ----

  datatype Call = Call(op: Op, a: Word, b: Word)

  /** What a user of the unit is owed: an answer to r, within so many edges. */
  datatype Owed = Nothing | Due(r: Call, within: nat)

  /** The unit as its user sees it.  A request made while none is outstanding is
      taken, any other ignored; done comes within 60 edges of the request, for an
      outstanding request only, with its answer; and a reset drops it.  Between two
      dones neither result moves, and a done leaves the one it does not answer in. */
  ghost predicate Serves(fma: Fma, s: Fpu, owed: Owed, run: seq<In>)
    decreases |run|
  {
    run == [] ||
    var s', i, rest := FpuStep(fma, s, run[0]), run[0], run[1..];
    if i.reset then !s'.done && s'.result == Double(false, 0, 0) && !s'.flag && Serves(fma, s', Nothing, rest)
    else
      match owed
      case Nothing =>
        !s'.done && Same(s, s') && Serves(fma, s', if i.start then Due(Call(i.op, i.a, i.b), 59) else Nothing, rest)
      case Due(r, within) =>
        if s'.done then Answers(fma, s', r.op, r.a, r.b) && Spares(s, s', r.op) && Serves(fma, s', Nothing, rest)
        else within > 1 && Same(s, s') && Serves(fma, s', Due(r, within - 1), rest)
  }

  predicate Same(s: Fpu, s': Fpu) {
    s'.result == s.result && s'.flag == s.flag
  }

  /** A comparison answers in the flag, anything else in the result. */
  predicate Spares(s: Fpu, s': Fpu, op: Op) {
    if op.OpLt? || op.OpLe? || op.OpEq? then s'.result == s.result else s'.flag == s.flag
  }

  lemma {:induction false} SparesStep(fma: Fma, s: Fpu, i: In, r: Call, left: nat)
    requires Busy(fma, s, r, left) && !i.reset
    ensures var s' := FpuStep(fma, s, i); if s'.done then Spares(s, s', r.op) else Same(s, s')
  {
    hide FpuStep;
    PhaseSpares(fma, s, i);
    BusyPhase(fma, s, r, left);
  }

  /** Only an issue and a return end a request. */
  lemma {:induction false} PhaseSpares(fma: Fma, s: Fpu, i: In)
    requires !i.reset
    ensures var s' := FpuStep(fma, s, i);
      if s'.done then (s.phase.Issue? && Spares(s, s', s.op)) || (s.phase.Back? && s'.flag == s.flag) else Same(s, s')
  {
    hide DivOut, Recoded, Derecoded, CmpLess, CmpEqual, OfInt32, ToInt32, NextCores;
  }

  lemma {:induction false} BusyPhase(fma: Fma, s: Fpu, r: Call, left: nat)
    requires Busy(fma, s, r, left)
    ensures s.op == r.op && (s.phase.Back? ==> Sequential(r.op) || Fused(r.op))
  {
    hide Rests, Right, Dividing, Operands, Recoded;
  }

  lemma {:induction false} IdleSame(fma: Fma, s: Fpu, i: In)
    requires Ready(s) && !i.reset
    ensures Same(s, FpuStep(fma, s, i))
  {
    hide DivOut, DivSqrt.Step, Operands, NextCores, Rests;
  }

  /** Where a request can be, and how many edges at most are left to its answer. */
  ghost predicate Busy(fma: Fma, s: Fpu, r: Call, left: nat) {
    || (Held(s, r) && left >= 59)
    || (Issuing(s, r.op, r.a, r.b) && left >= 58)
    || (Sent(s, r.op, r.a, r.b) && left >= if Sequential(r.op) then 57 else 4)
    || (Waiting(s, r.op, r.a, r.b) && left >= s.cores.div.cycleNum + 1)
    || (InStage(s, 0, r.op, r.a, r.b) && left >= 3)
    || (InStage(s, 1, r.op, r.a, r.b) && left >= 2)
    || (Returning(s, r.op, r.a, r.b, s.resRec) && Right(fma, r, s.resRec) && left >= 1)
  }

  ghost predicate Held(s: Fpu, r: Call) {
    s.phase.Recoding? && Rests(s) && !s.divValid && !s.fmaValid && s.op == r.op && s.a == r.a && s.b == r.b
  }

  /** The recoded result is the one asked for. */
  ghost predicate Right(fma: Fma, r: Call, y: Rec) {
    forall f: Fpu :: f.result == Derecoded(y) ==> Answers(fma, f, r.op, r.a, r.b)
  }

  lemma {:induction false} Takes(fma: Fma, s: Fpu, i: In)
    requires Ready(s) && i.start && !i.reset
    ensures var s' := FpuStep(fma, s, i); !s'.done && Held(s', Call(i.op, i.a, i.b))
  {
    hide DivOut, Recoded;
    var _ := RestingStep(fma, s, i);
  }

  lemma {:induction false} Recodes(fma: Fma, s: Fpu, i: In, r: Call)
    requires Held(s, r) && !i.reset
    ensures var s' := FpuStep(fma, s, i); !s'.done && Issuing(s', r.op, r.a, r.b)
  {
    hide DivOut, Recoded;
    var _ := RestingStep(fma, s, i);
  }

  lemma {:induction false} WaitRight(fma: Fma, d: State, r: Call)
    requires Sequential(r.op) && Dividing(d, Asked(r.op.OpSqrt?, r.a, r.b)) && d.cycleNum == 1
    ensures Right(fma, r, DivOut(d))
  {
    hide DivOut, Derecoded, Answers, Dividing;
    forall f: Fpu | f.result == Derecoded(DivOut(d))
      ensures Answers(fma, f, r.op, r.a, r.b)
    {
      DividerAnswers(fma, f, d, r.op, r.a, r.b);
    }
  }

  lemma {:induction false} FusedRight(fma: Fma, r: Call)
    requires Fused(r.op)
    ensures Right(fma, r, fma(Operands(r.op, r.a, r.b, Recoded(r.a), Recoded(r.b))))
  {
    hide Derecoded, Recoded, Operands, MeetsIeee, Combines;
    if MeetsIeee(fma) {
      OperandsCombine(fma, r.op, r.a, r.b);
    }
  }

  /** An edge answers the request or brings the answer nearer. */
  lemma {:induction false} BusyStep(fma: Fma, s: Fpu, i: In, r: Call, left: nat)
    requires Busy(fma, s, r, left) && !i.reset
    ensures var s' := FpuStep(fma, s, i);
      if s'.done then Ready(s') && Answers(fma, s', r.op, r.a, r.b) else left > 1 && Busy(fma, s', r, left - 1)
  {
    hide DivOut, Recoded, Derecoded, FpuStep, Answers, Right, Ready, Held, Issuing, Sent, Waiting, InStage, Returning;
    var op, a, b := r.op, r.a, r.b;
    if Held(s, r) && left >= 59 {
      Recodes(fma, s, i, r);
    } else if Issuing(s, op, a, b) && left >= 58 {
      if Sequential(op) || Fused(op) {
        IssueSends(fma, s, i, op, a, b);
      } else {
        IssueAnswers(fma, s, i, op, a, b);
      }
    } else if Sent(s, op, a, b) && left >= if Sequential(op) then 57 else 4 {
      if Sequential(op) {
        Handover(fma, s, i, op, a, b);
      } else {
        SentFused(s, op, a, b);
        EntersPipe(fma, s, i, op, a, b);
      }
    } else {
      BusyLate(fma, s, i, r, left);
    }
  }

  lemma {:induction false} SentFused(s: Fpu, op: Op, a: Word, b: Word)
    requires Sent(s, op, a, b)
    ensures Sequential(op) || Fused(op)
  {
  }

  /** The same, once the request has reached its core. */
  lemma {:induction false} BusyLate(fma: Fma, s: Fpu, i: In, r: Call, left: nat)
    requires !i.reset
    requires
      || (Waiting(s, r.op, r.a, r.b) && left >= s.cores.div.cycleNum + 1)
      || (InStage(s, 0, r.op, r.a, r.b) && left >= 3)
      || (InStage(s, 1, r.op, r.a, r.b) && left >= 2)
      || (Returning(s, r.op, r.a, r.b, s.resRec) && Right(fma, r, s.resRec) && left >= 1)
    ensures var s' := FpuStep(fma, s, i);
      if s'.done then Ready(s') && Answers(fma, s', r.op, r.a, r.b) else left > 1 && Busy(fma, s', r, left - 1)
  {
    hide DivOut, Recoded, Derecoded, FpuStep, Answers, Ready, Held, Issuing, Sent, InStage, Returning, Dividing;
    var op, a, b := r.op, r.a, r.b;
    if Waiting(s, op, a, b) && left >= s.cores.div.cycleNum + 1 {
      if s.cores.div.cycleNum == 1 {
        WaitTakes(fma, s, i, op, a, b);
        WaitRight(fma, s.cores.div, r);
        Loaded(FpuStep(fma, s, i), op, a, b, DivOut(s.cores.div));
      } else {
        WaitBusy(s, op, a, b);
        WaitStep(fma, s, i, op, a, b);
      }
    } else if InStage(s, 0, op, a, b) && left >= 3 {
      MovesOn(fma, s, i, op, a, b);
    } else if InStage(s, 1, op, a, b) && left >= 2 {
      LeavesPipe(fma, s, i, op, a, b);
      StageFused(s, 1, op, a, b);
      FusedRight(fma, r);
      Loaded(FpuStep(fma, s, i), op, a, b, fma(Operands(op, a, b, Recoded(a), Recoded(b))));
    } else {
      Returns(fma, s, i, op, a, b, s.resRec);
    }
  }

  lemma {:induction false} Loaded(s: Fpu, op: Op, a: Word, b: Word, y: Rec)
    requires Returning(s, op, a, b, y)
    ensures s.resRec == y
  {
  }

  lemma {:induction false} WaitBusy(s: Fpu, op: Op, a: Word, b: Word)
    requires Waiting(s, op, a, b)
    ensures s.cores.div.cycleNum >= 1
  {
  }

  lemma {:induction false} StageFused(s: Fpu, stage: nat, op: Op, a: Word, b: Word)
    requires InStage(s, stage, op, a, b)
    ensures Fused(op)
  {
  }

  /** The user is owed what the unit is busy with. */
  ghost predicate Owes(fma: Fma, s: Fpu, owed: Owed) {
    match owed
    case Nothing => Ready(s)
    case Due(r, within) => Busy(fma, s, r, within)
  }

  lemma {:induction false} OwesServes(fma: Fma, s: Fpu, owed: Owed, run: seq<In>)
    requires Owes(fma, s, owed)
    ensures Serves(fma, s, owed, run)
    decreases |run|
  {
    hide FpuStep, Answers, Ready, Busy;
    if run != [] {
      var s', i, rest := FpuStep(fma, s, run[0]), run[0], run[1..];
      if i.reset || (owed.Nothing? && !i.start) {
        ReadyKept(fma, s, i);
        if !i.reset {
          IdleSame(fma, s, i);
        }
        OwesServes(fma, s', Nothing, rest);
      } else if owed.Nothing? {
        var r := Call(i.op, i.a, i.b);
        Takes(fma, s, i);
        IdleSame(fma, s, i);
        JustTaken(fma, s', r);
        OwesServes(fma, s', Due(r, 59), rest);
      } else {
        BusyStep(fma, s, i, owed.r, owed.within);
        SparesStep(fma, s, i, owed.r, owed.within);
        OwesServes(fma, s', if s'.done then Nothing else Due(owed.r, owed.within - 1), rest);
      }
    }
  }

  lemma {:induction false} JustTaken(fma: Fma, s: Fpu, r: Call)
    requires Held(s, r)
    ensures Busy(fma, s, r, 59)
  {
  }

  /** The theorem over runs: from a reset edge, whatever the registers held and
      whatever requests and resets follow, every request taken is answered once, with
      the IEEE 754 result, within 60 edges, and done means nothing else. */
  lemma {:induction false} ServesFromReset(fma: Fma, s: Fpu, owed: Owed, run: seq<In>)
    requires run != [] && run[0].reset
    ensures Serves(fma, s, owed, run)
  {
    hide FpuStep, Ready;
    ReadyKept(fma, s, run[0]);
    OwesServes(fma, FpuStep(fma, s, run[0]), Nothing, run[1..]);
  }

  /** The registers, clocked as the module clocks them; the cores are clocked beside them. */
  class FpuHardfloat {
    const fma: Fma
    var state: Phase
    var op_r: Op
    var a_r: Word
    var b_r: Word
    var a_rec: RecWord
    var b_rec: RecWord
    var fma_valid: bool
    var div_valid: bool
    var div_sqrt: bool
    var res_rec: RecWord
    var done: bool
    var result: Word
    var flag: bool
    var cores: CoreRegs

    function St(): Fpu
      reads this
    {
      Fpu(state, op_r, a_r, b_r, a_rec, b_rec, fma_valid, div_valid, div_sqrt, res_rec, done, result, flag, cores)
    }

    constructor (fma: Fma, s: Fpu)
      ensures St() == s && this.fma == fma
    {
      this.fma := fma;
      state, op_r, a_r, b_r, a_rec, b_rec := s.phase, s.op, s.a, s.b, s.aRec, s.bRec;
      fma_valid, div_valid, div_sqrt, res_rec := s.fmaValid, s.divValid, s.divSqrt, s.resRec;
      done, result, flag, cores := s.done, s.result, s.flag, s.cores;
    }

    /** One rising edge of the clock. */
    method Clock(i: In)
      modifies this
      ensures St() == FpuStep(fma, old(St()), i)
    {
      hide DivOut, Recoded, Derecoded, CmpLess, CmpEqual, OfInt32, ToInt32, DivSqrt.Step, Operands, Issued;
      var c := cores;
      if i.reset {
        cores := NextCores(St(), true);
        Reset();
      } else {
        ClockCores();
        match state
        case Idle => Take(i);
        case Recoding => Recode();
        case Issue => IssueOp();
        case Wait => Await(c);
        case Back => GiveBack();
      }
    }

    method ClockCores()
      modifies `cores, `done, `fma_valid
      ensures St() == old(St()).(cores := NextCores(old(St()), false), done := false, fmaValid := false)
    {
      hide Recoded, DivSqrt.Step, Operands;
      cores := NextCores(St(), false);
      done, fma_valid := false, false;
    }

    method Take(i: In)
      modifies `a_r, `b_r, `op_r, `state
      ensures St() == if i.start then old(St()).(a := i.a, b := i.b, op := i.op, phase := Recoding) else old(St())
    {
      if i.start {
        a_r, b_r, op_r, state := i.a, i.b, i.op, Recoding;
      }
    }

    method Recode()
      modifies `a_rec, `b_rec, `state
      ensures St() == old(St()).(aRec := Recoded(old(St()).a), bRec := Recoded(old(St()).b), phase := Issue)
    {
      hide Recoded;
      a_rec, b_rec, state := Recoded(a_r), Recoded(b_r), Issue;
    }

    method Await(c: CoreRegs)
      requires state == Wait
      modifies `div_valid, `res_rec, `state
      ensures forall i: In ::
          St() == Advanced(old(St()), i, c.div.inReady, c.div.rawOutValid, c.valid1, DivOut(c.div), fma(c.args1))
    {
      hide DivOut;
      if div_valid && c.div.inReady {
        div_valid := false;
      }
      if c.valid1 || c.div.rawOutValid {
        res_rec, state := (if Sequential(op_r) then DivOut(c.div) else fma(c.args1)), Back;
      }
    }

    method GiveBack()
      modifies `result, `done, `state
      ensures St() == old(St()).(result := Derecoded(old(St()).resRec), done := true, phase := Idle)
    {
      hide Derecoded;
      result, done, state := Derecoded(res_rec), true, Idle;
    }

    method Reset()
      modifies this
      ensures St() == AfterReset(old(cores))
    {
      ResetOperands(Double(false, 0, 0), Rec(false, 0, 0));
      ResetRequests();
      state, done, result, flag := Idle, false, Double(false, 0, 0), false;
    }

    method ResetRequests()
      modifies `fma_valid, `div_valid, `div_sqrt
      ensures St() == old(St()).(fmaValid := false, divValid := false, divSqrt := false)
    {
      fma_valid, div_valid, div_sqrt := false, false, false;
    }

    method ResetOperands(zero: Word, none: RecWord)
      modifies `op_r, `a_r, `b_r, `a_rec, `b_rec, `res_rec
      ensures St() == old(St()).(op := OpAdd, a := zero, b := zero, aRec := none, bRec := none, resRec := none)
    {
      a_r, b_r, op_r := zero, zero, OpAdd;
      a_rec, b_rec, res_rec := none, none, none;
    }

    method IssueOp()
      modifies `state, `done, `result, `flag, `fma_valid, `div_valid, `div_sqrt
      ensures St() == Issued(old(St()))
    {
      hide Recoded, Derecoded, CmpLess, CmpEqual, OfInt32, ToInt32;
      match op_r
      case OpDiv => div_valid, div_sqrt, state := true, false, Wait;
      case OpSqrt => div_valid, div_sqrt, state := true, true, Wait;
      case OpAdd => fma_valid, state := true, Wait;
      case OpSub => fma_valid, state := true, Wait;
      case OpMul => fma_valid, state := true, Wait;
      case OpOther => fma_valid, state := true, Wait;
      case _ => IssueHere();
    }

    /** The operations that never reach a core. */
    method IssueHere()
      requires !Sequential(op_r) && !Fused(op_r)
      modifies `state, `done, `result, `flag
      ensures St() == Issued(old(St()))
    {
      hide Recoded, Derecoded, CmpLess, CmpEqual, OfInt32, ToInt32;
      done, state := true, Idle;
      match op_r
      case OpNeg => result := a_r.(sign := !a_r.sign);
      case OpAbs => result := a_r.(sign := false);
      case OpOfInt => result := OfInt32(a_r);
      case OpToInt => result := ToInt32(a_r);
      case OpLt => flag := CmpLess(a_rec, b_rec);
      case OpLe => flag := CmpLess(a_rec, b_rec) || CmpEqual(a_rec, b_rec);
      case OpEq => flag := CmpEqual(a_rec, b_rec);
    }
  }
}
