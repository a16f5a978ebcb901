/** What the divider holds in every cycle of every run, and what it holds when
    its result is out: an exact quotient or root, and an exact sticky bit. */
module DivSqrtProof {
  import opened Bits
  import opened DivSqrt

  /** What a normal request computes: a quotient of two normalised significands,
      or the root of n. */
  datatype Job = Quotient(a: nat, b: nat) | Root(n: nat)

  predicate NormalSig(sig: nat) {
    B52 <= sig < B53
  }

  /** The job of an accepted normal request: a root's radicand carries the odd
      bit of the exponent. */
  function JobOf(i: Inputs): Job {
    if !i.sqrtOp then Quotient(i.a.sig, i.b.sig)
    else Root(i.a.sig * (if Odd(i.a.sExp) then B55 else B54))
  }

  predicate GoodOperands(i: Inputs) {
    NormalCase(i) && NormalSig(i.a.sig) && (!i.sqrtOp ==> NormalSig(i.b.sig))
  }

  ghost function Times(k: nat, u: nat): nat {
    k * u
  }

  ghost predicate Multiple(x: nat, u: nat) {
    exists k: nat :: Times(k, u) == x
  }

  /** x is a multiple of u, with room for one more u below the limit. */
  ghost predicate OnGrid(x: nat, u: nat, limit: nat) {
    u > 0 && Multiple(x, u) && x + u <= limit
  }

  /** n = x^2 + w * r with x too small by less than w. */
  ghost predicate RootEq(n: nat, x: nat, w: nat, r: nat) {
    n == x * x + w * r && n < (x + w) * (x + w)
  }

  /** n = d * x + w * r. */
  ghost predicate QuotientEq(n: nat, d: nat, x: nat, w: nat, r: nat) {
    n == d * x + w * r
  }

  /** The restoring root: n = sigX^2 + w * rem with w the weight of the last bit
      decided, and sigX + w already too large. */
  ghost predicate RootInv(s: State, n: nat) {
    && 1 <= s.cycleNum <= 54
    && s.req.sqrtOp
    && var w := Pow2(s.cycleNum - 1);
    && RootEq(n, s.sigX, w, s.rem)
    && B53 <= s.sigX
    && OnGrid(s.sigX, w, B54)
    && (s.cycleNum >= 2 ==> s.fractB == Pow2(s.cycleNum - 2))
    && (s.notZeroRem <==> s.rem != 0)
  }

  /** The restoring quotient: a * 2^55 = 2b * sigX + w * rem with 0 <= rem < 2b. */
  ghost predicate QuotientInv(s: State, a: nat, b: nat, w: nat) {
    && !s.req.sqrtOp
    && NormalSig(a) && NormalSig(b)
    && QuotientEq(a * B55, 2 * b, s.sigX, w, s.rem)
    && s.rem < 2 * b
    && OnGrid(s.sigX, w, B55)
    && s.fractB == 2 * (b - B52)
    && (s.notZeroRem <==> s.rem != 0)
  }

  /** A quotient below one runs through every cycle; one of at least one stops a
      cycle early, one bit coarser. */
  ghost predicate QuotientDone(s: State, a: nat, b: nat) {
    if s.sigX < B54 then QuotientInv(s, a, b, 1) else QuotientInv(s, a, b, 2)
  }

  /** A job in flight, or finished when the counter is one. */
  ghost predicate Running(s: State, job: Job) {
    && Ctl(s)
    && s.cycleNum >= 1
    && match job
       case Root(n) => RootInv(s, n)
       case Quotient(a, b) =>
         if s.cycleNum == 1 then QuotientDone(s, a, b)
         else QuotientInv(s, a, b, Pow2(s.cycleNum - 1)) && (s.cycleNum == 2 ==> s.sigX < B54)
  }

  // ---- arithmetic of one step ----

  lemma {:induction false} RootArith(n: nat, x: nat, m: nat, r: nat)
    requires m > 0
    requires RootEq(n, x, 2 * m, r)
    ensures var t := 2 * r - (2 * x + m);
      if t >= 0 then RootEq(n, x + m, m, t) && t < 2 * (x + m) + m
      else RootEq(n, x, m, 2 * r)
  {
    var t := 2 * r - (2 * x + m);
    var y := 2 * x + m;
    assert (2 * m) * r == m * (2 * r) by { Swap(m, r); }
    Distribute(m, t, y);
    Square(x, m);
    if t >= 0 {
      assert x + m + m == x + 2 * m;
      Square(x + m, m);
      MulStrict(m, t, 2 * (x + m) + m);
    } else {
      MulStrict(m, 2 * r, y);
    }
  }

  lemma {:induction false} Swap(m: nat, r: nat)
    ensures (2 * m) * r == m * (2 * r)
  {
  }

  lemma {:induction false} Distribute(m: int, x: int, y: int)
    ensures m * (x + y) == m * x + m * y
  {
  }

  lemma {:induction false} Square(x: int, m: int)
    ensures (x + m) * (x + m) == x * x + m * (2 * x + m)
  {
  }

  /** Halving the unit keeps a grid point on the grid, and so does adding the new unit. */
  lemma {:induction false} GridStep(x: nat, m: nat, limit: nat)
    requires OnGrid(x, 2 * m, limit)
    ensures OnGrid(x, m, limit) && OnGrid(x + m, m, limit)
  {
    var k: nat :| Times(k, 2 * m) == x;
    assert Times(2 * k, m) == x;
    assert Times(2 * k + 1, m) == x + m;
  }

  /** The new bit does not overlap the bits already in the register. */
  lemma {:induction false} GridOr(x: nat, m: nat, k: nat, limit: nat)
    requires m == Pow2(k) && OnGrid(x, 2 * m, limit)
    ensures Or(x, m) == x + m
    ensures Or(2 * x, m) == 2 * x + m
  {
    var h: nat :| Times(h, 2 * m) == x;
    OrUnit(x, h, m, k);
  }

  lemma {:induction false} OrUnit(x: nat, h: nat, m: nat, k: nat)
    requires m == Pow2(k) && x == h * (2 * m)
    ensures Or(x, m) == x + m
    ensures Or(2 * x, m) == 2 * x + m
  {
    assert Pow2(k + 1) == 2 * m;
    OrDisjoint(h, m, k + 1);
    Double(h, 2 * m);
    OrDisjoint(2 * h, m, k + 1);
  }

  lemma {:induction false} Double(h: nat, p: nat)
    ensures 2 * (h * p) == (2 * h) * p
  {
  }

  lemma {:induction false} MaskIs(s: State)
    requires s.cycleNum >= 2
    ensures BitMask(s) == Pow2(s.cycleNum - 2)
    ensures Pow2(s.cycleNum - 1) == 2 * Pow2(s.cycleNum - 2)
  {
  }

  // ---- every step ----

  /** One iteration on a trial term and a bit mask that are already numbers. */
  lemma {:induction false} IterateIs(s: State, trial: nat, m: nat)
    requires Trial(s) == trial && BitMask(s) == m && Or(s.sigX, m) == s.sigX + m
    requires s.sigX + m < B55 && s.rem < trial < B55
    ensures var t := 2 * s.rem - trial; var r := Iterate(s);
      if t >= 0 then r.rem == t && r.sigX == s.sigX + m && (r.notZeroRem <==> t != 0)
      else r.rem == 2 * s.rem && r.sigX == s.sigX && r.notZeroRem == s.notZeroRem
  {
  }

  lemma {:induction false} RootStep(s: State, n: nat, s': State)
    requires s.cycleNum >= 2 && RootInv(s, n)
    requires s' == Iterate(s).(cycleNum := s.cycleNum - 1, inReady := s'.inReady, rawOutValid := s'.rawOutValid)
    ensures RootInv(s', n)
  {
    hide Or, OnGrid;
    var m := Pow2(s.cycleNum - 2);
    MaskIs(s);
    GridOr(s.sigX, m, s.cycleNum - 2, B54);
    GridStep(s.sigX, m, B54);
    RootArith(n, s.sigX, m, s.rem);
    RootRem(n, s.sigX, m, s.rem);
    IterateRootIs(s, m);
    if s.cycleNum >= 3 {
      assert s.fractB == 2 * Pow2(s.cycleNum - 3);
    }
  }

  /** The same, for a root: the trial term may reach 2^55 less one bit. */
  lemma {:induction false} IterateRootIs(s: State, m: nat)
    requires Trial(s) == 2 * s.sigX + m && BitMask(s) == m && Or(s.sigX, m) == s.sigX + m
    requires s.sigX + 2 * m <= B54 && m > 0 && s.rem < 2 * s.sigX + 2 * m
    ensures var t := 2 * s.rem - (2 * s.sigX + m); var r := Iterate(s);
      if t >= 0 then (t < B55 ==> r.rem == t) && r.sigX == s.sigX + m && (r.notZeroRem <==> t != 0)
      else r.rem == 2 * s.rem && r.sigX == s.sigX && r.notZeroRem == s.notZeroRem
  {
    var t := 2 * s.rem - (2 * s.sigX + m);
    DivModSmall(s.sigX + m, B55);
    DivModSmall(s.sigX, B55);
    if t < 0 {
      DivModSmall(2 * s.rem, B55);
    } else if t < B55 {
      DivModSmall(t, B55);
    }
  }

  lemma {:induction false} RootRem(n: nat, x: nat, m: nat, r: nat)
    requires m > 0
    requires RootEq(n, x, 2 * m, r)
    ensures r < 2 * x + 2 * m
  {
    Square(x, 2 * m);
    MulStrict(2 * m, r, 2 * x + 2 * m);
  }

  lemma {:induction false} FractionOr(f: nat)
    requires f < B53
    ensures Or(B53, f) == B53 + f
  {
    Pow2Values();
    OrDisjoint(1, f, 53);
  }

  lemma {:induction false} QuotientStep(s: State, a: nat, b: nat, s': State)
    requires s.cycleNum >= 2 && QuotientInv(s, a, b, Pow2(s.cycleNum - 1))
    requires s' == Iterate(s).(cycleNum := s'.cycleNum, inReady := s'.inReady, rawOutValid := s'.rawOutValid)
    ensures QuotientInv(s', a, b, Pow2(s.cycleNum - 2))
    ensures s.sigX <= s'.sigX <= s.sigX + Pow2(s.cycleNum - 2)
  {
    var m := Pow2(s.cycleNum - 2);
    MaskIs(s);
    GridOr(s.sigX, m, s.cycleNum - 2, B55);
    GridStep(s.sigX, m, B55);
    FractionOr(s.fractB);
    IterateIs(s, 2 * b, m);
    QuotientArith(a * B55, 2 * b, s.sigX, m, s.rem);
  }

  lemma {:induction false} QuotientArith(n: nat, d: nat, x: nat, m: nat, r: nat)
    requires QuotientEq(n, d, x, 2 * m, r) && r < d
    ensures var t := 2 * r - d;
      if t >= 0 then QuotientEq(n, d, x + m, m, t) && t < d else QuotientEq(n, d, x, m, 2 * r)
  {
  }

  lemma {:induction false} RunningRoot(s: State, n: nat, i: Inputs)
    requires Running(s, Root(n)) && s.cycleNum >= 2
    ensures var s' := Step(s, false, i); RootInv(s', n) && Ctl(s') && s'.cycleNum == s.cycleNum - 1 && s'.req == s.req
  {
    assert s.sigX < B54;
    DivModSmall(s.sigX, B54);
    assert !SkipCycle2(s);
    RootStep(s, n, Step(s, false, i));
  }

  lemma {:induction false} RunningQuotient(s: State, a: nat, b: nat, i: Inputs)
    requires Running(s, Quotient(a, b)) && s.cycleNum >= 2
    ensures var s' := Step(s, false, i); Running(s', Quotient(a, b)) && s'.cycleNum < s.cycleNum && s'.req == s.req
  {
    var s' := Step(s, false, i);
    var m := Pow2(s.cycleNum - 2);
    QuotientStep(s, a, b, s');
    assert Pow2(0) == 1 && Pow2(1) == 2 && Pow2(2) == 4;
    if s.cycleNum == 3 {
      TopBitIs(s.sigX);
      if s.sigX < B54 {
        GridBelow(s.sigX, 4);
      }
    }
  }

  lemma {:induction false} TopBitIs(x: nat)
    requires x < B55
    ensures x / B54 % 2 == 1 <==> x >= B54
  {
  }

  /** A busy divider moves its job along, whatever its inputs do, and counts down. */
  lemma {:induction false} RunningStep(s: State, job: Job, i: Inputs)
    requires Running(s, job) && s.cycleNum >= 2
    ensures var s' := Step(s, false, i);
      Running(s', job) && s'.cycleNum < s.cycleNum && s'.req == s.req
  {
    match job
    case Root(n) => RunningRoot(s, n, i);
    case Quotient(a, b) => RunningQuotient(s, a, b, i);
  }

  /** A multiple of four below 2^54 leaves room for four more. */
  lemma {:induction false} GridBelow(x: nat, u: nat)
    requires u == 4 && Multiple(x, u) && x < B54
    ensures x + u <= B54
  {
  }

  // ---- accepting a request ----

  lemma {:induction false} AcceptRootOdd(s: State, i: Inputs, s': State)
    requires i.sqrtOp && NormalSig(i.a.sig) && Odd(i.a.sExp)
    requires s' == First(s, i).(cycleNum := 53, inReady := s'.inReady, rawOutValid := s'.rawOutValid)
    ensures RootInv(s', i.a.sig * B55)
  {
    hide Pow2, Or;
    Pow2Values();
    FirstRemOdd(i);
    OddStart(i.a.sig);
  }

  lemma {:induction false} AcceptRootEven(s: State, i: Inputs, s': State)
    requires i.sqrtOp && NormalSig(i.a.sig) && !Odd(i.a.sExp)
    requires s' == First(s, i).(cycleNum := 54, inReady := s'.inReady, rawOutValid := s'.rawOutValid)
    ensures RootInv(s', i.a.sig * B54)
  {
    Pow2Values();
    EvenStart(i.a.sig);
  }

  lemma {:induction false} OddStart(a: nat)
    requires NormalSig(a)
    ensures 8 * a >= 9 * B52 ==> RootEq(a * B55, B53 + B52, B52, 8 * a - 9 * B52)
    ensures 8 * a < 9 * B52 ==> RootEq(a * B55, B53, B52, 8 * a - 4 * B52)
    ensures OnGrid(B53, B52, B54) && OnGrid(B53 + B52, B52, B54)
  {
    assert Times(2, B52) == B53 && Times(3, B52) == B53 + B52;
  }

  lemma {:induction false} EvenStart(a: nat)
    requires NormalSig(a)
    ensures RootEq(a * B54, B53, B53, 2 * a - B53)
    ensures OnGrid(B53, B53, B54)
  {
    assert Times(1, B53) == B53;
  }

  lemma {:induction false} FirstRemOdd(i: Inputs)
    requires i.sqrtOp && Odd(i.a.sExp) && NormalSig(i.a.sig)
    ensures FirstRem(i) == 8 * (i.a.sig - B51)
  {
  }

  lemma {:induction false} AcceptQuotient(s: State, i: Inputs, s': State)
    requires !i.sqrtOp && NormalSig(i.a.sig) && NormalSig(i.b.sig)
    requires s' == First(s, i).(cycleNum := 55, inReady := s'.inReady, rawOutValid := s'.rawOutValid)
    ensures QuotientInv(s', i.a.sig, i.b.sig, Pow2(54))
  {
    hide Pow2, Or;
    Pow2Values();
    assert Times(0, B54) == 0 && Times(1, B54) == B54;
  }

  /** A ready divider takes any normal request, whatever its registers hold. */
  lemma {:induction false} Accepts(s: State, i: Inputs)
    requires Ctl(s) && Entering(s, i) && GoodOperands(i)
    ensures var s' := Step(s, false, i);
      Running(s', JobOf(i)) && 53 <= s'.cycleNum <= 55 && s'.req == Latched(i)
  {
    var s' := Step(s, false, i);
    if i.sqrtOp {
      if Odd(i.a.sExp) {
        AcceptRootOdd(s, i, s');
      } else {
        AcceptRootEven(s, i, s');
      }
    } else {
      AcceptQuotient(s, i, s');
    }
  }

  /** A special request is answered on the next cycle. */
  lemma {:induction false} AcceptsSpecial(s: State, i: Inputs)
    requires Ctl(s) && Entering(s, i) && !NormalCase(i)
    ensures var s' := Step(s, false, i);
      Ctl(s') && s'.cycleNum == 1 && s'.req == Latched(i)
  {
  }

  // ---- runs ----

  /** The registers after a run of clock edges with reset low. */
  function Run(s: State, inputs: seq<Inputs>): State
    decreases |inputs|
  {
    if inputs == [] then s else Run(Step(s, false, inputs[0]), inputs[1..])
  }

  /** Every accepted normal request finishes within 55 cycles, and no result is
      signalled before that, whatever the inputs do meanwhile. */
  lemma {:induction false} Finishes(s: State, job: Job, inputs: seq<Inputs>) returns (n: nat)
    requires Running(s, job) && |inputs| >= s.cycleNum - 1
    ensures n <= s.cycleNum - 1
    ensures var f := Run(s, inputs[..n]); Running(f, job) && f.cycleNum == 1 && f.rawOutValid && f.req == s.req
    ensures forall m :: 0 <= m < n ==> !Run(s, inputs[..m]).rawOutValid && !Run(s, inputs[..m]).inReady
    decreases s.cycleNum
  {
    if s.cycleNum == 1 {
      n := 0;
    } else {
      var s' := Step(s, false, inputs[0]);
      RunningStep(s, job, inputs[0]);
      var n' := Finishes(s', job, inputs[1..]);
      n := n' + 1;
      assert inputs[..n][1..] == inputs[1..][..n'];
      forall m | 0 <= m < n
        ensures !Run(s, inputs[..m]).rawOutValid && !Run(s, inputs[..m]).inReady
      {
        if m > 0 {
          assert inputs[..m][1..] == inputs[1..][..m - 1];
        }
      }
    }
  }

  // ---- the result ----

  /** The value the raw significand stands for, a * 2^55 / b or 2 * sqrt(n), against k. */
  predicate AtMost(job: Job, k: nat) {
    match job
    case Quotient(a, b) => a * B55 <= k * b
    case Root(n) => 4 * n <= k * k
  }

  predicate AtLeast(job: Job, k: nat) {
    match job
    case Quotient(a, b) => a * B55 >= k * b
    case Root(n) => 4 * n >= k * k
  }

  /** The spacing at which the significand is exact: two, or four when its top bit is set. */
  function Grain(sig: nat): nat {
    if sig >= B55 then 4 else 2
  }

  lemma {:induction false} RawSigIs(s: State)
    ensures RawOutSig(s) == 2 * s.sigX + B(s.notZeroRem)
  {
    assert Pow2(1) == 2;
    OrDisjoint(s.sigX, B(s.notZeroRem), 1);
  }

  /** The root is the integer square root, and the sticky bit says whether it is exact. */
  lemma {:induction false} RootResult(s: State, n: nat)
    requires Running(s, Root(n)) && s.cycleNum == 1
    ensures s.sigX * s.sigX <= n < (s.sigX + 1) * (s.sigX + 1)
    ensures s.notZeroRem <==> s.sigX * s.sigX != n
    ensures B53 <= s.sigX < B54
  {
    assert Pow2(0) == 1;
  }

  /** The quotient is a * 2^54 / b rounded down, to an even value once it reaches
      2^54, and the sticky bit says whether it is exact. */
  lemma {:induction false} QuotientResult(s: State, a: nat, b: nat)
    requires Running(s, Quotient(a, b)) && s.cycleNum == 1
    ensures B53 <= s.sigX < B55
    ensures s.sigX == if a < b then a * B54 / b else 2 * (a * B53 / b)
    ensures s.notZeroRem <==> s.sigX * b != a * B54
    ensures s.sigX >= B54 <==> a >= b
  {
    var x, r := s.sigX, s.rem;
    if x < B54 {
      QuotientFine(a, b, x, r);
    } else {
      var h: nat :| Times(h, 2) == x;
      QuotientCoarse(a, b, h, r);
    }
  }

  lemma {:induction false} QuotientFine(a: nat, b: nat, x: nat, r: nat)
    requires NormalSig(a) && NormalSig(b) && a * B55 == 2 * b * x + 1 * r && r < 2 * b && x < B54
    ensures x >= B53 && a < b && x == a * B54 / b && (r != 0 <==> x * b != a * B54)
  {
    TwoTimes(b, x);
    assert r == 2 * (r / 2);
    assert a * B54 == b * x + r / 2;
    DivModUnique(a * B54, b, x, r / 2);
    MulMono(b, x + 1, B54);
    QuotientLow(a, b, x, r / 2);
  }

  lemma {:induction false} QuotientCoarse(a: nat, b: nat, h: nat, r: nat)
    requires NormalSig(a) && NormalSig(b) && a * B55 == 2 * b * (2 * h) + 2 * r && r < 2 * b && 2 * h >= B54
    ensures a >= b && h == a * B53 / b && (r != 0 <==> 2 * h * b != a * B54)
  {
    FourTimes(b, h);
    assert 2 * h * b == 2 * (b * h);
    assert r == 2 * (r / 2);
    assert a * B53 == b * h + r / 2;
    DivModUnique(a * B53, b, h, r / 2);
    MulMono(b, B53, h);
  }

  lemma {:induction false} TwoTimes(b: nat, x: nat)
    ensures 2 * b * x == 2 * (b * x)
  {
  }

  lemma {:induction false} QuotientLow(a: nat, b: nat, x: nat, r: nat)
    requires NormalSig(a) && NormalSig(b) && a * B54 == b * x + r && r < b
    ensures x >= B53
  {
    if x < B53 {
      MulMono(b, x + 1, B53);
    }
  }

  lemma {:induction false} CutArith(c: nat, y: nat, r: nat, j: nat)
    requires r < c
    ensures c * y + r <= c * j <==> y < j || (y == j && r == 0)
    ensures c * y + r >= c * j <==> y >= j
  {
    if y < j { MulMono(c, y + 1, j); } else { MulMono(c, j, y); if y > j { MulMono(c, j + 1, y); } }
  }

  /** The raw significand compares with every grid point exactly as the exact
      value does: nothing a rounder looks at is lost. */
  lemma {:induction false} Faithful(s: State, job: Job, j: nat)
    requires Running(s, job) && s.cycleNum == 1
    ensures B54 <= RawOutSig(s) < 2 * B55
    ensures var sig := RawOutSig(s); var k := Grain(sig) * j;
      (AtMost(job, k) <==> sig <= k) && (AtLeast(job, k) <==> sig >= k)
  {
    RawSigIs(s);
    match job
    case Root(n) =>
      RootResult(s, n);
      RootCut(n, s.sigX, j);
    case Quotient(a, b) =>
      QuotientResult(s, a, b);
      if s.sigX < B54 {
        TwoTimes(b, s.sigX);
        QuotientCut(a, b, 2, s.sigX, s.rem, j);
      } else {
        var h: nat :| Times(h, 2) == s.sigX;
        FourTimes(b, h);
        QuotientCut(a, b, 4, h, 2 * s.rem, j);
      }
  }

  lemma {:induction false} RootCut(n: nat, x: nat, j: nat)
    requires x * x <= n < (x + 1) * (x + 1)
    ensures 4 * n <= (2 * j) * (2 * j) <==> x < j || (x == j && x * x == n)
    ensures 4 * n >= (2 * j) * (2 * j) <==> x >= j
  {
    assert (2 * j) * (2 * j) == 4 * (j * j);
    if j <= x { SquareMono(j, x); } else { SquareMono(x + 1, j); }
  }

  lemma {:induction false} QuotientCut(a: nat, b: nat, g: nat, y: nat, r: nat, j: nat)
    requires a * B55 == g * (b * y) + r && r < g * b
    ensures a * B55 <= (g * j) * b <==> y < j || (y == j && r == 0)
    ensures a * B55 >= (g * j) * b <==> y >= j
  {
    var c := g * b;
    assert g * (b * y) == c * y;
    assert (g * j) * b == c * j;
    CutArith(c, y, r, j);
  }

  lemma {:induction false} FourTimes(b: nat, h: nat)
    ensures 2 * b * (2 * h) == 4 * (b * h)
  {
  }

  lemma {:induction false} SquareMono(x: nat, y: nat)
    requires x <= y
    ensures x * x <= y * y
    ensures x < y ==> x * x < y * y
  {
  }
}
