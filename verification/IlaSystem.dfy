/** The whole analyser: the probed clock interleaved with the TAP's, and what a
    host that scans its two chains receives. */
module IlaSystem {
  import opened Bits
  import opened BitVec
  import opened IlaCapture
  import opened IlaSerial

  datatype Sys = Sys(cap: Cap, cfg: Cfg, ctl: Ctl, dat: Dat)

  /** An edge of the TAP's side. */
  datatype Tap =
    | CtlFall
    | CtlRise(sel: bool, cap: bool, shift: bool, tdi: bool)
    | CtlUpdate(sel: bool)
    | DatFall
    | DatRise(sel: bool, cap: bool, shift: bool, tdi: bool)

  /** A TAP edge and the probe words of the clock edges since the one before. */
  datatype Tick = Tick(probes: seq<Word>, tap: Tap)

  ghost predicate Wide(p: Params, w: Word) { |w.bits| == p.width }
  ghost predicate AllWide(p: Params, ws: seq<Word>) { forall w :: w in ws ==> Wide(p, w) }

  ghost predicate Good(p: Params, s: Sys) {
    && p.Valid() && s.cap.Valid() && |s.cap.mem| == p.depth && s.cfg.post < p.depth
    && AllWide(p, s.cap.mem) && Wide(p, s.cap.sample)
    && |s.ctl.csr| == p.Cw() == |s.ctl.csrN|
    && s.dat.Valid(p) && Wide(p, s.dat.rdata)
  }

  function TapStep(p: Params, s: Sys, e: Tap): (s': Sys)
    requires Good(p, s)
    ensures Good(p, s') && s'.cap == s.cap
  {
    match e
    case CtlFall => s.(ctl := CtlNeg(s.ctl))
    case CtlRise(sel, cap, shift, tdi) => s.(ctl := CtlPos(p, s.ctl, sel, cap, shift, tdi, Status(p, s.cap)))
    case CtlUpdate(sel) => s.(cfg := if sel then Loaded(p, s.ctl.csr, s.cfg) else s.cfg)
    case DatFall => s.(dat := DatNeg(s.dat))
    case DatRise(sel, cap, shift, tdi) =>
      s.(dat := DatPos(p, s.dat, sel, cap, shift, tdi, Status(p, s.cap), s.cap.mem))
  }

  lemma {:induction false} RunGood(p: Params, s: Sys, probes: seq<Word>)
    requires Good(p, s) && AllWide(p, probes)
    ensures Good(p, s.(cap := RunClk(s.cap, s.cfg, probes)))
  {
    if probes != [] {
      RunGood(p, s, probes[..|probes| - 1]);
    }
  }

  /** The state the TAP edge finds. */
  function Found(p: Params, s: Sys, probes: seq<Word>): (s': Sys)
    requires Good(p, s) && AllWide(p, probes)
    ensures Good(p, s')
  {
    RunGood(p, s, probes);
    s.(cap := RunClk(s.cap, s.cfg, probes))
  }

  function Run(p: Params, s: Sys, ticks: seq<Tick>): (s': Sys)
    requires Good(p, s) && WideTicks(p, ticks)
    ensures Good(p, s')
    decreases |ticks|
  {
    if ticks == [] then s else Run(p, TapStep(p, Found(p, s, ticks[0].probes), ticks[0].tap), ticks[1..])
  }

  ghost predicate WideTicks(p: Params, ticks: seq<Tick>) {
    forall t :: t in ticks ==> AllWide(p, t.probes)
  }

  /** What the host sees on TDO: the foot of the selected register as each shift begins. */
  function Received(p: Params, s: Sys, ticks: seq<Tick>): seq<bool>
    requires Good(p, s) && WideTicks(p, ticks)
    decreases |ticks|
  {
    if ticks == [] then [] else
      var f := Found(p, s, ticks[0].probes);
      Seen(p, f, ticks[0].tap) + Received(p, TapStep(p, f, ticks[0].tap), ticks[1..])
  }

  function Seen(p: Params, s: Sys, e: Tap): seq<bool>
    requires Good(p, s)
  {
    match e
    case CtlRise(true, false, true, _) => [s.ctl.csr[0]]
    case DatRise(true, false, true, _) => [s.dat.dsr[0]]
    case _ => []
  }

  function Taps(ticks: seq<Tick>): (t: seq<Tap>)
    ensures |t| == |ticks|
  {
    seq(|ticks|, i requires 0 <= i < |ticks| => ticks[i].tap)
  }

  /** The clock edges of a run. */
  function Probes(ticks: seq<Tick>): seq<Word> {
    if ticks == [] then [] else ticks[0].probes + Probes(ticks[1..])
  }

  // ---- scans ----

  function CtlCycles(tx: seq<bool>): seq<Tap> {
    if tx == [] then [] else [CtlFall, CtlRise(true, false, true, tx[0])] + CtlCycles(tx[1..])
  }

  function DatCycles(tx: seq<bool>): seq<Tap> {
    if tx == [] then [] else [DatFall, DatRise(true, false, true, tx[0])] + DatCycles(tx[1..])
  }

  /** A scan of the control register: capture, shift, update. */
  function CtlScan(tx: seq<bool>): seq<Tap> {
    [CtlRise(true, true, false, false)] + CtlCycles(tx) + [CtlUpdate(true)]
  }

  /** A scan of the data register: capture and shift. */
  function DatScan(tx: seq<bool>): seq<Tap> {
    [DatRise(true, true, false, false)] + DatCycles(tx)
  }

  lemma {:induction false} RunClkConcat(c: Cap, k: Cfg, a: seq<Word>, b: seq<Word>)
    requires c.Valid() && k.post < |c.mem|
    ensures RunClk(c, k, a + b) == RunClk(RunClk(c, k, a), k, b)
  {
    if b == [] {
      assert a + b == a;
    } else {
      RunClkConcat(c, k, a, b[..|b| - 1]);
      assert (a + b)[..|a + b| - 1] == a + b[..|b| - 1];
    }
  }

  /** Two ticks on: the state, what was seen, and the clock edges. */
  lemma {:induction false} TwoTicks(p: Params, s: Sys, ticks: seq<Tick>)
    requires Good(p, s) && WideTicks(p, ticks) && |ticks| >= 2
    ensures var (a, b, rest) := (ticks[0], ticks[1], ticks[2..]);
      var f1 := Found(p, s, a.probes); var s1 := TapStep(p, f1, a.tap);
      var f2 := Found(p, s1, b.probes); var s2 := TapStep(p, f2, b.tap);
      && Run(p, s, ticks) == Run(p, s2, rest)
      && Received(p, s, ticks) == Seen(p, f1, a.tap) + (Seen(p, f2, b.tap) + Received(p, s2, rest))
      && Probes(ticks) == a.probes + (b.probes + Probes(rest))
  {
  }

  /** The first shift cycle of the control register, falling edge and rising. */
  lemma {:induction false} CtlCycle(p: Params, s: Sys, ticks: seq<Tick>, tx: seq<bool>)
    returns (s2: Sys, pre: seq<Word>)
    requires Good(p, s) && WideTicks(p, ticks) && tx != [] && Taps(ticks) == CtlCycles(tx)
    ensures |ticks| >= 2 && Good(p, s2) && Run(p, s, ticks) == Run(p, s2, ticks[2..])
    ensures Taps(ticks[2..]) == CtlCycles(tx[1..])
    ensures Received(p, s, ticks) == [s.ctl.csr[0]] + Received(p, s2, ticks[2..])
    ensures Probes(ticks) == pre + Probes(ticks[2..])
    ensures s2.ctl.csr == s.ctl.csr[1..] + [tx[0]]
    ensures s2.cfg == s.cfg && s2.dat == s.dat && s2.cap == RunClk(s.cap, s.cfg, pre)
  {
    hide RunClk, Run, Received, Probes, Status;
    assert Taps(ticks)[0] == CtlFall && Taps(ticks)[1] == CtlRise(true, false, true, tx[0]);
    assert Taps(ticks[2..]) == Taps(ticks)[2..];
    TwoTicks(p, s, ticks);
    var a, b := ticks[0].probes, ticks[1].probes;
    s2 := TapStep(p, Found(p, TapStep(p, Found(p, s, a), ticks[0].tap), b), ticks[1].tap);
    pre := a + b;
    RunClkConcat(s.cap, s.cfg, a, b);
    assert pre + Probes(ticks[2..]) == a + (b + Probes(ticks[2..]));
  }

  /** Shifting tx through the control register. */
  lemma {:induction false} CtlShifts(p: Params, s: Sys, ticks: seq<Tick>, tx: seq<bool>)
    requires Good(p, s) && WideTicks(p, ticks) && Taps(ticks) == CtlCycles(tx)
    ensures var s' := Run(p, s, ticks);
      && s'.ctl.csr == (s.ctl.csr + tx)[|tx|..] && Received(p, s, ticks) == (s.ctl.csr + tx)[..|tx|]
      && s'.cfg == s.cfg && s'.dat == s.dat && s'.cap == RunClk(s.cap, s.cfg, Probes(ticks))
    decreases |tx|
  {
    hide RunClk, TapStep, Found;
    if tx == [] {
      assert ticks == [];
      RunNothing(s.cap, s.cfg);
    } else {
      var s2, pre := CtlCycle(p, s, ticks, tx);
      hide Run, Received, Taps, Probes;
      CtlShifts(p, s2, ticks[2..], tx[1..]);
      RunClkConcat(s.cap, s.cfg, pre, Probes(ticks[2..]));
      ShiftBits(s.ctl.csr, tx);
    }
  }

  lemma {:induction false} RunNothing(c: Cap, k: Cfg)
    requires c.Valid() && k.post < |c.mem|
    ensures RunClk(c, k, []) == c
  {
  }

  lemma {:induction false} ShiftBits(c: seq<bool>, tx: seq<bool>)
    requires c != [] && tx != []
    ensures ((c[1..] + [tx[0]]) + tx[1..])[|tx| - 1..] == (c + tx)[|tx|..]
    ensures [c[0]] + ((c[1..] + [tx[0]]) + tx[1..])[..|tx| - 1] == (c + tx)[..|tx|]
  {
  }

  /** The first tick of a run, and the rest. */
  lemma {:induction false} FirstTick(p: Params, s: Sys, ticks: seq<Tick>) returns (s1: Sys, seen: seq<bool>)
    requires Good(p, s) && WideTicks(p, ticks) && ticks != []
    ensures Good(p, s1) && s1 == TapStep(p, Found(p, s, ticks[0].probes), ticks[0].tap)
    ensures seen == Seen(p, Found(p, s, ticks[0].probes), ticks[0].tap)
    ensures Run(p, s, ticks) == Run(p, s1, ticks[1..]) && Received(p, s, ticks) == seen + Received(p, s1, ticks[1..])
    ensures Probes(ticks) == ticks[0].probes + Probes(ticks[1..])
  {
    hide TapStep, Found, Seen;
    s1 := TapStep(p, Found(p, s, ticks[0].probes), ticks[0].tap);
    seen := Seen(p, Found(p, s, ticks[0].probes), ticks[0].tap);
  }

  lemma {:induction false} Assoc<T>(x: seq<T>, y: seq<T>, z: seq<T>)
    ensures x + (y + z) == (x + y) + z
  {
  }

  lemma {:induction false} HeadTail<T>(a: seq<T>, b: seq<T>)
    requires a != []
    ensures (a + b)[0] == a[0] && (a + b)[1..] == a[1..] + b && a + b != []
  {
  }

  lemma {:induction false} WideConcat(p: Params, a: seq<Tick>, b: seq<Tick>)
    requires WideTicks(p, a) && WideTicks(p, b)
    ensures WideTicks(p, a + b) && (a != [] ==> WideTicks(p, a[1..]))
  {
  }

  lemma {:induction false} RunConcat(p: Params, s: Sys, a: seq<Tick>, b: seq<Tick>)
    requires Good(p, s) && WideTicks(p, a) && WideTicks(p, b)
    ensures WideTicks(p, a + b) && Run(p, s, a + b) == Run(p, Run(p, s, a), b)
    ensures Received(p, s, a + b) == Received(p, s, a) + Received(p, Run(p, s, a), b)
    ensures Probes(a + b) == Probes(a) + Probes(b)
    decreases |a|
  {
    WideConcat(p, a, b);
    if a == [] {
      assert a + b == b;
    } else {
      hide TapStep, Found, Seen, Good, Run, Received, Probes, WideTicks;
      HeadTail(a, b);
      var s1, seen := FirstTick(p, s, a);
      var _, _ := FirstTick(p, s, a + b);
      RunConcat(p, s1, a[1..], b);
      Assoc(a[0].probes, Probes(a[1..]), Probes(b));
      Assoc(seen, Received(p, s1, a[1..]), Received(p, Run(p, s, a), b));
    }
  }

  /** One tick: its clock edges, then its TAP edge. */
  lemma {:induction false} OneTick(p: Params, s: Sys, t: Tick)
    requires Good(p, s) && AllWide(p, t.probes)
    ensures var f := Found(p, s, t.probes);
      Run(p, s, [t]) == TapStep(p, f, t.tap) && Received(p, s, [t]) == Seen(p, f, t.tap) && Probes([t]) == t.probes
  {
  }

  /** A scan's capture tick, its shift ticks and its update tick. */
  lemma {:induction false} ScanParts(ticks: seq<Tick>, tx: seq<bool>) returns (first: Tick, mid: seq<Tick>, last: Tick)
    requires Taps(ticks) == CtlScan(tx)
    ensures ticks == [first] + (mid + [last]) && ticks[0] == first
    ensures first.tap == CtlRise(true, true, false, false) && Taps(mid) == CtlCycles(tx) && last.tap == CtlUpdate(true)
  {
    var n := |ticks| - 1;
    first, mid, last := ticks[0], ticks[1..n], ticks[n];
    assert Taps(mid) == Taps(ticks)[1..n] == CtlCycles(tx);
    assert first.tap == Taps(ticks)[0] && last.tap == Taps(ticks)[n];
  }

  /** A control scan: what was shifted is loaded if its key matches, and the host
      receives the status, zero-extended, as it was at the capture edge. */
  lemma {:induction false} ControlScan(p: Params, s: Sys, ticks: seq<Tick>, tx: seq<bool>)
    requires Good(p, s) && WideTicks(p, ticks) && |tx| == p.Cw() && Taps(ticks) == CtlScan(tx)
    ensures var s' := Run(p, s, ticks);
      && s'.cfg == Loaded(p, tx, s.cfg) && s'.dat == s.dat && s'.cap == RunClk(s.cap, s.cfg, Probes(ticks))
    ensures |ticks| > 0 && ticks[0] in ticks
      && Received(p, s, ticks) == Status(p, RunClk(s.cap, s.cfg, ticks[0].probes)) + Zeros(p.Cw() - p.Sw())
  {
    hide Run, Received, Taps, RunClk, Loaded, Status, Probes;
    var first, mid, last := ScanParts(ticks, tx);
    var s1 := Run(p, s, [first]);
    OneTick(p, s, first);
    RunConcat(p, s, [first], mid + [last]);
    RunConcat(p, s1, mid, [last]);
    CtlShifts(p, s1, mid, tx);
    OneTick(p, Run(p, s1, mid), last);
    ScanClocks(s.cap, s.cfg, first.probes, Probes(mid), last.probes);
    FilledAndEmptied(s1.ctl.csr, tx);
  }

  lemma {:induction false} ScanClocks(c: Cap, k: Cfg, a: seq<Word>, b: seq<Word>, d: seq<Word>)
    requires c.Valid() && k.post < |c.mem|
    ensures RunClk(RunClk(RunClk(c, k, a), k, b), k, d) == RunClk(c, k, a + (b + d))
  {
    hide RunClk;
    RunClkConcat(c, k, a, b);
    RunClkConcat(c, k, a + b, d);
    assert (a + b) + d == a + (b + d);
  }

  lemma {:induction false} FilledAndEmptied<T>(c: seq<T>, tx: seq<T>)
    requires |c| == |tx|
    ensures (c + tx)[|tx|..] == tx && (c + tx)[..|tx|] == c
  {
  }

  /** A scan of any word without the key changes nothing. */
  lemma {:induction false} UnkeyedScan(p: Params, s: Sys, ticks: seq<Tick>, tx: seq<bool>)
    requires Good(p, s) && WideTicks(p, ticks) && |tx| == p.Cw() && Taps(ticks) == CtlScan(tx)
    requires tx[2 * p.width + p.aw + 1..] != ToBits(KEY, 8)
    ensures Run(p, s, ticks).cfg == s.cfg
  {
    hide Run, Taps, Loaded, Received, CtlScan, ToBits;
    ControlScan(p, s, ticks, tx);
    UnkeyedLoadsNothing(p, tx, s.cfg);
  }

  // ---- edges that are another chain's ----

  /** An edge on which its chain is not selected, or a falling one. */
  predicate Idle(e: Tap) {
    match e
    case CtlRise(sel, _, _, _) => !sel
    case CtlUpdate(sel) => !sel
    case DatRise(sel, _, _, _) => !sel
    case _ => true
  }

  /** While other chains are scanned the analyser's registers stay as they are, and
      nothing of it is seen, while the probed clock runs on. */
  lemma {:induction false} IdleRun(p: Params, s: Sys, ticks: seq<Tick>)
    requires Good(p, s) && WideTicks(p, ticks) && forall t :: t in ticks ==> Idle(t.tap)
    ensures var s' := Run(p, s, ticks);
      && s'.cfg == s.cfg && s'.cap == RunClk(s.cap, s.cfg, Probes(ticks)) && s'.ctl.csr == s.ctl.csr
      && s'.dat.dsr == s.dat.dsr && s'.dat.raddr == s.dat.raddr && s'.dat.bitn == s.dat.bitn
      && Received(p, s, ticks) == []
    decreases |ticks|
  {
    hide RunClk, Run, Received, Probes, Status;
    if ticks == [] {
      NoTick(p, s);
    } else {
      assert ticks[0] in ticks;
      var s1, _ := FirstTick(p, s, ticks);
      IdleRun(p, s1, ticks[1..]);
      RunClkConcat(s.cap, s.cfg, ticks[0].probes, Probes(ticks[1..]));
    }
  }

  lemma {:induction false} NoTick(p: Params, s: Sys)
    requires Good(p, s)
    ensures Run(p, s, []) == s && Received(p, s, []) == [] && Probes([]) == [] && RunClk(s.cap, s.cfg, []) == s.cap
  {
  }

  // ---- reading the ring, once it is frozen ----

  lemma {:induction false} FrozenRun(c: Cap, k: Cfg, probes: seq<Word>)
    requires Frozen(c) && k.arm && k.post < |c.mem|
    ensures var c' := RunClk(c, k, probes); c' == c.(sample := c'.sample)
  {
    if probes != [] {
      var before := probes[..|probes| - 1];
      FrozenRun(c, k, before);
      FrozenStays(RunClk(c, k, before), k, probes[|probes| - 1]);
    }
  }

  /** Frozen, with arm held high by the control register. */
  ghost predicate Held(s: Sys) { Frozen(s.cap) && s.cfg.arm }

  /** The words still to come, from word i on. */
  function WordsFrom(mem: seq<Word>, header: seq<bool>, i: nat): seq<bool>
    requires i <= |mem| + 1
    decreases |mem| + 1 - i
  {
    if i == |mem| + 1 then [] else WordAt(mem, header, i) + WordsFrom(mem, header, i + 1)
  }

  /** The first shift cycle of the data register, whatever the clock does between its edges. */
  lemma {:induction false} DatCycleOf(p: Params, s: Sys, ticks: seq<Tick>, tx: seq<bool>) returns (s2: Sys)
    requires Good(p, s) && Held(s) && WideTicks(p, ticks) && tx != [] && Taps(ticks) == DatCycles(tx)
    ensures |ticks| >= 2 && Good(p, s2) && Held(s2) && Run(p, s, ticks) == Run(p, s2, ticks[2..])
    ensures Taps(ticks[2..]) == DatCycles(tx[1..])
    ensures Received(p, s, ticks) == [s.dat.dsr[0]] + Received(p, s2, ticks[2..])
    ensures s2.dat == DatCycle(p, s.dat, tx[0], s.cap.mem) && s2.cap.mem == s.cap.mem
  {
    hide RunClk, Run, Received, Probes, Status;
    assert Taps(ticks)[0] == DatFall && Taps(ticks)[1] == DatRise(true, false, true, tx[0]);
    assert Taps(ticks[2..]) == Taps(ticks)[2..];
    TwoTicks(p, s, ticks);
    var a, b := ticks[0].probes, ticks[1].probes;
    FrozenRun(s.cap, s.cfg, a);
    var s1 := TapStep(p, Found(p, s, a), ticks[0].tap);
    FrozenRun(s1.cap, s1.cfg, b);
    s2 := TapStep(p, Found(p, s1, b), ticks[1].tap);
  }

  lemma {:induction false} ReadingWidth(p: Params, d: Dat, mem: seq<Word>, header: seq<bool>, i: nat, j: nat)
    requires Reading(p, d, mem, header, i, j)
    ensures i <= |mem| == p.depth && j < p.width == |WordAt(mem, header, i)|
    ensures i < p.depth ==> |WordAt(mem, header, i + 1)| == p.width
  {
  }

  /** One bit received: the next is at the foot. */
  lemma {:induction false} NextBit(p: Params, s: Sys, ticks: seq<Tick>, tx: seq<bool>, mem: seq<Word>,
      header: seq<bool>, i: nat, j: nat)
    returns (s2: Sys)
    requires Good(p, s) && Held(s) && WideTicks(p, ticks) && tx != [] && Taps(ticks) == DatCycles(tx)
    requires s.cap.mem == mem && Reading(p, s.dat, mem, header, i, j) && i <= |mem| && j < |WordAt(mem, header, i)|
    ensures |ticks| >= 2 && Good(p, s2) && Held(s2) && s2.cap.mem == mem && Taps(ticks[2..]) == DatCycles(tx[1..])
    ensures Received(p, s, ticks) == [WordAt(mem, header, i)[j]] + Received(p, s2, ticks[2..])
    ensures j + 1 < p.width ==> Reading(p, s2.dat, mem, header, i, j + 1)
    ensures j + 1 == p.width && i < p.depth ==> Reading(p, s2.dat, mem, header, i + 1, 0)
  {
    hide Run, Taps, DatCycle, RunClk, Reading, WordAt, Held, DatCycles, Received;
    s2 := DatCycleOf(p, s, ticks, tx);
    ReadingStep(p, s.dat, tx[0], mem, header, i, j);
  }

  lemma {:induction false} DatShifts(p: Params, s: Sys, ticks: seq<Tick>, tx: seq<bool>, mem: seq<Word>,
      header: seq<bool>, i: nat, j: nat)
    requires Good(p, s) && Held(s) && WideTicks(p, ticks) && Taps(ticks) == DatCycles(tx)
    requires s.cap.mem == mem && Reading(p, s.dat, mem, header, i, j) && i <= |mem| && j < |WordAt(mem, header, i)|
    requires |tx| == |WordAt(mem, header, i)[j..]| + |WordsFrom(mem, header, i + 1)|
    ensures Received(p, s, ticks) == WordAt(mem, header, i)[j..] + WordsFrom(mem, header, i + 1)
    decreases |tx|
  {
    hide Run, Taps, DatCycle, RunClk, Reading, WordAt, Held, DatCycles, Received, Good, WideTicks;
    ReadingWidth(p, s.dat, mem, header, i, j);
    var s2 := NextBit(p, s, ticks, tx, mem, header, i, j);
    Fewer(p, ticks);
    ShiftOut(WordAt(mem, header, i), WordsFrom(mem, header, i + 1), j);
    if j + 1 < p.width {
      DatShifts(p, s2, ticks[2..], tx[1..], mem, header, i, j + 1);
    } else if i < p.depth {
      assert WordAt(mem, header, i + 1)[0..] == WordAt(mem, header, i + 1);
      DatShifts(p, s2, ticks[2..], tx[1..], mem, header, i + 1, 0);
    } else {
      NothingShifted(p, s2, ticks[2..], tx[1..]);
    }
  }

  lemma {:induction false} Fewer(p: Params, ticks: seq<Tick>)
    requires WideTicks(p, ticks) && |ticks| >= 2
    ensures WideTicks(p, ticks[2..])
  {
  }

  lemma {:induction false} ShiftOut(w: seq<bool>, r: seq<bool>, j: nat)
    requires j < |w|
    ensures w[j..] + r == [w[j]] + (w[j + 1..] + r)
    ensures j + 1 == |w| ==> w[j..] + r == [w[j]] + r
  {
  }

  lemma {:induction false} NothingShifted(p: Params, s: Sys, ticks: seq<Tick>, tx: seq<bool>)
    requires Good(p, s) && WideTicks(p, ticks) && tx == [] && Taps(ticks) == DatCycles(tx)
    ensures Received(p, s, ticks) == []
  {
  }

  /** The header word. */
  function Header(p: Params, c: Cap): (h: seq<bool>)
    requires p.Sw() <= p.width
    ensures |h| == p.width
  {
    Status(p, c) + Zeros(p.width - p.Sw())
  }

  lemma {:induction false} CaptureEdge(p: Params, s: Sys)
    requires Good(p, s)
    ensures var s' := TapStep(p, s, DatRise(true, true, false, false));
      s'.cfg == s.cfg && s'.cap == s.cap && Reading(p, s'.dat, s.cap.mem, Header(p, s.cap), 0, 0)
  {
    var s' := TapStep(p, s, DatRise(true, true, false, false));
    var h := Header(p, s.cap);
    assert s'.dat.dsr[..p.width - 0] == s'.dat.dsr == h == h[0..];
    forall k | 0 <= k < |s.cap.mem|
      ensures |s.cap.mem[k].bits| == p.width
    {
      assert s.cap.mem[k] in s.cap.mem;
    }
  }

  /** A data scan of a frozen buffer: the host receives the header and then the
      memory, word by word, whatever the probed clock does meanwhile. */
  lemma {:induction false} DataScan(p: Params, s: Sys, ticks: seq<Tick>, tx: seq<bool>)
    requires Good(p, s) && Held(s) && WideTicks(p, ticks) && Taps(ticks) == DatScan(tx)
    requires |tx| == |WordsFrom(s.cap.mem, Header(p, s.cap), 0)|
    ensures Received(p, s, ticks) == WordsFrom(s.cap.mem, Header(p, s.cap), 0)
  {
    hide Run, RunClk, DatCycle, Reading, Status, WordsFrom, Received;
    var first, rest := ticks[0], ticks[1..];
    assert first.tap == Taps(ticks)[0];
    assert Taps(rest) == Taps(ticks)[1..] == DatCycles(tx);
    FrozenRun(s.cap, s.cfg, first.probes);
    var f := Found(p, s, first.probes);
    CaptureEdge(p, f);
    var s1, seen := FirstTick(p, s, ticks);
    assert seen == [];
    FirstWord(s.cap.mem, Header(p, s.cap));
    assert Header(p, f.cap) == Header(p, s.cap) by { SameStatus(p, f.cap, s.cap); }
    DatShifts(p, s1, rest, tx, s.cap.mem, Header(p, s.cap), 0, 0);
  }

  lemma {:induction false} FirstWord(mem: seq<Word>, header: seq<bool>)
    ensures WordsFrom(mem, header, 0) == WordAt(mem, header, 0)[0..] + WordsFrom(mem, header, 1)
  {
  }

  lemma {:induction false} SameStatus(p: Params, a: Cap, b: Cap)
    requires a == b.(sample := a.sample)
    ensures Status(p, a) == Status(p, b)
  {
  }

  lemma {:induction false} WordWidth(mem: seq<Word>, header: seq<bool>, w: nat, i: nat)
    requires i <= |mem| && |header| == w && (forall k :: 0 <= k < |mem| ==> |mem[k].bits| == w)
    ensures |WordAt(mem, header, i)| == w
  {
  }

  /** Where word t lies among the bits received from word i on. */
  lemma {:induction false} WordsAt(mem: seq<Word>, header: seq<bool>, w: nat, i: nat, t: nat)
    requires i <= t <= |mem| && |header| == w && (forall k :: 0 <= k < |mem| ==> |mem[k].bits| == w)
    ensures |WordsFrom(mem, header, i)| == Mul(w, |mem| + 1 - i)
    ensures Mul(w, t - i) + w <= |WordsFrom(mem, header, i)|
    ensures WordsFrom(mem, header, i)[Mul(w, t - i)..Mul(w, t - i) + w] == WordAt(mem, header, t)
    decreases |mem| - i
  {
    hide Mul, WordAt;
    WordWidth(mem, header, w, i);
    WordArith(w, |mem| - i, t - i);
    if i < |mem| {
      WordsAt(mem, header, w, i + 1, if t > i then t else i + 1);
    }
    PickWord(mem, header, w, i, t);
  }

  lemma {:induction false} PickWord(mem: seq<Word>, header: seq<bool>, w: nat, i: nat, t: nat)
    requires i <= t <= |mem| && |WordAt(mem, header, i)| == w
    requires t > i ==>
      && Mul(w, t - i) == w + Mul(w, t - (i + 1))
      && Mul(w, t - (i + 1)) + w <= |WordsFrom(mem, header, i + 1)|
      && WordsFrom(mem, header, i + 1)[Mul(w, t - (i + 1))..Mul(w, t - (i + 1)) + w] == WordAt(mem, header, t)
    requires Mul(w, 0) == 0
    ensures Mul(w, t - i) + w <= |WordsFrom(mem, header, i)|
    ensures WordsFrom(mem, header, i)[Mul(w, t - i)..Mul(w, t - i) + w] == WordAt(mem, header, t)
  {
    hide Mul, WordAt;
    var a, b := WordAt(mem, header, i), WordsFrom(mem, header, i + 1);
    assert WordsFrom(mem, header, i) == a + b;
    if t > i {
      SliceAfter(a, b, Mul(w, t - (i + 1)), w);
    }
  }

  lemma {:induction false} SliceAfter(a: seq<bool>, b: seq<bool>, x: nat, w: nat)
    requires x + w <= |b|
    ensures (a + b)[|a| + x..|a| + x + w] == b[x..x + w]
  {
  }

  lemma {:induction false} WordArith(w: nat, m: nat, n: nat)
    requires n <= m
    ensures Mul(w, m + 1) == w + Mul(w, m) && Mul(w, n) + w <= Mul(w, m + 1)
    ensures n > 0 ==> Mul(w, n) == w + Mul(w, n - 1)
    ensures Mul(w, 0) == 0
  {
  }
}
