/** The Python host driver, and the end-to-end theorem: what it reads is what the
    probes carried. */
module IlaHost {
  import opened Bits
  import opened BitVec
  import opened IlaCapture
  import opened IlaSerial
  import opened IlaSystem

  // ---- the driver's register formats ----

  /** Python's int.bit_length. */
  function BitLength(n: nat): nat {
    if n == 0 then 0 else 1 + BitLength(n / 2)
  }

  function HostAw(depth: nat): nat
    requires depth > 0
  {
    var l := BitLength(depth - 1);
    if l < 1 then 1 else l
  }

  /** x & ((1 << n) - 1), a negative x having the bits of its two's complement. */
  function Low(x: int, n: nat): nat {
    if x >= 0 then And(x, Pow2(n) - 1) else Clear(Pow2(n) - 1, -x - 1)
  }

  function CtlWord(p: Params, mask: int, value: int, post: int, arm: bool): nat {
    var w, aw := p.width, p.aw;
    Or(Or(Or(Or(Low(mask, w), Mul(Low(value, w), Pow2(w))), Mul(Low(post, aw), Pow2(2 * w))),
          Mul(B(arm), Pow2(2 * w + aw))), Mul(KEY, Pow2(2 * w + aw + 1)))
  }

  datatype HostStatus = HostStatus(waddr: nat, armed: bool, trig: bool, done: bool, keyOk: bool)

  function DecodeStatus(p: Params, s: nat): HostStatus {
    var s, aw := Low(s, p.Sw()), p.aw;
    HostStatus(Low(s, aw), Shr(s, aw) % 2 == 1, Shr(s, aw + 1) % 2 == 1, Shr(s, aw + 2) % 2 == 1,
               Shr(s, aw + 3) == STATUS_KEY)
  }

  /** The words of a read, the header first. */
  function HostWords(p: Params, v: nat): (ws: seq<nat>)
    ensures |ws| == p.depth + 1
  {
    seq(p.depth + 1, i requires 0 <= i <= p.depth => Low(Shr(v, Mul(p.width, i)), p.width))
  }

  /** The samples, oldest first. */
  function HostRead(p: Params, v: nat): (HostStatus, seq<nat>) {
    var words := HostWords(p, v);
    var st, samples := DecodeStatus(p, words[0]), words[1..];
    (st, if st.waddr <= |samples| then samples[st.waddr..] + samples[..st.waddr] else samples)
  }

  // ---- the formats are the device's ----

  /** The driver's address width is the device's, for a power of two. */
  lemma {:induction false} HostAwIs(aw: nat)
    requires aw >= 1
    ensures HostAw(Pow2(aw)) == aw
  {
    AllOnesLength(aw);
  }

  lemma {:induction false} AllOnesLength(k: nat)
    ensures BitLength(Pow2(k) - 1) == k
  {
    if k > 0 {
      AllOnesLength(k - 1);
      HalveMask(k);
    }
  }

  /** The low bits of an integer are its residue. */
  lemma {:induction false} LowIs(x: int, n: nat)
    ensures Low(x, n) == x % Pow2(n) == FromBits(ToBits(x % Pow2(n), n))
  {
    hide Pow2, And;
    var p := Pow2(n);
    if x >= 0 {
      AndLow(x, n);
    } else {
      var q: int, r: int := DivMod(-x - 1, p);
      AndCommutes(p - 1, -x - 1);
      AndLow(-x - 1, n);
      Negated(p, q, r);
      DivModUnique(x, p, -q - 1, p - 1 - r);
    }
    FromTo(x % p, n);
    DivModSmall(x % p, p);
  }

  lemma {:induction false} Negated(p: int, q: int, r: int)
    ensures -(p * q + r) - 1 == p * (-q - 1) + (p - 1 - r)
  {
  }

  lemma {:induction false} AndCommutes(x: nat, y: nat)
    ensures And(x, y) == And(y, x)
  {
    if x != 0 && y != 0 {
      AndCommutes(x / 2, y / 2);
    }
  }

  /** The control word's bits are the fields, in the device's order: arming loads
      exactly what the caller gave, truncated to the field widths. */
  lemma {:induction false} CtlWordBits(p: Params, mask: int, value: int, post: int, arm: bool)
    ensures var k := HostCfg(p, mask, value, post % Pow2(p.aw), arm);
      ToBits(CtlWord(p, mask, value, post, arm), p.Cw()) == CtlBits(p, k)
  {
    hide Pow2, Or, ToBits, FromBits, And;
    var w, aw := p.width, p.aw;
    var m, v, n := ToBits(mask % Pow2(w), w), ToBits(value % Pow2(w), w), ToBits(post % Pow2(aw), aw);
    var a, k := [arm], ToBits(KEY, 8);
    LowIs(mask, w);
    LowIs(value, w);
    LowIs(post, aw);
    OneBit(arm);
    KeyBits();
    OrConcat(m, v);
    OrConcat(m + v, n);
    OrConcat(m + v + n, a);
    OrConcat(m + v + n + a, k);
    assert |m + v| == 2 * w && |m + v + n| == 2 * w + aw && |m + v + n + a| == 2 * w + aw + 1;
    ToFrom(m + v + n + a + k);
  }

  lemma {:induction false} OneBit(b: bool)
    ensures FromBits([b]) == B(b)
  {
  }

  lemma {:induction false} KeyBits()
    ensures FromBits(ToBits(KEY, 8)) == KEY && FromBits(ToBits(STATUS_KEY, 8)) == STATUS_KEY
  {
    FromTo(KEY, 8);
    FromTo(STATUS_KEY, 8);
    assert Pow2(8) == 256;
  }

  /** What the caller's arguments mean to the device: mask and value in its width. */
  function HostCfg(p: Params, mask: int, value: int, post: nat, arm: bool): (k: Cfg)
    ensures |k.mask.bits| == |k.value.bits| == p.width
  {
    var all := Pow2(p.width);
    Cfg(Word(ToBits(mask % all, p.width)), Word(ToBits(value % all, p.width)), post, arm)
  }

  /** The bit of a number at position i. */
  lemma {:induction false} BitAt(b: seq<bool>, i: nat)
    requires i < |b|
    ensures Shr(FromBits(b), i) % 2 == B(b[i])
  {
    if i > 0 {
      BitAt(b[1..], i - 1);
    }
  }

  lemma {:induction false} ShrDrop(b: seq<bool>, i: nat)
    requires i <= |b|
    ensures Shr(FromBits(b), i) == FromBits(b[i..])
  {
    if i > 0 {
      ShrDrop(b[1..], i - 1);
      assert b[1..][i - 1..] == b[i..];
    } else {
      assert b[0..] == b;
    }
  }

  lemma {:induction false} LowTake(b: seq<bool>, n: nat)
    requires n <= |b|
    ensures Low(FromBits(b), n) == FromBits(b[..n])
  {
    hide Pow2;
    FromBitsConcat(b[..n], b[n..]);
    assert b[..n] + b[n..] == b;
    AndLow(FromBits(b), n);
    DivModUnique(FromBits(b), Pow2(n), FromBits(b[n..]), FromBits(b[..n]));
  }

  /** The status decodes to the device's registers, from a control or a data scan. */
  lemma {:induction false} StatusDecodes(p: Params, c: Cap, rest: seq<bool>)
    requires c.waddr < Pow2(p.aw)
    ensures DecodeStatus(p, FromBits(Status(p, c) + rest)) == HostStatus(c.waddr, c.armed, c.trig, c.done, true)
  {
    hide Pow2, And, FromBits, ToBits, Shr;
    var b, aw := Status(p, c), p.aw;
    LowTake(b + rest, p.Sw());
    assert (b + rest)[..p.Sw()] == b;
    LowTake(b, aw);
    assert b[..aw] == ToBits(c.waddr, aw);
    FromTo(c.waddr, aw);
    DivModSmall(c.waddr, Pow2(aw));
    BitAt(b, aw);
    BitAt(b, aw + 1);
    BitAt(b, aw + 2);
    assert b[aw] == c.armed && b[aw + 1] == c.trig && b[aw + 2] == c.done;
    ShrDrop(b, aw + 3);
    assert b[aw + 3..] == ToBits(STATUS_KEY, 8);
    KeyBits();
  }

  // ---- reading ----

  function Samples(ws: seq<Word>): (ns: seq<nat>)
    ensures |ns| == |ws|
  {
    seq(|ws|, i requires 0 <= i < |ws| => FromBits(ws[i].bits))
  }

  /** Splitting the received bits into words inverts the serial readout. */
  lemma {:induction false} HostWordsAre(p: Params, mem: seq<Word>, header: seq<bool>, i: nat)
    requires |mem| == p.depth && i <= p.depth && |header| == p.width
    requires forall k :: 0 <= k < |mem| ==> |mem[k].bits| == p.width
    ensures HostWords(p, FromBits(WordsFrom(mem, header, 0)))[i] == FromBits(WordAt(mem, header, i))
  {
    hide Mul, FromBits, Shr, And, Pow2, WordsFrom, WordAt;
    var b, at := WordsFrom(mem, header, 0), Mul(p.width, i);
    WordsAt(mem, header, p.width, 0, i);
    ShrDrop(b, at);
    LowTake(b[at..], p.width);
    assert b[at..][..p.width] == b[at..at + p.width];
  }

  /** The driver's rotation puts the ring in order. */
  lemma {:induction false} HostReadIs(p: Params, c: Cap)
    requires p.Valid() && c.Valid() && |c.mem| == p.depth && AllWide(p, c.mem)
    ensures HostRead(p, FromBits(WordsFrom(c.mem, Header(p, c), 0)))
         == (HostStatus(c.waddr, c.armed, c.trig, c.done, true), Samples(Ring(c)))
  {
    hide Mul, FromBits, Shr, And, Pow2, WordsFrom, DecodeStatus, HostWords, Status;
    var header := Header(p, c);
    var v := FromBits(WordsFrom(c.mem, header, 0));
    Widths(p, c.mem);
    forall i | 0 <= i <= p.depth
      ensures HostWords(p, v)[i] == FromBits(WordAt(c.mem, header, i))
    {
      HostWordsAre(p, c.mem, header, i);
    }
    StatusDecodes(p, c, Zeros(p.width - p.Sw()));
    var samples := HostWords(p, v)[1..];
    assert samples == Samples(c.mem);
    assert samples[c.waddr..] + samples[..c.waddr] == Samples(Ring(c));
  }

  lemma {:induction false} Widths(p: Params, mem: seq<Word>)
    requires AllWide(p, mem)
    ensures forall k :: 0 <= k < |mem| ==> |mem[k].bits| == p.width
  {
    forall k | 0 <= k < |mem|
      ensures |mem[k].bits| == p.width
    {
      assert mem[k] in mem;
    }
  }

  // ---- waiting ----

  /** Status polls, each a scan of zeros, and scans of other chains, in any order. */
  ghost predicate Waits(p: Params, taps: seq<Tap>)
    decreases |taps|
  {
    var m := |CtlScan(Zeros(p.Cw()))|;
    || taps == []
    || (taps != [] && IlaSystem.Idle(taps[0]) && Waits(p, taps[1..]))
    || (0 < m <= |taps| && taps[..m] == CtlScan(Zeros(p.Cw())) && Waits(p, taps[m..]))
  }

  /** The first poll, or edge of another chain, of a wait. */
  lemma {:induction false} FirstWait(p: Params, ticks: seq<Tick>) returns (a: seq<Tick>, b: seq<Tick>)
    requires WideTicks(p, ticks) && ticks != [] && Waits(p, Taps(ticks))
    ensures ticks == a + b && a != [] && WideTicks(p, a) && WideTicks(p, b) && Waits(p, Taps(b))
    ensures Taps(a) == CtlScan(Zeros(p.Cw())) || forall t :: t in a ==> IlaSystem.Idle(t.tap)
  {
    hide CtlScan;
    var taps := Taps(ticks);
    var n := if IlaSystem.Idle(taps[0]) && Waits(p, taps[1..]) then 1 else |CtlScan(Zeros(p.Cw()))|;
    a, b := ticks[..n], ticks[n..];
    assert Taps(a) == taps[..n] && Taps(b) == taps[n..];
    if IlaSystem.Idle(taps[0]) && Waits(p, taps[1..]) {
      assert ticks[0].tap == taps[0] && a == [ticks[0]];
    }
  }

  /** A status poll leaves the control register as it is. */
  lemma {:induction false} Poll(p: Params, s: Sys, ticks: seq<Tick>)
    requires Good(p, s) && WideTicks(p, ticks) && Taps(ticks) == CtlScan(Zeros(p.Cw()))
    ensures var s' := Run(p, s, ticks); s'.cfg == s.cfg && s'.cap == RunClk(s.cap, s.cfg, Probes(ticks))
  {
    hide RunClk, CtlScan, Run, Probes, Loaded, Received, Taps;
    ControlScan(p, s, ticks, Zeros(p.Cw()));
    ZerosLoadNothing(p, s.cfg);
  }

  /** Nor does a wait. */
  lemma {:induction false} Waiting(p: Params, s: Sys, ticks: seq<Tick>)
    requires Good(p, s) && WideTicks(p, ticks) && Waits(p, Taps(ticks))
    ensures var s' := Run(p, s, ticks); s'.cfg == s.cfg && s'.cap == RunClk(s.cap, s.cfg, Probes(ticks))
    decreases |ticks|
  {
    hide RunClk, CtlScan, Good, Run, Probes, Waits;
    if ticks == [] {
      NoTick(p, s);
    } else {
      var a, b := FirstWait(p, ticks);
      RunConcat(p, s, a, b);
      if Taps(a) == CtlScan(Zeros(p.Cw())) {
        Poll(p, s, a);
      } else {
        IdleRun(p, s, a);
      }
      Waiting(p, Run(p, s, a), b);
      GoodClocks(p, s, Probes(a), Probes(b));
    }
  }

  lemma {:induction false} GoodClocks(p: Params, s: Sys, a: seq<Word>, b: seq<Word>)
    requires Good(p, s)
    ensures RunClk(s.cap, s.cfg, a + b) == RunClk(RunClk(s.cap, s.cfg, a), s.cfg, b)
  {
    RunClkConcat(s.cap, s.cfg, a, b);
  }

  // ---- end to end ----

  /** A control scan by the driver: the device holds what was asked for. */
  lemma {:induction false} HostWrites(p: Params, s: Sys, ticks: seq<Tick>, mask: int, value: int, post: int, arm: bool)
    requires Good(p, s) && WideTicks(p, ticks)
    requires Taps(ticks) == CtlScan(ToBits(CtlWord(p, mask, value, post, arm), p.Cw()))
    ensures var s' := Run(p, s, ticks);
      s'.cfg == HostCfg(p, mask, value, post % p.depth, arm) && s'.cap == RunClk(s.cap, s.cfg, Probes(ticks))
  {
    hide RunClk, CtlScan, Run, Probes, Received, Taps, CtlWord, ToBits, Loaded, CtlBits, HostCfg, Pow2;
    ControlScan(p, s, ticks, ToBits(CtlWord(p, mask, value, post, arm), p.Cw()));
    LoadsHostCfg(p, mask, value, post, arm, s.cfg);
  }

  /** What the driver's word loads. */
  lemma {:induction false} LoadsHostCfg(p: Params, mask: int, value: int, post: int, arm: bool, k0: Cfg)
    requires p.Valid()
    ensures Loaded(p, ToBits(CtlWord(p, mask, value, post, arm), p.Cw()), k0)
        == HostCfg(p, mask, value, post % p.depth, arm)
  {
    hide Loaded, CtlBits, ToBits, CtlWord, Pow2;
    var n := post % p.depth;
    assert p.depth == Pow2(p.aw);
    CtlWordBits(p, mask, value, post, arm);
    LoadsCtlBits(p, HostCfg(p, mask, value, n, arm), k0);
    DivModSmall(n, p.depth);
  }

  /** A status poll by the driver: the flags as they were at its capture edge. */
  lemma {:induction false} HostPolls(p: Params, s: Sys, ticks: seq<Tick>)
    requires Good(p, s) && WideTicks(p, ticks) && Taps(ticks) == CtlScan(Zeros(p.Cw()))
    ensures |ticks| > 0 && ticks[0] in ticks
    ensures var c := RunClk(s.cap, s.cfg, ticks[0].probes);
      DecodeStatus(p, FromBits(Received(p, s, ticks))) == HostStatus(c.waddr, c.armed, c.trig, c.done, true)
  {
    hide CtlScan, Run, Probes, Received, Taps, Loaded, DecodeStatus, FromBits, Status, RunClk;
    ControlScan(p, s, ticks, Zeros(p.Cw()));
    RunGood(p, s, ticks[0].probes);
    StatusDecodes(p, RunClk(s.cap, s.cfg, ticks[0].probes), Zeros(p.Cw() - p.Sw()));
  }

  /** A read by the driver of a frozen buffer. */
  lemma {:induction false} HostReads(p: Params, s: Sys, ticks: seq<Tick>)
    requires Good(p, s) && Held(s) && WideTicks(p, ticks) && Taps(ticks) == DatScan(Zeros(Mul(p.width, p.depth + 1)))
    ensures HostRead(p, FromBits(Received(p, s, ticks)))
        == (HostStatus(s.cap.waddr, true, s.cap.trig, true, true), Samples(Ring(s.cap)))
  {
    hide DatScan, Run, Received, Taps, DecodeStatus, FromBits, Status, HostRead, WordsFrom, Ring, Mul;
    var tx := Zeros(Mul(p.width, p.depth + 1));
    Widths(p, s.cap.mem);
    WordsAt(s.cap.mem, Header(p, s.cap), p.width, 0, 0);
    DataScan(p, s, ticks, tx);
    HostReadIs(p, s.cap);
  }

  /** A disarming write by the driver, and the probed clock ticks four times: a poll
      shows a machine neither armed nor triggered nor done, and it has kept nothing
      since, nor will it until armed again. */
  lemma {:induction false} HostDisarms(p: Params, s: Sys, mask: int, value: int, post: int, disarm: seq<Tick>,
      wait: seq<Tick>, poll: seq<Tick>)
    requires Good(p, s) && WideTicks(p, disarm) && WideTicks(p, wait) && WideTicks(p, poll)
    requires Taps(disarm) == CtlScan(ToBits(CtlWord(p, mask, value, post, false), p.Cw()))
    requires Waits(p, Taps(wait)) && Taps(poll) == CtlScan(Zeros(p.Cw()))
    requires |poll| > 0 && |Probes(wait)| + |poll[0].probes| >= 4
    ensures var s1 := Run(p, s, disarm); var s2 := Run(p, s1, wait);
      var c := RunClk(s2.cap, s2.cfg, poll[0].probes);
      && DecodeStatus(p, FromBits(Received(p, s2, poll))) == HostStatus(c.waddr, false, false, false, true)
      && IlaCapture.Idle(c) && !s2.cfg.arm
  {
    hide CtlScan, Run, Received, Taps, DecodeStatus, FromBits, Waits, CtlWord, ToBits, Probes, RunClk, HostCfg;
    var s1 := Run(p, s, disarm);
    var s2 := Run(p, s1, wait);
    HostWrites(p, s, disarm, mask, value, post, false);
    Disarmed(p, mask, value, post % p.depth);
    Waiting(p, s1, wait);
    HostPolls(p, s2, poll);
    RunClkConcat(s1.cap, s1.cfg, Probes(wait), poll[0].probes);
    Disarms(s1.cap, s1.cfg, Probes(wait) + poll[0].probes);
  }

  lemma {:induction false} Disarmed(p: Params, mask: int, value: int, post: nat)
    ensures !HostCfg(p, mask, value, post, false).arm
  {
  }

  /** What the driver prints of a capture of the words w, over a ring that held h:
      with f the first word that hits, the words up to POST after it, shifted into h. */
  ghost predicate Prints(p: Params, k: Cfg, h: seq<Word>, w: seq<Word>, out: (HostStatus, seq<nat>)) {
    var f := FirstHit(k, w);
    && |h| == p.depth && k.post < p.depth && f + k.post + 1 < |w| && Hit(k, w[f])
    && out.0.done && out.0.keyOk
    && out.1 == Samples(Last(h + w[..f + k.post + 1], p.depth))
    && out.1[p.depth - 1 - k.post] == FromBits(w[f].bits)
  }

  lemma {:induction false} PrintsCaptured(p: Params, c: Cap, k: Cfg, h: seq<Word>, w: seq<Word>,
      out: (HostStatus, seq<nat>))
    requires |c.mem| == p.depth && Captured(c, k, h, w) && c.done
    requires out == (HostStatus(c.waddr, true, c.trig, true, true), Samples(Ring(c)))
    ensures Prints(p, k, h, w, out)
  {
  }

  /** The theorem.  From any state, the driver arms (two scans), polls until a poll
      shows DONE, other chains being scanned between, and reads, while the probed clock
      runs at any speed beside it.
      Provided the clock ticked at least once between the two scans' updates, and
      four times between the first of them and the poll that showed DONE, the
      driver prints the words the
      probes carried, in time order: the last is POST words after the first hit
      since arming, which is in row DEPTH-1-POST.  Rows older than the arming hold
      the words kept before it. */
  lemma {:induction false} EndToEnd(p: Params, s: Sys, mask: int, value: int, post: int,
      drop: seq<Tick>, arm: seq<Tick>, wait: seq<Tick>, poll: seq<Tick>, read: seq<Tick>)
    requires Good(p, s) && WideTicks(p, drop) && WideTicks(p, arm) && WideTicks(p, wait) && WideTicks(p, poll)
        && WideTicks(p, read)
    requires Taps(drop) == CtlScan(ToBits(CtlWord(p, mask, value, post, false), p.Cw()))
    requires Taps(arm) == CtlScan(ToBits(CtlWord(p, mask, value, post, true), p.Cw()))
    requires Waits(p, Taps(wait)) && Taps(poll) == CtlScan(Zeros(p.Cw()))
    requires Taps(read) == DatScan(Zeros(Mul(p.width, p.depth + 1)))
    requires Probes(arm) != [] && |poll| > 0 && |Probes(arm)| + |Probes(wait)| + |poll[0].probes| >= 4
    requires DecodeStatus(p, FromBits(Received(p, Run(p, Run(p, Run(p, s, drop), arm), wait), poll))).done
    ensures var s4 := Run(p, Run(p, Run(p, Run(p, s, drop), arm), wait), poll);
      var q := Probes(wait) + poll[0].probes;
      |q| >= 4 && exists h :: Prints(p, HostCfg(p, mask, value, post % p.depth, true), h, q[3..],
                                     HostRead(p, FromBits(Received(p, s4, read))))
    ensures var s1 := Run(p, s, drop); var s2 := Run(p, s1, arm); var s3 := Run(p, s2, wait);
      var s4 := Run(p, s3, poll);
      var q := Probes(wait) + poll[0].probes;
      HostRead(p, FromBits(Received(p, s4, read))).1
        == Samples(Last((Ring(s1.cap) + Kept(s1.cap, s1.cfg, Probes(arm))) + Kept(s2.cap, s2.cfg, q), p.depth))
  {
    hide DatScan, CtlScan, Run, Received, Taps, DecodeStatus, FromBits, Status, HostRead, Ring, Mul, Waits, CtlWord,
         ToBits, Probes, HostCfg, RunClk, Captured, Kept;
    var s1 := Run(p, s, drop);
    var s2 := Run(p, s1, arm);
    var s3 := Run(p, s2, wait);
    var k := HostCfg(p, mask, value, post % p.depth, true);
    HostWrites(p, s, drop, mask, value, post, false);
    HostWrites(p, s1, arm, mask, value, post, true);
    Waiting(p, s2, wait);
    HostPolls(p, s3, poll);
    Poll(p, s3, poll);
    var first := poll[0].probes;
    var rest := ProbesSplit(poll);
    ArmBit(p, mask, value, post % p.depth);
    var h := DoneSeen(s1.cap, k, Probes(arm), Probes(wait), first, rest);
    var s4 := Run(p, s3, poll);
    HostReads(p, s4, read);
    PrintsCaptured(p, RunClk(s3.cap, k, first), k, h, (Probes(wait) + first)[3..],
        HostRead(p, FromBits(Received(p, s4, read))));
  }

  lemma {:induction false} ArmBit(p: Params, mask: int, value: int, post: nat)
    ensures HostCfg(p, mask, value, post, false) == HostCfg(p, mask, value, post, true).(arm := false)
    ensures HostCfg(p, mask, value, post, true).arm && HostCfg(p, mask, value, post, true).post == post
  {
  }

  lemma {:induction false} ProbesSplit(ticks: seq<Tick>) returns (rest: seq<Word>)
    requires |ticks| > 0
    ensures Probes(ticks) == ticks[0].probes + rest
  {
    rest := Probes(ticks[1..]);
  }

  /** DONE, seen four edges or more after arm was lowered, is this capture's; and
      it holds, with the ring, while the poll goes on. */
  lemma {:induction false} DoneSeen(c: Cap, k: Cfg, quiet: seq<Word>, wait: seq<Word>, first: seq<Word>,
      rest: seq<Word>)
    returns (h: seq<Word>)
    requires c.Valid() && k.arm && k.post < |c.mem| && quiet != [] && |quiet| + |wait| + |first| >= 4
    requires RunClk(RunClk(RunClk(c, k.(arm := false), quiet), k, wait), k, first).done
    ensures var c3 := RunClk(RunClk(c, k.(arm := false), quiet), k, wait);
      var seen, end := RunClk(c3, k, first), RunClk(c3, k, first + rest);
      && |wait + first| >= 4 && Captured(seen, k, h, (wait + first)[3..])
      && Frozen(end) && end.waddr == seen.waddr && end.trig == seen.trig && Ring(end) == Ring(seen)
    ensures Ring(RunClk(RunClk(RunClk(c, k.(arm := false), quiet), k, wait), k, first))
         == Last((Ring(c) + Kept(c, k.(arm := false), quiet))
             + Kept(RunClk(c, k.(arm := false), quiet), k, wait + first), |c.mem|)
  {
    hide RunClk, Captured, Ring, Kept;
    CaptureHistory(c, k, quiet, wait + first);
    var q := wait + first;
    var c2 := RunClk(c, k.(arm := false), quiet);
    var c3 := RunClk(c2, k, wait);
    var seen := RunClk(c3, k, first);
    RunClkConcat(c2, k, wait, first);
    if |q| <= 3 {
      FreshAfterFour(c, k, quiet, q);
      assert false;
    }
    CaptureCorrect(c, k, quiet, q);
    h := Ring(RunClk(c2, k, q[..4]));
    DoneIsFrozen(seen, k, h, q[3..]);
    RunClkConcat(c3, k, first, rest);
    FrozenRun(seen, k, rest);
    SameRing(RunClk(seen, k, rest), seen);
  }

  lemma {:induction false} DoneIsFrozen(c: Cap, k: Cfg, h: seq<Word>, w: seq<Word>)
    requires Captured(c, k, h, w) && c.done
    ensures Frozen(c)
  {
  }

  lemma {:induction false} SameRing(a: Cap, b: Cap)
    requires b.Valid() && a == b.(sample := a.sample)
    ensures Ring(a) == Ring(b)
  {
  }

  // ---- it does end ----

  lemma {:induction false} ZeroMask(n: nat)
    ensures forall i :: 0 <= i < n ==> !ToBits(0, n)[i]
  {
    if n > 0 {
      ZeroMask(n - 1);
    }
  }

  lemma {:induction false} ProbesWide(p: Params, ticks: seq<Tick>)
    requires WideTicks(p, ticks)
    ensures AllWide(p, Probes(ticks))
  {
    if ticks != [] {
      assert ticks[0] in ticks;
      ProbesWide(p, ticks[1..]);
    }
  }

  /** With MASK = 0 the driver sees DONE on the first poll that is POST + 5 edges
      after arming, and on none sooner. */
  lemma {:induction false} SnapshotSeen(p: Params, s: Sys, value: int, post: int,
      drop: seq<Tick>, arm: seq<Tick>, wait: seq<Tick>, poll: seq<Tick>)
    requires Good(p, s) && WideTicks(p, drop) && WideTicks(p, arm) && WideTicks(p, wait) && WideTicks(p, poll)
    requires Taps(drop) == CtlScan(ToBits(CtlWord(p, 0, value, post, false), p.Cw()))
    requires Taps(arm) == CtlScan(ToBits(CtlWord(p, 0, value, post, true), p.Cw()))
    requires Waits(p, Taps(wait)) && Taps(poll) == CtlScan(Zeros(p.Cw()))
    requires Probes(arm) != [] && |poll| > 0 && |Probes(arm)| + |Probes(wait)| + |poll[0].probes| >= 4
    ensures DecodeStatus(p, FromBits(Received(p, Run(p, Run(p, Run(p, s, drop), arm), wait), poll))).done
       <==> |Probes(wait)| + |poll[0].probes| >= post % p.depth + 5
  {
    hide CtlScan, Run, Received, Taps, DecodeStatus, FromBits, Waits, CtlWord, Probes, RunClk;
    var s1 := Run(p, s, drop);
    var s2 := Run(p, s1, arm);
    var s3 := Run(p, s2, wait);
    HostWrites(p, s, drop, 0, value, post, false);
    HostWrites(p, s1, arm, 0, value, post, true);
    Waiting(p, s2, wait);
    HostPolls(p, s3, poll);
    var k := HostCfg(p, 0, value, post % p.depth, true);
    var first := poll[0].probes;
    RunClkConcat(s2.cap, k, Probes(wait), first);
    ZeroMask(p.width);
    ProbesWide(p, wait);
    assert poll[0] in poll;
    if |Probes(wait) + first| <= 3 {
      FreshAfterFour(s1.cap, k, Probes(arm), Probes(wait) + first);
    } else {
      SnapshotCompletes(s1.cap, k, Probes(arm), Probes(wait) + first);
    }
  }
}
