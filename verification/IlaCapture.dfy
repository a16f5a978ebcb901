/** The logic analyser's capture machine: probe words into a ring until POST words
    after the trigger, in the probed clock domain. */
module IlaCapture {

  /** A word of WIDTH bits, bit 0 first. */
  datatype Word = Word(bits: seq<bool>)

  /** The control registers, as the TAP domain last wrote them. */
  datatype Cfg = Cfg(mask: Word, value: Word, post: nat, arm: bool)

  /** The registers of the probed clock domain; s0, s1, s2 synchronise arm. */
  datatype Cap = Cap(sample: Word, s0: bool, s1: bool, s2: bool, armed: bool, trig: bool, done: bool,
                     waddr: nat, left: nat, mem: seq<Word>)
  {
    ghost predicate Valid() { waddr < |mem| && left < |mem| }
  }

  function Masked(w: Word, mask: Word): seq<bool> {
    seq(|w.bits|, i requires 0 <= i < |w.bits| => w.bits[i] && i < |mask.bits| && mask.bits[i])
  }

  /** The masked word equals the masked value. */
  predicate Hit(k: Cfg, w: Word) {
    Masked(w, k.mask) == Masked(k.value, k.mask)
  }

  /** The trigger's test: every bit of the mask asks for the value's bit there. */
  lemma {:induction false} HitIs(k: Cfg, w: Word)
    requires |w.bits| == |k.mask.bits| == |k.value.bits|
    ensures Hit(k, w) <==> forall i :: 0 <= i < |w.bits| && k.mask.bits[i] ==> w.bits[i] == k.value.bits[i]
  {
    var a, b := Masked(w, k.mask), Masked(k.value, k.mask);
    if Hit(k, w) {
      forall i | 0 <= i < |w.bits| && k.mask.bits[i]
        ensures w.bits[i] == k.value.bits[i]
      {
        assert a[i] == b[i];
      }
    }
  }

  /** Addresses and counts have AW bits: they wrap at DEPTH. */
  function Inc(a: nat, depth: nat): nat { if a + 1 == depth then 0 else a + 1 }
  function Dec(a: nat, depth: nat): int { if a == 0 then depth - 1 else a - 1 }

  /** One edge of the probed clock. */
  function ClkStep(c: Cap, k: Cfg, probe: Word): (c': Cap)
    requires c.Valid() && k.post < |c.mem|
    ensures c'.Valid() && |c'.mem| == |c.mem|
  {
    var depth := |c.mem|;
    var n := c.(sample := probe, s0 := k.arm, s1 := c.s0, s2 := c.s1,
                mem := if c.armed && !c.done then c.mem[c.waddr := c.sample] else c.mem);
    if !c.s2 then n.(armed := false, trig := false, done := false)
    else if !c.armed then n.(armed := true, trig := false, done := false, left := k.post)
    else if !c.done then
      var n := n.(waddr := Inc(c.waddr, depth));
      if !c.trig then
        if Hit(k, c.sample) then n.(trig := true, done := k.post == 0) else n
      else if c.left == 1 then n.(done := true)
      else n.(left := Dec(c.left, depth))
    else n
  }

  /** The edges of a run, with the control registers still. */
  function RunClk(c: Cap, k: Cfg, probes: seq<Word>): (c': Cap)
    requires c.Valid() && k.post < |c.mem|
    ensures c'.Valid() && |c'.mem| == |c.mem|
  {
    if probes == [] then c else ClkStep(RunClk(c, k, probes[..|probes| - 1]), k, probes[|probes| - 1])
  }

  /** The edge keeps a word: the write address moves past it. */
  predicate Advances(c: Cap) { c.s2 && c.armed && !c.done }

  /** The words a run keeps, in order. */
  function Kept(c: Cap, k: Cfg, probes: seq<Word>): seq<Word>
    requires c.Valid() && k.post < |c.mem|
  {
    if probes == [] then [] else
      var before := probes[..|probes| - 1];
      var b := RunClk(c, k, before);
      Kept(c, k, before) + if Advances(b) then [b.sample] else []
  }

  /** The memory from the write address round: what the host prints. */
  function Ring(c: Cap): (r: seq<Word>)
    requires c.Valid()
    ensures |r| == |c.mem|
  {
    c.mem[c.waddr..] + c.mem[..c.waddr]
  }

  function Last<T>(h: seq<T>, n: nat): seq<T>
    requires n <= |h|
  {
    h[|h| - n..]
  }

  // ---- the ring over any run ----

  /** Memory m read from address a round. */
  function Rotated<T>(m: seq<T>, a: nat): seq<T>
    requires a < |m|
  {
    m[a..] + m[..a]
  }

  lemma {:induction false} RotatedWrite<T>(m: seq<T>, a: nat, x: T)
    requires a < |m|
    ensures Rotated(m[a := x], a)[1..] == Rotated(m, a)[1..]
    ensures Rotated(m[a := x], Inc(a, |m|)) == Rotated(m, a)[1..] + [x]
  {
  }

  /** Keeping a word shifts it into the ring.  An edge that writes without moving,
      as disarming does, touches only the oldest slot. */
  lemma {:induction false} RingStep(c: Cap, k: Cfg, probe: Word)
    requires c.Valid() && k.post < |c.mem|
    ensures var c' := ClkStep(c, k, probe);
      && (Advances(c) ==> Ring(c') == Ring(c)[1..] + [c.sample])
      && (!Advances(c) ==> Ring(c')[1..] == Ring(c)[1..])
      && (!Advances(c) && c.armed && !c.done ==> Ring(c')[0] == c.sample)
      && (c.done || !c.armed ==> Ring(c') == Ring(c))
  {
    var c' := ClkStep(c, k, probe);
    RotatedWrite(c.mem, c.waddr, c.sample);
    assert Ring(c) == Rotated(c.mem, c.waddr) && Ring(c') == Rotated(c'.mem, c'.waddr);
    hide Rotated;
    if Advances(c) {
      assert c'.waddr == Inc(c.waddr, |c.mem|) && c'.mem == c.mem[c.waddr := c.sample];
    }
  }

  /** The ring is the last DEPTH words of h; its oldest slot may have been spoiled,
      but not once the capture is done. */
  ghost predicate History(c: Cap, h: seq<Word>) {
    && c.Valid() && |h| >= |c.mem|
    && Ring(c)[1..] == Last(h, |c.mem|)[1..]
    && (c.done ==> Ring(c) == Last(h, |c.mem|))
  }

  lemma {:induction false} HistoryStep(c: Cap, k: Cfg, probe: Word, h: seq<Word>)
    requires History(c, h) && k.post < |c.mem|
    ensures History(ClkStep(c, k, probe), if Advances(c) then h + [c.sample] else h)
  {
    RingStep(c, k, probe);
    if Advances(c) {
      assert Last(h + [c.sample], |c.mem|) == Last(h, |c.mem|)[1..] + [c.sample];
    }
  }

  lemma {:induction false} HistoryRun(c: Cap, k: Cfg, probes: seq<Word>, h: seq<Word>)
    requires History(c, h) && k.post < |c.mem|
    ensures History(RunClk(c, k, probes), h + Kept(c, k, probes))
  {
    if probes == [] {
      assert h + [] == h;
    } else {
      var before := probes[..|probes| - 1];
      var b := RunClk(c, k, before);
      HistoryRun(c, k, before, h);
      HistoryStep(b, k, probes[|probes| - 1], h + Kept(c, k, before));
      assert h + (Kept(c, k, before) + [b.sample]) == (h + Kept(c, k, before)) + [b.sample];
      assert h + (Kept(c, k, before) + []) == h + Kept(c, k, before);
    }
  }

  // ---- one capture, from arming ----

  /** The position of the first word that hits, the length if none does. */
  function FirstHit(k: Cfg, w: seq<Word>): (f: nat)
    ensures f <= |w| && (forall j :: 0 <= j < f ==> !Hit(k, w[j])) && (f < |w| ==> Hit(k, w[f]))
  {
    if w == [] || Hit(k, w[0]) then 0 else 1 + FirstHit(k, w[1..])
  }

  lemma {:induction false} FirstHitIs(k: Cfg, w: seq<Word>, f: nat)
    requires f <= |w| && (forall j :: 0 <= j < f ==> !Hit(k, w[j])) && (f < |w| ==> Hit(k, w[f]))
    ensures FirstHit(k, w) == f
  {
  }

  function Min(a: int, b: int): int {
    if a < b then a else b
  }

  /** How many words have been kept of the w available since arming, the newest
      of which is still in the sample register. */
  function KeptOf(k: Cfg, w: seq<Word>): nat
    requires w != []
  {
    Min(|w| - 1, FirstHit(k, w) + k.post + 1)
  }

  /** The state of a capture that has seen the words w, over a ring that held h. */
  ghost predicate Capturing(c: Cap, k: Cfg, h: seq<Word>, w: seq<Word>) {
    && c.Valid() && c.s0 && c.s1 && c.s2 && c.armed && k.arm && k.post < |c.mem| == |h|
    && w != [] && c.sample == w[|w| - 1]
    && Counting(c, k, FirstHit(k, w), |w| - 1)
    && Ring(c) == Last(h + w[..KeptOf(k, w)], |h|)
  }

  /** The flags and the counter, n words after arming, the first hit being word f. */
  ghost predicate Counting(c: Cap, k: Cfg, f: nat, n: nat) {
    && c.trig == (f < n)
    && c.done == (f + k.post + 1 <= n)
    && (!c.done ==> c.left == if c.trig then k.post - (n - 1 - f) else k.post)
  }

  lemma {:induction false} CountingStep(c: Cap, k: Cfg, f: nat, f': nat, n: nat, probe: Word)
    requires c.Valid() && c.s2 && c.armed && k.post < |c.mem| && Counting(c, k, f, n) && f <= n + 1
    requires f <= n ==> f' == f
    requires f == n ==> Hit(k, c.sample)
    requires f == n + 1 ==> f' > n && !Hit(k, c.sample)
    ensures Counting(ClkStep(c, k, probe), k, f', n + 1)
  {
  }

  lemma {:induction false} CapturingStep(c: Cap, k: Cfg, h: seq<Word>, w: seq<Word>, probe: Word)
    requires Capturing(c, k, h, w)
    ensures Capturing(ClkStep(c, k, probe), k, h, w + [probe])
  {
    hide Ring, Hit, Masked;
    var n, w' := KeptOf(k, w), w + [probe];
    FirstHitGrows(k, w, probe);
    CountingStep(c, k, FirstHit(k, w), FirstHit(k, w'), |w| - 1, probe);
    RingGrows(c, k, probe, h, w, n);
    assert KeptOf(k, w') == if c.done then n else n + 1;
  }

  lemma {:induction false} RingGrows(c: Cap, k: Cfg, probe: Word, h: seq<Word>, w: seq<Word>, n: nat)
    requires c.Valid() && c.s2 && c.armed && k.post < |c.mem| == |h| && n <= |w|
    requires !c.done ==> n < |w| && c.sample == w[n]
    requires Ring(c) == Last(h + w[..n], |h|)
    ensures var n' := if c.done then n else n + 1;
      n' <= |w| && Ring(ClkStep(c, k, probe)) == Last(h + (w + [probe])[..n'], |h|)
  {
    hide Ring, Hit, ClkStep;
    RingStep(c, k, probe);
    if c.done {
      assert (w + [probe])[..n] == w[..n];
    } else {
      assert (w + [probe])[..n + 1] == w[..n] + [c.sample];
      LastGrows(h, w[..n], c.sample);
    }
  }

  lemma {:induction false} FirstHitGrows(k: Cfg, w: seq<Word>, x: Word)
    ensures var f, f' := FirstHit(k, w), FirstHit(k, w + [x]);
      if f < |w| then f' == f else f' == if Hit(k, x) then |w| else |w| + 1
  {
    var f := FirstHit(k, w);
    FirstHitIs(k, w + [x], if f < |w| then f else if Hit(k, x) then |w| else |w| + 1);
  }

  lemma {:induction false} LastGrows<T>(h: seq<T>, w: seq<T>, x: T)
    requires h != []
    ensures Last(h + w, |h|)[1..] + [x] == Last(h + (w + [x]), |h|)
  {
  }

  /** The synchroniser and the flags over three edges after arm goes high. */
  lemma {:induction false} Settles(c: Cap, k: Cfg, a: Word, b: Word, d: Word)
    requires c.Valid() && !c.s0 && k.arm && k.post < |c.mem|
    ensures var c3 := ClkStep(ClkStep(ClkStep(c, k, a), k, b), k, d);
      c3.s0 && c3.s1 && c3.s2 && !c3.armed && !c3.trig && !c3.done
  {
    hide Hit;
  }

  /** Four edges after arm goes high, the machine is armed, with the ring it had. */
  lemma {:induction false} Arms(c: Cap, k: Cfg, a: Word, b: Word, d: Word, e: Word)
    requires c.Valid() && !c.s0 && k.arm && k.post < |c.mem|
    ensures var c3 := ClkStep(ClkStep(ClkStep(c, k, a), k, b), k, d); var c4 := ClkStep(c3, k, e);
      && !c3.done && Capturing(c4, k, Ring(c4), [e])
  {
    var c3 := ClkStep(ClkStep(ClkStep(c, k, a), k, b), k, d);
    Settles(c, k, a, b, d);
    ArmEdge(c3, k, e);
  }

  lemma {:induction false} ArmEdge(c: Cap, k: Cfg, e: Word)
    requires c.Valid() && c.s0 && c.s1 && c.s2 && !c.armed && k.arm && k.post < |c.mem|
    ensures Capturing(ClkStep(c, k, e), k, Ring(ClkStep(c, k, e)), [e])
  {
  }

  lemma {:induction false} RunFour(c: Cap, k: Cfg, p: seq<Word>)
    requires c.Valid() && k.post < |c.mem| && |p| == 4
    ensures RunClk(c, k, p[..3]) == ClkStep(ClkStep(ClkStep(c, k, p[0]), k, p[1]), k, p[2])
    ensures RunClk(c, k, p) == ClkStep(RunClk(c, k, p[..3]), k, p[3])
  {
    var p3, p2, p1 := p[..3], p[..3][..2], p[..3][..2][..1];
    assert p1[..0] == [];
    assert RunClk(c, k, p1) == ClkStep(c, k, p[0]);
    assert RunClk(c, k, p2) == ClkStep(RunClk(c, k, p1), k, p[1]);
    assert RunClk(c, k, p3) == ClkStep(RunClk(c, k, p2), k, p[2]);
  }

  /** The capture after any number of edges from arming. */
  lemma {:induction false} CaptureRun(c: Cap, k: Cfg, probes: seq<Word>)
    requires c.Valid() && !c.s0 && k.arm && k.post < |c.mem| && |probes| >= 4
    ensures Capturing(RunClk(c, k, probes), k, Ring(RunClk(c, k, probes[..4])), probes[3..])
  {
    if |probes| == 4 {
      assert probes[..4] == probes && probes[3..] == [probes[3]];
      RunFour(c, k, probes);
      Arms(c, k, probes[0], probes[1], probes[2], probes[3]);
    } else {
      var before := probes[..|probes| - 1];
      CaptureRun(c, k, before);
      assert before[..4] == probes[..4];
      CapturingStep(RunClk(c, k, before), k, Ring(RunClk(c, k, before[..4])), before[3..], probes[|probes| - 1]);
      assert before[3..] + [probes[|probes| - 1]] == probes[3..];
    }
  }

  lemma {:induction false} LowSampled(c: Cap, k: Cfg, quiet: seq<Word>)
    requires c.Valid() && k.post < |c.mem| && !k.arm && quiet != []
    ensures !RunClk(c, k, quiet).s0
  {
  }

  /** What a capture of the words w leaves, over a ring that held h.  DONE is up
      exactly when POST words have followed the first hit; then the ring is h with
      the words shifted in, up to and including the last of the POST, and the
      first hit is in row DEPTH-1-POST. */
  ghost predicate Captured(c: Cap, k: Cfg, h: seq<Word>, w: seq<Word>) {
    var f := FirstHit(k, w);
    && c.Valid() && k.post < |c.mem| == |h|
    && (c.done <==> f + k.post + 1 < |w|)
    && (c.done ==> Frozen(c) && c.trig
                   && Ring(c) == Last(h + w[..f + k.post + 1], |h|)
                   && Ring(c)[|h| - 1 - k.post] == w[f] && Hit(k, w[f]))
  }

  lemma {:induction false} CapturingMeans(c: Cap, k: Cfg, h: seq<Word>, w: seq<Word>)
    requires Capturing(c, k, h, w)
    ensures Captured(c, k, h, w)
  {
  }

  /** Arm is written low, then high, with at least one edge between; from any
      state whatever, four edges or more later the machine has captured the words
      from the fourth on. */
  lemma {:induction false} CaptureCorrect(c: Cap, k: Cfg, quiet: seq<Word>, probes: seq<Word>)
    requires c.Valid() && k.arm && k.post < |c.mem| && quiet != [] && |probes| >= 4
    ensures var c1 := RunClk(c, k.(arm := false), quiet);
      Captured(RunClk(c1, k, probes), k, Ring(RunClk(c1, k, probes[..4])), probes[3..])
  {
    var c1 := RunClk(c, k.(arm := false), quiet);
    LowSampled(c, k.(arm := false), quiet);
    hide ClkStep, RunClk, Ring;
    CaptureRun(c1, k, probes);
    CapturingMeans(RunClk(c1, k, probes), k, Ring(RunClk(c1, k, probes[..4])), probes[3..]);
  }

  /** What the quiet edges leave in the synchroniser, and behind it. */
  lemma {:induction false} QuietEdges(c: Cap, k: Cfg, quiet: seq<Word>)
    requires c.Valid() && k.post < |c.mem| && !k.arm
    ensures var q := RunClk(c, k, quiet);
      && (|quiet| >= 1 ==> !q.s0) && (|quiet| >= 2 ==> !q.s1) && (|quiet| >= 3 ==> !q.s2)
      && (|quiet| >= 4 ==> !q.armed && !q.trig && !q.done)
  {
    hide Hit;
    if quiet != [] {
      QuietEdges(c, k, quiet[..|quiet| - 1]);
    }
  }

  /** Disarmed, with arm low: nothing moves. */
  ghost predicate Idle(c: Cap) {
    c.Valid() && !c.s0 && !c.s1 && !c.s2 && !c.armed && !c.trig && !c.done
  }

  /** From any state, four edges after arm is written low the machine is idle: neither
      armed nor triggered nor done. */
  lemma {:induction false} Disarms(c: Cap, k: Cfg, quiet: seq<Word>)
    requires c.Valid() && k.post < |c.mem| && !k.arm && |quiet| >= 4
    ensures Idle(RunClk(c, k, quiet))
  {
    QuietEdges(c, k, quiet);
  }

  /** And from then on, as long as arm stays low, it keeps nothing: memory and address
      never change. */
  lemma {:induction false} IdleStays(c: Cap, k: Cfg, probes: seq<Word>)
    requires Idle(c) && k.post < |c.mem| && !k.arm
    ensures var c' := RunClk(c, k, probes);
      Idle(c') && c' == c.(sample := c'.sample) && Ring(c') == Ring(c) && Kept(c, k, probes) == []
  {
    hide Hit;
    if probes != [] {
      IdleStays(c, k, probes[..|probes| - 1]);
    }
  }

  /** The synchroniser delays: what its stages hold after an edge or two was in the ones before. */
  lemma {:induction false} Delays(c: Cap, k: Cfg, probes: seq<Word>)
    requires c.Valid() && k.post < |c.mem| && |probes| <= 2
    ensures var e := RunClk(c, k, probes);
      && e.s2 == (if |probes| == 0 then c.s2 else if |probes| == 1 then c.s1 else c.s0)
      && (|probes| <= 1 ==> e.s1 == if |probes| == 0 then c.s1 else c.s0)
      && (|probes| == 0 ==> e.s0 == c.s0)
  {
    hide Hit;
    if probes != [] {
      Delays(c, k, probes[..|probes| - 1]);
    }
  }

  /** Whether the last stage is high on the last of up to three edges. */
  predicate HighAt(c: Cap, n: nat) {
    if n == 1 then c.s2 else if n == 2 then c.s1 else c.s0
  }

  /** Up to three edges on, a low stage clears the flags. */
  lemma {:induction false} FewEdges(c: Cap, k: Cfg, probes: seq<Word>)
    requires c.Valid() && k.post < |c.mem| && |probes| <= 3
    requires if probes == [] then !c.done else !HighAt(c, |probes|)
    ensures !RunClk(c, k, probes).done
  {
    hide Hit;
    if probes != [] {
      Delays(c, k, probes[..|probes| - 1]);
    }
  }

  /** Four edges after arm is written low, with one of them before it is written
      high, DONE is fresh: up to the third edge after the second write it is down. */
  lemma {:induction false} FreshAfterFour(c: Cap, k: Cfg, quiet: seq<Word>, probes: seq<Word>)
    requires c.Valid() && k.arm && k.post < |c.mem| && quiet != [] && |probes| <= 3 && |quiet| + |probes| >= 4
    ensures !RunClk(RunClk(c, k.(arm := false), quiet), k, probes).done
  {
    QuietEdges(c, k.(arm := false), quiet);
    FewEdges(RunClk(c, k.(arm := false), quiet), k, probes);
  }

  /** MASK = 0 triggers at once: a snapshot, done as soon as POST words have followed. */
  lemma {:induction false} SnapshotCompletes(c: Cap, k: Cfg, quiet: seq<Word>, probes: seq<Word>)
    requires c.Valid() && k.arm && k.post < |c.mem| && quiet != []
    requires (forall i :: 0 <= i < |k.mask.bits| ==> !k.mask.bits[i])
    requires forall p :: p in probes ==> |p.bits| == |k.value.bits|
    requires |probes| >= 4
    ensures RunClk(RunClk(c, k.(arm := false), quiet), k, probes).done <==> |probes| >= k.post + 5
  {
    var w := probes[3..];
    assert w[0] in probes;
    assert Masked(w[0], k.mask) == Masked(k.value, k.mask);
    FirstHitIs(k, w, 0);
    CaptureCorrect(c, k, quiet, probes);
  }

  /** The same ring, as the last DEPTH words kept since any earlier moment: the
      older rows are what previous captures kept. */
  lemma {:induction false} CaptureHistory(c: Cap, k: Cfg, quiet: seq<Word>, probes: seq<Word>)
    requires c.Valid() && k.post < |c.mem|
    ensures var k0 := k.(arm := false);
      var c1 := RunClk(c, k0, quiet); var c2 := RunClk(c1, k, probes);
      c2.done ==> Ring(c2) == Last((Ring(c) + Kept(c, k0, quiet)) + Kept(c1, k, probes), |c.mem|)
  {
    var k0 := k.(arm := false);
    assert Last(Ring(c), |c.mem|) == Ring(c);
    HistoryRun(c, k0, quiet, Ring(c));
    HistoryRun(RunClk(c, k0, quiet), k, probes, Ring(c) + Kept(c, k0, quiet));
  }

  // ---- once done ----

  /** Done, with arm held high: nothing moves until arm is seen low. */
  ghost predicate Frozen(c: Cap) {
    c.Valid() && c.s0 && c.s1 && c.s2 && c.armed && c.done
  }

  lemma {:induction false} FrozenStays(c: Cap, k: Cfg, probe: Word)
    requires Frozen(c) && k.arm && k.post < |c.mem|
    ensures ClkStep(c, k, probe) == c.(sample := probe)
  {
  }

  /** Without an edge between the two writes a re-arm is missed, and the host
      would read the previous capture: forever. */
  lemma {:induction false} RearmMissed(c: Cap, k: Cfg, probes: seq<Word>)
    requires Frozen(c) && k.arm && k.post < |c.mem|
    ensures var c' := RunClk(c, k, probes); Frozen(c') && Ring(c') == Ring(c) && Kept(c, k, probes) == []
  {
    if probes != [] {
      var before := probes[..|probes| - 1];
      RearmMissed(c, k, before);
      FrozenStays(RunClk(c, k, before), k, probes[|probes| - 1]);
      RingStep(RunClk(c, k, before), k, probes[|probes| - 1]);
    }
  }

  /** High stages leave a finished capture as it is. */
  lemma {:induction false} StaleEdges(c: Cap, k: Cfg, probes: seq<Word>)
    requires c.Valid() && k.post < |c.mem| && |probes| <= 3 && c.armed && c.done
    requires forall n :: 1 <= n <= |probes| ==> HighAt(c, n)
    ensures RunClk(c, k, probes).armed && RunClk(c, k, probes).done
  {
    hide Hit;
    if probes != [] {
      StaleEdges(c, k, probes[..|probes| - 1]);
      Delays(c, k, probes[..|probes| - 1]);
      assert HighAt(c, |probes|);
    }
  }

  /** The theorem on stale flags.  From a finished capture, DONE read up to three
      edges after the second write is the previous capture's exactly when no more
      than three edges have come since the first. */
  lemma {:induction false} StaleIff(c: Cap, k: Cfg, quiet: seq<Word>, probes: seq<Word>)
    requires Frozen(c) && k.arm && k.post < |c.mem| && quiet != [] && |probes| <= 3
    ensures RunClk(RunClk(c, k.(arm := false), quiet), k, probes).done <==> |quiet| + |probes| <= 3
  {
    if |quiet| + |probes| >= 4 {
      FreshAfterFour(c, k, quiet, probes);
    } else {
      StaleEdges(c, k.(arm := false), quiet);
      if probes != [] {
        Delays(c, k.(arm := false), quiet);
      }
      StaleEdges(RunClk(c, k.(arm := false), quiet), k, probes);
    }
  }

  /** So DONE can be seen of a capture whose trigger never comes. */
  lemma {:induction false} StaleDone()
    ensures exists c: Cap, k: Cfg, quiet: seq<Word>, probes: seq<Word> ::
      c.Valid() && k.arm && k.post < |c.mem| && |quiet| == 1 && |probes| == 2
      && (forall p :: p in probes + quiet ==> !Hit(k, p))
      && RunClk(RunClk(c, k.(arm := false), quiet), k, probes).done
  {
    var x, one := Word([false]), Word([true]);
    var k := Cfg(one, one, 0, true);
    var c := Cap(x, true, true, true, true, true, true, 0, 0, [x, x]);
    assert !Masked(x, one)[0] && Masked(one, one)[0];
    StaleIff(c, k, [x], [x, x]);
    assert forall p :: p in [x, x] + [x] ==> p == x;
  }

  /** The registers, clocked as the module clocks them, with the memory in place. */
  class Capture {
    var sample: Word
    var arm_s: (bool, bool, bool)
    var armed: bool
    var trig: bool
    var done: bool
    var waddr: nat
    var left: nat
    const mem: array<Word>

    function St(): Cap
      reads this, mem
    {
      Cap(sample, arm_s.0, arm_s.1, arm_s.2, armed, trig, done, waddr, left, mem[..])
    }

    /** Power-up: everything zero but the memory. */
    constructor (mem: array<Word>, zero: Word)
      requires mem.Length > 0
      ensures St() == Cap(zero, false, false, false, false, false, false, 0, 0, mem[..]) && this.mem == mem
    {
      this.mem := mem;
      sample, arm_s, armed, trig, done, waddr, left := zero, (false, false, false), false, false, false, 0, 0;
    }

    method ClkEdge(k: Cfg, probe: Word)
      requires St().Valid() && k.post < mem.Length
      modifies this, mem
      ensures St() == ClkStep(old(St()), k, probe)
    {
      var arm, hit := arm_s.2, Hit(k, sample);
      if armed && !done {
        mem[waddr] := sample;
      }
      sample := probe;
      arm_s := (k.arm, arm_s.0, arm_s.1);
      if !arm {
        armed, trig, done := false, false, false;
      } else if !armed {
        armed, trig, done, left := true, false, false, k.post;
      } else if !done {
        waddr := Inc(waddr, mem.Length);
        if !trig {
          if hit {
            trig := true;
            if k.post == 0 {
              done := true;
            }
          }
        } else if left == 1 {
          done := true;
        } else {
          left := Dec(left, mem.Length);
        }
      }
    }
  }
}
