/** The instruction prefetch: a one-word cache of the selected program memory. */
module Prefetch {
  import opened BootSeq

  const PC_RANGE: nat := 0x100_0000
  const NO_CODE: nat := 0xDEADBEEF

  datatype Fetch = Fetch(romQ: nat, progQ: nat, qpc: nat, qvalid: bool, inRange: bool)

  predicate CodeValid(f: Fetch, pc: nat) {
    f.qvalid && f.qpc == pc
  }

  /** Past a hit, the next word; else the one wanted. */
  function FetchPc(f: Fetch, pc: nat): nat {
    if CodeValid(f, pc) then (pc + 1) % PC_RANGE else pc
  }

  function CodeRdata(s: Seq, f: Fetch): nat {
    if !f.inRange then NO_CODE else if s.codeBank then f.progQ else f.romQ
  }

  function FetchStep(rom: Rom, s: Seq, f: Fetch, resetn: bool, pc: nat): Fetch
    requires Sized(s)
  {
    var at := FetchPc(f, pc);
    Fetch(Rom16(rom.code, at % PROG_WORDS), s.prog[at % PROG_WORDS], at, resetn && !s.hold,
          if s.codeBank then at < s.progWords else at < |rom.code|)
  }

  // ---- what is fetched ----

  /** The word at pc of the program memory selected. */
  function WordAt(rom: Rom, s: Seq, pc: nat): nat
    requires Sized(s) && s.progWords <= PROG_WORDS
  {
    if s.codeBank then (if pc < s.progWords then s.prog[pc] else NO_CODE)
    else if pc < |rom.code| then rom.code[pc] else NO_CODE
  }

  /** The cache agrees with the memories, and the processor runs only under the sequencer's leave. */
  ghost predicate Coherent(rom: Rom, s: Seq, f: Fetch) {
    && Sized(s) && |rom.code| <= PROG_WORDS
    && (!s.hold ==> s.phase == Running)
    && (f.qvalid ==> f == Fetch(Rom16(rom.code, f.qpc % PROG_WORDS), s.prog[f.qpc % PROG_WORDS], f.qpc, true,
                                if s.codeBank then f.qpc < s.progWords else f.qpc < |rom.code|))
  }

  /** One edge of the sequencer and the prefetch together. */
  datatype Edge = Edge(x: In, pc: nat)

  ghost predicate Edges(run: seq<Edge>) {
    forall k :: 0 <= k < |run| ==> |run[k].x.stage| == STAGE_WORDS
  }

  lemma {:induction false} CoherentStep(rom: Rom, s: Seq, f: Fetch, e: Edge)
    requires Coherent(rom, s, f) && |e.x.stage| == STAGE_WORDS
    ensures Coherent(rom, SeqStep(rom, s, e.x), FetchStep(rom, s, f, e.x.resetn, e.pc))
  {
    SequencerKeeps(rom, s, e.x);
  }

  /** The program memory, its size and the bank change only while the processor is held. */
  lemma {:induction false} SequencerKeeps(rom: Rom, s: Seq, x: In)
    requires Sized(s) && |x.stage| == STAGE_WORDS && (!s.hold ==> s.phase == Running)
    ensures var s' := SeqStep(rom, s, x);
      && (!s'.hold ==> s'.phase == Running)
      && (x.resetn && !s.hold ==> s'.prog == s.prog && s'.codeBank == s.codeBank && s'.progWords == s.progWords)
  {
    hide Prepared, HeaderStep, Written, Moved;
    SectionsHold(rom, s, Prepared(rom, s, x));
  }

  /** No section of a load lets the processor go. */
  lemma {:induction false} SectionsHold(rom: Rom, s: Seq, r: Seq)
    requires Sized(r)
    ensures HeaderStep(s, r).hold == r.hold && Moved(rom, s, Written(s, r)).hold == r.hold
  {
    hide Moved, Written;
    WrittenHolds(s, r);
    MovedHolds(rom, s, Written(s, r));
  }

  lemma {:induction false} WrittenHolds(s: Seq, r: Seq)
    requires Sized(r)
    ensures Written(s, r).hold == r.hold
  {
  }

  lemma {:induction false} MovedHolds(rom: Rom, s: Seq, r: Seq)
    requires Sized(r)
    ensures Moved(rom, s, r).hold == r.hold
  {
  }

  /** An edge with reset low makes any state coherent. */
  lemma {:induction false} ResetCoherent(rom: Rom, s: Seq, f: Fetch, e: Edge)
    requires Sized(s) && |rom.code| <= PROG_WORDS && |e.x.stage| == STAGE_WORDS && !e.x.resetn
    ensures Coherent(rom, SeqStep(rom, s, e.x), FetchStep(rom, s, f, false, e.pc))
  {
  }

  function Run(rom: Rom, s: Seq, f: Fetch, run: seq<Edge>): (Seq, Fetch)
    requires Sized(s) && Edges(run)
    decreases |run|
  {
    if run == [] then (s, f)
    else Run(rom, SeqStep(rom, s, run[0].x), FetchStep(rom, s, f, run[0].x.resetn, run[0].pc), run[1..])
  }

  lemma {:induction false} CoherentRun(rom: Rom, s: Seq, f: Fetch, run: seq<Edge>)
    requires Coherent(rom, s, f) && Edges(run)
    ensures var (s', f') := Run(rom, s, f, run); Coherent(rom, s', f')
    decreases |run|
  {
    hide SeqStep, FetchStep, Coherent;
    assert Sized(s) by { CoherentSized(rom, s, f); }
    if run != [] {
      CoherentStep(rom, s, f, run[0]);
      CoherentRun(rom, SeqStep(rom, s, run[0].x), FetchStep(rom, s, f, run[0].x.resetn, run[0].pc), run[1..]);
    }
  }

  lemma {:induction false} CoherentSized(rom: Rom, s: Seq, f: Fetch)
    requires Coherent(rom, s, f)
    ensures Sized(s)
  {
  }

  /** The theorem: after a reset, over every sequence of jumps, boots and further
      resets, whenever code_valid is high the word offered is the one at pc of the
      bank selected now, and 0xDEADBEEF outside it. */
  lemma {:induction false} FetchCorrect(rom: Rom, s: Seq, f: Fetch, run: seq<Edge>, pc: nat)
    requires Sized(s) && |rom.code| <= PROG_WORDS && Edges(run) && |run| > 0 && !run[0].x.resetn
    ensures var (s', f') := Run(rom, s, f, run);
      Sized(s') && (s'.progWords <= PROG_WORDS && CodeValid(f', pc) ==> CodeRdata(s', f') == WordAt(rom, s', pc))
  {
    hide SeqStep, FetchStep;
    ResetCoherent(rom, s, f, run[0]);
    CoherentRun(rom, SeqStep(rom, s, run[0].x), FetchStep(rom, s, f, run[0].x.resetn, run[0].pc), run[1..]);
    var (s', f') := Run(rom, s, f, run);
    CoherentOffers(rom, s', f', pc);
  }

  /** What a coherent cache offers. */
  lemma {:induction false} CoherentOffers(rom: Rom, s: Seq, f: Fetch, pc: nat)
    requires Coherent(rom, s, f)
    ensures s.progWords <= PROG_WORDS && CodeValid(f, pc) ==> CodeRdata(s, f) == WordAt(rom, s, pc)
  {
  }

  /** Running straight through costs no extra edge, and a jump one. */
  lemma {:induction false} FetchTiming(rom: Rom, s: Seq, f: Fetch, pc: nat, pc': nat)
    requires Sized(s) && !s.hold && pc < PC_RANGE && pc' < PC_RANGE
    ensures var f1 := FetchStep(rom, s, f, true, pc);
      && (CodeValid(f, pc) ==> (CodeValid(f1, pc') <==> pc' == (pc + 1) % PC_RANGE))
      && (!CodeValid(f, pc) ==> CodeValid(f1, pc))
  {
  }

  /** The registers, clocked as the module clocks them. */
  class Fetcher {
    var code_rom_q: nat
    var code_prog_q: nat
    var code_q_pc: nat
    var code_q_valid: bool
    var fetch_in_range: bool

    function St(): Fetch
      reads this
    {
      Fetch(code_rom_q, code_prog_q, code_q_pc, code_q_valid, fetch_in_range)
    }

    constructor (f: Fetch)
      ensures St() == f
    {
      code_rom_q, code_prog_q, code_q_pc, code_q_valid, fetch_in_range := f.romQ, f.progQ, f.qpc, f.qvalid, f.inRange;
    }

    method Clock(rom: Rom, s: Seq, resetn: bool, pc: nat)
      requires Sized(s)
      modifies this
      ensures St() == FetchStep(rom, s, old(St()), resetn, pc)
    {
      var at := FetchPc(St(), pc);
      code_rom_q, code_prog_q := Rom16(rom.code, at % PROG_WORDS), s.prog[at % PROG_WORDS];
      fetch_in_range := if s.codeBank then at < s.progWords else at < |rom.code|;
      code_q_pc, code_q_valid := at, resetn && !s.hold;
    }
  }
}
