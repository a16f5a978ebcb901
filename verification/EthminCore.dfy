/** The bytecode machine's core put together: sequencer, prefetch and trap port on
    one clock, sharing the staging RAM and the processor's reset. */
module EthminCore {
  import opened BootSeq
  import opened Prefetch
  import TrapPort

  datatype Core = Core(seqr: Seq, fetch: Fetch, board: TrapPort.Board)

  /** An edge: the reset, the processor's pc and next request, and the rest of the
      chip; the hold line comes from the sequencer. */
  datatype Clk = Clk(pc: nat, e: TrapPort.Env, raised: TrapPort.Option<TrapPort.Trap>)

  predicate Sized(c: Core) {
    && |c.seqr.prog| == PROG_WORDS && |c.seqr.heap| == HEAP_SLOTS && |c.seqr.globals| == GLOBAL_SLOTS
    && c.seqr.load.addr < HEAP_SLOTS && TrapPort.Sized(c.board.io)
  }

  /** What the sequencer sees. */
  function SeqIn(c: Core, x: Clk): In {
    In(x.e.resetn, c.board.io.boot, c.board.io.stage)
  }

  function PortEdge(c: Core, x: Clk): TrapPort.Edge {
    TrapPort.Edge(x.e.(hold := c.seqr.hold), x.raised)
  }

  function CoreStep(rom: Rom, c: Core, x: Clk): (c': Core)
    requires Sized(c)
    ensures Sized(c')
  {
    Core(SeqStep(rom, c.seqr, SeqIn(c, x)), FetchStep(rom, c.seqr, c.fetch, x.e.resetn, x.pc),
         TrapPort.BoardStep(c.board, PortEdge(c, x)))
  }

  /** The handshakes between the machines: a boot request comes only while the
      processor runs, and it runs only under a resting sequencer. */
  ghost predicate Inv(rom: Rom, c: Core) {
    && Sized(c) && Coherent(rom, c.seqr, c.fetch) && TrapPort.Inv(c.board)
    && (c.board.io.boot || c.board.io.phase == TrapPort.Uart ==> !c.seqr.hold)
  }

  /** The processor outputs no character while it waits for the transmit queue. */
  predicate Quiet(c: Core, x: Clk) {
    c.board.io.phase == TrapPort.Uart ==> x.e.putc.None?
  }

  lemma {:induction false} BootFollowsRunning(io: TrapPort.Io, t: TrapPort.Trap, e: TrapPort.Env)
    requires TrapPort.Sized(io) && TrapPort.Handshake(io, t)
    ensures var io' := TrapPort.IoStep(io, t, e);
      && (io'.boot || io'.phase == TrapPort.Uart ==> e.resetn && !e.hold && !io.boot)
      && (e.hold || io.boot ==> !io'.boot && io'.stage == io.stage)
  {
  }

  /** Every edge keeps it, over all resets, boots, jumps and requests. */
  lemma {:induction false} InvStep(rom: Rom, c: Core, x: Clk)
    requires Inv(rom, c) && Quiet(c, x)
    ensures Inv(rom, CoreStep(rom, c, x))
  {
    hide TrapPort.IoStep, TrapPort.Queues, TrapPort.Balanced, FetchStep, TrapPort.Happened;
    TrapPort.QuietKeeps(c.board, PortEdge(c, x));
    CoherentStep(rom, c.seqr, c.fetch, Prefetch.Edge(SeqIn(c, x), x.pc));
    BootFollowsRunning(c.board.io, c.board.trap, PortEdge(c, x).e);
    if x.e.resetn && c.seqr.phase == Running {
      HoldsOnlyForBoot(rom, c.seqr, SeqIn(c, x));
    }
  }

  /** A running sequencer goes on running unless reset or asked to boot. */
  lemma {:induction false} HoldsOnlyForBoot(rom: Rom, s: Seq, x: In)
    requires BootSeq.Sized(s) && |x.stage| == STAGE_WORDS && s.phase == Running && x.resetn
    ensures SeqStep(rom, s, x).hold == x.boot && (x.boot ==> SeqStep(rom, s, x).phase == Header)
  {
  }

  /** No boot request is lost: on the edge its pulse is up the sequencer takes it. */
  lemma {:induction false} BootTaken(rom: Rom, c: Core, x: Clk)
    requires Inv(rom, c) && c.board.io.boot && x.e.resetn
    ensures var s' := CoreStep(rom, c, x).seqr; s'.hold && s'.phase == Header && s'.fromStage
  {
    hide TrapPort.IoStep, FetchStep, TrapPort.Happened;
    HoldsOnlyForBoot(rom, c.seqr, SeqIn(c, x));
  }

  /** The core after an edge with reset low, its history begun anew. */
  function Started(rom: Rom, c: Core, x: Clk): (c': Core)
    requires Sized(c)
    ensures Sized(c')
  {
    var c' := CoreStep(rom, c, x);
    c'.(board := c'.board.(past := TrapPort.Nothing(c.board.io.stage)))
  }

  /** An edge with reset low establishes it, from any registers. */
  lemma {:induction false} CoreStarts(rom: Rom, c: Core, x: Clk)
    requires Sized(c) && |rom.code| <= PROG_WORDS && !x.e.resetn && TrapPort.InBytes(c.board.io.rx.mem)
    requires TrapPort.InWords(c.board.io.stage)
    ensures Inv(rom, Started(rom, c, x))
  {
    ResetCoherent(rom, c.seqr, c.fetch, Prefetch.Edge(SeqIn(c, x), x.pc));
    TrapPort.ResetStarts(c.board.io, c.board.trap, PortEdge(c, x).e);
    hide SeqStep, FetchStep, TrapPort.Queued, TrapPort.Balanced, TrapPort.Queues;
  }

  function CoreRun(rom: Rom, c: Core, run: seq<Clk>): (c': Core)
    requires Sized(c)
    ensures Sized(c')
    decreases |run|
  {
    if run == [] then c else CoreRun(rom, CoreStep(rom, c, run[0]), run[1..])
  }

  predicate QuietRun(rom: Rom, c: Core, run: seq<Clk>)
    requires Sized(c)
    decreases |run|
  {
    run == [] || (Quiet(c, run[0]) && QuietRun(rom, CoreStep(rom, c, run[0]), run[1..]))
  }

  /** Over every run of the whole core: the invariant, the instruction offered the
      one asked for, no more answers than requests, the bytes in order; the only ones
      lost are characters that find the transmit queue full. */
  lemma {:induction false} CoreCorrect(rom: Rom, c: Core, run: seq<Clk>, pc: nat)
    requires Inv(rom, c) && QuietRun(rom, c, run)
    ensures var c' := CoreRun(rom, c, run); var past := c'.board.past;
      && Inv(rom, c')
      && (c'.seqr.progWords <= PROG_WORDS && CodeValid(c'.fetch, pc)
          ==> CodeRdata(c'.seqr, c'.fetch) == WordAt(rom, c'.seqr, pc))
      && past.asked == past.answered + past.dropped + TrapPort.Count(TrapPort.Asking(c'.board.trap))
      && past.given <= past.taken && past.sent <= past.accepted == TrapPort.Kept(past.output)
    decreases |run|
  {
    hide CoreStep, Coherent, TrapPort.Handshake, TrapPort.Unsent;
    if run == [] {
      CoherentOffers(rom, c.seqr, c.fetch, pc);
    } else {
      InvStep(rom, c, run[0]);
      CoreCorrect(rom, CoreStep(rom, c, run[0]), run[1..], pc);
    }
  }

  /** The run the trap port sees. */
  function PortRun(rom: Rom, c: Core, run: seq<Clk>): (edges: seq<TrapPort.Edge>)
    requires Sized(c)
    ensures |edges| == |run|
    decreases |run|
  {
    if run == [] then [] else [PortEdge(c, run[0])] + PortRun(rom, CoreStep(rom, c, run[0]), run[1..])
  }

  lemma {:induction false} PortRuns(rom: Rom, c: Core, run: seq<Clk>)
    requires Inv(rom, c) && QuietRun(rom, c, run)
    ensures var edges := PortRun(rom, c, run);
      CoreRun(rom, c, run).board == TrapPort.BoardRun(c.board, edges) && TrapPort.QuietRun(c.board, edges)
    decreases |run|
  {
    hide CoreStep, Coherent, TrapPort.Inv, TrapPort.BoardStep;
    if run != [] {
      var edges := PortRun(rom, c, run);
      InvStep(rom, c, run[0]);
      BoardMoves(rom, c, run[0]);
      assert edges[0] == PortEdge(c, run[0]) && edges[1..] == PortRun(rom, CoreStep(rom, c, run[0]), run[1..]);
      PortRuns(rom, CoreStep(rom, c, run[0]), run[1..]);
    }
  }

  lemma {:induction false} BoardMoves(rom: Rom, c: Core, x: Clk)
    requires Sized(c)
    ensures CoreStep(rom, c, x).board == TrapPort.BoardStep(c.board, PortEdge(c, x))
  {
  }

  /** Between resets nothing the program outputs is lost exactly when no character
      comes while the transmit queue is full. */
  lemma {:induction false} CoreLossless(rom: Rom, c: Core, run: seq<Clk>)
    requires Inv(rom, c) && QuietRun(rom, c, run) && HighReset(run)
    ensures TrapPort.Lossless(CoreRun(rom, c, run).board.past)
       <==> TrapPort.Lossless(c.board.past) && TrapPort.Roomy(c.board, PortRun(rom, c, run))
  {
    hide CoreStep, CoreRun, Coherent, TrapPort.Inv, TrapPort.BoardStep, TrapPort.BoardRun, TrapPort.Roomy,
        TrapPort.Lossless;
    PortRuns(rom, c, run);
    HighPorts(rom, c, run);
    TrapPort.LosslessIff(c.board, PortRun(rom, c, run));
  }

  /** And every request is answered once, with what it is owed. */
  lemma {:induction false} CoreServes(rom: Rom, c: Core, owed: TrapPort.Owed, run: seq<Clk>)
    requires Inv(rom, c) && TrapPort.Owes(c.board, owed) && QuietRun(rom, c, run)
    ensures TrapPort.Serves(c.board, owed, PortRun(rom, c, run))
  {
    PortRuns(rom, c, run);
    TrapPort.OwesServes(c.board, owed, PortRun(rom, c, run));
  }

  /** All of it from a reset edge, whatever the registers held. */
  lemma {:induction false} CoreFromReset(rom: Rom, c: Core, x: Clk, run: seq<Clk>)
    requires Sized(c) && |rom.code| <= PROG_WORDS && !x.e.resetn
    requires TrapPort.InBytes(c.board.io.rx.mem) && TrapPort.InWords(c.board.io.stage)
    requires QuietRun(rom, Started(rom, c, x), run)
    ensures var s := Started(rom, c, x);
      Inv(rom, CoreRun(rom, s, run)) && TrapPort.Serves(s.board, TrapPort.Free, PortRun(rom, s, run))
  {
    hide CoreStep, Coherent, TrapPort.Inv;
    CoreStarts(rom, c, x);
    var s := Started(rom, c, x);
    assert !TrapPort.Asking(s.board.trap) by { NotAsking(rom, c, x); }
    CoreServes(rom, s, TrapPort.Free, run);
    CoreCorrect(rom, s, run, 0);
  }

  lemma {:induction false} NotAsking(rom: Rom, c: Core, x: Clk)
    requires Sized(c) && !x.e.resetn
    ensures !TrapPort.Asking(CoreStep(rom, c, x).board.trap)
  {
  }

  lemma {:induction false} HighPorts(rom: Rom, c: Core, run: seq<Clk>)
    requires Sized(c) && HighReset(run)
    ensures TrapPort.Unreset(PortRun(rom, c, run))
    decreases |run|
  {
    hide CoreStep;
    if run != [] {
      HighPorts(rom, CoreStep(rom, c, run[0]), run[1..]);
    }
  }

  // ---- a boot, from the request to the program running ----

  /** The processor is held for n - 1 edges and released on the n-th, holding the image. */
  ghost predicate Boots(rom: Rom, c: Core, run: seq<Clk>, n: nat, m: Image)
    requires Sized(c)
    decreases n
  {
    && 0 < n <= |run|
    && var c' := CoreStep(rom, c, run[0]);
       if n == 1 then !c'.seqr.hold && Holds(c'.seqr, m)
       else c'.seqr.hold && Boots(rom, c', run[1..], n - 1, m)
  }

  /** The inputs of a load: the request, and nothing after. */
  function Asks(stage: seq<nat>, boot: bool, n: nat): (a: seq<In>)
    ensures |a| == n
  {
    if n == 0 then [] else [In(true, boot, stage)] + Asks(stage, false, n - 1)
  }

  lemma {:induction false} AsksStill(stage: seq<nat>, n: nat)
    ensures Still(Asks(stage, false, n), stage)
  {
    if n > 0 {
      AsksStill(stage, n - 1);
    }
  }

  ghost predicate HighReset(run: seq<Clk>) {
    forall k :: 0 <= k < |run| ==> run[k].e.resetn
  }

  /** While the processor is held the trap port cannot touch the staging RAM or ask
      again, so the sequencer runs as if alone. */
  lemma {:induction false} Follows(rom: Rom, c: Core, run: seq<Clk>, stage: seq<nat>, boot: bool, n: nat, m: Image)
    requires Sized(c) && TrapPort.Handshake(c.board.io, c.board.trap) && HighReset(run) && |run| >= n
    requires c.board.io.stage == stage && c.board.io.boot == boot && (c.seqr.hold || boot)
    requires |stage| == STAGE_WORDS && Stages(Asks(stage, boot, n))
        && ReleasedAt(rom, c.seqr, Asks(stage, boot, n), n, m)
    requires TrapPort.Queues(c.board.io)
    ensures Boots(rom, c, run, n, m)
    decreases n
  {
    hide SeqStep, FetchStep, TrapPort.IoStep, Holds, TrapPort.Happened, TrapPort.Handshake, TrapPort.Queues;
    assert Asks(stage, boot, n)[1..] == Asks(stage, false, n - 1);
    var x := run[0];
    assert SeqIn(c, x) == In(true, boot, stage);
    BootFollowsRunning(c.board.io, c.board.trap, PortEdge(c, x).e);
    TrapPort.HandshakeStep(c.board.io, c.board.trap, PortEdge(c, x).e, x.raised);
    TrapPort.QueuesStep(c.board.io, c.board.trap, PortEdge(c, x).e);
    if n > 1 {
      Follows(rom, CoreStep(rom, c, x), run[1..], stage, false, n - 1, m);
    }
  }

  /** The theorem: whenever a program asks to boot the image it has staged, and the
      image fits, the machine restarts with exactly that image, a number of edges
      later that depends on the image's size alone. */
  lemma {:induction false} BootServed(rom: Rom, c: Core, run: seq<Clk>, n: nat)
    requires rom.Valid() && Inv(rom, c) && c.board.io.boot && HighReset(run) && Fits(c.board.io.stage)
    requires n == Count(c.board.io.stage, 2) + Count(c.board.io.stage, 3) + GLOBAL_SLOTS + 10 <= |run|
    ensures Boots(rom, c, run, n, StagedImage(c.board.io.stage))
  {
    hide SeqStep, FetchStep, TrapPort.IoStep, Holds, TrapPort.Happened, ReleasedAt, Boots, TrapPort.Balanced,
         TrapPort.Handshake, TrapPort.Queues, StagedImage, BootSeq.Count;
    var stage := c.board.io.stage;
    AsksStill(stage, n - 1);
    var asks := Asks(stage, true, n);
    assert asks[1..] == Asks(stage, false, n - 1);
    BootLoads(rom, c.seqr, asks, stage, n);
    Follows(rom, c, run, stage, true, n, StagedImage(stage));
  }

  /** After every reset, whatever the registers held, the resident image. */
  lemma {:induction false} ResetServed(rom: Rom, c: Core, x: Clk, run: seq<Clk>, n: nat)
    requires rom.Valid() && Sized(c) && !x.e.resetn && HighReset(run)
    requires TrapPort.InBytes(c.board.io.rx.mem) && TrapPort.InWords(c.board.io.stage)
    requires n == |rom.heap| + GLOBAL_SLOTS + 5 <= |run|
    ensures Boots(rom, CoreStep(rom, c, x), run, n, ResidentImage(rom))
  {
    hide SeqStep, FetchStep, TrapPort.IoStep, Holds, TrapPort.Happened, ReleasedAt, Boots, TrapPort.Balanced,
         TrapPort.Handshake, TrapPort.Queues, TrapPort.View;
    var c', stage := CoreStep(rom, c, x), c.board.io.stage;
    ResetStep(rom, c.seqr, SeqIn(c, x));
    TrapPort.ResetStarts(c.board.io, c.board.trap, PortEdge(c, x).e);
    TrapPort.ResetEmpties(c.board.io, c.board.trap, PortEdge(c, x).e);
    AsksStill(stage, n);
    ResetLoads(rom, c'.seqr, Asks(stage, false, n), stage, n);
    Follows(rom, c', run, stage, false, n, ResidentImage(rom));
  }
}
