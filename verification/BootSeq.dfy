/** The boot sequencer: it copies the resident image after reset, or the staged one
    on a boot request, into the program RAM and the processor's memories, and only
    then lets the processor run. */
module BootSeq {

  const PROG_WORDS: nat := 32768
  const STAGE_WORDS: nat := 32768
  const HEAP_SLOTS: nat := 32768
  const GLOBAL_SLOTS: nat := 8192

  /** The resident program, built in. */
  datatype Rom = Rom(code: seq<nat>, heap: seq<nat>, globals: seq<nat>) {
    ghost predicate Valid() { |heap| < HEAP_SLOTS && |globals| <= GLOBAL_SLOTS && |code| <= PROG_WORDS }
  }

  datatype Phase = Resident | Header | Code | Heap | Globals | Start | Running

  /** The registers, the program RAM, and the processor's heap and globals behind its load port. */
  datatype Seq = Seq(phase: Phase, fromStage: bool, dataReady: bool, i: nat, n: nat, hdr: nat,
                     stageCode: nat, stageHeap: nat, stageGlobals: nat, globCount: nat,
                     seqQ: nat, romQ: nat, hold: bool, load: Load, imageWords: nat,
                     codeBank: bool, progWords: nat, prog: seq<nat>, heap: seq<nat>, globals: seq<nat>)

  /** The load port. */
  datatype Load = Load(we: bool, globals: bool, addr: nat, data: nat)

  datatype In = In(resetn: bool, boot: bool, stage: seq<nat>)

  ghost predicate Sized(s: Seq) {
    |s.prog| == PROG_WORDS && |s.heap| == HEAP_SLOTS && |s.globals| == GLOBAL_SLOTS && s.load.addr < HEAP_SLOTS
  }

  /** The staging RAM address, 14 bits. */
  function SeqAddr(s: Seq): (a: nat)
    ensures a < 16384
  {
    var copied := (if s.phase != Code then s.stageCode else 0) + if s.phase == Globals then s.stageHeap else 0;
    (if s.phase == Header then 2 + s.hdr else 8 + s.i + copied) % 16384
  }

  function Rom16(m: seq<nat>, i: nat): nat {
    if i < |m| then m[i] else 0
  }

  function SeqStep(rom: Rom, s: Seq, x: In): (s': Seq)
    requires Sized(s) && |x.stage| == STAGE_WORDS
    ensures Sized(s')
  {
    var r := Prepared(rom, s, x);
    if !x.resetn then
      r.(phase := Resident, fromStage := false, i := 0, dataReady := false, hold := true, codeBank := false)
    else
      match s.phase
      case Header => HeaderStep(s, r)
      case Resident => Rests(rom, r, x.boot)
      case Start => Rests(rom, r, x.boot)
      case Running => Rests(rom, r, x.boot)
      case _ => Moved(rom, s, Written(s, r))
  }

  /** The pending load lands, and the next word of either image is read. */
  function Prepared(rom: Rom, s: Seq, x: In): (r: Seq)
    requires Sized(s) && |x.stage| == STAGE_WORDS
    ensures Sized(r)
    ensures r == s.(heap := r.heap, globals := r.globals, seqQ := r.seqQ, romQ := r.romQ, load := r.load)
  {
    Loaded(s, !x.resetn || s.hold).(
      romQ := Rom16(if s.phase == Globals then rom.globals else rom.heap, s.i),
      seqQ := x.stage[SeqAddr(s)],
      load := s.load.(we := false))
  }

  /** Before the sections, after them, and at rest. */
  function Rests(rom: Rom, r: Seq, boot: bool): (s': Seq)
    requires Sized(r)
    ensures Sized(s')
  {
    match r.phase
    case Resident => r.(n := |rom.heap|, i := 0, dataReady := false, phase := Heap)
    case Start =>
      r.(imageWords := (if r.fromStage then r.stageHeap else |rom.heap|) % HEAP_SLOTS,
         codeBank := r.fromStage, progWords := r.stageCode, phase := Running)
    case Running =>
      if boot then r.(hold := true, fromStage := true, hdr := 0, dataReady := false, phase := Header)
      else r.(hold := false)
    case _ => r
  }

  /** The processor's side of the load port, while it is held in reset. */
  function Loaded(s: Seq, reset: bool): (s': Seq)
    requires Sized(s)
    ensures Sized(s')
  {
    if !reset || !s.load.we then s
    else if s.load.globals then s.(globals := s.globals[s.load.addr % GLOBAL_SLOTS := s.load.data])
    else s.(heap := s.heap[s.load.addr := s.load.data])
  }

  /** Staged words 2, 3 and 4: the code, heap and globals counts. */
  function HeaderStep(s: Seq, r: Seq): (s': Seq)
    requires Sized(r)
    ensures Sized(s')
  {
    var r := r.(dataReady := true, hdr := (s.hdr + 1) % 4);
    var q := s.seqQ % 65536;
    if !s.dataReady then r
    else if s.hdr == 1 then r.(stageCode := q)
    else if s.hdr == 2 then r.(stageHeap := q)
    else if s.hdr == 3 then r.(stageGlobals := q, n := s.stageCode, i := 0, dataReady := false, phase := Code)
    else r
  }

  /** The word read last cycle goes where its section goes. */
  function Written(s: Seq, r: Seq): (s': Seq)
    requires Sized(r)
    ensures Sized(s')
  {
    if !s.dataReady then r
    else if s.phase == Code then
      (if s.i % PROG_WORDS == 0 then r else r.(prog := r.prog[s.i % PROG_WORDS - 1 := s.seqQ]))
    else
      var globals := s.phase == Globals;
      r.(load := Load(true, globals, (s.i + 65535) % HEAP_SLOTS,
                      if globals && (s.i + 65535) % 65536 >= s.globCount then 1
                      else if s.fromStage then s.seqQ else s.romQ))
  }

  /** On to the next word of the section, or the next section. */
  function Moved(rom: Rom, s: Seq, r: Seq): (s': Seq)
    requires Sized(r)
    ensures Sized(s')
  {
    if s.i < s.n then r.(i := s.i + 1, dataReady := true)
    else
      var r := r.(i := 0, dataReady := false);
      match s.phase
      case Code => r.(n := s.stageHeap, phase := Heap)
      case Heap =>
        r.(n := GLOBAL_SLOTS, globCount := if s.fromStage then s.stageGlobals else |rom.globals|, phase := Globals)
      case _ => r.(phase := Start)
  }

  // ---- what a load must leave behind ----

  datatype Image = Image(staged: bool, code: seq<nat>, heap: seq<nat>, globals: seq<nat>)

  function ResidentImage(rom: Rom): Image {
    Image(false, rom.code, rom.heap, rom.globals)
  }

  /** The staged image's counts. */
  function Count(stage: seq<nat>, word: nat): nat
    requires word < |stage|
  {
    stage[word] % 65536
  }

  /** The image lies inside the staging window and its globals inside the table. */
  predicate Fits(stage: seq<nat>) {
    && |stage| == STAGE_WORDS
    && 8 + Count(stage, 2) + Count(stage, 3) + Count(stage, 4) <= 16384
    && Count(stage, 4) <= GLOBAL_SLOTS
  }

  function StagedImage(stage: seq<nat>): Image
    requires Fits(stage)
  {
    var c, h, g := Count(stage, 2), Count(stage, 3), Count(stage, 4);
    Image(true, stage[8..8 + c], stage[8 + c..8 + c + h], stage[8 + c + h..8 + c + h + g])
  }

  /** A global slot: the image's, or Val_int(0) past its end. */
  function Slot(globals: seq<nat>, k: nat): nat {
    if k < |globals| then globals[k] else 1
  }

  /** The machine holds the image, ready to run it. */
  ghost predicate Holds(s: Seq, m: Image) {
    && Sized(s) && s.phase == Running && s.codeBank == m.staged
    && |m.heap| <= HEAP_SLOTS && s.imageWords == |m.heap| && s.heap[..|m.heap|] == m.heap
    && (forall k :: 0 <= k < GLOBAL_SLOTS ==> s.globals[k] == Slot(m.globals, k))
    && (m.staged ==> s.progWords == |m.code| <= PROG_WORDS && s.prog[..|m.code|] == m.code)
  }

  /** The processor is held for n - 1 edges and released on the n-th, holding the image. */
  ghost predicate ReleasedAt(rom: Rom, s: Seq, run: seq<In>, n: nat, m: Image)
    requires Sized(s) && Stages(run)
    decreases n
  {
    && 0 < n <= |run|
    && var s' := SeqStep(rom, s, run[0]);
       if n == 1 then !s'.hold && Holds(s', m)
       else s'.hold && ReleasedAt(rom, s', run[1..], n - 1, m)
  }

  ghost predicate Stages(run: seq<In>) {
    forall k :: 0 <= k < |run| ==> |run[k].stage| == STAGE_WORDS
  }

  /** Nothing else is asked meanwhile, and the staging RAM is still: the program
      that writes it is held in reset. */
  ghost predicate Still(run: seq<In>, stage: seq<nat>) {
    forall k :: 0 <= k < |run| ==> run[k] == In(true, false, stage)
  }

  // ---- the sections, last first ----

  /** The processor's memories once the pending load has landed. */
  function HeapNext(s: Seq): seq<nat>
    requires Sized(s)
  {
    Loaded(s, true).heap
  }

  function GlobalsNext(s: Seq): seq<nat>
    requires Sized(s)
  {
    Loaded(s, true).globals
  }

  /** The section's parameters: where its words come from. */
  ghost predicate Source(rom: Rom, s: Seq, stage: seq<nat>, m: Image) {
    && Sized(s) && rom.Valid() && |stage| == STAGE_WORDS && s.hold && s.fromStage == m.staged
    && if m.staged then
         && Fits(stage) && m == StagedImage(stage)
         && s.stageCode == |m.code| && s.stageHeap == |m.heap| && s.stageGlobals == |m.globals|
       else m == ResidentImage(rom)
  }

  ghost predicate CodeDone(s: Seq, m: Image) {
    Sized(s) && (m.staged ==> |m.code| <= PROG_WORDS && s.prog[..|m.code|] == m.code)
  }

  ghost predicate InGlobals(rom: Rom, s: Seq, stage: seq<nat>, m: Image) {
    && Source(rom, s, stage, m) && CodeDone(s, m) && s.phase == Globals
    && s.n == GLOBAL_SLOTS && s.globCount == |m.globals| && s.i <= s.n && s.dataReady == (s.i > 0)
    && HeapNext(s)[..|m.heap|] == m.heap
    && (s.i > 0 && s.i - 1 < |m.globals| ==> (if s.fromStage then s.seqQ else s.romQ) == m.globals[s.i - 1])
    && (s.i > 0 ==> forall k :: 0 <= k < s.i - 1 ==> GlobalsNext(s)[k] == Slot(m.globals, k))
  }

  ghost predicate InHeap(rom: Rom, s: Seq, stage: seq<nat>, m: Image) {
    && Source(rom, s, stage, m) && CodeDone(s, m) && s.phase == Heap
    && s.n == |m.heap| && s.i <= s.n && s.dataReady == (s.i > 0)
    && (s.i > 0 ==> (if s.fromStage then s.seqQ else s.romQ) == m.heap[s.i - 1])
    && (s.i > 0 ==> HeapNext(s)[..s.i - 1] == m.heap[..s.i - 1])
    && (s.load.we ==> !s.load.globals)
  }

  ghost predicate InCode(rom: Rom, s: Seq, stage: seq<nat>, m: Image) {
    && Source(rom, s, stage, m) && m.staged && s.phase == Code && !s.load.we
    && s.n == |m.code| && s.i <= s.n && s.dataReady == (s.i > 0)
    && (s.i > 0 ==> s.seqQ == m.code[s.i - 1])
    && (s.i > 0 ==> s.prog[..s.i - 1] == m.code[..s.i - 1])
  }

  /** A write at the end of a prefix extends it. */
  lemma {:induction false} Extends(a: seq<nat>, b: seq<nat>, k: nat, x: nat)
    requires k < |a| && k < |b| && a[..k] == b[..k] && x == b[k]
    ensures a[k := x][..k + 1] == b[..k + 1]
  {
  }

  // ---- globals, start, run ----

  lemma {:induction false} GlobalsLand(rom: Rom, s: Seq, stage: seq<nat>, m: Image)
    requires InGlobals(rom, s, stage, m)
    ensures var s' := SeqStep(rom, s, In(true, false, stage));
      && s'.heap == HeapNext(s) == HeapNext(s')
      && (forall k :: 0 <= k < s.i ==> GlobalsNext(s')[k] == Slot(m.globals, k))
  {
    var s' := SeqStep(rom, s, In(true, false, stage));
    assert s'.heap == HeapNext(s) && s'.globals == GlobalsNext(s);
    hide Slot, Rom16;
    if s.i > 0 {
      var k := s.i - 1;
      assert s'.load == Load(true, true, k, Slot(m.globals, k)) by { SlotIs(rom, s, stage, m); }
      assert GlobalsNext(s') == s'.globals[k := Slot(m.globals, k)];
    }
  }

  lemma {:induction false} SlotIs(rom: Rom, s: Seq, stage: seq<nat>, m: Image)
    requires InGlobals(rom, s, stage, m) && s.i > 0
    ensures SeqStep(rom, s, In(true, false, stage)).load == Load(true, true, s.i - 1, Slot(m.globals, s.i - 1))
  {
  }

  lemma {:induction false} GlobalsStep(rom: Rom, s: Seq, stage: seq<nat>, m: Image)
    requires InGlobals(rom, s, stage, m)
    ensures var s' := SeqStep(rom, s, In(true, false, stage));
      if s.i < s.n then InGlobals(rom, s', stage, m) && s'.i == s.i + 1 else InStart(rom, s', stage, m)
  {
    hide HeapNext, GlobalsNext, Slot, Rom16;
    GlobalsLand(rom, s, stage, m);
    if s.i < s.n && s.i < |m.globals| {
      GlobalsWord(rom, s, stage, m);
    }
  }

  lemma {:induction false} GlobalsWord(rom: Rom, s: Seq, stage: seq<nat>, m: Image)
    requires InGlobals(rom, s, stage, m) && s.i < |m.globals|
    ensures (if s.fromStage then stage[SeqAddr(s)] else Rom16(rom.globals, s.i)) == m.globals[s.i]
  {
  }

  ghost predicate InStart(rom: Rom, s: Seq, stage: seq<nat>, m: Image) {
    && Source(rom, s, stage, m) && CodeDone(s, m) && s.phase == Start
    && HeapNext(s)[..|m.heap|] == m.heap
    && (forall k :: 0 <= k < GLOBAL_SLOTS ==> GlobalsNext(s)[k] == Slot(m.globals, k))
  }

  lemma {:induction false} StartSteps(rom: Rom, s: Seq, stage: seq<nat>, m: Image)
    requires InStart(rom, s, stage, m)
    ensures var x := In(true, false, stage); var s1 := SeqStep(rom, s, x); var s2 := SeqStep(rom, s1, x);
      s1.hold && !s2.hold && Holds(s2, m)
  {
    hide SeqStep, InStart, Holds;
    StartSource(rom, s, stage, m);
    StartEdge(rom, s, stage, m);
    ReleaseEdge(rom, SeqStep(rom, s, In(true, false, stage)), stage, m);
  }

  lemma {:induction false} StartEdge(rom: Rom, s: Seq, stage: seq<nat>, m: Image)
    requires InStart(rom, s, stage, m)
    ensures var s1 := SeqStep(rom, s, In(true, false, stage)); s1.hold && !s1.load.we && Holds(s1, m)
  {
    hide Rom16, SeqAddr, Slot;
    var s1 := SeqStep(rom, s, In(true, false, stage));
    assert s1.heap == HeapNext(s) && s1.globals == GlobalsNext(s);
  }

  /** The processor is let go with what the machine holds. */
  lemma {:induction false} ReleaseEdge(rom: Rom, s: Seq, stage: seq<nat>, m: Image)
    requires Holds(s, m) && !s.load.we && |stage| == STAGE_WORDS
    ensures var s' := SeqStep(rom, s, In(true, false, stage)); !s'.hold && Holds(s', m)
  {
    hide Rom16, SeqAddr, Slot;
  }

  lemma {:induction false} Rest(run: seq<In>, stage: seq<nat>)
    requires Still(run, stage) && |run| > 0 && |stage| == STAGE_WORDS
    ensures Still(run[1..], stage) && Stages(run) && Stages(run[1..]) && run[0] == In(true, false, stage)
  {
  }

  lemma {:induction false} StartReleased(rom: Rom, s: Seq, run: seq<In>, stage: seq<nat>, m: Image)
    requires InStart(rom, s, stage, m) && Still(run, stage) && |run| >= 2
    ensures Stages(run) && ReleasedAt(rom, s, run, 2, m)
  {
    hide SeqStep, Holds, InStart;
    StartSource(rom, s, stage, m);
    Rest(run, stage);
    Rest(run[1..], stage);
    StartSteps(rom, s, stage, m);
    assert ReleasedAt(rom, SeqStep(rom, s, run[0]), run[1..], 1, m);
  }

  lemma {:induction false} StartSource(rom: Rom, s: Seq, stage: seq<nat>, m: Image)
    requires InStart(rom, s, stage, m)
    ensures Sized(s) && |stage| == STAGE_WORDS
  {
  }

  lemma {:induction false} GlobalsReleased(rom: Rom, s: Seq, run: seq<In>, stage: seq<nat>, m: Image, n: nat)
    requires InGlobals(rom, s, stage, m) && Still(run, stage) && n == s.n - s.i + 3 <= |run|
    ensures Stages(run) && ReleasedAt(rom, s, run, n, m)
    decreases n
  {
    hide SeqStep, Holds, HeapNext, GlobalsNext;
    Rest(run, stage);
    GlobalsStep(rom, s, stage, m);
    var s' := SeqStep(rom, s, run[0]);
    if s.i < s.n {
      GlobalsReleased(rom, s', run[1..], stage, m, n - 1);
    } else {
      StartReleased(rom, s', run[1..], stage, m);
    }
  }

  // ---- heap ----

  lemma {:induction false} HeapLoadIs(rom: Rom, s: Seq, stage: seq<nat>, m: Image)
    requires InHeap(rom, s, stage, m)
    ensures var s' := SeqStep(rom, s, In(true, false, stage));
      s'.load == if s.i > 0 then Load(true, false, s.i - 1, m.heap[s.i - 1]) else s.load.(we := false)
  {
    hide Rom16, SeqAddr, CodeDone;
    assert s.i > 0 ==> (s.i + 65535) % HEAP_SLOTS == s.i - 1;
  }

  lemma {:induction false} HeapLands(rom: Rom, s: Seq, stage: seq<nat>, m: Image)
    requires InHeap(rom, s, stage, m)
    ensures var s' := SeqStep(rom, s, In(true, false, stage));
      s.i <= |m.heap| && HeapNext(s')[..s.i] == m.heap[..s.i] && s'.load.we == s.dataReady
          && !(s'.load.we && s'.load.globals)
  {
    var s' := SeqStep(rom, s, In(true, false, stage));
    HeapLoadIs(rom, s, stage, m);
    assert s'.heap == HeapNext(s);
    hide SeqStep, Source;
    if s.i > 0 {
      Extends(s'.heap, m.heap, s.i - 1, m.heap[s.i - 1]);
    } else {
      assert m.heap[..0] == [] && HeapNext(s')[..0] == [];
    }
  }

  lemma {:induction false} HeapStep(rom: Rom, s: Seq, stage: seq<nat>, m: Image)
    requires InHeap(rom, s, stage, m)
    ensures var s' := SeqStep(rom, s, In(true, false, stage));
      if s.i < s.n then InHeap(rom, s', stage, m) && s'.i == s.i + 1 else InGlobals(rom, s', stage, m) && s'.i == 0
  {
    hide HeapNext, GlobalsNext, Slot, Rom16, SeqAddr, StagedImage;
    HeapLands(rom, s, stage, m);
    if s.i < s.n {
      HeapWord(rom, s, stage, m);
    } else {
      assert m.heap[..|m.heap|] == m.heap;
    }
  }

  lemma {:induction false} HeapWord(rom: Rom, s: Seq, stage: seq<nat>, m: Image)
    requires InHeap(rom, s, stage, m) && s.i < s.n
    ensures (if s.fromStage then stage[SeqAddr(s)] else Rom16(rom.heap, s.i)) == m.heap[s.i]
  {
  }

  lemma {:induction false} HeapReleased(rom: Rom, s: Seq, run: seq<In>, stage: seq<nat>, m: Image, n: nat)
    requires InHeap(rom, s, stage, m) && Still(run, stage) && n == s.n - s.i + 1 + (GLOBAL_SLOTS + 3) <= |run|
    ensures Stages(run) && ReleasedAt(rom, s, run, n, m)
    decreases n
  {
    hide SeqStep, Holds, HeapNext, GlobalsNext;
    Rest(run, stage);
    HeapStep(rom, s, stage, m);
    var s' := SeqStep(rom, s, run[0]);
    if s.i < s.n {
      HeapReleased(rom, s', run[1..], stage, m, n - 1);
    } else {
      GlobalsReleased(rom, s', run[1..], stage, m, n - 1);
    }
  }

  // ---- code ----

  lemma {:induction false} CodeLands(rom: Rom, s: Seq, stage: seq<nat>, m: Image)
    requires InCode(rom, s, stage, m)
    ensures var s' := SeqStep(rom, s, In(true, false, stage));
      s.i <= |m.code| && s'.prog[..s.i] == m.code[..s.i] && !s'.load.we
  {
    var s' := SeqStep(rom, s, In(true, false, stage));
    hide Rom16, SeqAddr, StagedImage;
    if s.i > 0 {
      var k := s.i - 1;
      assert s'.prog == s.prog[k := m.code[k]];
      Extends(s.prog, m.code, k, m.code[k]);
    } else {
      assert m.code[..0] == [] && s'.prog[..0] == [];
    }
  }

  lemma {:induction false} CodeStep(rom: Rom, s: Seq, stage: seq<nat>, m: Image)
    requires InCode(rom, s, stage, m)
    ensures var s' := SeqStep(rom, s, In(true, false, stage));
      if s.i < s.n then InCode(rom, s', stage, m) && s'.i == s.i + 1 else InHeap(rom, s', stage, m) && s'.i == 0
  {
    hide HeapNext, Rom16;
    CodeLands(rom, s, stage, m);
    if s.i < s.n {
      CodeWord(rom, s, stage, m);
    } else {
      assert m.code[..|m.code|] == m.code;
    }
  }

  lemma {:induction false} CodeWord(rom: Rom, s: Seq, stage: seq<nat>, m: Image)
    requires InCode(rom, s, stage, m) && s.i < s.n
    ensures stage[SeqAddr(s)] == m.code[s.i]
  {
  }

  lemma {:induction false} CodeReleased(rom: Rom, s: Seq, run: seq<In>, stage: seq<nat>, m: Image, n: nat)
    requires InCode(rom, s, stage, m) && Still(run, stage)
        && n == s.n - s.i + 1 + (|m.heap| + 1 + (GLOBAL_SLOTS + 3)) <= |run|
    ensures Stages(run) && ReleasedAt(rom, s, run, n, m)
    decreases n
  {
    hide SeqStep, Holds, HeapNext, GlobalsNext;
    Rest(run, stage);
    CodeStep(rom, s, stage, m);
    var s' := SeqStep(rom, s, run[0]);
    if s.i < s.n {
      CodeReleased(rom, s', run[1..], stage, m, n - 1);
    } else {
      HeapReleased(rom, s', run[1..], stage, m, n - 1);
    }
  }

  // ---- the header ----

  /** The first k counts latched, the next one read. */
  ghost predicate InHeader(s: Seq, stage: seq<nat>, k: nat) {
    && Sized(s) && Fits(stage) && s.phase == Header && s.hold && s.fromStage && s.hdr == k <= 3
        && s.dataReady == (k > 0)
    && (k > 0 ==> s.seqQ == stage[1 + k])
    && (k > 1 ==> s.stageCode == Count(stage, 2))
    && (k > 2 ==> s.stageHeap == Count(stage, 3))
  }

  lemma {:induction false} HeaderSteps(rom: Rom, s: Seq, stage: seq<nat>, k: nat)
    requires rom.Valid() && InHeader(s, stage, k)
    ensures var s' := SeqStep(rom, s, In(true, false, stage));
      if k < 3 then InHeader(s', stage, k + 1) else InCode(rom, s', stage, StagedImage(stage)) && s'.i == 0
  {
  }

  lemma {:induction false} HeaderReleased(rom: Rom, s: Seq, run: seq<In>, stage: seq<nat>, k: nat, n: nat)
    requires rom.Valid() && InHeader(s, stage, k) && Still(run, stage)
    requires n == 4 - k + (Count(stage, 2) + 1) + (Count(stage, 3) + 1) + (GLOBAL_SLOTS + 3) <= |run|
    ensures Stages(run) && ReleasedAt(rom, s, run, n, StagedImage(stage))
    decreases n
  {
    hide SeqStep, Holds, HeapNext, GlobalsNext;
    Rest(run, stage);
    HeaderSteps(rom, s, stage, k);
    var s' := SeqStep(rom, s, run[0]);
    if k < 3 {
      HeaderReleased(rom, s', run[1..], stage, k + 1, n - 1);
    } else {
      CodeReleased(rom, s', run[1..], stage, StagedImage(stage), n - 1);
    }
  }

  // ---- the theorems ----

  /** A boot request, from whatever the running machine's memories hold: the
      processor is held until the staged image is in place, exactly, and then
      released; the number of edges depends on the counts alone. */
  lemma {:induction false} BootLoads(rom: Rom, s: Seq, run: seq<In>, stage: seq<nat>, n: nat)
    requires rom.Valid() && Sized(s) && s.phase == Running && Fits(stage)
    requires |run| > 0 && run[0] == In(true, true, stage) && Still(run[1..], stage)
    requires n == Count(stage, 2) + Count(stage, 3) + GLOBAL_SLOTS + 10 <= |run|
    ensures Stages(run) && ReleasedAt(rom, s, run, n, StagedImage(stage))
  {
    var s' := SeqStep(rom, s, run[0]);
    assert InHeader(s', stage, 0);
    HeaderReleased(rom, s', run[1..], stage, 0, n - 1);
    assert forall k :: 0 < k < |run| ==> run[k] == run[1..][k - 1];
  }

  /** The edge with reset low. */
  lemma {:induction false} ResetStep(rom: Rom, s: Seq, x: In)
    requires Sized(s) && |x.stage| == STAGE_WORDS && !x.resetn
    ensures var s' := SeqStep(rom, s, x);
      && s'.phase == Resident && s'.hold && !s'.fromStage && !s'.codeBank && !s'.load.we
      && s'.i == 0 && !s'.dataReady
  {
  }

  /** After every reset, the resident image, by the same law. */
  lemma {:induction false} ResetLoads(rom: Rom, s: Seq, run: seq<In>, stage: seq<nat>, n: nat)
    requires rom.Valid() && Sized(s) && |stage| == STAGE_WORDS && s.phase == Resident && s.hold && !s.fromStage
        && !s.load.we
    requires Still(run, stage) && n == |rom.heap| + GLOBAL_SLOTS + 5 <= |run|
    ensures Stages(run) && ReleasedAt(rom, s, run, n, ResidentImage(rom))
  {
    Rest(run, stage);
    var s' := SeqStep(rom, s, run[0]);
    assert InHeap(rom, s', stage, ResidentImage(rom)) && s'.i == 0;
    HeapReleased(rom, s', run[1..], stage, ResidentImage(rom), n - 1);
  }

  /** The registers, clocked as the module clocks them, with the three RAMs in place. */
  class Sequencer {
    var seq_state: Phase
    var seq_from_stage: bool
    var seq_data_ready: bool
    var seq_i: nat
    var seq_n: nat
    var hdr_i: nat
    var stage_code: nat
    var stage_heap: nat
    var stage_globals: nat
    var glob_count: nat
    var seq_q: nat
    var rom_q: nat
    var vm_hold: bool
    var load: Load
    var image_words: nat
    var code_bank: bool
    var prog_words: nat
    const prog_code: array<nat>
    const vm_heap: array<nat>
    const vm_globals: array<nat>

    function St(): Seq
      reads this, prog_code, vm_heap, vm_globals
    {
      Seq(seq_state, seq_from_stage, seq_data_ready, seq_i, seq_n, hdr_i,
          stage_code, stage_heap, stage_globals, glob_count,
          seq_q, rom_q, vm_hold, load, image_words, code_bank, prog_words, prog_code[..], vm_heap[..], vm_globals[..])
    }

    ghost predicate Apart()
      reads this
    {
      prog_code != vm_heap && prog_code != vm_globals && vm_heap != vm_globals
    }

    constructor (s: Seq)
      requires Sized(s)
      ensures St() == s && Apart() && fresh(prog_code) && fresh(vm_heap) && fresh(vm_globals)
    {
      seq_state, seq_from_stage, seq_data_ready := s.phase, s.fromStage, s.dataReady;
      seq_i, seq_n, hdr_i := s.i, s.n, s.hdr;
      stage_code, stage_heap, stage_globals, glob_count := s.stageCode, s.stageHeap, s.stageGlobals, s.globCount;
      seq_q, rom_q, vm_hold, load, image_words := s.seqQ, s.romQ, s.hold, s.load, s.imageWords;
      code_bank, prog_words := s.codeBank, s.progWords;
      prog_code := new nat[|s.prog|](k requires 0 <= k < |s.prog| => s.prog[k]);
      vm_heap := new nat[|s.heap|](k requires 0 <= k < |s.heap| => s.heap[k]);
      vm_globals := new nat[|s.globals|](k requires 0 <= k < |s.globals| => s.globals[k]);
      new;
      assert prog_code[..] == s.prog && vm_heap[..] == s.heap && vm_globals[..] == s.globals;
    }

    /** The processor's side of the load port. */
    method Land(reset: bool)
      requires Sized(St()) && Apart()
      modifies vm_heap, vm_globals
      ensures St() == Loaded(old(St()), reset)
    {
      if reset && load.we {
        if load.globals {
          vm_globals[load.addr % GLOBAL_SLOTS] := load.data;
        } else {
          vm_heap[load.addr] := load.data;
        }
      }
    }

    /** One rising edge of the clock. */
    method Clock(rom: Rom, x: In)
      requires Sized(St()) && Apart() && |x.stage| == STAGE_WORDS
      modifies this, prog_code, vm_heap, vm_globals
      ensures St() == SeqStep(rom, old(St()), x)
    {
      hide Prepared, HeaderStep, Written, Moved, Rests;
      ghost var s := St();
      var q, word := seq_q, rom_q;
      Prepare(rom, x);
      SameInputs(rom, s, St());
      if !x.resetn {
        Reset();
      } else if seq_state == Header {
        HeaderEdge(q);
      } else if seq_state == Code || seq_state == Heap || seq_state == Globals {
        Section(rom, q, word);
      } else {
        Between(rom, x.boot);
      }
    }

    /** Before and after the sections. */
    method Between(rom: Rom, boot: bool)
      requires Sized(St()) && (seq_state == Resident || seq_state == Start || seq_state == Running)
      modifies `seq_state, `seq_from_stage, `seq_data_ready, `seq_i, `seq_n, `hdr_i, `vm_hold, `image_words,
        `code_bank, `prog_words
      ensures St() == Rests(rom, old(St()), boot)
    {
      match seq_state
      case Resident => Begin(rom);
      case Start => Release(rom);
      case Running => Run(boot);
    }

    method Prepare(rom: Rom, x: In)
      requires Sized(St()) && Apart() && |x.stage| == STAGE_WORDS
      modifies `seq_q, `rom_q, `load, vm_heap, vm_globals
      ensures St() == Prepared(rom, old(St()), x)
    {
      hide Loaded, SeqAddr, Rom16;
      ghost var s := St();
      Land(!x.resetn || vm_hold);
      LoadedKeeps(s, !x.resetn || s.hold);
      Read(rom, x.stage);
    }

    method Read(rom: Rom, stage: seq<nat>)
      requires Sized(St()) && |stage| == STAGE_WORDS
      modifies `seq_q, `rom_q, `load
      ensures St() == old(St()).(romQ := Rom16(if seq_state == Globals then rom.globals else rom.heap, seq_i),
                                 seqQ := stage[SeqAddr(old(St()))], load := old(load).(we := false))
    {
      hide SeqAddr, Rom16;
      seq_q := stage[SeqAddr(St())];
      rom_q := Rom16(if seq_state == Globals then rom.globals else rom.heap, seq_i);
      load := load.(we := false);
    }

    method Reset()
      modifies `seq_state, `seq_from_stage, `seq_i, `seq_data_ready, `vm_hold, `code_bank
      ensures St() == old(St()).(phase := Resident, fromStage := false, i := 0, dataReady := false, hold := true,
          codeBank := false)
    {
      seq_state, seq_from_stage, seq_i, seq_data_ready, vm_hold, code_bank := Resident, false, 0, false, true, false;
    }

    method Begin(rom: Rom)
      modifies `seq_n, `seq_i, `seq_data_ready, `seq_state
      ensures St() == old(St()).(n := |rom.heap|, i := 0, dataReady := false, phase := Heap)
    {
      seq_n, seq_i, seq_data_ready, seq_state := |rom.heap|, 0, false, Heap;
    }

    method Release(rom: Rom)
      modifies `image_words, `code_bank, `prog_words, `seq_state
      ensures St() == old(St()).(imageWords := (if seq_from_stage then stage_heap else |rom.heap|) % HEAP_SLOTS,
                                 codeBank := seq_from_stage, progWords := stage_code, phase := Running)
    {
      image_words := (if seq_from_stage then stage_heap else |rom.heap|) % HEAP_SLOTS;
      code_bank, prog_words, seq_state := seq_from_stage, stage_code, Running;
    }

    method Run(boot: bool)
      modifies `vm_hold, `seq_from_stage, `hdr_i, `seq_data_ready, `seq_state
      ensures St() == if boot
          then old(St()).(hold := true, fromStage := true, hdr := 0, dataReady := false, phase := Header)
                      else old(St()).(hold := false)
    {
      if boot {
        vm_hold, seq_from_stage, hdr_i, seq_data_ready, seq_state := true, true, 0, false, Header;
      } else {
        vm_hold := false;
      }
    }

    method HeaderEdge(q: nat)
      requires Sized(St())
      modifies `seq_data_ready, `hdr_i, `stage_code, `stage_heap, `stage_globals, `seq_n, `seq_i, `seq_state
      ensures St() == HeaderStep(old(St()).(seqQ := q), old(St()))
    {
      var ready, h := seq_data_ready, hdr_i;
      seq_data_ready, hdr_i := true, (hdr_i + 1) % 4;
      if ready {
        if h == 1 {
          stage_code := q % 65536;
        } else if h == 2 {
          stage_heap := q % 65536;
        } else if h == 3 {
          Counted(q % 65536);
        }
      }
    }

    method Counted(q: nat)
      modifies `stage_globals, `seq_n, `seq_i, `seq_data_ready, `seq_state
      ensures St() == old(St()).(stageGlobals := q, n := stage_code, i := 0, dataReady := false, phase := Code)
    {
      stage_globals := q;
      seq_n, seq_i, seq_data_ready, seq_state := stage_code, 0, false, Code;
    }

    method Section(rom: Rom, q: nat, word: nat)
      requires Sized(St()) && Apart() && (seq_state == Code || seq_state == Heap || seq_state == Globals)
      modifies `load, prog_code, `seq_i, `seq_data_ready, `seq_n, `seq_state, `glob_count
      ensures St() == Moved(rom, old(St()), Written(old(St()).(seqQ := q, romQ := word), old(St())))
    {
      hide Moved;
      ghost var s := St();
      Write(q, word);
      MovedSame(rom, s, St());
      Move(rom);
    }

    method Write(q: nat, word: nat)
      requires Sized(St()) && Apart()
      modifies `load, prog_code
      ensures St() == Written(old(St()).(seqQ := q, romQ := word), old(St()))
    {
      if seq_data_ready {
        if seq_state == Code {
          if seq_i % PROG_WORDS != 0 {
            prog_code[seq_i % PROG_WORDS - 1] := q;
          }
        } else {
          var globals := seq_state == Globals;
          load := Load(true, globals, (seq_i + 65535) % HEAP_SLOTS,
                       if globals && (seq_i + 65535) % 65536 >= glob_count then 1
                       else if seq_from_stage then q else word);
        }
      }
    }

    method Move(rom: Rom)
      requires Sized(St())
      modifies `seq_i, `seq_data_ready, `seq_n, `seq_state, `glob_count
      ensures St() == Moved(rom, old(St()), old(St()))
    {
      if seq_i < seq_n {
        seq_i, seq_data_ready := seq_i + 1, true;
      } else {
        seq_i, seq_data_ready := 0, false;
        match seq_state
        case Code => seq_n, seq_state := stage_heap, Heap;
        case Heap =>
          glob_count := if seq_from_stage then stage_globals else |rom.globals|;
          seq_n, seq_state := GLOBAL_SLOTS, Globals;
        case _ => seq_state := Start;
      }
    }
  }

  lemma {:induction false} LoadedKeeps(s: Seq, reset: bool)
    requires Sized(s)
    ensures Loaded(s, reset) == s.(heap := Loaded(s, reset).heap, globals := Loaded(s, reset).globals)
    ensures SeqAddr(Loaded(s, reset)) == SeqAddr(s)
  {
  }

  /** The edge's decisions depend on registers that landing and reading leave alone. */
  lemma {:induction false} SameInputs(rom: Rom, s: Seq, r: Seq)
    requires Sized(r) && r == s.(heap := r.heap, globals := r.globals, seqQ := r.seqQ, romQ := r.romQ, load := r.load)
    ensures HeaderStep(s, r) == HeaderStep(r.(seqQ := s.seqQ), r)
    ensures Moved(rom, s, Written(s, r)) == Moved(rom, r, Written(r.(seqQ := s.seqQ, romQ := s.romQ), r))
  {
    HeaderSame(s, r);
    WrittenSame(s, r);
    MovedOn(rom, s, r, Written(s, r));
    hide HeaderStep, Written, Moved;
  }

  lemma {:induction false} HeaderSame(s: Seq, r: Seq)
    requires Sized(r) && s.dataReady == r.dataReady && s.hdr == r.hdr && s.stageCode == r.stageCode
    ensures HeaderStep(s, r) == HeaderStep(r.(seqQ := s.seqQ), r)
  {
  }

  lemma {:induction false} WrittenSame(s: Seq, r: Seq)
    requires Sized(r) && s.dataReady == r.dataReady && s.phase == r.phase && s.i == r.i && s.globCount == r.globCount
        && s.fromStage == r.fromStage
    ensures Written(s, r) == Written(r.(seqQ := s.seqQ, romQ := s.romQ), r)
  {
  }

  lemma {:induction false} MovedOn(rom: Rom, s: Seq, r: Seq, w: Seq)
    requires Sized(w) && s.i == r.i && s.n == r.n && s.phase == r.phase && s.stageHeap == r.stageHeap
    requires s.fromStage == r.fromStage && s.stageGlobals == r.stageGlobals
    ensures Moved(rom, s, w) == Moved(rom, r, w)
  {
  }

  lemma {:induction false} MovedSame(rom: Rom, s: Seq, r: Seq)
    requires Sized(r) && r == s.(prog := r.prog, load := r.load)
    ensures Moved(rom, s, r) == Moved(rom, r, r)
  {
  }
}
