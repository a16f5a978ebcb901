/** The processor's I/O space: its trap requests, answered one at a time, and the
    UART's two queues. */
module TrapPort {
  import opened Fifo

  datatype Option<T> = None | Some(value: T)

  // ---- the processor's side ----

  const IO_READ: nat := 1
  const IO_WRITE: nat := 2

  /** The processor's request registers. */
  datatype Trap = Trap(valid: bool, prim: nat, addr: nat, arg: nat)

  predicate IsIo(t: Trap) { t.prim == IO_READ || t.prim == IO_WRITE }
  predicate Asking(t: Trap) { t.valid && IsIo(t) }

  /** It holds a request until the answer, drops it, and may then raise another. */
  function TrapStep(t: Trap, ready: bool, reset: bool, raised: Option<Trap>): Trap {
    if reset then t.(valid := false)
    else if t.valid then (if ready then t.(valid := false) else t)
    else if raised.Some? then raised.value else t
  }

  // ---- the machine ----

  datatype Phase = Idle | PktRead | StageRead | Uart | Done

  datatype Io = Io(phase: Phase, lane: nat, ready: bool, result: nat,
                   rxAck: bool, txStart: bool, txLen: nat, boot: bool, pop: bool, leds: nat,
                   stageQ: nat, pktQ: nat, stage: seq<nat>, rx: Queue, tx: Queue, uartByte: nat, uartWe: bool)

  /** What the rest of the chip shows on an edge: resets, a byte from
      caml_ml_output_char, the Ethernet side's status, the UART's, and the packet
      RAM's word at the address asked. */
  datatype Env = Env(resetn: bool, hold: bool, putc: Option<nat>, status: map<nat, nat>, uartDo: Option<nat>,
      uartWait: bool, pktWord: nat)

  const NO_BYTE: nat := 0xFFFF_FFFF
  const STAGE_WORDS: nat := 32768

  const RX_LENGTH: nat := 0x1002
  const TX_SEND: nat := 0x1003
  const LEDS: nat := 0x1004
  const UART: nat := 0x1005
  const BOOT: nat := 0x1007
  const UART_RX: nat := 0x1008

  predicate IsPacket(a: nat) { a < 0x1000 }
  predicate IsStage(a: nat) { 0x10000 <= a < 0x20000 }

  function LaneUnit(l: nat): nat {
    if l == 0 then 1 else if l == 1 then 0x100 else if l == 2 then 0x10000 else 0x1000000
  }

  function Lane(w: nat, l: nat): nat {
    if l == 0 then w % 256
    else if l == 1 then w / 0x100 % 256
    else if l == 2 then w / 0x10000 % 256
    else w / 0x1000000 % 256
  }

  /** One byte of the word replaced. */
  function SetLane(w: nat, l: nat, x: nat): nat {
    LaneFits(w, l);
    w - Lane(w, l) * LaneUnit(l) + x % 256 * LaneUnit(l)
  }

  lemma {:induction false} LaneFits(w: nat, l: nat)
    ensures Lane(w, l) * LaneUnit(l) <= w
  {
  }

  predicate New(io: Io, t: Trap, e: Env) {
    Asking(t) && io.phase == Idle && e.resetn && !e.hold
  }

  /** The status registers answer here; the rest of the addresses read zero. */
  function Status(io: Io, e: Env, addr: nat): nat
    requires |io.rx.mem| == SIZE
  {
    if addr == LEDS then io.leds
    else if addr == UART_RX then (if Empty(io.rx) then NO_BYTE else Head(io.rx))
    else if IsStatus(addr) && addr in e.status then e.status[addr] else 0
  }

  /** Ethernet flags and link, length, milliseconds, switches, build and buttons. */
  predicate IsStatus(addr: nat) {
    addr == 0x1000 || addr == 0x1001 || addr == RX_LENGTH || addr == 0x1006 || addr == 0x1009 || addr == 0x100a
        || addr == 0x100b
  }

  predicate Sized(io: Io) {
    Pointed(io.rx) && Pointed(io.tx) && |io.stage| == STAGE_WORDS
  }

  /** A queue of that size, with pointers of nine bits. */
  predicate Pointed(q: Queue) {
    |q.mem| == SIZE && q.wp < WRAP && q.rp < WRAP
  }

  function IoStep(io: Io, t: Trap, e: Env): (io': Io)
    requires Sized(io)
    ensures Sized(io')
  {
    var q := Queued(io, t, e).(ready := false, rxAck := false, txStart := false, boot := false, pop := false);
    var s := StagePort(io, t, e, q);
    if !e.resetn || e.hold then
      s.(phase := Idle, leds := if e.resetn then io.leds else 0, txLen := if e.resetn then io.txLen else 0)
    else if New(io, t, e) then Accepted(t, Status(io, e, t.addr), !Empty(io.rx), s.(lane := t.addr % 4))
    else Worked(io.phase, t, !Full(io.tx), Lane(io.pktQ, io.lane), Lane(io.stageQ, io.lane), s)
  }

  /** A request worked on, given whether the transmit queue has room and the bytes of both windows. */
  function Worked(phase: Phase, t: Trap, room: bool, pkt: nat, stage: nat, s: Io): (r: Io)
    ensures r == s.(phase := r.phase, ready := r.ready, result := r.result)
  {
    match phase
    case Idle => s
    case PktRead => s.(result := pkt, ready := true, phase := Done)
    case StageRead => s.(result := stage, ready := true, phase := Done)
    case Uart => if room then s.(ready := true, phase := Done) else s
    case Done => if t.valid then s else s.(phase := Idle)
  }

  /** A request accepted, given the status it reads and whether a byte has been received. */
  function Accepted(t: Trap, status: nat, received: bool, s: Io): (r: Io)
    ensures r == r.(rx := s.rx, tx := s.tx, uartByte := s.uartByte, uartWe := s.uartWe, stage := s.stage)
  {
    var write := t.prim == IO_WRITE;
    if IsPacket(t.addr) || IsStage(t.addr) then
      if !write then s.(phase := if IsPacket(t.addr) then PktRead else StageRead)
      else s.(ready := true, phase := Done)
    else if write && t.addr == UART then s.(phase := Uart)
    else
      s.(result := status, ready := true, phase := Done,
         pop := !write && t.addr == UART_RX && received,
         rxAck := write && t.addr == RX_LENGTH,
         txStart := write && t.addr == TX_SEND,
         txLen := if write && t.addr == TX_SEND then t.arg % 2048 else s.txLen,
         leds := if write && t.addr == LEDS then t.arg % 256 else s.leds,
         boot := write && t.addr == BOOT)
  }

  /** The staging RAM's program side, and the packet RAM's read register. */
  function StagePort(io: Io, t: Trap, e: Env, s: Io): (r: Io)
    requires |io.stage| == STAGE_WORDS == |s.stage|
    ensures |r.stage| == STAGE_WORDS && r == s.(stageQ := r.stageQ, pktQ := r.pktQ, stage := r.stage)
  {
    var word := t.addr / 4 % 16384;
    if New(io, t, e) && IsStage(t.addr) then
      s.(stageQ := io.stage[word], stage := if t.prim == IO_WRITE then Stored(io.stage, t.addr, t.arg) else io.stage)
    else if New(io, t, e) && IsPacket(t.addr) && t.prim == IO_READ then s.(pktQ := e.pktWord)
    else s
  }

  function Stored(stage: seq<nat>, addr: nat, x: nat): (s: seq<nat>)
    requires |stage| == STAGE_WORDS
    ensures |s| == STAGE_WORDS
  {
    stage[addr / 4 % 16384 := SetLane(stage[addr / 4 % 16384], addr % 4, x)]
  }

  // ---- the queues ----

  predicate Takes(io: Io, e: Env) {
    e.uartDo.Some? && !Full(io.rx)
  }

  /** The byte offered to the transmit queue, if any: caml_ml_output_char wins. */
  function Offered(io: Io, t: Trap, e: Env): Option<nat> {
    if e.putc.Some? then Some(e.putc.value % 256)
    else if io.phase == Uart && !Full(io.tx) then Some(t.arg % 256) else None
  }

  predicate Pushes(io: Io, t: Trap, e: Env) {
    Offered(io, t, e).Some? && !Full(io.tx)
  }

  /** The UART is given a byte when it has none. */
  predicate Gives(io: Io) {
    !io.uartWe && !Empty(io.tx)
  }

  /** The queues' edge leaves the rest alone. */
  function Queued(io: Io, t: Trap, e: Env): (q: Io)
    requires Pointed(io.rx) && Pointed(io.tx)
    ensures q == io.(rx := q.rx, tx := q.tx, uartByte := q.uartByte, uartWe := q.uartWe)
    ensures Pointed(q.rx) && Pointed(q.tx)
  {
    if !e.resetn then
      io.(rx := io.rx.(wp := 0, rp := 0), tx := io.tx.(wp := 0, rp := 0), uartWe := false)
    else
      io.(rx := Clocked(io.rx, Takes(io, e), if e.uartDo.Some? then e.uartDo.value % 256 else 0, io.pop),
          tx := Clocked(io.tx, Pushes(io, t, e), if Pushes(io, t, e) then Offered(io, t, e).value else 0, Gives(io)),
          uartByte := if Gives(io) then Head(io.tx) else io.uartByte,
          uartWe := if io.uartWe then e.uartWait else !Empty(io.tx))
  }

  // ---- what has passed ----

  /** A byte the program outputs, and whether the transmit queue had room for it. */
  datatype Char = Char(byte: nat, room: bool)

  /** The staging RAM as the program sees it, a byte an address. */
  type Staged = b: seq<nat> | |b| == 0x10000 witness seq(0x10000, i => 0)

  /** Counts of requests raised, answered and dropped by a reset; bytes taken from
      the UART and given to the program in answers; every byte the program output,
      those the transmit queue accepted, and those the UART took; and what the
      answered requests have written to the staging RAM, the lamps and the length of
      the packet to send. */
  datatype Past = Past(asked: nat, answered: nat, dropped: nat, taken: seq<nat>, given: seq<nat>,
                       output: seq<Char>, accepted: seq<nat>, sent: seq<nat>, staged: Staged, lamps: nat, length: nat)

  /** Before anything has passed, over a staging RAM with something in it. */
  function Nothing(stage: seq<nat>): Past
    requires |stage| == STAGE_WORDS
  {
    Past(0, 0, 0, [], [], [], [], [], View(stage), 0, 0)
  }

  function View(stage: seq<nat>): Staged
    requires |stage| == STAGE_WORDS
  {
    seq(0x10000, a requires 0 <= a < 0x10000 => Lane(stage[a / 4], a % 4))
  }

  /** What an answered request leaves behind. */
  function Effect(p: Past, t: Trap): Past {
    p.(staged := if t.prim == IO_WRITE && IsStage(t.addr) then p.staged[t.addr - 0x10000 := t.arg % 256] else p.staged,
       lamps := if t.prim == IO_WRITE && t.addr == LEDS then t.arg % 256 else p.lamps,
       length := if t.prim == IO_WRITE && t.addr == TX_SEND then t.arg % 2048 else p.length)
  }

  /** The bytes output, and those of them output when there was room. */
  function Bytes(o: seq<Char>): (b: seq<nat>)
    ensures |b| == |o|
  {
    seq(|o|, i requires 0 <= i < |o| => o[i].byte)
  }

  function Kept(o: seq<Char>): (b: seq<nat>)
    ensures |b| <= |o|
  {
    if o == [] then []
    else Kept(o[..|o| - 1]) + if o[|o| - 1].room then [o[|o| - 1].byte] else []
  }

  function Count(b: bool): nat { if b then 1 else 0 }

  function Room(q: Queue): bool
    requires Pointed(q)
  {
    Held(q) < SIZE
  }

  /** The bytes that move on an edge, at most one in each place: the UART's is taken
      when there is room. */
  function Arrives(io: Io, e: Env): seq<nat>
    requires Sized(io)
  {
    if e.uartDo.Some? && Room(io.rx) then [e.uartDo.value % 256] else []
  }

  /** The byte in the answer register, when the answer to a read of the UART is up. */
  function Gets(io: Io, t: Trap): seq<nat> {
    if io.ready && t.prim == IO_READ && t.addr == UART_RX && io.result < 256 then [io.result] else []
  }

  /** A character is output on the edge that shows it, room or no room; a UART
      request outputs its byte when there is room. */
  function Outputs(io: Io, t: Trap, e: Env): seq<Char>
    requires Sized(io)
  {
    (if io.phase == Uart && !e.hold && Room(io.tx) then [Char(t.arg % 256, true)] else [])
    + (if e.putc.Some? then [Char(e.putc.value % 256, Room(io.tx))] else [])
  }

  /** The character output on this edge finds the queue full. */
  predicate Loses(io: Io, e: Env)
    requires Sized(io)
  {
    e.putc.Some? && !Room(io.tx)
  }

  function Accepts(io: Io, t: Trap, e: Env): seq<nat> {
    if Pushes(io, t, e) then [Offered(io, t, e).value] else []
  }

  function Leaves(io: Io, e: Env): seq<nat> {
    if io.uartWe && !e.uartWait then [io.uartByte] else []
  }

  function Happened(was: Past, io: Io, t: Trap, e: Env, raised: Option<Trap>): Past
    requires Sized(io)
  {
    var reset := !e.resetn || e.hold;
    var p := Settled(was, io, t);
    var c := p.(asked := p.asked + Count(!reset && !t.valid && raised.Some? && Asking(raised.value)),
                answered := p.answered + Count(Asking(t) && !reset && io.ready),
                dropped := p.dropped + Count(Asking(t) && reset));
    if !e.resetn then c.(taken := [], given := [], output := [], accepted := [], sent := [], lamps := 0, length := 0)
    else c.(taken := p.taken + Arrives(io, e), given := p.given + Gets(io, t),
            output := p.output + Outputs(io, t, e),
            accepted := p.accepted + Accepts(io, t, e), sent := p.sent + Leaves(io, e))
  }

  /** The effect of a request is there once its answer is up. */
  function Settled(p: Past, io: Io, t: Trap): Past {
    if io.ready then Effect(p, t) else p
  }

  /** The processor does not output a character while it waits for an answer, nor
      does a reset catch it waiting for the transmit queue. */
  predicate Quiet(io: Io, e: Env) {
    io.phase == Uart ==> e.putc.None? && !e.hold
  }

  // ---- the invariant ----

  /** The machine's phase says where the request stands, and every pulse comes with
      the answer to the request it belongs to, and only then. */
  ghost predicate Handshake(io: Io, t: Trap) {
    && (io.phase == Idle ==> !io.ready)
    && (io.phase == PktRead || io.phase == StageRead || io.phase == Uart ==> Asking(t) && !io.ready)
    && (io.phase == Done ==> io.ready == t.valid && (t.valid ==> IsIo(t)))
    && (io.phase == Uart ==> t.prim == IO_WRITE && t.addr == UART)
    && (io.phase == PktRead || io.phase == StageRead ==> t.prim == IO_READ && t.addr != UART_RX)
    && (io.boot <==> io.ready && t.prim == IO_WRITE && t.addr == BOOT)
    && (io.rxAck <==> io.ready && t.prim == IO_WRITE && t.addr == RX_LENGTH)
    && (io.txStart <==> io.ready && t.prim == IO_WRITE && t.addr == TX_SEND)
    && (io.txStart ==> io.txLen == t.arg % 2048)
    && (io.pop <==> io.ready && t.prim == IO_READ && t.addr == UART_RX && io.result < 256)
  }

  ghost predicate InBytes(m: seq<nat>) { forall k :: 0 <= k < |m| ==> m[k] < 256 }

  /** Words of the staging RAM's width. */
  ghost predicate InWords(m: seq<nat>) { forall k :: 0 <= k < |m| ==> m[k] < 0x1_0000_0000 }

  ghost predicate Queues(io: Io) {
    && Fifo.Valid(io.rx) && Fifo.Valid(io.tx) && |io.stage| == STAGE_WORDS && InBytes(io.rx.mem) && InWords(io.stage)
    && (io.pop ==> !Empty(io.rx) && io.result == Head(io.rx))
  }

  /** Bytes accepted and not yet sent. */
  function Unsent(io: Io): seq<nat>
    requires Fifo.Valid(io.tx)
  {
    (if io.uartWe then [io.uartByte] else []) + Contents(io.tx)
  }

  ghost predicate Balanced(p: Past, io: Io, t: Trap)
    requires Queues(io)
  {
    && p.asked == p.answered + p.dropped + Count(Asking(t))
    && p.taken == p.given + Contents(io.rx)
    && p.accepted == p.sent + Unsent(io)
    && p.accepted == Kept(p.output)
    && Remembered(p, io, t)
  }

  /** The staging RAM, the lamps and the length hold what the answered requests have written. */
  ghost predicate Remembered(p: Past, io: Io, t: Trap)
    requires |io.stage| == STAGE_WORDS
  {
    && View(io.stage) == Settled(p, io, t).staged
    && io.leds == Settled(p, io, t).lamps && io.txLen == Settled(p, io, t).length
  }

  // ---- every edge keeps it ----

  lemma {:induction false} HandshakeStep(io: Io, t: Trap, e: Env, raised: Option<Trap>)
    requires Handshake(io, t) && Queues(io)
    ensures Handshake(IoStep(io, t, e), TrapStep(t, io.ready, !e.resetn || e.hold, raised))
  {
    hide Clocked, Full, Stored, Lane, Status, Queued, StagePort, Accepted, Worked, Handshake;
    var q := Queued(io, t, e).(ready := false, rxAck := false, txStart := false, boot := false, pop := false);
    var s := StagePort(io, t, e, q);
    if !e.resetn || e.hold {
      ResetShakes(IoStep(io, t, e), TrapStep(t, io.ready, true, raised));
    } else if New(io, t, e) {
      StatusByte(io, e);
      AcceptShakes(io, t, Status(io, e, t.addr), !Empty(io.rx), s.(lane := t.addr % 4));
    } else {
      WorkShakes(io, t, !Full(io.tx), Lane(io.pktQ, io.lane), Lane(io.stageQ, io.lane), s, raised);
    }
  }

  /** No pulse is up, as before an edge's own decisions. */
  predicate Still(s: Io) {
    !s.ready && !s.rxAck && !s.txStart && !s.boot && !s.pop
  }

  lemma {:induction false} ResetShakes(s: Io, t: Trap)
    requires s.phase == Idle && Still(s)
    ensures Handshake(s, t)
  {
  }

  lemma {:induction false} AcceptShakes(io: Io, t: Trap, status: nat, received: bool, s: Io)
    requires Handshake(io, t) && io.phase == Idle && Asking(t) && Still(s)
    requires t.addr == UART_RX ==> (status < 256 <==> received)
    ensures !io.ready && Handshake(Accepted(t, status, received, s), t)
  {
  }

  lemma {:induction false} WorkShakes(io: Io, t: Trap, room: bool, pkt: nat, stage: nat, s: Io, raised: Option<Trap>)
    requires Handshake(io, t) && s.phase == io.phase && Still(s)
    ensures Handshake(Worked(io.phase, t, room, pkt, stage, s), TrapStep(t, io.ready, false, raised))
  {
  }

  lemma {:induction false} StatusByte(io: Io, e: Env)
    requires Queues(io)
    ensures Status(io, e, UART_RX) < 256 <==> !Empty(io.rx)
  {
  }

  /** The receive queue's edge. */
  lemma {:induction false} RxEdge(io: Io, t: Trap, e: Env)
    requires Queues(io) && Handshake(io, t) && e.resetn
    ensures var rx := Queued(io, t, e).rx;
      Fifo.Valid(rx) && InBytes(rx.mem) && Contents(io.rx) + Arrives(io, e) == Gets(io, t) + Contents(rx)
  {
    hide Contents, Empty, Head;
    var x := if e.uartDo.Some? then e.uartDo.value % 256 else 0;
    RoomIs(io.rx);
    hide Full;
    Fifo.Queues(io.rx, Takes(io, e), x, io.pop);
    Flags(io.rx);
    if io.pop {
      assert Contents(io.rx) == [Head(io.rx)] + Contents(io.rx)[1..];
    }
  }

  lemma {:induction false} RoomIs(q: Queue)
    requires Fifo.Valid(q)
    ensures Room(q) == !Full(q)
  {
    Flags(q);
  }

  /** The transmit queue's, with the register behind it. */
  lemma {:induction false} TxEdge(io: Io, t: Trap, e: Env)
    requires Queues(io) && e.resetn
    ensures var q := Queued(io, t, e);
      Fifo.Valid(q.tx) && Unsent(io) + Accepts(io, t, e) == Leaves(io, e) + Unsent(q)
  {
    var q := Queued(io, t, e);
    Fifo.Queues(io.tx, Pushes(io, t, e), if Pushes(io, t, e) then Offered(io, t, e).value else 0, Gives(io));
    Flags(io.tx);
    hide Full, Contents, Empty, Fifo.Valid, Held, Clocked, Head, Offered;
    if Gives(io) {
      assert Contents(io.tx) == [Head(io.tx)] + Contents(io.tx)[1..];
    }
  }

  lemma {:induction false} TxBalanced(io: Io, t: Trap, e: Env, io': Io)
    requires Queues(io) && Handshake(io, t) && e.resetn && io' == IoStep(io, t, e) && Queues(io')
    ensures Unsent(io) + Accepts(io, t, e) == Leaves(io, e) + Unsent(io')
  {
    IoQueues(io, t, e);
    TxEdge(io, t, e);
    hide IoStep, Queued, Contents, Empty, Full, New;
  }

  /** The machine's edge leaves the queues as their own edge does. */
  lemma {:induction false} IoQueues(io: Io, t: Trap, e: Env)
    requires Queues(io) && Handshake(io, t)
    ensures var io', q := IoStep(io, t, e), Queued(io, t, e);
      && io'.rx == q.rx && io'.tx == q.tx && io'.uartByte == q.uartByte && io'.uartWe == q.uartWe
      && (io'.pop <==> New(io, t, e) && t.prim == IO_READ && t.addr == UART_RX && !Empty(io.rx))
      && (io'.pop ==> !io.pop && io'.result == Head(io.rx))
  {
    hide Queued, Full, Empty, Lane, Fifo.Valid, InBytes, InWords;
  }

  lemma {:induction false} RxBalanced(io: Io, t: Trap, e: Env, io': Io)
    requires Queues(io) && Handshake(io, t) && e.resetn && io' == IoStep(io, t, e)
    ensures Fifo.Valid(io'.rx) && Contents(io.rx) + Arrives(io, e) == Gets(io, t) + Contents(io'.rx)
  {
    IoQueues(io, t, e);
    RxEdge(io, t, e);
  }

  /** What an edge does to the staging RAM and the lamps. */
  lemma {:induction false} IoMemory(io: Io, t: Trap, e: Env)
    requires Sized(io) && Handshake(io, t)
    ensures var io', writes := IoStep(io, t, e), New(io, t, e) && t.prim == IO_WRITE;
      && io'.stage == (if writes && IsStage(t.addr) then Stored(io.stage, t.addr, t.arg) else io.stage)
      && io'.leds == (if !e.resetn then 0 else if writes && t.addr == LEDS then t.arg % 256 else io.leds)
      && io'.txLen == (if !e.resetn then 0 else if writes && t.addr == TX_SEND then t.arg % 2048 else io.txLen)
      && (t.prim == IO_WRITE && (IsStage(t.addr) || t.addr == LEDS || t.addr == TX_SEND) ==> io'.ready == New(io, t, e))
      && (io'.ready ==> e.resetn && !e.hold && !io.ready)
  {
    hide Queued, Full, Empty, Lane, Status, Stored;
  }

  /** A byte stored is a byte of the view changed. */
  lemma {:induction false} ViewStored(stage: seq<nat>, addr: nat, x: nat)
    requires |stage| == STAGE_WORDS && InWords(stage) && IsStage(addr)
    ensures InWords(Stored(stage, addr, x)) && View(Stored(stage, addr, x)) == View(stage)[addr - 0x10000 := x % 256]
  {
    hide Lane, SetLane;
    var a := addr - 0x10000;
    StageWord(addr);
    assert Stored(stage, addr, x) == Stored(stage, a, x);
    forall b | 0 <= b < 0x10000
      ensures View(Stored(stage, addr, x))[b] == View(stage)[a := x % 256][b]
    {
      StoredReadsBack(stage, a, x, b);
    }
    StoredReadsBack(stage, a, x, a);
  }

  /** The word and the lane of an address of the staging window. */
  lemma {:induction false} StageWord(addr: nat)
    requires IsStage(addr)
    ensures addr / 4 % 16384 == (addr - 0x10000) / 4 && addr % 4 == (addr - 0x10000) % 4
  {
  }

  lemma {:induction false} StageKept(io: Io, t: Trap, e: Env)
    requires Queues(io) && Handshake(io, t)
    ensures InWords(IoStep(io, t, e).stage) && |IoStep(io, t, e).stage| == STAGE_WORDS
  {
    IoMemory(io, t, e);
    if New(io, t, e) && t.prim == IO_WRITE && IsStage(t.addr) {
      ViewStored(io.stage, t.addr, t.arg);
    }
    hide IoStep, Stored, View, InWords;
  }

  /** Every edge leaves in the staging RAM and the lamps what has been written. */
  lemma {:induction false} RememberedStep(p: Past, io: Io, t: Trap, e: Env, raised: Option<Trap>)
    requires Queues(io) && Handshake(io, t) && Remembered(p, io, t)
    ensures var io', t' := IoStep(io, t, e), TrapStep(t, io.ready, !e.resetn || e.hold, raised);
      |io'.stage| == STAGE_WORDS && Remembered(Happened(p, io, t, e, raised), io', t')
  {
    IoMemory(io, t, e);
    if New(io, t, e) && t.prim == IO_WRITE && IsStage(t.addr) {
      ViewStored(io.stage, t.addr, t.arg);
    }
    hide IoStep, View, Handshake, Stored, Gets, Arrives, Outputs, Accepts, Leaves, Fifo.Valid, Head;
  }

  /** A byte is popped only when one is there, and is the one in the answer. */
  lemma {:induction false} QueuesStep(io: Io, t: Trap, e: Env)
    requires Queues(io) && Handshake(io, t)
    ensures Queues(IoStep(io, t, e))
  {
    StageKept(io, t, e);
    IoQueues(io, t, e);
    if e.resetn {
      RxEdge(io, t, e);
      TxEdge(io, t, e);
      hide IoStep, Queued, Head, Contents, Empty, Fifo.Valid;
      Flags(io.rx);
      Flags(IoStep(io, t, e).rx);
    } else {
      ResetEmpties(io, t, e);
    }
  }

  /** What is output is accepted, but for a character that finds the queue full:
      that one is lost. */
  lemma {:induction false} OutputAccepted(io: Io, t: Trap, e: Env)
    requires Fifo.Valid(io.tx) && Sized(io) && Quiet(io, e)
    ensures Accepts(io, t, e) == Kept(Outputs(io, t, e))
    ensures Accepts(io, t, e) == Bytes(Outputs(io, t, e)) <==> !Loses(io, e)
  {
    RoomIs(io.tx);
    hide Full, Room;
    var o := Outputs(io, t, e);
    assert o != [] ==> o[..|o| - 1] == [];
  }

  lemma {:induction false} KeptConcat(a: seq<Char>, b: seq<Char>)
    ensures Kept(a + b) == Kept(a) + Kept(b)
  {
    if b == [] {
      assert a + b == a;
    } else {
      assert (a + b)[..|a + b| - 1] == a + b[..|b| - 1];
      KeptConcat(a, b[..|b| - 1]);
    }
  }

  /** Nothing is lost exactly when every byte found room. */
  lemma {:induction false} KeptAll(o: seq<Char>)
    ensures Kept(o) == Bytes(o) <==> forall i :: 0 <= i < |o| ==> o[i].room
    ensures |Kept(o)| == |o| <==> forall i :: 0 <= i < |o| ==> o[i].room
  {
    if o != [] {
      var before := o[..|o| - 1];
      KeptAll(before);
      assert Bytes(o) == Bytes(before) + [o[|o| - 1].byte];
      assert forall i :: 0 <= i < |before| ==> before[i] == o[i];
      if o[|o| - 1].room && Kept(o) == Bytes(o) {
        assert Kept(o)[..|o| - 1] == Kept(before) && Bytes(o)[..|o| - 1] == Bytes(before);
      }
    }
  }

  lemma {:induction false} Regroup(a: seq<nat>, b: seq<nat>, x: seq<nat>, c: seq<nat>, y: seq<nat>, d: seq<nat>)
    requires a == b + c && c + x == y + d
    ensures a + x == (b + y) + d
  {
    assert (b + c) + x == b + (c + x) && (b + y) + d == b + (y + d);
  }

  /** Every edge keeps the handshake, the queues and the balance: each request is
      answered once unless a reset drops it; no byte received or accepted is lost,
      repeated or moved; and of those output only the ones that find no room. */
  lemma {:induction false} BalancedStep(p: Past, io: Io, t: Trap, e: Env, raised: Option<Trap>)
    requires Queues(io) && Handshake(io, t) && Balanced(p, io, t) && Quiet(io, e)
    ensures var io', t' := IoStep(io, t, e), TrapStep(t, io.ready, !e.resetn || e.hold, raised);
      Queues(io') && Handshake(io', t') && Balanced(Happened(p, io, t, e, raised), io', t')
  {
    hide IoStep, Unsent, Arrives, Gets, Outputs, Accepts, Leaves, Handshake, Kept, Contents, Remembered, InBytes,
         InWords;
    HandshakeStep(io, t, e, raised);
    RememberedStep(p, io, t, e, raised);
    QueuesStep(io, t, e);
    var io' := IoStep(io, t, e);
    if e.resetn {
      RxBalanced(io, t, e, io');
      TxBalanced(io, t, e, io');
      OutputAccepted(io, t, e);
      KeptConcat(p.output, Outputs(io, t, e));
      Regroup(p.taken, p.given, Arrives(io, e), Contents(io.rx), Gets(io, t), Contents(io'.rx));
      Regroup(p.accepted, p.sent, Accepts(io, t, e), Unsent(io), Leaves(io, e), Unsent(io'));
    } else {
      ResetEmpties(io, t, e);
      NothingHeld(io');
    }
  }

  lemma {:induction false} NothingHeld(io: Io)
    requires Queues(io) && Contents(io.tx) == [] && !io.uartWe
    ensures Unsent(io) == [] && Kept([]) == []
  {
  }

  lemma {:induction false} ResetEmpties(io: Io, t: Trap, e: Env)
    requires Sized(io) && InBytes(io.rx.mem) && InWords(io.stage) && !e.resetn
    ensures var io' := IoStep(io, t, e);
      && Queues(io') && Contents(io'.rx) == [] && Contents(io'.tx) == [] && !io'.uartWe
      && io'.stage == io.stage && io'.leds == 0 == io'.txLen && io'.phase == Idle && Still(io')
  {
  }

  // ---- over every run, from a reset ----

  datatype Edge = Edge(e: Env, raised: Option<Trap>)

  datatype Board = Board(io: Io, trap: Trap, past: Past)

  function BoardStep(b: Board, x: Edge): (b': Board)
    requires Sized(b.io)
    ensures Sized(b'.io)
  {
    Board(IoStep(b.io, b.trap, x.e), TrapStep(b.trap, b.io.ready, !x.e.resetn || x.e.hold, x.raised),
          Happened(b.past, b.io, b.trap, x.e, x.raised))
  }

  function BoardRun(b: Board, run: seq<Edge>): (b': Board)
    requires Sized(b.io)
    ensures Sized(b'.io)
    decreases |run|
  {
    if run == [] then b else BoardRun(BoardStep(b, run[0]), run[1..])
  }

  /** Every edge of the run is quiet where it comes. */
  predicate QuietRun(b: Board, run: seq<Edge>)
    requires Sized(b.io)
    decreases |run|
  {
    run == [] || (Quiet(b.io, run[0].e) && QuietRun(BoardStep(b, run[0]), run[1..]))
  }

  ghost predicate Inv(b: Board) {
    Queues(b.io) && Handshake(b.io, b.trap) && Balanced(b.past, b.io, b.trap)
  }

  /** The theorem, over every quiet run: as many answers as requests, but for one
      that may be waiting and those a reset dropped; no answer without a request;
      both queues hold at most 256 bytes; what the program has been given is a
      prefix of what was taken from the UART; and what was sent is a prefix of what
      was accepted, which is what the program output less the characters that found
      the queue full. */
  lemma {:induction false} PortCorrect(b: Board, run: seq<Edge>)
    requires Sized(b.io) && Inv(b) && QuietRun(b, run)
    ensures var b' := BoardRun(b, run);
      && Inv(b')
      && b'.past.asked == b'.past.answered + b'.past.dropped + Count(Asking(b'.trap))
      && (b'.io.ready ==> Asking(b'.trap))
      && Held(b'.io.rx) <= SIZE && Held(b'.io.tx) <= SIZE
      && b'.past.given <= b'.past.taken && b'.past.sent <= b'.past.accepted == Kept(b'.past.output)
    decreases |run|
  {
    hide BoardStep, Unsent, View;
    if run != [] {
      QuietKeeps(b, run[0]);
      PortCorrect(BoardStep(b, run[0]), run[1..]);
    }
  }

  lemma {:induction false} QuietKeeps(b: Board, x: Edge)
    requires Sized(b.io) && Inv(b) && Quiet(b.io, x.e)
    ensures Inv(BoardStep(b, x))
  {
    BalancedStep(b.past, b.io, b.trap, x.e, x.raised);
  }

  /** A reset establishes the invariant, whatever the registers held, once the
      processor and the board's pulses have seen it. */
  lemma {:induction false} ResetStarts(io: Io, t: Trap, e: Env)
    requires Sized(io) && !e.resetn && InBytes(io.rx.mem) && InWords(io.stage)
    ensures Inv(Board(IoStep(io, t, e), TrapStep(t, io.ready, true, None), Nothing(io.stage)))
  {
    hide IoStep, View, Queues;
    ResetEmpties(io, t, e);
    NothingHeld(IoStep(io, t, e));
  }

  // ---- exactly what is lost ----

  /** No edge of the run outputs a character that finds the queue full. */
  predicate Roomy(b: Board, run: seq<Edge>)
    requires Sized(b.io)
    decreases |run|
  {
    run == [] || (!Loses(b.io, run[0].e) && Roomy(BoardStep(b, run[0]), run[1..]))
  }

  predicate Unreset(run: seq<Edge>) {
    forall k :: 0 <= k < |run| ==> run[k].e.resetn
  }

  ghost predicate Lossless(p: Past) {
    p.accepted == Bytes(p.output)
  }

  /** Over every quiet run without a reset, everything output is accepted exactly
      when no character is output while the queue is full. */
  lemma {:induction false} LosslessIff(b: Board, run: seq<Edge>)
    requires Sized(b.io) && Inv(b) && QuietRun(b, run) && Unreset(run)
    ensures Lossless(BoardRun(b, run).past) <==> Lossless(b.past) && Roomy(b, run)
    decreases |run|
  {
    hide BoardStep, Inv, Quiet, Bytes;
    if run != [] {
      LosslessStep(b, run[0]);
      QuietKeeps(b, run[0]);
      LosslessIff(BoardStep(b, run[0]), run[1..]);
    }
  }

  lemma {:induction false} LosslessStep(b: Board, x: Edge)
    requires Sized(b.io) && Inv(b) && Quiet(b.io, x.e) && x.e.resetn
    ensures Lossless(BoardStep(b, x).past) <==> Lossless(b.past) && !Loses(b.io, x.e)
  {
    var o := Outputs(b.io, b.trap, x.e);
    OutputAccepted(b.io, b.trap, x.e);
    AllKept(b.past.output, o);
    QuietKeeps(b, x);
  }

  lemma {:induction false} AllKept(a: seq<Char>, b: seq<Char>)
    ensures Kept(a + b) == Bytes(a + b) <==> Kept(a) == Bytes(a) && Kept(b) == Bytes(b)
  {
    hide Kept, Bytes;
    KeptAll(a);
    KeptAll(b);
    KeptAll(a + b);
    assert forall i :: 0 <= i < |a| ==> (a + b)[i] == a[i];
    assert forall i :: 0 <= i < |b| ==> (a + b)[|a| + i] == b[i];
  }

  /** Over every quiet run from a history without output: more bytes output than
      sent, the queue and the register can hold, is bytes lost. */
  lemma {:induction false} OverrunLoses(b: Board, run: seq<Edge>)
    requires Sized(b.io) && Inv(b) && QuietRun(b, run) && Unreset(run) && b.past.output == []
    requires var p := BoardRun(b, run).past; |p.output| > |p.sent| + 257
    ensures !Lossless(BoardRun(b, run).past) && !Roomy(b, run)
  {
    hide BoardRun, BoardStep, Handshake, Fifo.Valid, Remembered;
    PortCorrect(b, run);
    LosslessIff(b, run);
    var b' := BoardRun(b, run);
    assert |b'.past.accepted| <= |b'.past.sent| + 257;
  }

  /** The UART busy and the processor without a request, but now and then with a character. */
  predicate Typing(run: seq<Edge>) {
    forall k :: 0 <= k < |run| ==> run[k].e.resetn && run[k].e.uartWait && run[k].raised.None?
  }

  function Chars(run: seq<Edge>): nat {
    if run == [] then 0 else Count(run[0].e.putc.Some?) + Chars(run[1..])
  }

  lemma {:induction false} TypingStep(b: Board, x: Edge)
    requires Sized(b.io) && Inv(b) && !b.trap.valid && Typing([x])
    ensures Quiet(b.io, x.e)
    ensures var b' := BoardStep(b, x);
      !b'.trap.valid && b'.past.sent == b.past.sent && |b'.past.output| == |b.past.output| + Count(x.e.putc.Some?)
  {
    assert [x][0] == x;
  }

  lemma {:induction false} TypingRun(b: Board, run: seq<Edge>)
    requires Sized(b.io) && Inv(b) && !b.trap.valid && Typing(run)
    ensures QuietRun(b, run)
    ensures var b' := BoardRun(b, run); b'.past.sent == b.past.sent && |b'.past.output| == |b.past.output| + Chars(run)
    decreases |run|
  {
    hide BoardStep, Inv, Quiet, Count;
    if run != [] {
      TypingStep(b, run[0]);
      QuietKeeps(b, run[0]);
      TypingRun(BoardStep(b, run[0]), run[1..]);
    }
  }

  /** And characters are lost: 258 of them, however far apart, while the UART is busy
      overrun the queue, from any state in which nothing has been output yet. */
  lemma {:induction false} TypingLoses(b: Board, run: seq<Edge>)
    requires Sized(b.io) && Inv(b) && b.past.output == [] && !b.trap.valid && Typing(run) && Chars(run) >= 258
    ensures QuietRun(b, run) && !Lossless(BoardRun(b, run).past) && !Roomy(b, run)
  {
    hide BoardRun, BoardStep, Inv;
    TypingRun(b, run);
    assert b.past.sent == [] by { NoneSent(b); }
    OverrunLoses(b, run);
  }

  lemma {:induction false} NoneSent(b: Board)
    requires Inv(b) && b.past.output == []
    ensures b.past.sent == []
  {
  }

  // ---- what is accepted is sent ----

  /** An edge on which the UART is free takes the byte in its register, or fills it. */
  lemma {:induction false} SendStep(b: Board, x: Edge)
    requires Sized(b.io) && Inv(b) && x.e.resetn && !x.e.uartWait
    ensures var b' := BoardStep(b, x);
      && b'.past.sent == b.past.sent + (if b.io.uartWe then [b.io.uartByte] else [])
      && b'.io.uartWe == (!b.io.uartWe && Contents(b.io.tx) != [])
      && |b'.past.accepted| >= |b.past.accepted|
  {
    hide Handshake, Contents, View, Status, Lane, Full, Outputs, Offered;
    IoQueues(b.io, b.trap, x.e);
    Flags(b.io.tx);
  }

  /** So while it stays free, a byte goes every two edges until all are sent. */
  lemma {:induction false} Drains(b: Board, run: seq<Edge>, n: nat)
    requires Sized(b.io) && Inv(b) && QuietRun(b, run) && Unreset(run)
    requires forall k :: 0 <= k < |run| ==> !run[k].e.uartWait
    requires n <= |Unsent(b.io)| && |run| == 2 * n
    ensures |BoardRun(b, run).past.sent| == |b.past.sent| + n
    decreases n
  {
    hide BoardStep, Handshake, Contents, Fifo.Valid, Remembered;
    if n > 0 {
      var b1 := BoardStep(b, run[0]);
      SendStep(b, run[0]);
      QuietKeeps(b, run[0]);
      var b2 := BoardStep(b1, run[1]);
      SendStep(b1, run[1]);
      QuietKeeps(b1, run[1]);
      assert run[1..][1..] == run[2..] && run[1..][0] == run[1];
      Drains(b2, run[2..], n - 1);
    }
  }

  // ---- each request is served ----

  predicate Windowed(t: Trap) {
    t.prim == IO_READ && (IsPacket(t.addr) || IsStage(t.addr))
  }

  predicate ToUart(t: Trap) {
    t.prim == IO_WRITE && t.addr == UART
  }

  /** What the request reads, given what has passed: a byte of the packet RAM's word,
      the byte last written there, the lamps as last written, the first byte taken and
      not yet given, or the status. */
  function Reply(p: Past, t: Trap, e: Env): nat {
    if IsPacket(t.addr) then Lane(e.pktWord, t.addr % 4)
    else if IsStage(t.addr) then p.staged[t.addr - 0x10000]
    else if t.addr == LEDS then p.lamps
    else if t.addr == UART_RX then (if |p.given| < |p.taken| then p.taken[|p.given|] else NO_BYTE)
    else if t.addr in STATUS && t.addr in e.status then e.status[t.addr]
    else 0
  }

  /** The board's registers: Ethernet flags, link and length, milliseconds, switches,
      build and buttons. */
  const STATUS: set<nat> := {0x1000, 0x1001, 0x1002, 0x1006, 0x1009, 0x100a, 0x100b}

  /** Where the processor's request stands: none, raised, under way with what it will
      read, or answered. */
  datatype Owed = Free | Raised | Underway(reply: nat) | Up

  /** A request raised is answered on the next edge; but one that reads a window takes
      an edge more, and one that writes the UART is answered on the first edge with
      room after that.  A reset drops it. */
  function NextOwed(b: Board, owed: Owed, x: Edge): Owed
    requires Sized(b.io)
  {
    if !x.e.resetn || x.e.hold then Free
    else
      match owed
      case Free => if Asking(BoardStep(b, x).trap) then Raised else Free
      case Raised => if Windowed(b.trap) || ToUart(b.trap) then Underway(Reply(b.past, b.trap, x.e)) else Up
      case Underway(_) => if ToUart(b.trap) && !Room(b.io.tx) then owed else Up
      case Up => Free
  }

  /** Ready means an answer, and nothing else: to a read what it is owed, to a write of
      the UART that its byte is accepted; and the request is then gone. */
  predicate Answers(b: Board, owed: Owed, x: Edge)
    requires Sized(b.io)
  {
    var t, b' := b.trap, BoardStep(b, x);
    && b'.io.ready == NextOwed(b, owed, x).Up?
    && (!x.e.resetn || x.e.hold || owed.Up? ==> !Asking(b'.trap))
    && (b'.io.ready && owed.Raised? && t.prim == IO_READ ==> b'.io.result == Reply(b.past, t, x.e))
    && (b'.io.ready && owed.Underway? && Windowed(t) ==> b'.io.result == owed.reply)
    && (b'.io.ready && ToUart(t) ==> b'.past.accepted == b.past.accepted + [t.arg % 256])
  }

  /** The port as the processor sees it, over a run. */
  predicate Serves(b: Board, owed: Owed, run: seq<Edge>)
    requires Sized(b.io)
    decreases |run|
  {
    run == [] || (Answers(b, owed, run[0]) && Serves(BoardStep(b, run[0]), NextOwed(b, owed, run[0]), run[1..]))
  }

  /** Where a request can be. */
  ghost predicate Owes(b: Board, owed: Owed) {
    && Sized(b.io) && Inv(b)
    && match owed
       case Free => !Asking(b.trap)
       case Raised => Asking(b.trap) && b.io.phase == Idle
       case Underway(reply) =>
         if ToUart(b.trap) then b.io.phase == Uart
         else if b.io.phase == PktRead then reply == Lane(b.io.pktQ, b.io.lane)
         else b.io.phase == StageRead && reply == Lane(b.io.stageQ, b.io.lane)
       case Up => b.io.ready
  }

  lemma {:induction false} OwesServes(b: Board, owed: Owed, run: seq<Edge>)
    requires Owes(b, owed) && QuietRun(b, run)
    ensures Serves(b, owed, run)
    decreases |run|
  {
    hide BoardStep, Inv, NextOwed, Answers;
    if run != [] {
      OwedStep(b, owed, run[0]);
      OwesServes(BoardStep(b, run[0]), NextOwed(b, owed, run[0]), run[1..]);
    }
  }

  /** An edge keeps to it. */
  lemma {:induction false} OwedStep(b: Board, owed: Owed, x: Edge)
    requires Owes(b, owed) && Quiet(b.io, x.e)
    ensures Answers(b, owed, x) && Owes(BoardStep(b, x), NextOwed(b, owed, x))
  {
    hide Inv, Lane, Status, Reply, IoStep, Happened;
    QuietKeeps(b, x);
    Unpacked(b);
    var t, e := b.trap, x.e;
    if !e.resetn || e.hold {
      ResetDrops(b.io, t, e);
    } else {
      match owed
      case Free => RestsOn(b.io, t, e);
      case Raised =>
        Replies(b.past, b.io, t, e);
        if Windowed(t) || ToUart(t) {
          Started(b.io, t, e);
        } else {
          ServedNow(b.io, t, e);
        }
      case Underway(_) =>
        if ToUart(t) {
          UartServed(b.past, b.io, t, e, x.raised);
        } else {
          ReadServed(b.io, t, e);
        }
      case Up => RestsOn(b.io, t, e);
    }
  }

  lemma {:induction false} Unpacked(b: Board)
    requires Inv(b)
    ensures Queues(b.io) && Handshake(b.io, b.trap) && Balanced(b.past, b.io, b.trap)
  {
  }

  lemma {:induction false} ResetDrops(io: Io, t: Trap, e: Env)
    requires Sized(io) && (!e.resetn || e.hold)
    ensures !IoStep(io, t, e).ready
  {
    hide Queued, Status, Lane, Full, Empty;
  }

  /** With no request, or with one just answered, an edge leaves the port at rest. */
  lemma {:induction false} RestsOn(io: Io, t: Trap, e: Env)
    requires Queues(io) && Handshake(io, t) && Sized(io) && (!Asking(t) || io.ready) && e.resetn && !e.hold
    ensures var io' := IoStep(io, t, e); !io'.ready && (!io.ready ==> io'.phase == Idle)
  {
    hide Queued, Status, Lane, Full, Empty;
  }

  /** What the machine reads is the reply owed. */
  lemma {:induction false} Replies(p: Past, io: Io, t: Trap, e: Env)
    requires Queues(io) && Sized(io) && Handshake(io, t) && Balanced(p, io, t) && New(io, t, e)
    ensures !IsPacket(t.addr) && !IsStage(t.addr) ==> Status(io, e, t.addr) == Reply(p, t, e)
    ensures IsPacket(t.addr) ==> Lane(e.pktWord, t.addr % 4) == Reply(p, t, e)
    ensures IsStage(t.addr) ==> Lane(io.stage[t.addr / 4 % 16384], t.addr % 4) == Reply(p, t, e)
  {
    hide Contents, Empty, Head, Lane;
    Flags(io.rx);
    if IsStage(t.addr) {
      StageWord(t.addr);
      assert View(io.stage)[t.addr - 0x10000] == Lane(io.stage[(t.addr - 0x10000) / 4], (t.addr - 0x10000) % 4);
    }
  }

  /** A windowed read or a byte for the UART is under way after an edge. */
  lemma {:induction false} Started(io: Io, t: Trap, e: Env)
    requires Sized(io) && New(io, t, e) && (Windowed(t) || ToUart(t))
    ensures var io' := IoStep(io, t, e);
      && !io'.ready
      && (ToUart(t) ==> io'.phase == Uart)
      && (Windowed(t) && IsPacket(t.addr) ==> io'.phase == PktRead && io'.pktQ == e.pktWord && io'.lane == t.addr % 4)
      && (Windowed(t) && IsStage(t.addr) ==>
            io'.phase == StageRead && io'.stageQ == io.stage[t.addr / 4 % 16384] && io'.lane == t.addr % 4)
  {
    hide Queued, Status, Lane, Full, Empty;
  }

  /** Anything else is answered on the next edge. */
  lemma {:induction false} ServedNow(io: Io, t: Trap, e: Env)
    requires Sized(io) && New(io, t, e) && !Windowed(t) && !ToUart(t)
    ensures var io' := IoStep(io, t, e); io'.ready && (t.prim == IO_READ ==> io'.result == Status(io, e, t.addr))
  {
    hide Queued, Status, Lane, Full, Empty;
  }

  /** A windowed read under way is answered with the byte of the word read. */
  lemma {:induction false} ReadServed(io: Io, t: Trap, e: Env)
    requires Sized(io) && (io.phase == PktRead || io.phase == StageRead) && e.resetn && !e.hold
    ensures var io' := IoStep(io, t, e);
      io'.ready && io'.result == Lane(if io.phase == PktRead then io.pktQ else io.stageQ, io.lane)
  {
    hide Queued, Status, Lane, Full, Empty;
  }

  /** A byte for the UART is answered on the first edge that finds room, and is then in the queue. */
  lemma {:induction false} UartServed(p: Past, io: Io, t: Trap, e: Env, raised: Option<Trap>)
    requires Queues(io) && Sized(io) && Handshake(io, t) && io.phase == Uart && e.resetn && !e.hold && Quiet(io, e)
    ensures var io' := IoStep(io, t, e); io'.ready == Room(io.tx) && (!io'.ready ==> io'.phase == Uart)
    ensures Room(io.tx) ==> Happened(p, io, t, e, raised).accepted == p.accepted + [t.arg % 256]
  {
    RoomIs(io.tx);
    hide Queued, Status, Lane, Full, Empty, Room;
  }

  /** Were the processor to output a character while such a request waits, the
      request would be answered and its byte lost. */
  lemma {:induction false} PutcWins(io: Io, t: Trap, e: Env)
    requires Queues(io) && io.phase == Uart && e.resetn && !e.hold && !Full(io.tx) && e.putc.Some?
    ensures IoStep(io, t, e).ready && Accepts(io, t, e) == [e.putc.value % 256]
  {
  }

  /** The theorem over runs: from a reset edge, whatever the registers held and
      whatever comes after it, every request is answered once, with what it is owed. */
  lemma {:induction false} ServesFromReset(io: Io, t: Trap, e: Env, run: seq<Edge>)
    requires Sized(io) && !e.resetn && InBytes(io.rx.mem) && InWords(io.stage)
    requires QuietRun(Board(IoStep(io, t, e), TrapStep(t, io.ready, true, None), Nothing(io.stage)), run)
    ensures Serves(Board(IoStep(io, t, e), TrapStep(t, io.ready, true, None), Nothing(io.stage)), Free, run)
  {
    hide IoStep, Inv;
    ResetStarts(io, t, e);
    OwesServes(Board(IoStep(io, t, e), TrapStep(t, io.ready, true, None), Nothing(io.stage)), Free, run);
  }

  /** The words of the staging RAM, as the boot sequencer reads them: the bytes the
      program wrote, least significant first. */
  lemma {:induction false} WordsAre(stage: seq<nat>, i: nat)
    requires |stage| == STAGE_WORDS && InWords(stage) && i < 16384
    ensures var v := View(stage);
      stage[i] == v[4 * i] + v[4 * i + 1] * 0x100 + v[4 * i + 2] * 0x10000 + v[4 * i + 3] * 0x1000000
  {
    FourBytes(stage[i]);
    assert (4 * i) / 4 == i && (4 * i) % 4 == 0 && (4 * i + 1) / 4 == i && (4 * i + 1) % 4 == 1;
    assert (4 * i + 2) / 4 == i && (4 * i + 2) % 4 == 2 && (4 * i + 3) / 4 == i && (4 * i + 3) % 4 == 3;
  }

  /** The staging RAM read back: the byte stored, and every other byte as it was. */
  lemma {:induction false} StoredReadsBack(stage: seq<nat>, a: nat, x: nat, b: nat)
    requires |stage| == STAGE_WORDS && a < 0x10000 && b < 0x10000 && stage[a / 4] < 0x1_0000_0000
    ensures Lane(Stored(stage, a, x)[b / 4], b % 4) == if a == b then x % 256 else Lane(stage[b / 4], b % 4)
    ensures Stored(stage, a, x)[a / 4] < 0x1_0000_0000
  {
    var w := stage[a / 4];
    LanesApart(w, a % 4, x);
    if a / 4 == b / 4 && a % 4 == b % 4 {
      assert a == b;
    }
  }

  lemma {:induction false} LanesApart(w: nat, l: nat, x: nat)
    requires l < 4 && w < 0x1_0000_0000
    ensures SetLane(w, l, x) < 0x1_0000_0000 && Lane(SetLane(w, l, x), l) == x % 256
    ensures forall m :: 0 <= m < 4 && m != l ==> Lane(SetLane(w, l, x), m) == Lane(w, m)
  {
    var b0, b1, b2, b3 := w % 256, w / 0x100 % 256, w / 0x10000 % 256, w / 0x1000000 % 256;
    FourBytes(w);
    var y := x % 256;
    if l == 0 { Assembled(y, b1, b2, b3); }
    else if l == 1 { Assembled(b0, y, b2, b3); }
    else if l == 2 { Assembled(b0, b1, y, b3); }
    else { Assembled(b0, b1, b2, y); }
  }

  lemma {:induction false} FourBytes(w: nat)
    requires w < 0x1_0000_0000
    ensures w == w % 256 + w / 0x100 % 256 * 0x100 + w / 0x10000 % 256 * 0x10000 + w / 0x1000000 % 256 * 0x1000000
  {
  }

  lemma {:induction false} Assembled(b0: nat, b1: nat, b2: nat, b3: nat)
    requires b0 < 256 && b1 < 256 && b2 < 256 && b3 < 256
    ensures var w := b0 + b1 * 0x100 + b2 * 0x10000 + b3 * 0x1000000;
      w < 0x1_0000_0000 && w % 256 == b0 && w / 0x100 % 256 == b1 && w / 0x10000 % 256 == b2
          && w / 0x1000000 % 256 == b3
  {
  }

  // ---- the registers, clocked as the module clocks them ----

  class Port {
    var io_state: Phase
    var io_lane: nat
    var trap_ready: bool
    var trap_result: nat
    var rx_ack: bool
    var tx_start: bool
    var tx_len: nat
    var boot_req: bool
    var rxf_pop: bool
    var leds: nat
    var stage_q: nat
    var pa_rdata: nat
    const stage_ram: array<nat>
    var rx: Queue
    var tx: Queue
    var uart_byte: nat
    var uart_we: bool

    function St(): Io
      reads this, stage_ram
    {
      Io(io_state, io_lane, trap_ready, trap_result, rx_ack, tx_start, tx_len, boot_req, rxf_pop, leds,
         stage_q, pa_rdata, stage_ram[..], rx, tx, uart_byte, uart_we)
    }

    constructor (io: Io)
      ensures St() == io && fresh(stage_ram)
    {
      io_state, io_lane, trap_ready, trap_result := io.phase, io.lane, io.ready, io.result;
      rx_ack, tx_start, tx_len, boot_req, rxf_pop, leds := io.rxAck, io.txStart, io.txLen, io.boot, io.pop, io.leds;
      stage_q, pa_rdata, rx, tx, uart_byte, uart_we := io.stageQ, io.pktQ, io.rx, io.tx, io.uartByte, io.uartWe;
      stage_ram := new nat[|io.stage|](k requires 0 <= k < |io.stage| => io.stage[k]);
      new;
      assert stage_ram[..] == io.stage;
    }

    /** One rising edge of the clock. */
    method Clock(t: Trap, e: Env)
      requires Sized(St())
      modifies this, stage_ram
      ensures St() == IoStep(old(St()), t, e)
    {
      hide Full, Empty, Status, Queued, Accepted, Worked, Stored, Lane;
      var status, received, room := Status(St(), e, t.addr), !Empty(rx), !Full(tx);
      var pkt, stage := Lane(pa_rdata, io_lane), Lane(stage_q, io_lane);
      var accepts := New(St(), t, e);
      ClockQueues(t, e);
      ClearPulses();
      ClockStage(t, e);
      if !e.resetn || e.hold {
        Reset(e.resetn);
      } else if accepts {
        Accept(t, status, received);
      } else {
        Work(t, room, pkt, stage);
      }
    }

    method Work(t: Trap, room: bool, pkt: nat, stage: nat)
      modifies `trap_result, `trap_ready, `io_state
      ensures St() == Worked(old(io_state), t, room, pkt, stage, old(St()))
    {
      match io_state
      case Idle =>
      case PktRead => Answer(pkt);
      case StageRead => Answer(stage);
      case Uart =>
        if room {
          trap_ready, io_state := true, Done;
        }
      case Done =>
        if !t.valid {
          io_state := Idle;
        }
    }

    method ClockQueues(t: Trap, e: Env)
      requires Sized(St())
      modifies `rx, `tx, `uart_byte, `uart_we
      ensures St() == Queued(old(St()), t, e)
    {
      hide Full, Empty, Clocked, Offered, Head;
      if !e.resetn {
        rx, tx, uart_we := rx.(wp := 0, rp := 0), tx.(wp := 0, rp := 0), false;
      } else {
        var gives, pushes := Gives(St()), Pushes(St(), t, e);
        var x := if pushes then Offered(St(), t, e).value else 0;
        var more := if uart_we then e.uartWait else !Empty(tx);
        rx := Clocked(rx, Takes(St(), e), if e.uartDo.Some? then e.uartDo.value % 256 else 0, rxf_pop);
        Transmit(pushes, x, gives, more);
      }
    }

    method Transmit(push: bool, x: nat, gives: bool, more: bool)
      requires |tx.mem| == SIZE
      modifies `tx, `uart_byte, `uart_we
      ensures St() == old(St()).(tx := Clocked(old(tx), push, x, gives), uartWe := more,
                                 uartByte := if gives then Head(old(tx)) else old(uart_byte))
    {
      hide Clocked, Head;
      if gives {
        uart_byte := Head(tx);
      }
      tx, uart_we := Clocked(tx, push, x, gives), more;
    }

    method ClearPulses()
      modifies `trap_ready, `rx_ack, `tx_start, `boot_req, `rxf_pop
      ensures St() == old(St()).(ready := false, rxAck := false, txStart := false, boot := false, pop := false)
    {
      trap_ready, rx_ack, tx_start, boot_req, rxf_pop := false, false, false, false, false;
    }

    method ClockStage(t: Trap, e: Env)
      requires Sized(St())
      modifies `stage_q, `pa_rdata, stage_ram
      ensures St() == StagePort(old(St()), t, e, old(St()))
    {
      hide SetLane;
      if New(St(), t, e) {
        if IsStage(t.addr) {
          var word := t.addr / 4 % 16384;
          stage_q := stage_ram[word];
          if t.prim == IO_WRITE {
            stage_ram[word] := SetLane(stage_ram[word], t.addr % 4, t.arg);
          }
        } else if IsPacket(t.addr) && t.prim == IO_READ {
          pa_rdata := e.pktWord;
        }
      }
    }

    method Reset(resetn: bool)
      modifies `io_state, `leds, `tx_len
      ensures St() == old(St()).(phase := Idle, leds := if resetn then old(leds) else 0,
                                 txLen := if resetn then old(tx_len) else 0)
    {
      io_state := Idle;
      if !resetn {
        leds, tx_len := 0, 0;
      }
    }

    method Answer(x: nat)
      modifies `trap_result, `trap_ready, `io_state
      ensures St() == old(St()).(result := x, ready := true, phase := Done)
    {
      trap_result, trap_ready, io_state := x, true, Done;
    }

    /** On an edge whose pulses are clear. */
    method Accept(t: Trap, status: nat, received: bool)
      requires !rxf_pop && !rx_ack && !tx_start && !boot_req
      modifies `io_lane, `io_state, `trap_ready, `trap_result, `rxf_pop, `rx_ack, `tx_start, `tx_len, `leds, `boot_req
      ensures St() == Accepted(t, status, received, old(St()).(lane := t.addr % 4))
    {
      var write := t.prim == IO_WRITE;
      io_lane := t.addr % 4;
      if IsPacket(t.addr) || IsStage(t.addr) {
        if !write {
          io_state := if IsPacket(t.addr) then PktRead else StageRead;
        } else {
          trap_ready, io_state := true, Done;
        }
      } else if write && t.addr == UART {
        io_state := Uart;
      } else {
        trap_result := status;
        trap_ready, io_state := true, Done;
        Pulses(t, write, received);
      }
    }

    method Pulses(t: Trap, write: bool, received: bool)
      requires !rxf_pop && !rx_ack && !tx_start && !boot_req
      modifies `rxf_pop, `rx_ack, `tx_start, `tx_len, `leds, `boot_req
      ensures St() == old(St()).(
        pop := !write && t.addr == UART_RX && received,
        rxAck := write && t.addr == RX_LENGTH,
        txStart := write && t.addr == TX_SEND,
        txLen := if write && t.addr == TX_SEND then t.arg % 2048 else old(tx_len),
        leds := if write && t.addr == LEDS then t.arg % 256 else old(leds),
        boot := write && t.addr == BOOT)
    {
      if !write {
        rxf_pop := t.addr == UART_RX && received;
      } else if t.addr == RX_LENGTH {
        rx_ack := true;
      } else if t.addr == TX_SEND {
        tx_len, tx_start := t.arg % 2048, true;
      } else if t.addr == LEDS {
        leds := t.arg % 256;
      } else if t.addr == BOOT {
        boot_req := true;
      }
    }
  }
}
