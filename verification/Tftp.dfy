/** The TFTP server's sending side: stop-and-wait with retries, option negotiation,
    and 16-bit block numbers, against a client over a network that loses,
    duplicates and delays packets. */
module Tftp {

  type Byte = x: int | 0 <= x < 256

  // ---- packets, the client and the network ----

  datatype Option<T> = None | Some(value: T)

  /** Block numbers are 16 bits. */
  datatype Msg =
    | Oack(blksize: Option<nat>, tsize: Option<nat>)
    | Data(block: nat, chunk: seq<Byte>)
    | Ack(block: nat)
    | Error

  function Num(block: nat): nat { block % 65536 }

  /** A client of RFC 1350 with the options of RFC 2347 and RFC 2348: it takes the
      blocks in order, and acknowledges again whatever comes again. */
  datatype Client = Client(blksize: nat, next: nat, got: seq<Byte>, finished: bool)

  function Receive(c: Client, m: Msg): (Client, set<Msg>) {
    match m
    case Oack(b, _) =>
      (if c.next == 1 then c.(blksize := if b.Some? then b.value else 512) else c, {Ack(0)})
    case Data(n, chunk) =>
      if !c.finished && n == Num(c.next) then
        (c.(next := c.next + 1, got := c.got + chunk, finished := |chunk| < c.blksize), {Ack(n)})
      else (c, {Ack(n)})
    case _ => (c, {})
  }

  /** What passes at the server's socket, in order: a packet sent, one received, one
      from a stranger, the timer. */
  datatype Act = Sent(m: Msg) | Got(m: Msg) | Stray | TimedOut

  /** Every packet either side ever sent may still arrive, any number of times.
      held is what the client held after each event. */
  datatype World = World(sent: set<Msg>, replies: set<Msg>, client: Client, acts: seq<Act>, held: seq<seq<Byte>>)

  /** What happens next: a packet reaches a side, the client gives up with an
      ERROR, a stranger or a runt arrives, or the server's timer expires. */
  datatype Event = ToClient(m: Msg) | ToServer(m: Msg) | Quits | Stranger | Timer

  function Happen(w: World, e: Event): World {
    match e
    case ToClient(m) =>
      if m in w.sent then
        var (c, answers) := Receive(w.client, m);
        w.(client := c, replies := w.replies + answers, held := w.held + [c.got])
      else w
    case ToServer(m) => if m in w.replies then Noted(w, Got(m)) else w
    case Quits => w.(replies := w.replies + {Error})
    case Stranger => Noted(w, Stray)
    case Timer => Noted(w, TimedOut)
  }

  /** One more act at the socket. */
  function Noted(w: World, a: Act): World {
    w.(acts := w.acts + [a])
  }

  // ---- the server ----

  datatype Outcome = Acked | Refused | Timeout

  /** The inner loop: packets from the socket until the one expected, an ERROR, or
      the timer, which also stands for a schedule that has run out. */
  function Await(w: World, es: seq<Event>, wanted: nat): (Outcome, World, seq<Event>)
    decreases |es|
  {
    if es == [] then (Timeout, Noted(w, TimedOut), es)
    else if Ends(w, es[0], wanted) then (OutcomeOf(es[0]), Happen(w, es[0]), es[1..])
    else Await(Happen(w, es[0]), es[1..], wanted)
  }

  /** The event ends the wait. */
  predicate Ends(w: World, e: Event, wanted: nat) {
    e.Timer? || (e.ToServer? && e.m in w.replies && (e.m == Error || e.m == Ack(wanted)))
  }

  function OutcomeOf(e: Event): Outcome {
    if e.ToServer? then (if e.m == Error then Refused else Acked) else Timeout
  }

  function Send(w: World, m: Msg): World {
    w.(sent := w.sent + {m}, acts := w.acts + [Sent(m)])
  }

  /** Send, then wait for the matching ACK, retransmitting on timeout. */
  function Exchange(w: World, es: seq<Event>, packet: Msg, wanted: nat, retries: nat): (bool, World, seq<Event>)
    decreases retries
  {
    if retries == 0 then (false, w, es)
    else
      var (o, w1, es1) := Await(Send(w, packet), es, wanted);
      match o
      case Acked => (true, w1, es1)
      case Refused => (false, w1, es1)
      case Timeout => Exchange(w1, es1, packet, wanted, retries - 1)
  }

  const RETRIES: nat := 5

  /** The client's blksize option: absent, not a number, or a number. */
  datatype Blksize = Absent | NotANumber | Number(n: int)
  datatype Options = Options(blksize: Blksize, tsize: bool)

  function Agreed(o: Options): Option<nat> {
    match o.blksize
    case Number(n) => if 8 <= n <= 65464 then Some(n) else None
    case _ => None
  }

  function BlockSize(o: Options): (bs: nat)
    ensures bs >= 8
  {
    if Agreed(o).Some? then Agreed(o).value else 512
  }

  predicate Negotiates(o: Options) {
    Agreed(o).Some? || o.tsize
  }

  function OackOf(o: Options, data: seq<Byte>): Msg {
    Oack(Agreed(o), if o.tsize then Some(|data|) else None)
  }

  function Chunk(data: seq<Byte>, offset: nat, bs: nat): seq<Byte>
    requires offset <= |data|
  {
    data[offset..if offset + bs <= |data| then offset + bs else |data|]
  }

  /** The blocks from a given one on. */
  function SendBlocks(w: World, es: seq<Event>, data: seq<Byte>, bs: nat, block: nat, offset: nat)
    : (bool, World, seq<Event>)
    requires offset <= |data| && bs > 0
    decreases |data| - offset
  {
    var chunk := Chunk(data, offset, bs);
    var (ok, w1, es1) := Exchange(w, es, Data(Num(block), chunk), Num(block), RETRIES);
    if !ok then (false, w1, es1)
    else if |chunk| < bs then (true, w1, es1)
    else SendBlocks(w1, es1, data, bs, block + 1, offset + |chunk|)
  }

  /** One transfer. */
  function Serve(w: World, es: seq<Event>, data: seq<Byte>, o: Options): (bool, World, seq<Event>) {
    if Negotiates(o) then
      var (ok, w1, es1) := Exchange(w, es, OackOf(o, data), 0, RETRIES);
      if !ok then (false, w1, es1) else SendBlocks(w1, es1, data, BlockSize(o), 1, 0)
    else SendBlocks(w, es, data, BlockSize(o), 1, 0)
  }

  /** Before a transfer. */
  function Start(): World {
    World({}, {}, Client(512, 1, [], false), [], [])
  }

  // ---- the program ----

  /** The socket, with the network and the client behind it. */
  class Socket {
    var world: World
    var schedule: seq<Event>

    constructor (es: seq<Event>)
      ensures world == Start() && schedule == es
    {
      world, schedule := Start(), es;
    }

    method SendTo(m: Msg)
      modifies `world
      ensures world == Send(old(world), m)
    {
      world := world.(sent := world.sent + {m}, acts := world.acts + [Sent(m)]);
    }

    /** The next packet for the server, or none when the timer expires first. */
    method RecvFrom() returns (reply: Option<Event>)
      modifies this
      ensures reply.None? ==> forall x: nat :: Await(old(world), old(schedule), x) == (Timeout, world, schedule)
      ensures reply.Some? ==> |schedule| < |old(schedule)|
      ensures reply.Some? && reply.value.ToServer? ==> forall x: nat ::
          Await(old(world), old(schedule), x) == (if reply.value.m == Error then (Refused, world, schedule)
                                          else if reply.value.m == Ack(x) then (Acked, world, schedule)
                                          else Await(world, schedule, x))
      ensures reply.Some? && !reply.value.ToServer? ==> forall x: nat ::
          Await(old(world), old(schedule), x) == Await(world, schedule, x)
    {
      while schedule != []
        invariant |schedule| <= |old(schedule)|
        invariant forall x: nat :: Await(old(world), old(schedule), x) == Await(world, schedule, x)
        decreases |schedule|
      {
        var e, known := schedule[0], world.replies;
        schedule, world := schedule[1..], Happen(world, e);
        match e
        case Timer => return None;
        case ToServer(m) =>
          if m in known {
            return Some(e);
          }
        case Stranger => return Some(e);
        case _ =>
      }
      world := Noted(world, TimedOut);
      return None;
    }
  }

  method SendAndWait(sock: Socket, packet: Msg, wanted: nat) returns (ok: bool)
    modifies sock
    ensures (ok, sock.world, sock.schedule) == Exchange(old(sock.world), old(sock.schedule), packet, wanted, RETRIES)
  {
    ghost var w0, es0 := sock.world, sock.schedule;
    for attempt := 0 to RETRIES
      invariant Exchange(w0, es0, packet, wanted, RETRIES)
          == Exchange(sock.world, sock.schedule, packet, wanted, RETRIES - attempt)
    {
      sock.SendTo(packet);
      ghost var w1, es1 := sock.world, sock.schedule;
      while true
        invariant Await(w1, es1, wanted) == Await(sock.world, sock.schedule, wanted)
        decreases |sock.schedule|
      {
        var reply := sock.RecvFrom();
        match reply
        case None => break;
        case Some(ToServer(Error)) => return false;
        case Some(ToServer(Ack(block))) =>
          if block == wanted {
            return true;
          }
        case _ =>
      }
    }
    return false;
  }

  method ServeFile(sock: Socket, data: seq<Byte>, o: Options) returns (ok: bool, blocks: nat)
    modifies sock
    ensures (ok, sock.world, sock.schedule) == Serve(old(sock.world), old(sock.schedule), data, o)
    ensures ok ==> blocks == |Blocks(data, BlockSize(o))|
  {
    hide Exchange, Await;
    ghost var w0, es0 := sock.world, sock.schedule;
    var blockSize := 512;
    match o.blksize {
      case Number(n) =>
        if 8 <= n <= 65464 {
          blockSize := n;
        }
      case _ =>
    }
    if Negotiates(o) {
      ok := SendAndWait(sock, OackOf(o, data), 0);
      if !ok {
        return false, 0;
      }
    }
    var block, offset := 1, 0;
    while true
      invariant 0 <= offset <= |data| && block >= 1
      invariant Serve(w0, es0, data, o) == SendBlocks(sock.world, sock.schedule, data, blockSize, block, offset)
      invariant |Blocks(data, blockSize)| == block - 1 + |Blocks(data[offset..], blockSize)|
      decreases |data| - offset
    {
      var chunk := Chunk(data, offset, blockSize);
      ok := SendAndWait(sock, Data(Num(block), chunk), Num(block));
      if !ok {
        return false, 0;
      }
      assert |chunk| == blockSize ==> data[offset..][blockSize..] == data[offset + blockSize..];
      offset := offset + |chunk|;
      block := block + 1;
      if |chunk| < blockSize {
        break;
      }
    }
    blocks := block - 1;
  }

  // ---- the file as blocks ----

  /** The file cut into blocks: the last is short, and empty for an exact multiple. */
  function Blocks(data: seq<Byte>, bs: nat): (bl: seq<seq<Byte>>)
    requires bs > 0
    ensures bl != []
    decreases |data|
  {
    if |data| < bs then [data] else [data[..bs]] + Blocks(data[bs..], bs)
  }
}
