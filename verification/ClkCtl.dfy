/** A clock gate driven over JTAG: a keyed request releases exactly N pulses. */
module ClkCtl {
  import opened Bits
  import opened BitVec

  const KEY: nat := 0x2A

  /** The request register's fields. */
  datatype Ctrl = Ctrl(n: nat, free: bool)

  /** The TAP side, bits LSB first, and the gated clock's own domain. */
  datatype Gate = Gate(sr: seq<bool>, ctrl: Ctrl, reqT: bool, s0: bool, s1: bool, s2: bool, left: nat, ce: bool)

  // ---- the TAP side ----

  function Shift(g: Gate, tdi: bool): Gate
    requires |g.sr| == 32
  {
    g.(sr := g.sr[1..] + [tdi])
  }

  predicate Keyed(sr: seq<bool>)
    requires |sr| == 32
  {
    FromBits(sr[24..31]) == KEY
  }

  function FieldsOf(sr: seq<bool>): Ctrl
    requires |sr| == 32
  {
    Ctrl(FromBits(sr[..24]), sr[31])
  }

  function Update(g: Gate, sel: bool): Gate
    requires |g.sr| == 32
  {
    if sel && Keyed(g.sr) then g.(ctrl := FieldsOf(g.sr), reqT := !g.reqT) else g
  }

  // ---- the clock's side ----

  /** A request reaches the last stage of the synchroniser. */
  predicate Seen(g: Gate) { g.s2 != g.s1 }

  function Clk(g: Gate): Gate {
    g.(s0 := g.reqT, s1 := g.s0, s2 := g.s1,
       left := if Seen(g) then g.ctrl.n else if g.left != 0 && g.ce then g.left - 1 else g.left,
       ce := g.ctrl.free || if Seen(g) then g.ctrl.n != 0 else g.left > (if g.ce then 1 else 0))
  }

  /** k edges, no update between them. */
  function Run(g: Gate, k: nat): Gate {
    if k == 0 then g else Clk(Run(g, k - 1))
  }

  // ---- exactly N ----

  /** No request is on its way through the synchroniser behind this stage. */
  predicate Settled(g: Gate) { g.reqT == g.s0 == g.s1 }

  /** From the edge that sees the request, whatever count was running: the enable
      is up for the next N edges of the free clock, without a gap, and then stays down. */
  lemma {:induction false} ExactlyN(g: Gate, k: nat)
    requires Seen(g) && Settled(g) && !g.ctrl.free && k > 0
    ensures var h := Run(g, k);
      && (h.ce <==> k <= g.ctrl.n)
      && h.left == (if k <= g.ctrl.n then g.ctrl.n - (k - 1) else 0)
      && h.reqT == h.s0 == h.s1 == h.s2 && h.ctrl == g.ctrl
  {
    if k > 1 {
      ExactlyN(g, k - 1);
    } else {
      assert Run(g, 0) == g;
    }
  }

  /** The enabled edges among the first k. */
  function Pulses(g: Gate, k: nat): nat {
    if k == 0 then 0 else Pulses(g, k - 1) + if Run(g, k).ce then 1 else 0
  }

  lemma {:induction false} PulseCount(g: Gate, k: nat)
    requires Seen(g) && Settled(g) && !g.ctrl.free
    ensures Pulses(g, k) == if k <= g.ctrl.n then k else g.ctrl.n
  {
    if k > 0 {
      PulseCount(g, k - 1);
      ExactlyN(g, k);
    }
  }

  // ---- from the request ----

  /** No request pending anywhere. */
  predicate Quiet(g: Gate) { Settled(g) && g.s1 == g.s2 }

  /** An edge of the TAP's update, with what the register then holds: whether this
      chain is selected, or the update is another's. */
  datatype Upd = Upd(sel: bool, word: seq<bool>)

  /** Several updates with no edge between them. */
  function Requests(g: Gate, upds: seq<Upd>): (h: Gate)
    requires |g.sr| == 32 && Words(upds)
    ensures |h.sr| == 32
    decreases |upds|
  {
    if upds == [] then g else Requests(Update(g.(sr := upds[0].word), upds[0].sel), upds[1..])
  }

  predicate Words(upds: seq<Upd>) {
    forall i :: 0 <= i < |upds| ==> |upds[i].word| == 32
  }

  /** Only a selected update of a keyed word is a request. */
  predicate Asks(u: Upd)
    requires |u.word| == 32
  {
    u.sel && Keyed(u.word)
  }

  /** Whether an odd number of the updates are requests. */
  predicate OddAsked(upds: seq<Upd>)
    requires Words(upds)
  {
    upds != [] && Asks(upds[0]) != OddAsked(upds[1..])
  }

  /** Any other update changes nothing. */
  lemma {:induction false} OthersNothing(g: Gate, u: Upd)
    requires |g.sr| == 32 && |u.word| == 32 && !Asks(u)
    ensures Update(g.(sr := u.word), u.sel) == g.(sr := u.word)
    ensures !u.sel ==> Update(g, u.sel) == g
  {
  }

  /** Each request toggles, so it is their parity that reaches the clock. */
  lemma {:induction false} RequestsToggle(g: Gate, upds: seq<Upd>)
    requires |g.sr| == 32 && Words(upds)
    ensures var h := Requests(g, upds);
      h == g.(sr := h.sr, ctrl := h.ctrl, reqT := h.reqT) && (h.reqT != g.reqT <==> OddAsked(upds))
    decreases |upds|
  {
    hide Keyed, FieldsOf;
    if upds != [] {
      RequestsToggle(Update(g.(sr := upds[0].word), upds[0].sel), upds[1..]);
    }
  }

  /** The update at this position is the last request. */
  predicate LastAsked(upds: seq<Upd>, last: nat)
    requires Words(upds)
  {
    last < |upds| && Asks(upds[last]) && forall i :: last < i < |upds| ==> !Asks(upds[i])
  }

  /** What it asks for stands, whatever other updates follow it. */
  lemma {:induction false} LastRequest(g: Gate, upds: seq<Upd>, last: nat)
    requires |g.sr| == 32 && Words(upds) && LastAsked(upds, last)
    ensures Requests(g, upds).ctrl == FieldsOf(upds[last].word)
    decreases |upds|
  {
    hide Keyed, FieldsOf;
    var g1 := Update(g.(sr := upds[0].word), upds[0].sel);
    if last == 0 {
      NoRequest(g1, upds[1..]);
    } else {
      LastRequest(g1, upds[1..], last - 1);
    }
  }

  lemma {:induction false} NoRequest(g: Gate, upds: seq<Upd>)
    requires |g.sr| == 32 && Words(upds) && forall i :: 0 <= i < |upds| ==> !Asks(upds[i])
    ensures Requests(g, upds).ctrl == g.ctrl
    decreases |upds|
  {
    hide Keyed, FieldsOf;
    if upds != [] {
      OthersNothing(g, upds[0]);
      NoRequest(g.(sr := upds[0].word), upds[1..]);
    }
  }

  lemma {:induction false} ThreeEdges(g: Gate)
    requires !g.ctrl.free
    ensures var h := Run(g, 2); h.ctrl == g.ctrl && h.reqT == h.s0 == h.s1 == g.reqT && (Seen(h) <==> g.reqT != g.s0)
  {
    assert Run(g, 1) == Clk(Run(g, 0)) && Run(g, 2) == Clk(Run(g, 1));
  }

  lemma {:induction false} RunOn(g: Gate, a: nat, b: nat)
    ensures Run(g, a + b) == Run(Run(g, a), b)
  {
    if b > 0 {
      RunOn(g, a, b - 1);
    }
  }

  lemma {:induction false} StaysDown(g: Gate, k: nat)
    requires Quiet(g) && !g.ctrl.free && g.left == 0 && !g.ce
    ensures Run(g, k) == g
  {
    if k > 0 {
      StaysDown(g, k - 1);
    }
  }

  /** The theorem: an idle gate, then any updates before its clock's next edge, of this
      chain or another, the last request one for N.  With an odd number of requests
      the enable is up on edges 3 to N + 2, and on no other; with an even number they
      cancel, and it never rises. */
  lemma {:induction false} RequestReleases(g: Gate, upds: seq<Upd>, last: nat, k: nat)
    requires Quiet(g) && !g.ctrl.free && g.left == 0 && !g.ce && |g.sr| == 32
    requires Words(upds) && LastAsked(upds, last) && !FieldsOf(upds[last].word).free
    ensures Run(Requests(g, upds), k).ce <==> OddAsked(upds) && 3 <= k <= FieldsOf(upds[last].word).n + 2
  {
    hide Keyed, FieldsOf, OddAsked;
    RequestsToggle(g, upds);
    LastRequest(g, upds, last);
    var h := Requests(g, upds);
    if !OddAsked(upds) {
      StaysDown(h, k);
    } else if k >= 3 {
      ThreeEdges(h);
      RunOn(h, 2, k - 2);
      ExactlyN(Run(h, 2), k - 2);
    } else {
      assert Run(h, 0) == h && Run(h, 1) == Clk(h) && Run(h, 2) == Clk(Clk(h));
    }
  }

  // ---- other chains' updates, between the edges ----

  /** An edge of the free clock, or an update while another chain is selected. */
  datatype Event = Edge | Other

  function Play(g: Gate, events: seq<Event>): (h: Gate)
    requires |g.sr| == 32
    ensures |h.sr| == 32
    decreases |events|
  {
    if events == [] then g
    else
      var h := Play(g, events[..|events| - 1]);
      match events[|events| - 1]
      case Edge => Clk(h)
      case Other => Update(h, false)
  }

  function Edges(events: seq<Event>): nat {
    if events == [] then 0 else Edges(events[..|events| - 1]) + if events[|events| - 1].Edge? then 1 else 0
  }

  /** They do nothing, whatever the shift register holds: only the edges count. */
  lemma {:induction false} OthersPass(g: Gate, events: seq<Event>)
    requires |g.sr| == 32
    ensures Play(g, events) == Run(g, Edges(events))
  {
    if events != [] {
      OthersPass(g, events[..|events| - 1]);
    }
  }

  /** From any state whose clock has had an edge since the last request, a request
      replaces whatever count was running, or on its way, from the third edge on. */
  lemma {:induction false} RequestReplaces(g: Gate, word: seq<bool>, k: nat)
    requires g.reqT == g.s0 && |word| == 32 && Keyed(word) && !FieldsOf(word).free && k >= 3
    ensures Run(Update(g.(sr := word), true), k).ce <==> k <= FieldsOf(word).n + 2
  {
    var h := Update(g.(sr := word), true);
    ThreeEdges(h);
    RunOn(h, 2, k - 2);
    ExactlyN(Run(h, 2), k - 2);
  }

  /** With FREE the enable is up from the first edge on, as long as it is set. */
  lemma {:induction false} FreeRuns(g: Gate, k: nat)
    requires g.ctrl.free && k > 0
    ensures Run(g, k).ce && Run(g, k).ctrl == g.ctrl
  {
    if k > 1 {
      FreeRuns(g, k - 1);
    } else {
      assert Run(g, 0) == g;
    }
  }

  // ---- the scan ----

  function ShiftAll(g: Gate, tx: seq<bool>): (h: Gate)
    requires |g.sr| == 32
    ensures |h.sr| == 32
    decreases |tx|
  {
    if tx == [] then g else ShiftAll(Shift(g, tx[0]), tx[1..])
  }

  lemma {:induction false} ShiftsIn(g: Gate, tx: seq<bool>)
    requires |g.sr| == 32
    ensures ShiftAll(g, tx) == g.(sr := (g.sr + tx)[|tx|..])
    decreases |tx|
  {
    if tx != [] {
      ShiftsIn(Shift(g, tx[0]), tx[1..]);
      assert (g.sr[1..] + [tx[0]]) + tx[1..] == (g.sr + tx)[1..];
    }
  }

  /** Shifting 32 bits in and updating makes them the request, if their key is right;
      otherwise nothing changes but the shift register. */
  lemma {:induction false} ScanRequests(g: Gate, tx: seq<bool>)
    requires |g.sr| == 32 && |tx| == 32
    ensures var h := Update(ShiftAll(g, tx), true);
      h == if Keyed(tx) then g.(sr := tx, ctrl := FieldsOf(tx), reqT := !g.reqT) else g.(sr := tx)
  {
    ShiftsIn(g, tx);
    assert (g.sr + tx)[32..] == tx;
  }

  /** The word that asks for n pulses, or for a free clock: n, the key, and FREE on top. */
  function RequestWord(n: nat, free: bool): (w: seq<bool>)
    ensures |w| == 32
  {
    ToBits(n, 24) + ToBits(KEY, 7) + [free]
  }

  lemma {:induction false} RequestWordAsks(n: nat, free: bool)
    ensures Keyed(RequestWord(n, free)) && FieldsOf(RequestWord(n, free)) == Ctrl(n % 0x100_0000, free)
  {
    hide ToBits, FromBits, Pow2;
    var w := RequestWord(n, free);
    assert w[..24] == ToBits(n, 24) && w[24..31] == ToBits(KEY, 7) && w[31] == free;
    FromTo(n, 24);
    FromTo(KEY, 7);
    WidthPowers();
  }

  lemma {:induction false} WidthPowers()
    ensures Pow2(7) == 128 && Pow2(24) == 0x100_0000
  {
    assert Pow2(8) == 256;
    Pow2Add(8, 8);
    Pow2Add(16, 8);
  }

  /** From the scan to the pulses: an idle gate, the word for n scanned in and
      updated, and the enable is up on edges 3 to n + 2, for every n of 24 bits,
      whatever other chains are updated before, between and after the edges. */
  lemma {:induction false} ScanReleases(g: Gate, n: nat, events: seq<Event>)
    requires Quiet(g) && !g.ctrl.free && g.left == 0 && !g.ce && |g.sr| == 32 && n < 0x100_0000
    ensures var h := Update(ShiftAll(g, RequestWord(n, false)), true);
      |h.sr| == 32 && (Play(h, events).ce <==> 3 <= Edges(events) <= n + 2)
  {
    hide Keyed, FieldsOf, RequestWord;
    var w := RequestWord(n, false);
    var u := Upd(true, w);
    RequestWordAsks(n, false);
    ScanRequests(g, w);
    assert [u][1..] == [] && OddAsked([u]);
    assert Requests(g, [u]) == Requests(Update(g.(sr := w), true), []) == Update(g.(sr := w), true);
    RequestReleases(g, [u], 0, Edges(events));
    OthersPass(Update(ShiftAll(g, w), true), events);
  }

  /** What the host receives while it shifts. */
  function Received(g: Gate, tx: seq<bool>): seq<bool>
    requires |g.sr| == 32
    decreases |tx|
  {
    if tx == [] then [] else [g.sr[0]] + Received(Shift(g, tx[0]), tx[1..])
  }

  /** The register, foot first: after a capture, the status. */
  lemma {:induction false} ReadsBack(g: Gate, tx: seq<bool>)
    requires |g.sr| == 32
    ensures Received(g, tx) == (g.sr + tx)[..|tx|]
    decreases |tx|
  {
    if tx != [] {
      ReadsBack(Shift(g, tx[0]), tx[1..]);
      assert (g.sr[1..] + [tx[0]]) + tx[1..] == (g.sr + tx)[1..];
    }
  }

  class Controller {
    var sr: seq<bool>
    var ctrl: Ctrl
    var req_t: bool
    var req_s: (bool, bool, bool)
    var left: nat
    var ce: bool

    function St(): Gate
      reads this
    {
      Gate(sr, ctrl, req_t, req_s.0, req_s.1, req_s.2, left, ce)
    }

    constructor ()
      ensures var g := St();
        |g.sr| == 32 && Quiet(g) && g.ctrl == Ctrl(0, false) && g.left == 0 && !g.ce
    {
      sr, ctrl, req_t, req_s := seq(32, i => false), Ctrl(0, false), false, (false, false, false);
      left, ce := 0, false;
    }

    method DrckEdge(sel: bool, cap: bool, shift: bool, tdi: bool, status: seq<bool>)
      requires |sr| == 32 == |status|
      modifies `sr
      ensures St() == if !sel then old(St()) else if cap then old(St()).(sr := status)
                      else if shift then Shift(old(St()), tdi) else old(St())
    {
      if sel {
        if cap {
          sr := status;
        } else if shift {
          sr := sr[1..] + [tdi];
        }
      }
    }

    method UpdateEdge(sel: bool)
      requires |sr| == 32
      modifies `ctrl, `req_t
      ensures St() == Update(old(St()), sel)
    {
      if sel && Keyed(sr) {
        ctrl, req_t := FieldsOf(sr), !req_t;
      }
    }

    method ClkEdge()
      modifies `req_s, `left, `ce
      ensures St() == Clk(old(St()))
    {
      var seen := req_s.2 != req_s.1;
      var up := ctrl.free || if seen then ctrl.n != 0 else left > (if ce then 1 else 0);
      if seen {
        left := ctrl.n;
      } else if left != 0 && ce {
        left := left - 1;
      }
      ce, req_s := up, (req_t, req_s.0, req_s.1);
    }
  }
}
