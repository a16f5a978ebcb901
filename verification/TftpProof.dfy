/** What a transfer guarantees, and exactly when. */
module TftpProof {
  import opened Bits
  import opened Tftp

  // ---- the file as blocks ----

  function Flatten(bl: seq<seq<Byte>>): seq<Byte> {
    if bl == [] then [] else bl[0] + Flatten(bl[1..])
  }

  lemma {:induction false} FlattenSnoc(bl: seq<seq<Byte>>, n: nat)
    requires n < |bl|
    ensures Flatten(bl[..n + 1]) == Flatten(bl[..n]) + bl[n]
  {
    if n == 0 {
      assert bl[..1][1..] == [] && bl[..0] == [];
    } else {
      FlattenSnoc(bl[1..], n - 1);
      assert bl[..n + 1][1..] == bl[1..][..n] && bl[..n][1..] == bl[1..][..n - 1];
    }
  }

  /** The blocks are the file, every one full but the last. */
  lemma {:induction false} BlocksAre(data: seq<Byte>, bs: nat)
    requires bs > 0
    ensures var bl := Blocks(data, bs);
      && Flatten(bl) == data && |bl[|bl| - 1]| < bs
      && (forall i :: 0 <= i < |bl| - 1 ==> |bl[i]| == bs)
    decreases |data|
  {
    if |data| < bs {
      assert [data][1..] == [];
    } else {
      BlocksAre(data[bs..], bs);
      var rest := Blocks(data[bs..], bs);
      assert Blocks(data, bs)[1..] == rest;
    }
  }

  /** There are |data| / bs + 1 of them. */
  lemma {:induction false} BlockCount(data: seq<Byte>, bs: nat)
    requires bs > 0
    ensures |Blocks(data, bs)| == |data| / bs + 1
    decreases |data|
  {
    if |data| >= bs {
      BlockCount(data[bs..], bs);
      OneMore(|data|, bs);
    }
  }

  lemma {:induction false} OneMore(n: nat, bs: nat)
    requires n >= bs > 0
    ensures n / bs == (n - bs) / bs + 1
  {
    var q, r := DivMod(n - bs, bs);
    Distributes(bs, q);
    DivModUnique(n, bs, q + 1, r);
  }

  lemma {:induction false} Distributes(a: nat, b: nat)
    ensures a * (b + 1) == a * b + a
  {
  }

  lemma {:induction false} FlattenPrefix(bl: seq<seq<Byte>>, n: nat)
    requires n <= |bl|
    ensures Flatten(bl[..n]) <= Flatten(bl)
  {
    if n > 0 {
      FlattenPrefix(bl[1..], n - 1);
      assert bl[..n][1..] == bl[1..][..n - 1];
    }
  }

  // ---- the invariant ----

  /** A transfer: its blocks, their size, and the option acknowledgement if any. */
  datatype Job = Job(bl: seq<seq<Byte>>, bs: nat, oack: Option<Msg>)

  ghost predicate Valid(j: Job) {
    && j.bl != [] && |j.bl[|j.bl| - 1]| < j.bs && (forall i :: 0 <= i < |j.bl| - 1 ==> |j.bl[i]| == j.bs)
    && (j.oack.None? ==> j.bs == 512)
    && (j.oack.Some? ==>
          j.oack.value.Oack? && j.bs == if j.oack.value.blksize.Some? then j.oack.value.blksize.value else 512)
  }

  /** The block numbers in use are distinct: 0 for the OACK, and one a block. */
  predicate Distinct(j: Job) {
    |j.bl| + (if j.oack.Some? then 1 else 0) <= 65536
  }

  ghost predicate IsBlock(j: Job, m: Msg, k: int) {
    1 <= k <= |j.bl| && m == Data(Num(k), j.bl[k - 1])
  }

  ghost predicate IsAck(m: Msg, k: nat) { m == Ack(Num(k)) }

  /** What the server may have sent, having come as far as block b. */
  ghost predicate FromServer(j: Job, b: nat, m: Msg) {
    j.oack == Some(m) || exists k :: k <= b && IsBlock(j, m, k)
  }

  /** What the client may have answered, waiting for block next. */
  ghost predicate FromClient(j: Job, next: nat, m: Msg) {
    m == Error || (j.oack.Some? && m == Ack(0)) || exists k :: 1 <= k < next && IsAck(m, k)
  }

  /** The server is on block b, zero for the OACK; everything before it is acknowledged. */
  ghost predicate Inv(j: Job, b: nat, w: World) {
    var c := w.client;
    && b <= |j.bl| && 1 <= c.next <= |j.bl| + 1 && b <= c.next <= b + 1
    && c.got == Flatten(j.bl[..c.next - 1])
    && c.finished == (c.next == |j.bl| + 1)
    && (j.oack.None? || b > 0 || Ack(0) in w.replies ==> c.blksize == j.bs)
    && (forall m :: m in w.sent ==> FromServer(j, b, m))
    && (forall m :: m in w.replies ==> FromClient(j, c.next, m))
    && (forall h :: h in w.held ==> h <= Flatten(j.bl))
  }

  lemma {:induction false} SameNum(a: nat, b: nat)
    requires Num(a) == Num(b) && -65536 < a - b < 65536
    ensures a == b
  {
  }

  // ---- what can be mistaken ----

  /** An event that no repeated block number can make mean something else: a block
      that reaches the client is none of those 65536 or more before the one it waits
      for, and an acknowledgement that reaches the server is of none of those 65536
      or more before the one it sends; the option acknowledgement counts as block 0. */
  ghost predicate Clear(j: Job, b: nat, w: World, e: Event) {
    match e
    case ToClient(m) =>
      m in w.sent && !w.client.finished ==>
        j.oack == Some(m) || exists k :: k <= b && IsBlock(j, m, k) && w.client.next - k <= 65535
    case ToServer(m) =>
      m in w.replies ==> m == Error || exists k :: Answerable(j, w.client.next, k) && IsAck(m, k) && b - k <= 65535
    case _ => true
  }

  ghost predicate Answerable(j: Job, next: nat, k: nat) {
    if k == 0 then j.oack.Some? else k < next
  }

  /** Nothing reaches the client that it could mistake, for want of numbers. */
  predicate FewBlocks(j: Job) { |j.bl| <= 65536 }

  /** Nor the server, while it is on block b. */
  predicate FewAcks(j: Job, b: nat) { FewBlocks(j) && (b <= 65535 || j.oack.None?) }

  lemma {:induction false} FewBlocksClear(j: Job, b: nat, w: World, m: Msg)
    requires Inv(j, b, w) && FewBlocks(j)
    ensures Clear(j, b, w, ToClient(m))
  {
    hide Flatten;
    if m in w.sent {
      assert FromServer(j, b, m);
    }
  }

  lemma {:induction false} FewAcksClear(j: Job, b: nat, w: World, m: Msg)
    requires Inv(j, b, w) && FewAcks(j, b)
    ensures Clear(j, b, w, ToServer(m))
  {
    hide Flatten;
    if m in w.replies && m != Error {
      assert FromClient(j, w.client.next, m);
      if j.oack.Some? && m == Ack(0) {
        assert IsAck(m, 0);
      }
    }
  }

  /** While the server waits on block b, every event up to the one that ends the wait is clear. */
  ghost predicate TimelyAwait(j: Job, b: nat, w: World, es: seq<Event>)
    decreases |es|
  {
    es != [] ==>
      && Clear(j, b, w, es[0])
      && (!Ends(w, es[0], Num(b)) ==> TimelyAwait(j, b, Happen(w, es[0]), es[1..]))
  }

  ghost predicate TimelyExchange(j: Job, b: nat, w: World, es: seq<Event>, m: Msg, retries: nat)
    decreases retries
  {
    retries > 0 ==>
      && TimelyAwait(j, b, Send(w, m), es)
      && var (o, w1, es1) := Await(Send(w, m), es, Num(b));
         o.Timeout? ==> TimelyExchange(j, b, w1, es1, m, retries - 1)
  }

  ghost predicate TimelyBlocks(j: Job, w: World, es: seq<Event>, block: nat)
    requires 1 <= block <= |j.bl|
    decreases |j.bl| - block
  {
    var m := Data(Num(block), j.bl[block - 1]);
    && TimelyExchange(j, block, w, es, m, RETRIES)
    && var (ok, w1, es1) := Exchange(w, es, m, Num(block), RETRIES);
       ok && block < |j.bl| ==> TimelyBlocks(j, w1, es1, block + 1)
  }

  /** No packet outlives the 65535 blocks after it: every event of the transfer is clear. */
  ghost predicate Timely(data: seq<Byte>, o: Options, es: seq<Event>) {
    var j := JobOf(data, o);
    if Negotiates(o) then
      && TimelyExchange(j, 0, Start(), es, OackOf(o, data), RETRIES)
      && var (ok, w1, es1) := Exchange(Start(), es, OackOf(o, data), 0, RETRIES);
         ok ==> TimelyBlocks(j, w1, es1, 1)
    else TimelyBlocks(j, Start(), es, 1)
  }

  // ---- every step keeps it ----

  /** Nothing clear that can happen breaks it. */
  lemma {:induction false} HappenKeeps(j: Job, b: nat, w: World, e: Event)
    requires Valid(j) && Inv(j, b, w) && Clear(j, b, w, e)
    ensures Inv(j, b, Happen(w, e))
  {
    hide Flatten;
    match e
    case ToClient(m) =>
      if m in w.sent {
        assert FromServer(j, b, m);
        if j.oack == Some(m) {
          OackArrives(j, b, w, m);
        } else {
          var k :| k <= b && IsBlock(j, m, k) && (w.client.finished || w.client.next - k <= 65535);
          BlockArrives(j, b, w, m, k);
        }
      }
    case _ =>
  }

  lemma {:induction false} OackArrives(j: Job, b: nat, w: World, m: Msg)
    requires Valid(j) && Inv(j, b, w) && m in w.sent && j.oack == Some(m)
    ensures Inv(j, b, Happen(w, ToClient(m)))
  {
    hide Flatten;
    FlattenPrefix(j.bl, w.client.next - 1);
  }

  lemma {:induction false} BlockArrives(j: Job, b: nat, w: World, m: Msg, k: nat)
    requires Valid(j) && Inv(j, b, w) && m in w.sent && k <= b && IsBlock(j, m, k)
    requires w.client.finished || w.client.next - k <= 65535
    ensures Inv(j, b, Happen(w, ToClient(m)))
  {
    hide Flatten;
    var c := w.client;
    var w' := Happen(w, ToClient(m));
    FlattenPrefix(j.bl, w'.client.next - 1);
    if !c.finished && m.block == Num(c.next) {
      SameNum(k, c.next);
      FlattenSnoc(j.bl, k - 1);
      assert w'.client.finished == (k == |j.bl|);
    }
    Answered(j, w, w', m, k);
  }

  /** The answers a world holds, after one more. */
  lemma {:induction false} Answered(j: Job, w: World, w': World, m: Msg, k: nat)
    requires IsBlock(j, m, k) && k < w'.client.next && w.client.next <= w'.client.next
    requires w'.replies == w.replies + {Ack(m.block)}
    requires forall a :: a in w.replies ==> FromClient(j, w.client.next, a)
    ensures forall a :: a in w'.replies ==> FromClient(j, w'.client.next, a)
  {
    assert IsAck(Ack(m.block), k);
  }

  /** Waiting keeps it, and the acknowledgement waited for means the client has the block. */
  lemma {:induction false} AwaitKeeps(j: Job, b: nat, w: World, es: seq<Event>)
    requires Valid(j) && Inv(j, b, w) && (b == 0 ==> j.oack.Some?)
    requires FewBlocks(j) || TimelyAwait(j, b, w, es)
    ensures var (o, w', _) := Await(w, es, Num(b));
      && Inv(j, b, w')
      && ((FewAcks(j, b) || TimelyAwait(j, b, w, es)) && o.Acked? ==>
            w'.client.next == b + 1 && w'.client.blksize == j.bs)
    decreases |es|
  {
    hide Flatten, Inv, Clear;
    if es == [] {
      ActsAside(j, b, w, Noted(w, TimedOut));
    } else {
      var e := es[0];
      if e.ToClient? && FewBlocks(j) {
        FewBlocksClear(j, b, w, e.m);
      }
      if e.ToServer? && FewAcks(j, b) {
        FewAcksClear(j, b, w, e.m);
      }
      AnyKeeps(j, b, w, e);
      if !Ends(w, e, Num(b)) {
        AwaitKeeps(j, b, Happen(w, e), es[1..]);
      } else if e.ToServer? && e.m != Error && Clear(j, b, w, e) {
        AckMeans(j, b, w, e.m);
      }
    }
  }

  /** Nothing but a block that is not clear can break it. */
  lemma {:induction false} AnyKeeps(j: Job, b: nat, w: World, e: Event)
    requires Valid(j) && Inv(j, b, w) && (e.ToClient? ==> Clear(j, b, w, e))
    ensures Inv(j, b, Happen(w, e))
    ensures !e.ToClient? ==> Happen(w, e).client == w.client
  {
    hide Flatten;
    if e.ToClient? {
      HappenKeeps(j, b, w, e);
    }
  }

  lemma {:induction false} AckMeans(j: Job, b: nat, w: World, m: Msg)
    requires Inv(j, b, w) && Clear(j, b, w, ToServer(m)) && (b == 0 ==> j.oack.Some?)
    requires m in w.replies && m == Ack(Num(b))
    ensures w.client.next == b + 1 && w.client.blksize == j.bs
  {
    hide Flatten;
    var k :| Answerable(j, w.client.next, k) && IsAck(m, k) && b - k <= 65535;
    SameNum(k, b);
  }

  /** The packet the server sends from block b. */
  ghost predicate Current(j: Job, b: nat, m: Msg) {
    if b == 0 then j.oack == Some(m) else IsBlock(j, m, b)
  }

  lemma {:induction false} SendKeeps(j: Job, b: nat, w: World, m: Msg)
    requires Inv(j, b, w) && Current(j, b, m)
    ensures Inv(j, b, Send(w, m))
  {
    hide Flatten;
  }

  lemma {:induction false} ExchangeKeeps(j: Job, b: nat, w: World, es: seq<Event>, m: Msg, retries: nat)
    requires Valid(j) && Inv(j, b, w) && Current(j, b, m)
    requires FewBlocks(j) || TimelyExchange(j, b, w, es, m, retries)
    ensures var (ok, w', _) := Exchange(w, es, m, Num(b), retries);
      && Inv(j, b, w')
      && ((FewAcks(j, b) || TimelyExchange(j, b, w, es, m, retries)) && ok ==>
            w'.client.next == b + 1 && w'.client.blksize == j.bs)
    decreases retries
  {
    hide Flatten, Inv, TimelyAwait, FewBlocks;
    if retries > 0 {
      SendKeeps(j, b, w, m);
      AwaitKeeps(j, b, Send(w, m), es);
      var (o, w1, es1) := Await(Send(w, m), es, Num(b));
      if o.Timeout? {
        var w2 := w1;
        assert Inv(j, b, w2) by { ActsAside(j, b, w1, w2); }
        ExchangeKeeps(j, b, w2, es1, m, retries - 1);
      }
    }
  }

  lemma {:induction false} ActsAside(j: Job, b: nat, w: World, w': World)
    requires Inv(j, b, w) && w' == w.(acts := w'.acts)
    ensures Inv(j, b, w')
  {
  }

  /** The server moves to the next block once the client has this one. */
  lemma {:induction false} MovesOn(j: Job, b: nat, w: World)
    requires Valid(j) && Inv(j, b, w) && w.client.next == b + 1 && b < |j.bl| && w.client.blksize == j.bs
    ensures Inv(j, b + 1, w)
  {
    hide Flatten;
    forall m | m in w.sent
      ensures FromServer(j, b + 1, m)
    {
      assert FromServer(j, b, m);
    }
  }

  lemma {:induction false} SendBlocksKeeps(j: Job, w: World, es: seq<Event>, data: seq<Byte>, block: nat, offset: nat)
    returns (b: nat)
    requires Valid(j) && 1 <= block <= |j.bl| && Inv(j, block, w) && j.bs > 0
    requires FewBlocks(j) || TimelyBlocks(j, w, es, block)
    requires offset <= |data| && Blocks(data[offset..], j.bs) == j.bl[block - 1..]
    ensures var (ok, w', _) := SendBlocks(w, es, data, j.bs, block, offset);
      && Inv(j, b, w')
      && ((Distinct(j) || TimelyBlocks(j, w, es, block)) && ok ==> w'.client.next == |j.bl| + 1 && w'.client.finished)
    decreases |data| - offset
  {
    hide Flatten, Exchange, Inv, TimelyExchange;
    b := block;
    var chunk := Chunk(data, offset, j.bs);
    var m := Data(Num(block), chunk);
    assert j.bl[block - 1] == j.bl[block - 1..][0] == chunk;
    ExchangeKeeps(j, block, w, es, m, RETRIES);
    var (ok, w1, es1) := Exchange(w, es, m, Num(block), RETRIES);
    if !ok {
      assert SendBlocks(w, es, data, j.bs, block, offset) == (false, w1, es1);
    } else if |chunk| < j.bs {
      assert |j.bl[block - 1..]| == 1;
      if Distinct(j) || TimelyBlocks(j, w, es, block) {
        LastBlock(j, block, w1, data[offset..]);
      }
      assert SendBlocks(w, es, data, j.bs, block, offset) == (true, w1, es1);
    } else {
      assert data[offset..][j.bs..] == data[offset + j.bs..];
      assert j.bl[block - 1..][1..] == j.bl[block..];
      MovesOn(j, block, w1);
      b := SendBlocksKeeps(j, w1, es1, data, block + 1, offset + |chunk|);
      assert SendBlocks(w, es, data, j.bs, block, offset)
          == SendBlocks(w1, es1, data, j.bs, block + 1, offset + |chunk|);
    }
  }

  lemma {:induction false} LastBlock(j: Job, block: nat, w: World, rest: seq<Byte>)
    requires 1 <= block <= |j.bl| && Inv(j, block, w) && w.client.next == block + 1
    requires |rest| < j.bs && Blocks(rest, j.bs) == j.bl[block - 1..]
    ensures w.client.next == |j.bl| + 1 && w.client.finished
  {
    assert |j.bl[block - 1..]| == 1;
  }

  function JobOf(data: seq<Byte>, o: Options): Job {
    Job(Blocks(data, BlockSize(o)), BlockSize(o), if Negotiates(o) then Some(OackOf(o, data)) else None)
  }

  /** With at most 65536 blocks, or no packet outliving the 65535 blocks after it,
      the client holds a prefix of the file at every moment.  When the block numbers
      are distinct too, or the packets timely, a server that reports success has a
      client with the whole file, that knows it. */
  lemma {:induction false} ServeCorrect(data: seq<Byte>, o: Options, es: seq<Event>)
    requires FewBlocks(JobOf(data, o)) || Timely(data, o, es)
    ensures var (ok, w, _) := Serve(Start(), es, data, o);
      && (forall h :: h in w.held ==> h <= data) && w.client.got <= data
      && ((Distinct(JobOf(data, o)) || Timely(data, o, es)) && ok ==> w.client.got == data && w.client.finished)
  {
    hide Flatten, Exchange, SendBlocks, TimelyExchange, TimelyBlocks;
    var j := JobOf(data, o);
    BlocksAre(data, j.bs);
    assert data[0..] == data && j.bl[0..] == j.bl;
    StartHolds(j);
    var b := 0;
    if Negotiates(o) {
      ExchangeKeeps(j, 0, Start(), es, OackOf(o, data), RETRIES);
      var (ok, w1, es2) := Exchange(Start(), es, OackOf(o, data), 0, RETRIES);
      if ok {
        MovesOn(j, 0, w1);
        b := SendBlocksKeeps(j, w1, es2, data, 1, 0);
      }
    } else {
      MovesOn(j, 0, Start());
      b := SendBlocksKeeps(j, Start(), es, data, 1, 0);
    }
    var (ok, w', _) := Serve(Start(), es, data, o);
    assert Inv(j, b, w');
    FlattenPrefix(j.bl, w'.client.next - 1);
    assert j.bl[..|j.bl|] == j.bl;
  }

  lemma {:induction false} StartHolds(j: Job)
    requires Valid(j)
    ensures Inv(j, 0, Start())
  {
    assert j.bl[..0] == [];
  }

  // ---- what the server sends, and when ----

  /** An act that ends no wait: a stranger's packet, or one that is neither the answer nor an error. */
  predicate Passing(a: Act, x: nat) {
    a.Stray? || (a.Got? && a.m != Error && a.m != Ack(x))
  }

  /** What passes at the socket in an exchange: the packet is sent; whatever arrives is
      let pass; the answer ends it well and an error badly; and after a timeout it
      starts again, with one try less. */
  ghost predicate ExchangeLog(log: seq<Act>, m: Msg, x: nat, retries: nat, ok: bool)
    decreases retries
  {
    if retries == 0 then log == [] && !ok
    else
      exists i: nat :: Waited(log, m, x, i)
        && (log[i].TimedOut? ==> ExchangeLog(log[i + 1..], m, x, retries - 1, ok))
        && (log[i].Got? ==> i == |log| - 1 && ok == (log[i] == Got(Ack(x))))
  }

  /** The packet is sent, and the wait for its answer ends with the act at i. */
  predicate Waited(log: seq<Act>, m: Msg, x: nat, i: nat) {
    && 0 < i < |log| && log[0] == Sent(m) && (forall j :: 0 < j < i ==> Passing(log[j], x))
    && (log[i].TimedOut? || log[i] == Got(Ack(x)) || log[i] == Got(Error))
  }

  /** What one event adds to it: nothing but what reaches the server. */
  function Heard(w: World, e: Event): seq<Act> {
    match e
    case ToServer(m) => if m in w.replies then [Got(m)] else []
    case Stranger => [Stray]
    case Timer => [TimedOut]
    case _ => []
  }

  lemma {:induction false} HeardIs(w: World, e: Event)
    ensures Happen(w, e).acts == w.acts + Heard(w, e) && Happen(w, e).sent == w.sent
  {
    assert w.acts + [] == w.acts;
  }

  /** A wait sends nothing, lets the rest pass, and ends with what ended it. */
  lemma {:induction false} AwaitLogged(w: World, es: seq<Event>, x: nat) returns (log: seq<Act>)
    ensures var (o, w', _) := Await(w, es, x);
      && w'.acts == w.acts + log && w'.sent == w.sent && log != []
      && (forall j :: 0 <= j < |log| - 1 ==> Passing(log[j], x))
      && log[|log| - 1] == match o
                           case Acked => Got(Ack(x))
                           case Refused => Got(Error)
                           case Timeout => TimedOut
    decreases |es|
  {
    if es == [] {
      log := [TimedOut];
    } else {
      var heard := Heard(w, es[0]);
      HeardIs(w, es[0]);
      if Ends(w, es[0], x) {
        log := heard;
      } else {
        hide Happen;
        var rest := AwaitLogged(Happen(w, es[0]), es[1..], x);
        log := heard + rest;
        assert w.acts + heard + rest == w.acts + log;
      }
    }
  }

  /** The theorem on an exchange: what passes at the socket is that, so nothing that
      arrives makes the server send, and nothing is sent after what ends it. */
  lemma {:induction false} ExchangeLogged(w: World, es: seq<Event>, m: Msg, x: nat, retries: nat)
    returns (log: seq<Act>)
    ensures var (ok, w', _) := Exchange(w, es, m, x, retries);
      w'.acts == w.acts + log && ExchangeLog(log, m, x, retries, ok) && w'.sent <= w.sent + {m}
    decreases retries
  {
    log := [];
    if retries > 0 {
      hide Await, Passing, ExchangeLog, Waited;
      var waited := AwaitLogged(Send(w, m), es, x);
      var (o, w1, es1) := Await(Send(w, m), es, x);
      var rest: seq<Act> := [];
      if o.Timeout? {
        rest := ExchangeLogged(w1, es1, m, x, retries - 1);
      }
      log := [Sent(m)] + waited + rest;
      assert w.acts + [Sent(m)] + waited + rest == w.acts + log;
      LogOf(m, x, waited, rest, retries, Exchange(w, es, m, x, retries).0);
    }
  }

  lemma {:induction false} LogOf(m: Msg, x: nat, waited: seq<Act>, rest: seq<Act>, retries: nat, ok: bool)
    requires retries > 0 && waited != [] && forall j :: 0 <= j < |waited| - 1 ==> Passing(waited[j], x)
    requires var a := waited[|waited| - 1];
      || (a.TimedOut? && ExchangeLog(rest, m, x, retries - 1, ok))
      || (rest == [] && a == Got(if ok then Ack(x) else Error))
    ensures ExchangeLog([Sent(m)] + waited + rest, m, x, retries, ok)
  {
    hide Passing, Waited;
    WaitedIs(m, x, waited, rest);
    var log := [Sent(m)] + waited + rest;
    assert |log| == |waited| + 1 + |rest|;
  }

  /** Where the first wait of an exchange ends, and how it goes on. */
  lemma {:induction false} LogOpens(log: seq<Act>, m: Msg, x: nat, retries: nat, ok: bool) returns (i: nat)
    requires retries > 0 && ExchangeLog(log, m, x, retries, ok)
    ensures Waited(log, m, x, i) && i < |log|
    ensures log[i].TimedOut? ==> ExchangeLog(log[i + 1..], m, x, retries - 1, ok)
    ensures log[i].Got? ==> i == |log| - 1 && ok == (log[i] == Got(Ack(x)))
  {
    i :| Waited(log, m, x, i)
      && (log[i].TimedOut? ==> ExchangeLog(log[i + 1..], m, x, retries - 1, ok))
      && (log[i].Got? ==> i == |log| - 1 && ok == (log[i] == Got(Ack(x))));
  }

  lemma {:induction false} WaitedIs(m: Msg, x: nat, waited: seq<Act>, rest: seq<Act>)
    requires waited != [] && forall j :: 0 <= j < |waited| - 1 ==> Passing(waited[j], x)
    requires var a := waited[|waited| - 1]; a.TimedOut? || a == Got(Ack(x)) || a == Got(Error)
    ensures var log := [Sent(m)] + waited + rest;
      Waited(log, m, x, |waited|) && log[|waited|] == waited[|waited| - 1] && log[|waited| + 1..] == rest
  {
    hide Passing;
    var log := [Sent(m)] + waited + rest;
    assert forall j :: 0 < j <= |waited| ==> log[j] == waited[j - 1];
  }

  function Sends(log: seq<Act>): nat {
    if log == [] then 0 else (if log[0].Sent? then 1 else 0) + Sends(log[1..])
  }

  function TimedOuts(log: seq<Act>): nat {
    if log == [] then 0 else (if log[0].TimedOut? then 1 else 0) + TimedOuts(log[1..])
  }

  lemma {:induction false} CountsConcat(a: seq<Act>, b: seq<Act>)
    ensures Sends(a + b) == Sends(a) + Sends(b) && TimedOuts(a + b) == TimedOuts(a) + TimedOuts(b)
  {
    if a == [] {
      assert a + b == b;
    } else {
      assert (a + b)[1..] == a[1..] + b;
      CountsConcat(a[1..], b);
    }
  }

  lemma {:induction false} PassingCounts(log: seq<Act>, x: nat)
    requires forall j :: 0 <= j < |log| ==> Passing(log[j], x)
    ensures Sends(log) == 0 == TimedOuts(log)
  {
    if log != [] {
      PassingCounts(log[1..], x);
    }
  }

  /** Its packet is sent once and once more after each timeout but the last allowed. */
  lemma {:induction false} LogCounts(log: seq<Act>, m: Msg, x: nat, retries: nat, ok: bool)
    requires ExchangeLog(log, m, x, retries, ok)
    ensures Sends(log) <= retries
    ensures Sends(log) == TimedOuts(log) + (if log != [] && log[|log| - 1].Got? then 1 else 0)
    ensures TimedOuts(log) <= retries && (TimedOuts(log) == retries ==> !ok)
    decreases retries
  {
    if retries > 0 {
      hide Sends, TimedOuts, ExchangeLog;
      var i := LogOpens(log, m, x, retries, ok);
      var tail := log[i + 1..];
      WaitedCounts(log, m, x, i);
      if log[i].TimedOut? {
        LogCounts(tail, m, x, retries - 1, ok);
        assert tail != [] ==> tail[|tail| - 1] == log[|log| - 1];
      } else {
        NoCounts(tail);
      }
    } else {
      NoCounts(log);
    }
  }

  lemma {:induction false} NoCounts(log: seq<Act>)
    ensures log == [] ==> Sends(log) == 0 == TimedOuts(log)
  {
  }

  /** One packet sent, and a timeout if that ended the wait. */
  lemma {:induction false} WaitedCounts(log: seq<Act>, m: Msg, x: nat, i: nat)
    requires Waited(log, m, x, i)
    ensures Sends(log) == 1 + Sends(log[i + 1..])
    ensures TimedOuts(log) == (if log[i].TimedOut? then 1 else 0) + TimedOuts(log[i + 1..])
  {
    var mid, tail := log[1..i], log[i + 1..];
    assert log == ([log[0]] + mid) + ([log[i]] + tail);
    PassingCounts(mid, x);
    CountsConcat([log[0]], mid);
    CountsConcat([log[i]], tail);
    CountsConcat([log[0]] + mid, [log[i]] + tail);
    OneCounts(log[0]);
    OneCounts(log[i]);
  }

  lemma {:induction false} OneCounts(a: Act)
    ensures Sends([a]) == (if a.Sent? then 1 else 0) && TimedOuts([a]) == if a.TimedOut? then 1 else 0
  {
  }

  /** So the server sends a packet at most five times, and gives up on the fifth timeout. */
  lemma {:induction false} FiveTries(w: World, es: seq<Event>, m: Msg, wanted: nat) returns (log: seq<Act>)
    ensures var (ok, w', _) := Exchange(w, es, m, wanted, RETRIES);
      && w'.acts == w.acts + log && Sends(log) <= 5 && TimedOuts(log) <= 5 && (TimedOuts(log) == 5 ==> !ok)
      && Sends(log) == TimedOuts(log) + (if log != [] && log[|log| - 1].Got? then 1 else 0)
  {
    log := ExchangeLogged(w, es, m, wanted, RETRIES);
    LogCounts(log, m, wanted, RETRIES, Exchange(w, es, m, wanted, RETRIES).0);
  }

  /** The timeouts are the timer's: one for each time it runs out, and any others come
      when no event is left. */
  lemma {:induction false} AwaitTimers(w: World, es: seq<Event>, x: nat) returns (used: seq<Event>)
    ensures var (o, w', es') := Await(w, es, x);
      && es == used + es'
      && TimedOuts(w'.acts) == TimedOuts(w.acts) + (if o.Timeout? then 1 else 0)
      && Timers(used) <= (if o.Timeout? then 1 else 0) && (o.Timeout? && Timers(used) == 0 ==> es' == [])
    decreases |es|
  {
    used := [];
    if es == [] {
      CountsConcat(w.acts, [TimedOut]);
    } else {
      var e := es[0];
      assert es == [e] + es[1..];
      HeardIs(w, e);
      HeardCounts(w, e);
      CountsConcat(w.acts, Heard(w, e));
      used := [e];
      OneTimer(e);
      if !Ends(w, e, x) {
        hide Happen, Timers, TimedOuts;
        var more := AwaitTimers(Happen(w, e), es[1..], x);
        used := [e] + more;
        TimersConcat([e], more);
        assert es == used + Await(Happen(w, e), es[1..], x).2;
      }
    }
  }

  lemma {:induction false} HeardCounts(w: World, e: Event)
    ensures TimedOuts(Heard(w, e)) == if e.Timer? then 1 else 0
  {
  }

  lemma {:induction false} OneTimer(e: Event)
    ensures Timers([e]) == if e.Timer? then 1 else 0
  {
  }

  lemma {:induction false} TimersConcat(a: seq<Event>, b: seq<Event>)
    ensures Timers(a + b) == Timers(a) + Timers(b)
  {
    if a == [] {
      assert a + b == b;
    } else {
      assert (a + b)[1..] == a[1..] + b;
      TimersConcat(a[1..], b);
    }
  }

  lemma {:induction false} ExchangeTimers(w: World, es: seq<Event>, m: Msg, x: nat, retries: nat)
    returns (used: seq<Event>, late: nat)
    ensures var (ok, w', es') := Exchange(w, es, m, x, retries);
      && es == used + es'
      && TimedOuts(w'.acts) == TimedOuts(w.acts) + Timers(used) + late
      && (late > 0 ==> es' == [] && !ok)
    decreases retries
  {
    used, late := [], 0;
    if retries > 0 {
      CountsConcat(w.acts, [Sent(m)]);
      assert TimedOuts([Sent(m)]) == 0;
      used := AwaitTimers(Send(w, m), es, x);
      var (o, w1, es1) := Await(Send(w, m), es, x);
      if o.Timeout? {
        var more, later := ExchangeTimers(w1, es1, m, x, retries - 1);
        late := later + 1 - Timers(used);
        assert es == (used + more) + Exchange(w1, es1, m, x, retries - 1).2;
        TimersConcat(used, more);
        if Timers(used) == 0 {
          NoEventsFail(w1, m, x, retries - 1);
        }
        used := used + more;
      }
    }
  }

  lemma {:induction false} NoEventsFail(w: World, m: Msg, x: nat, retries: nat)
    ensures !Exchange(w, [], m, x, retries).0 && Exchange(w, [], m, x, retries).2 == []
    decreases retries
  {
    if retries > 0 {
      NoEventsFail(Noted(Send(w, m), TimedOut), m, x, retries - 1);
    }
  }

  // ---- what passes in a whole transfer ----

  /** A packet, and the number of the answer it waits for. */
  datatype Packet = Packet(m: Msg, x: nat)

  /** The blocks from the k-th on. */
  function DataPackets(bl: seq<seq<Byte>>, k: nat): seq<Packet>
    requires k > 0
    decreases |bl| - k
  {
    if k > |bl| then [] else [Packet(Data(k % 65536, bl[k - 1]), k % 65536)] + DataPackets(bl, k + 1)
  }

  function Packets(data: seq<Byte>, o: Options): seq<Packet> {
    var bs := if o.blksize.Number? && 8 <= o.blksize.n <= 65464 then Some(o.blksize.n) else None;
    var size := if o.tsize then Some(|data|) else None;
    (if bs.Some? || size.Some? then [Packet(Oack(bs, size), 0)] else [])
      + DataPackets(Blocks(data, if bs.Some? then bs.value else 512), 1)
  }

  /** One exchange after the other, of five tries each, up to one that fails. */
  ghost predicate TransferLog(log: seq<Act>, ps: seq<Packet>, ok: bool)
    decreases |ps|
  {
    if ps == [] then log == [] && ok
    else
      || (!ok && ExchangeLog(log, ps[0].m, ps[0].x, 5, false))
      || exists i :: 0 <= i <= |log| && ExchangeLog(log[..i], ps[0].m, ps[0].x, 5, true)
                     && TransferLog(log[i..], ps[1..], ok)
  }

  lemma {:induction false} BlocksLogged(w: World, es: seq<Event>, data: seq<Byte>, bs: nat, block: nat, offset: nat,
      bl: seq<seq<Byte>>) returns (log: seq<Act>)
    requires offset <= |data| && bs > 0 && 1 <= block <= |bl| && Blocks(data[offset..], bs) == bl[block - 1..]
    ensures var (ok, w', _) := SendBlocks(w, es, data, bs, block, offset);
      w'.acts == w.acts + log && TransferLog(log, DataPackets(bl, block), ok)
    decreases |data| - offset
  {
    hide Exchange, ExchangeLog;
    var chunk := Chunk(data, offset, bs);
    var m := Data(Num(block), chunk);
    assert bl[block - 1] == bl[block - 1..][0] == chunk;
    var ps := DataPackets(bl, block);
    assert ps[0] == Packet(m, Num(block)) && ps[1..] == DataPackets(bl, block + 1);
    log := ExchangeLogged(w, es, m, Num(block), RETRIES);
    var (ok, w1, es1) := Exchange(w, es, m, Num(block), RETRIES);
    if ok {
      var rest: seq<Act> := [];
      if |chunk| < bs {
        assert |bl[block - 1..]| == 1;
      } else {
        assert data[offset..][bs..] == data[offset + bs..];
        assert bl[block - 1..][1..] == bl[block..];
        rest := BlocksLogged(w1, es1, data, bs, block + 1, offset + |chunk|, bl);
      }
      var all := log + rest;
      assert all[..|log|] == log && all[|log|..] == rest;
      assert w.acts + log + rest == w.acts + all;
      log := all;
    }
  }

  /** The theorem on a transfer: what passes at the socket is a stop-and-wait exchange
      of each of its packets in turn, the options first, each sent at most five times,
      up to the end or to one that fails. */
  lemma {:induction false} ServeLogged(data: seq<Byte>, o: Options, es: seq<Event>)
    ensures var (ok, w, _) := Serve(Start(), es, data, o); TransferLog(w.acts, Packets(data, o), ok)
  {
    hide Exchange, ExchangeLog, SendBlocks, DataPackets;
    var bs, w, es1 := BlockSize(o), Start(), es;
    var bl := Blocks(data, bs);
    assert data[0..] == data && bl[0..] == bl;
    if Negotiates(o) {
      var m := OackOf(o, data);
      var log := ExchangeLogged(w, es, m, 0, RETRIES);
      assert [] + log == log;
      var ps := Packets(data, o);
      assert ps[0] == Packet(m, 0) && ps[1..] == DataPackets(bl, 1);
      var (ok, w1, es1) := Exchange(w, es, m, 0, RETRIES);
      if ok {
        var rest := BlocksLogged(w1, es1, data, bs, 1, 0, bl);
        assert (log + rest)[..|log|] == log && (log + rest)[|log|..] == rest;
      }
    } else {
      var log := BlocksLogged(w, es, data, bs, 1, 0, bl);
      assert [] + log == log;
      assert Packets(data, o) == DataPackets(bl, 1);
    }
  }

  /** What the server says first: the options it agrees to, a block size of 8 to 65464
      bytes and the size of the file, if any is asked for; else the first block. */
  lemma {:induction false} FirstSent(data: seq<Byte>, o: Options, es: seq<Event>)
    ensures var bs := if o.blksize.Number? && 8 <= o.blksize.n <= 65464 then Some(o.blksize.n) else None;
      var size := if o.tsize then Some(|data|) else None;
      var m := if bs.Some? || size.Some? then Oack(bs, size) else Data(1, if |data| < 512 then data else data[..512]);
      [Sent(m)] <= Serve(Start(), es, data, o).1.acts
  {
    hide Serve, TransferLog, Packets;
    ServeLogged(data, o, es);
    FirstPacket(data, o);
    LogStarts(Serve(Start(), es, data, o).1.acts, Packets(data, o), Serve(Start(), es, data, o).0);
  }

  lemma {:induction false} FirstPacket(data: seq<Byte>, o: Options)
    ensures var bs := if o.blksize.Number? && 8 <= o.blksize.n <= 65464 then Some(o.blksize.n) else None;
      var size := if o.tsize then Some(|data|) else None;
      var m := if bs.Some? || size.Some? then Oack(bs, size) else Data(1, if |data| < 512 then data else data[..512]);
      Packets(data, o) != [] && Packets(data, o)[0].m == m
  {
  }

  lemma {:induction false} LogStarts(log: seq<Act>, ps: seq<Packet>, ok: bool)
    requires TransferLog(log, ps, ok) && ps != []
    ensures [Sent(ps[0].m)] <= log
  {
  }

  lemma {:induction false} ExchangeErrors(log: seq<Act>, m: Msg, x: nat, retries: nat, ok: bool)
    requires ExchangeLog(log, m, x, retries, ok)
    ensures forall k :: 0 <= k < |log| && log[k] == Got(Error) ==> k == |log| - 1 && !ok
    decreases retries
  {
    if retries > 0 {
      hide ExchangeLog;
      var i := LogOpens(log, m, x, retries, ok);
      WaitedErrors(log, m, x, i);
      hide Waited;
      if log[i].TimedOut? {
        var tail := log[i + 1..];
        ExchangeErrors(tail, m, x, retries - 1, ok);
        assert forall k :: i < k < |log| ==> log[k] == tail[k - i - 1];
      }
    }
  }

  lemma {:induction false} WaitedErrors(log: seq<Act>, m: Msg, x: nat, i: nat)
    requires Waited(log, m, x, i)
    ensures i < |log| && forall k :: 0 <= k < i ==> log[k] != Got(Error)
    ensures !log[i].TimedOut? ==> log[i].Got?
  {
  }

  /** After an error nothing passes at the socket: the server sends no more. */
  lemma {:induction false} ErrorEnds(log: seq<Act>, ps: seq<Packet>, ok: bool)
    requires TransferLog(log, ps, ok)
    ensures forall k :: 0 <= k < |log| && log[k] == Got(Error) ==> k == |log| - 1 && !ok
    decreases |ps|
  {
    hide ExchangeLog;
    if ps != [] {
      if !ok && ExchangeLog(log, ps[0].m, ps[0].x, 5, false) {
        ExchangeErrors(log, ps[0].m, ps[0].x, 5, false);
      } else {
        var i :| 0 <= i <= |log| && ExchangeLog(log[..i], ps[0].m, ps[0].x, 5, true)
          && TransferLog(log[i..], ps[1..], ok);
        ExchangeErrors(log[..i], ps[0].m, ps[0].x, 5, true);
        ErrorEnds(log[i..], ps[1..], ok);
        assert forall k :: 0 <= k < i ==> log[..i][k] == log[k];
        assert forall k :: i <= k < |log| ==> log[i..][k - i] == log[k];
      }
    }
  }

  /** So of a transfer that receives an error. */
  lemma {:induction false} ErrorStops(data: seq<Byte>, o: Options, es: seq<Event>, k: nat)
    requires var log := Serve(Start(), es, data, o).1.acts; k < |log| && log[k] == Got(Error)
    ensures var (ok, w, _) := Serve(Start(), es, data, o); !ok && k == |w.acts| - 1
  {
    hide Serve;
    ServeLogged(data, o, es);
    var (ok, w, _) := Serve(Start(), es, data, o);
    ErrorEnds(w.acts, Packets(data, o), ok);
  }

  /** As when the client gives up at once, having asked only for the options. */
  lemma {:induction false} QuitStops(data: seq<Byte>, o: Options)
    requires Negotiates(o)
    ensures var (ok, w, _) := Serve(Start(), [Quits, ToServer(Error)], data, o);
      !ok && w.acts == [Sent(OackOf(o, data)), Got(Error)]
  {
    var m, es := OackOf(o, data), [Quits, ToServer(Error)];
    var w1 := Happen(Send(Start(), m), Quits);
    assert es[1..] == [ToServer(Error)];
    assert Await(Send(Start(), m), es, 0) == Await(w1, es[1..], 0);
    assert Await(w1, es[1..], 0) == (Refused, Noted(w1, Got(Error)), []);
  }

  // ---- and only then ----

  /** How a transfer in order ends: the last block is delivered; or it is lost, and
      the server takes an old acknowledgement for its own, or the client takes an
      old block for it. */
  datatype Ending = Delivered | StaleAck | StaleBlock

  predicate Possible(j: Job, end: Ending) {
    match end
    case Delivered => true
    case StaleAck => !Distinct(j)
    case StaleBlock => !FewBlocks(j)
  }

  /** Each block delivered once and acknowledged, from block k to the last. */
  function Script(j: Job, k: nat, end: Ending): seq<Event>
    requires 1 <= k <= |j.bl| && Possible(j, end)
    decreases |j.bl| - k
  {
    var sent, acked := ToClient(Data(Num(k), j.bl[k - 1])), ToServer(Ack(Num(k)));
    if k < |j.bl| then [sent, acked] + Script(j, k + 1, end)
    else
      match end
      case Delivered => [sent, acked] + []
      case StaleAck => [acked]
      case StaleBlock => [ToClient(Data(Num(k), j.bl[k - 65537]))]
  }

  /** The client has the blocks before k, and has acknowledged them. */
  ghost predicate Reached(j: Job, k: nat, w: World) {
    && 1 <= k <= |j.bl| && w.client.next == k && !w.client.finished && w.client.blksize == j.bs
    && w.client.got == Flatten(j.bl[..k - 1])
    && (j.oack.Some? ==> Ack(0) in w.replies)
    && (forall i :: 1 <= i < k ==> Ack(Num(i)) in w.replies && Data(Num(i), j.bl[i - 1]) in w.sent)
  }

  /** The client answers m with x, whatever else it makes of it. */
  predicate Answers(m: Msg, x: nat) {
    (m.Data? && m.block == x) || (m.Oack? && x == 0)
  }

  /** A packet sent, delivered and answered. */
  function Served(w: World, m: Msg, x: nat): World {
    Noted(Happen(Send(w, m), ToClient(m)), Got(Ack(x)))
  }

  lemma {:induction false} ServedAwait(w: World, m: Msg, x: nat, rest: seq<Event>)
    requires Answers(m, x)
    ensures Await(Send(w, m), [ToClient(m), ToServer(Ack(x))] + rest, x) == (Acked, Served(w, m, x), rest)
    ensures Exchange(w, [ToClient(m), ToServer(Ack(x))] + rest, m, x, RETRIES) == (true, Served(w, m, x), rest)
  {
    var es := [ToClient(m), ToServer(Ack(x))] + rest;
    var w1 := Happen(Send(w, m), ToClient(m));
    assert es[1..][1..] == rest && es[1..][0] == ToServer(Ack(x));
    assert Ack(x) in w1.replies;
    assert Await(w1, es[1..], x) == (Acked, Served(w, m, x), rest);
  }

  /** One block sent, delivered and acknowledged. */
  lemma {:induction false} OneExchange(j: Job, k: nat, w: World, es: seq<Event>)
    requires Valid(j) && 1 <= k <= |j.bl| && Reached(j, k, w)
    ensures var m := Data(Num(k), j.bl[k - 1]);
      var (ok, w', es') := Exchange(w, [ToClient(m), ToServer(Ack(Num(k)))] + es, m, Num(k), RETRIES);
      && ok && es' == es && (k < |j.bl| ==> Reached(j, k + 1, w')) && (k == |j.bl| ==> w'.client.finished)
  {
    hide Flatten;
    var m := Data(Num(k), j.bl[k - 1]);
    ServedAwait(w, m, Num(k), es);
    FlattenSnoc(j.bl, k - 1);
  }

  /** The last block, sent but lost, with a stale acknowledgement of its number. */
  lemma {:induction false} StaleExchange(j: Job, k: nat, w: World)
    requires 1 <= k <= |j.bl| && Reached(j, k, w) && Ack(Num(k)) in w.replies
    ensures var m := Data(Num(k), j.bl[k - 1]);
      var (ok, w', _) := Exchange(w, [ToServer(Ack(Num(k)))], m, Num(k), RETRIES);
      ok && w'.client == w.client
  {
  }

  /** The last block, sent but lost, with a stale block of its number in its place:
      the client has more than the file. */
  lemma {:induction false} StaleDelivery(j: Job, w: World)
    requires Valid(j) && !FewBlocks(j) && Reached(j, |j.bl|, w)
    ensures var k := |j.bl|; var stale := Data(Num(k), j.bl[k - 65537]);
      var (_, w', _) := Exchange(w, [ToClient(stale)], Data(Num(k), j.bl[k - 1]), Num(k), RETRIES);
      !(w'.client.got <= Flatten(j.bl))
  {
    hide Flatten, Exchange;
    var k := |j.bl|;
    var m, stale := Data(Num(k), j.bl[k - 1]), Data(Num(k), j.bl[k - 65537]);
    assert Num(k - 65536) == Num(k);
    assert stale in w.sent;
    var w1 := Happen(Send(w, m), ToClient(stale));
    var w2 := Noted(w1, TimedOut);
    assert Await(Send(w, m), [ToClient(stale)], Num(k)) == Await(w1, [], Num(k)) == (Timeout, w2, []);
    Unanswered(w, w2, [ToClient(stale)], m, k);
    NoEvents(w2, m, Num(k), RETRIES - 1);
    FlattenSnoc(j.bl, k - 1);
    assert j.bl[..k] == j.bl;
  }

  lemma {:induction false} Unanswered(w: World, w1: World, es: seq<Event>, m: Msg, k: nat)
    requires Await(Send(w, m), es, Num(k)) == (Timeout, w1, [])
    ensures Exchange(w, es, m, Num(k), RETRIES)
        == Exchange(w1, [], m, Num(k), RETRIES - 1)
  {
  }

  lemma {:induction false} NoEvents(w: World, m: Msg, x: nat, retries: nat)
    ensures Exchange(w, [], m, x, retries).1.client == w.client
    decreases retries
  {
    if retries > 0 {
      NoEvents(Noted(Send(w, m), TimedOut), m, x, retries - 1);
    }
  }

  /** What the script's ending leads to. */
  ghost predicate Ended(data: seq<Byte>, end: Ending, ok: bool, c: Client) {
    match end
    case Delivered => ok && c.finished
    case StaleAck => ok && !c.finished
    case StaleBlock => !(c.got <= data)
  }

  lemma {:induction false} ScriptRuns(j: Job, k: nat, w: World, data: seq<Byte>, offset: nat, end: Ending)
    requires Valid(j) && j.bs > 0 && 1 <= k <= |j.bl| && Reached(j, k, w) && Possible(j, end)
    requires offset <= |data| && Blocks(data[offset..], j.bs) == j.bl[k - 1..] && Flatten(j.bl) == data
    ensures var (ok, w', _) := SendBlocks(w, Script(j, k, end), data, j.bs, k, offset); Ended(data, end, ok, w'.client)
    decreases |data| - offset
  {
    hide Exchange, Await, Reached, Flatten;
    var chunk := Chunk(data, offset, j.bs);
    assert j.bl[k - 1] == j.bl[k - 1..][0] == chunk;
    if k == |j.bl| {
      assert |chunk| < j.bs;
      ScriptEnds(j, w, end);
    } else {
      hide Ended;
      OneExchange(j, k, w, Script(j, k + 1, end));
      var (_, w1, _) := Exchange(w, Script(j, k, end), Data(Num(k), chunk), Num(k), RETRIES);
      assert data[offset..][j.bs..] == data[offset + j.bs..];
      assert j.bl[k - 1..][1..] == j.bl[k..];
      ScriptRuns(j, k + 1, w1, data, offset + |chunk|, end);
    }
  }

  /** The last block, however it ends. */
  lemma {:induction false} ScriptEnds(j: Job, w: World, end: Ending)
    requires Valid(j) && Reached(j, |j.bl|, w) && Possible(j, end)
    ensures var k := |j.bl|; var m := Data(Num(k), j.bl[k - 1]);
      var (ok, w', _) := Exchange(w, Script(j, k, end), m, Num(k), RETRIES); Ended(Flatten(j.bl), end, ok, w'.client)
  {
    hide Exchange, Await, Reached, Flatten;
    match end
    case Delivered => OneExchange(j, |j.bl|, w, []);
    case StaleAck =>
      StaleNumber(j, w);
      StaleExchange(j, |j.bl|, w);
    case StaleBlock => StaleDelivery(j, w);
  }

  lemma {:induction false} StaleNumber(j: Job, w: World)
    requires Valid(j) && !Distinct(j) && Reached(j, |j.bl|, w)
    ensures Ack(Num(|j.bl|)) in w.replies && !w.client.finished
  {
    hide Flatten;
    var n := |j.bl| - 65536;
    assert Num(n) == Num(|j.bl|);
    if n == 0 {
      assert Num(|j.bl|) == 0;
    }
  }

  /** The schedule of a whole transfer. */
  function Whole(j: Job, end: Ending): seq<Event>
    requires j.bl != [] && Possible(j, end)
  {
    (if j.oack.Some? then [ToClient(j.oack.value), ToServer(Ack(0))] else []) + Script(j, 1, end)
  }

  lemma {:induction false} WholeRuns(data: seq<Byte>, o: Options, end: Ending)
    requires Possible(JobOf(data, o), end)
    ensures var (ok, w, _) := Serve(Start(), Whole(JobOf(data, o), end), data, o); Ended(data, end, ok, w.client)
  {
    hide SendBlocks;
    var j := JobOf(data, o);
    BlocksAre(data, j.bs);
    assert data[0..] == data && j.bl[0..] == j.bl && j.bl[..0] == [];
    if j.oack.Some? {
      var m := OackOf(o, data);
      var w1 := Served(Start(), m, 0);
      ServedAwait(Start(), m, 0, Script(j, 1, end));
      ScriptRuns(j, 1, w1, data, 0, end);
    } else {
      assert [] + Script(j, 1, end) == Script(j, 1, end);
      ScriptRuns(j, 1, Start(), data, 0, end);
    }
  }

  /** Packets delivered in order are timely, however long the transfer. */
  lemma {:induction false} WholeTimely(data: seq<Byte>, o: Options)
    ensures Timely(data, o, Whole(JobOf(data, o), Delivered))
  {
    hide TimelyBlocks, Flatten;
    var j := JobOf(data, o);
    BlocksAre(data, j.bs);
    assert j.bl[..0] == [];
    FlattenNone();
    if Negotiates(o) {
      var m, rest := OackOf(o, data), Script(j, 1, Delivered);
      var w1 := Served(Start(), m, 0);
      ServedAwait(Start(), m, 0, rest);
      OneOackTimely(j, m, rest);
      ScriptTimely(j, 1, w1);
    } else {
      assert [] + Script(j, 1, Delivered) == Script(j, 1, Delivered);
      ScriptTimely(j, 1, Start());
    }
  }

  lemma {:induction false} OneOackTimely(j: Job, m: Msg, rest: seq<Event>)
    requires Valid(j) && j.oack == Some(m)
    ensures TimelyExchange(j, 0, Start(), [ToClient(m), ToServer(Ack(0))] + rest, m, RETRIES)
  {
    hide Flatten;
    var es := [ToClient(m), ToServer(Ack(0))] + rest;
    var w1 := Happen(Send(Start(), m), ToClient(m));
    ServedAwait(Start(), m, 0, rest);
    assert es[1..][1..] == rest && es[1..][0] == ToServer(Ack(0));
    assert IsAck(Ack(0), 0);
    assert TimelyAwait(j, 0, w1, es[1..]);
  }

  lemma {:induction false} FlattenNone()
    ensures Flatten([]) == []
  {
  }

  lemma {:induction false} ScriptTimely(j: Job, k: nat, w: World)
    requires Valid(j) && 1 <= k <= |j.bl| && Reached(j, k, w)
    ensures TimelyBlocks(j, w, Script(j, k, Delivered), k)
    decreases |j.bl| - k
  {
    hide Flatten, Exchange, TimelyExchange;
    var rest := if k < |j.bl| then Script(j, k + 1, Delivered) else [];
    OneTimely(j, k, w, rest);
    OneExchange(j, k, w, rest);
    if k < |j.bl| {
      var (_, w1, _) := Exchange(w, Script(j, k, Delivered), Data(Num(k), j.bl[k - 1]), Num(k), RETRIES);
      ScriptTimely(j, k + 1, w1);
    }
  }

  lemma {:induction false} OneTimely(j: Job, k: nat, w: World, rest: seq<Event>)
    requires Valid(j) && 1 <= k <= |j.bl| && Reached(j, k, w)
    ensures var m := Data(Num(k), j.bl[k - 1]);
      TimelyExchange(j, k, w, [ToClient(m), ToServer(Ack(Num(k)))] + rest, m, RETRIES)
  {
    hide Flatten;
    var m := Data(Num(k), j.bl[k - 1]);
    var es := [ToClient(m), ToServer(Ack(Num(k)))] + rest;
    var w1 := Happen(Send(w, m), ToClient(m));
    assert es[1..][1..] == rest && es[1..][0] == ToServer(Ack(Num(k)));
    assert IsBlock(j, m, k) && IsAck(Ack(Num(k)), k);
    ServedAwait(w, m, Num(k), rest);
    assert TimelyAwait(j, k, w1, es[1..]);
  }

  /** The promise of a successful transfer, for every schedule of the network. */
  ghost predicate Promise(data: seq<Byte>, o: Options) {
    forall es :: Keeps(data, o, es)
  }

  ghost predicate Keeps(data: seq<Byte>, o: Options, es: seq<Event>) {
    var (ok, w, _) := Serve(Start(), es, data, o);
    ok ==> w.client.got == data && w.client.finished
  }

  /** The theorem: success means the client has the file exactly when no two
      packets of the transfer share a block number: at most 65535 blocks, or 65536
      when no options are acknowledged. */
  lemma {:induction false} PromiseIff(data: seq<Byte>, o: Options)
    ensures Promise(data, o) <==> |data| / BlockSize(o) + 1 + (if Negotiates(o) then 1 else 0) <= 65536
  {
    var j := JobOf(data, o);
    BlockCount(data, j.bs);
    if Distinct(j) {
      forall es
        ensures Keeps(data, o, es)
      {
        ServeCorrect(data, o, es);
      }
    } else {
      WholeRuns(data, o, StaleAck);
      assert !Keeps(data, o, Whole(j, StaleAck));
    }
  }

  /** The promise of every transfer, successful or not: never anything but a prefix. */
  ghost predicate Safe(data: seq<Byte>, o: Options) {
    forall es :: HoldsPrefix(data, o, es)
  }

  ghost predicate HoldsPrefix(data: seq<Byte>, o: Options, es: seq<Event>) {
    var w := Serve(Start(), es, data, o).1;
    w.client.got <= data && forall h :: h in w.held ==> h <= data
  }

  /** It is kept for every schedule exactly when there are at most 65536 blocks,
      whether or not options are acknowledged: beyond that the client can take an
      old block for the last. */
  lemma {:induction false} SafeIff(data: seq<Byte>, o: Options)
    ensures Safe(data, o) <==> |data| / BlockSize(o) + 1 <= 65536
  {
    var j := JobOf(data, o);
    BlockCount(data, j.bs);
    if FewBlocks(j) {
      forall es
        ensures HoldsPrefix(data, o, es)
      {
        ServeCorrect(data, o, es);
      }
    } else {
      WholeRuns(data, o, StaleBlock);
      assert !HoldsPrefix(data, o, Whole(j, StaleBlock));
    }
  }

  // ---- a network that loses nothing ----

  /** The events of a, in order, are among those of b. */
  predicate Among(a: seq<Event>, b: seq<Event>)
    decreases |b|
  {
    a == [] || (b != [] && if a[0] == b[0] then Among(a[1..], b[1..]) else Among(a, b[1..]))
  }

  lemma {:induction false} AmongRest(a: seq<Event>, b: seq<Event>)
    requires a != [] && Among(a, b)
    ensures Among(a[1..], b)
    decreases |b|, 1
  {
    if a[0] == b[0] {
      AmongMore(a[1..], b);
    } else {
      AmongRest(a, b[1..]);
      AmongMore(a[1..], b);
    }
  }

  lemma {:induction false} AmongMore(a: seq<Event>, b: seq<Event>)
    requires b != [] && Among(a, b[1..])
    ensures Among(a, b)
    decreases |b|, 0
  {
    if a != [] && a[0] == b[0] {
      AmongRest(a, b[1..]);
    }
  }

  function Timers(es: seq<Event>): nat {
    if es == [] then 0 else (if es[0].Timer? then 1 else 0) + Timers(es[1..])
  }

  predicate NoQuits(es: seq<Event>) {
    forall i :: 0 <= i < |es| ==> !es[i].Quits?
  }

  /** The packet and its answer are still to come, or it has come and its answer is. */
  predicate Due(w: World, es: seq<Event>, m: Msg, x: nat, rest: seq<Event>) {
    && NoQuits(es) && Error !in w.replies && m in w.sent
    && (Among([ToClient(m), ToServer(Ack(x))] + rest, es)
        || (Ack(x) in w.replies && Among([ToServer(Ack(x))] + rest, es)))
  }

  /** What is left of the schedule when the answer, or the timer, has come. */
  lemma {:induction false} AwaitServed(w: World, es: seq<Event>, m: Msg, x: nat, rest: seq<Event>)
    requires Due(w, es, m, x, rest) && Answers(m, x)
    ensures var (o, w', es') := Await(w, es, x);
      && !o.Refused? && NoQuits(es') && Error !in w'.replies && Timers(es') <= Timers(es)
      && (o.Acked? ==> Among(rest, es'))
      && (o.Timeout? ==> Timers(es') < Timers(es) && Due(w', es', m, x, rest))
    decreases |es|
  {
    hide Among;
    var full, half := [ToClient(m), ToServer(Ack(x))] + rest, [ToServer(Ack(x))] + rest;
    assert full[1..] == half && half[1..] == rest;
    assert es != [] by { AmongSome(full, es); AmongSome(half, es); }
    AmongStep(full, es);
    AmongStep(half, es);
    var e := es[0];
    if !Ends(w, e, x) {
      AwaitServed(Happen(w, e), es[1..], m, x, rest);
    } else if e.ToServer? {
      if Among(full, es[1..]) {
        AmongRest(full, es[1..]);
        AmongRest(half, es[1..]);
      } else {
        AmongRest(half, es);
      }
    }
  }

  lemma {:induction false} AmongSome(a: seq<Event>, es: seq<Event>)
    requires a != []
    ensures Among(a, es) ==> es != []
  {
  }

  lemma {:induction false} AmongStep(a: seq<Event>, es: seq<Event>)
    requires a != [] && es != []
    ensures Among(a, es) <==> Among(if a[0] == es[0] then a[1..] else a, es[1..])
  {
  }

  /** An exchange with fewer timeouts than tries succeeds. */
  lemma {:induction false} ExchangeServed(w: World, es: seq<Event>, m: Msg, x: nat, rest: seq<Event>, retries: nat)
    requires Due(Send(w, m), es, m, x, rest) && Answers(m, x) && Timers(es) < retries
    ensures var (ok, w', es') := Exchange(w, es, m, x, retries);
      ok && NoQuits(es') && Error !in w'.replies && Timers(es') <= Timers(es) && Among(rest, es')
    decreases retries
  {
    hide Await, Among, NoQuits;
    AwaitServed(Send(w, m), es, m, x, rest);
    var (o, w1, es1) := Await(Send(w, m), es, x);
    if o.Timeout? {
      ExchangeServed(w1, es1, m, x, rest, retries - 1);
    }
  }

  lemma {:induction false} BlocksServed(j: Job, k: nat, w: World, es: seq<Event>, data: seq<Byte>, offset: nat)
    requires Valid(j) && j.bs > 0 && 1 <= k <= |j.bl|
    requires Among(Script(j, k, Delivered), es) && NoQuits(es) && Error !in w.replies && Timers(es) < RETRIES
    requires offset <= |data| && Blocks(data[offset..], j.bs) == j.bl[k - 1..]
    ensures SendBlocks(w, es, data, j.bs, k, offset).0
    decreases |data| - offset
  {
    hide Exchange, Among, Timers, NoQuits;
    var chunk := Chunk(data, offset, j.bs);
    var m := Data(Num(k), chunk);
    assert j.bl[k - 1] == j.bl[k - 1..][0] == chunk;
    var rest := if k < |j.bl| then Script(j, k + 1, Delivered) else [];
    assert Script(j, k, Delivered) == [ToClient(m), ToServer(Ack(Num(k)))] + rest;
    ExchangeServed(w, es, m, Num(k), rest, RETRIES);
    var (_, w1, es1) := Exchange(w, es, m, Num(k), RETRIES);
    if k < |j.bl| {
      assert data[offset..][j.bs..] == data[offset + j.bs..];
      assert j.bl[k - 1..][1..] == j.bl[k..];
      BlocksServed(j, k + 1, w1, es1, data, offset + |chunk|);
    }
  }

  /** A network that delivers every packet of the transfer and its answer, in order,
      whatever else it delivers between and however early, with no more than four
      timeouts in all and a client that does not quit: every such transfer succeeds,
      of any length, and the client has the file if block numbers do not repeat or
      packets are timely. */
  lemma {:induction false} Completes(data: seq<Byte>, o: Options, es: seq<Event>)
    requires Among(Whole(JobOf(data, o), Delivered), es) && NoQuits(es) && Timers(es) < RETRIES
    ensures var (ok, w, _) := Serve(Start(), es, data, o);
      ok && (Distinct(JobOf(data, o)) || Timely(data, o, es) ==> w.client.got == data && w.client.finished)
  {
    hide Exchange, SendBlocks, Among, Timers, NoQuits, Timely;
    var j := JobOf(data, o);
    BlocksAre(data, j.bs);
    assert data[0..] == data && j.bl[0..] == j.bl;
    if Negotiates(o) {
      var m := OackOf(o, data);
      assert Whole(j, Delivered) == [ToClient(m), ToServer(Ack(0))] + Script(j, 1, Delivered);
      ExchangeServed(Start(), es, m, 0, Script(j, 1, Delivered), RETRIES);
      var (_, w1, es1) := Exchange(Start(), es, m, 0, RETRIES);
      BlocksServed(j, 1, w1, es1, data, 0);
    } else {
      assert Whole(j, Delivered) == Script(j, 1, Delivered);
      BlocksServed(j, 1, Start(), es, data, 0);
    }
    if Distinct(j) || Timely(data, o, es) {
      ServeCorrect(data, o, es);
    }
  }

  // ---- four timeouts a packet ----

  /** The events of one exchange: the packet gets to the client, its answer comes
      last, and the timer runs out no more than four times. */
  predicate Attempt(es: seq<Event>, m: Msg, x: nat) {
    && Closes(es, x) && ToClient(m) in es && NoQuits(es) && Timers(es) < RETRIES
  }

  /** The answer comes last, and only there. */
  predicate Closes(es: seq<Event>, x: nat) {
    es != [] && es[|es| - 1] == ToServer(Ack(x)) && ToServer(Ack(x)) !in es[..|es| - 1]
  }

  /** The packet is on its way, or has come. */
  predicate Coming(w: World, es: seq<Event>, m: Msg, x: nat) {
    Error !in w.replies && m in w.sent && (ToClient(m) in es || Ack(x) in w.replies)
  }

  lemma {:induction false} AttemptRest(es: seq<Event>, m: Msg, x: nat)
    requires Closes(es, x) && NoQuits(es) && es[0] != ToServer(Ack(x))
    ensures |es| > 1 && Closes(es[1..], x) && NoQuits(es[1..])
    ensures ToClient(m) in es && es[0] != ToClient(m) ==> ToClient(m) in es[1..]
  {
    assert es == [es[0]] + es[1..];
    assert es[..|es| - 1][1..] == es[1..][..|es| - 2];
  }

  /** Waiting through them ends with the answer, or with one timeout less to come. */
  lemma {:induction false} AwaitPatient(w: World, es: seq<Event>, rest: seq<Event>, m: Msg, x: nat) returns (n: nat)
    requires Closes(es, x) && NoQuits(es) && Coming(w, es, m, x) && Answers(m, x)
    ensures var (o, w', es') := Await(w, es + rest, x);
      && !o.Refused? && Error !in w'.replies
      && (o.Acked? ==> es' == rest)
      && (o.Timeout? ==>
            && n < |es| && es' == es[n..] + rest && Closes(es[n..], x) && NoQuits(es[n..])
            && Coming(w', es[n..], m, x) && Timers(es[n..]) < Timers(es))
    decreases |es|
  {
    var all := es + rest;
    n := 1;
    assert all[0] == es[0] && all[1..] == es[1..] + rest;
    if es[0] == ToServer(Ack(x)) {
      OnlyLast(es, x);
    } else {
      AttemptRest(es, m, x);
      if !es[0].Timer? {
        var k := AwaitPatient(Happen(w, es[0]), es[1..], rest, m, x);
        n := k + 1;
        assert k < |es[1..]| ==> es[1..][k..] == es[n..];
      }
    }
  }

  lemma {:induction false} OnlyLast(es: seq<Event>, x: nat)
    requires Closes(es, x) && es[0] == ToServer(Ack(x))
    ensures es[1..] == []
  {
    FrontHead(es);
  }

  lemma {:induction false} FrontHead(es: seq<Event>)
    ensures |es| > 1 ==> es[0] in es[..|es| - 1]
  {
    assert |es| > 1 ==> es[..|es| - 1][0] == es[0];
  }

  lemma {:induction false} ExchangePatient(w: World, es: seq<Event>, rest: seq<Event>, m: Msg, x: nat, retries: nat)
    requires Closes(es, x) && NoQuits(es) && Coming(Send(w, m), es, m, x) && Answers(m, x) && Timers(es) < retries
    ensures var (ok, w', es') := Exchange(w, es + rest, m, x, retries); ok && Error !in w'.replies && es' == rest
    decreases retries
  {
    hide Await, NoQuits, Timers, Closes;
    var n := AwaitPatient(Send(w, m), es, rest, m, x);
    var (o, w1, es1) := Await(Send(w, m), es + rest, x);
    if o.Timeout? {
      ExchangePatient(w1, es[n..], rest, m, x, retries - 1);
    }
  }

  /** The schedule is one exchange after the other, from block k on. */
  ghost predicate Patient(j: Job, k: nat, es: seq<Event>)
    requires 1 <= k <= |j.bl|
    decreases |j.bl| - k
  {
    exists n :: 0 <= n <= |es| && Attempt(es[..n], Data(Num(k), j.bl[k - 1]), Num(k))
                && (k < |j.bl| ==> Patient(j, k + 1, es[n..]))
  }

  /** The same for the whole transfer. */
  ghost predicate PatientWhole(j: Job, es: seq<Event>)
    requires j.bl != []
  {
    match j.oack
    case None => Patient(j, 1, es)
    case Some(m) => exists n :: 0 <= n <= |es| && Attempt(es[..n], m, 0) && Patient(j, 1, es[n..])
  }

  lemma {:induction false} AttemptComing(w: World, es: seq<Event>, m: Msg, x: nat)
    requires Attempt(es, m, x) && Error !in w.replies
    ensures Closes(es, x) && NoQuits(es) && Coming(Send(w, m), es, m, x) && Timers(es) < RETRIES
  {
    hide Closes, Timers, NoQuits;
  }

  /** The first exchange of a patient schedule, and the schedule after it. */
  lemma {:induction false} FirstAttempt(j: Job, k: nat, es: seq<Event>) returns (a: seq<Event>, rest: seq<Event>)
    requires 1 <= k <= |j.bl| && Patient(j, k, es)
    ensures es == a + rest && Attempt(a, Data(Num(k), j.bl[k - 1]), Num(k)) && (k < |j.bl| ==> Patient(j, k + 1, rest))
  {
    hide Attempt;
    var m := Data(Num(k), j.bl[k - 1]);
    var n :| 0 <= n <= |es| && Attempt(es[..n], m, Num(k)) && (k < |j.bl| ==> Patient(j, k + 1, es[n..]));
    a, rest := es[..n], es[n..];
  }

  lemma {:induction false} BlocksPatient(j: Job, k: nat, w: World, es: seq<Event>, data: seq<Byte>, offset: nat)
    requires Valid(j) && j.bs > 0 && 1 <= k <= |j.bl| && Patient(j, k, es) && Error !in w.replies
    requires offset <= |data| && Blocks(data[offset..], j.bs) == j.bl[k - 1..]
    ensures SendBlocks(w, es, data, j.bs, k, offset).0
    decreases |data| - offset
  {
    hide Exchange, Closes, Timers, NoQuits, Attempt, Patient, Coming;
    var chunk := Chunk(data, offset, j.bs);
    var m := Data(Num(k), chunk);
    assert j.bl[k - 1] == j.bl[k - 1..][0] == chunk;
    var a, rest := FirstAttempt(j, k, es);
    AttemptComing(w, a, m, Num(k));
    ExchangePatient(w, a, rest, m, Num(k), RETRIES);
    var (_, w1, es1) := Exchange(w, es, m, Num(k), RETRIES);
    if k < |j.bl| {
      assert data[offset..][j.bs..] == data[offset + j.bs..];
      assert j.bl[k - 1..][1..] == j.bl[k..];
      BlocksPatient(j, k + 1, w1, es1, data, offset + |chunk|);
    }
  }

  /** Nor need the timeouts be few in all: four for each packet, the answer to it
      coming after them, and the transfer succeeds. */
  lemma {:induction false} CompletesPatiently(data: seq<Byte>, o: Options, es: seq<Event>)
    requires PatientWhole(JobOf(data, o), es)
    ensures var (ok, w, _) := Serve(Start(), es, data, o);
      ok && (Distinct(JobOf(data, o)) || Timely(data, o, es) ==> w.client.got == data && w.client.finished)
  {
    hide Exchange, SendBlocks, Closes, Timers, NoQuits, Timely, Patient;
    var j := JobOf(data, o);
    BlocksAre(data, j.bs);
    assert data[0..] == data && j.bl[0..] == j.bl;
    if Negotiates(o) {
      var m := OackOf(o, data);
      var n :| 0 <= n <= |es| && Attempt(es[..n], m, 0) && Patient(j, 1, es[n..]);
      assert es[..n] + es[n..] == es;
      AttemptComing(Start(), es[..n], m, 0);
      ExchangePatient(Start(), es[..n], es[n..], m, 0, RETRIES);
      var (_, w1, es1) := Exchange(Start(), es, m, 0, RETRIES);
      BlocksPatient(j, 1, w1, es1, data, 0);
    } else {
      BlocksPatient(j, 1, Start(), es, data, 0);
    }
    if Distinct(j) || Timely(data, o, es) {
      ServeCorrect(data, o, es);
    }
  }
}
