/** The logic analyser's two scan chains: the control register and the serial
    readout of the ring, each shift register fed from a copy taken on the other edge. */
module IlaSerial {
  import opened Bits
  import opened BitVec
  import opened IlaCapture

  /** The instance's parameters: AW is the address width of DEPTH. */
  datatype Params = Params(width: nat, depth: nat, aw: nat) {
    ghost predicate Valid() {
      aw >= 1 && depth == Pow2(aw) && aw + 11 <= width <= 65536
    }
    function Cw(): nat { 2 * width + aw + 9 }
    function Sw(): nat { aw + 11 }
  }

  const KEY: nat := 0x5A
  const STATUS_KEY: nat := 0x1A

  function Zeros(n: nat): (b: seq<bool>)
    ensures |b| == n
  {
    seq(n, i => false)
  }

  /** The status word: address, flags, and a constant that shows a wrong chain. */
  function Status(p: Params, c: Cap): (b: seq<bool>)
    ensures |b| == p.Sw()
  {
    ToBits(c.waddr, p.aw) + [c.armed, c.trig, c.done] + ToBits(STATUS_KEY, 8)
  }

  // ---- the control chain ----

  datatype Ctl = Ctl(csr: seq<bool>, csrN: seq<bool>)

  function CtlNeg(c: Ctl): Ctl { c.(csrN := c.csr) }

  function CtlPos(p: Params, c: Ctl, sel: bool, cap: bool, shift: bool, tdi: bool, status: seq<bool>): Ctl
    requires |c.csrN| == p.Cw() && |status| == p.Sw() <= p.Cw()
  {
    if !sel then c
    else if cap then c.(csr := status + Zeros(p.Cw() - p.Sw()))
    else if shift then c.(csr := c.csrN[1..] + [tdi])
    else c
  }

  /** What an update loads, when the key matches. */
  function Loaded(p: Params, csr: seq<bool>, k: Cfg): Cfg
    requires |csr| == p.Cw()
  {
    var w, aw := p.width, p.aw;
    if FromBits(csr[2 * w + aw + 1..]) == KEY then
      Cfg(Word(csr[..w]), Word(csr[w..2 * w]), FromBits(csr[2 * w..2 * w + aw]), csr[2 * w + aw])
    else k
  }

  /** The bits of a control word. */
  function CtlBits(p: Params, k: Cfg): (b: seq<bool>)
    requires |k.mask.bits| == p.width && |k.value.bits| == p.width
    ensures |b| == p.Cw()
  {
    k.mask.bits + k.value.bits + ToBits(k.post, p.aw) + [k.arm] + ToBits(KEY, 8)
  }

  /** A control word loads the fields it was made from. */
  lemma {:induction false} LoadsCtlBits(p: Params, k: Cfg, k0: Cfg)
    requires p.Valid() && |k.mask.bits| == p.width && |k.value.bits| == p.width
    ensures Loaded(p, CtlBits(p, k), k0) == k.(post := k.post % p.depth)
  {
    hide CtlBits, ToBits, FromBits, Pow2;
    CtlParts(p, k);
    KeyReads();
    FromTo(k.post, p.aw);
    assert p.depth == Pow2(p.aw);
  }

  lemma {:induction false} KeyReads()
    ensures FromBits(ToBits(KEY, 8)) == KEY
  {
    FromTo(KEY, 8);
    assert Pow2(8) == 256;
  }

  /** The fields of a control word, one after the other. */
  lemma {:induction false} CtlParts(p: Params, k: Cfg)
    requires |k.mask.bits| == p.width && |k.value.bits| == p.width
    ensures var b, w, aw := CtlBits(p, k), p.width, p.aw;
      && b[..w] == k.mask.bits && b[w..2 * w] == k.value.bits && b[2 * w..2 * w + aw] == ToBits(k.post, aw)
      && b[2 * w + aw] == k.arm && b[2 * w + aw + 1..] == ToBits(KEY, 8)
  {
    hide ToBits;
  }

  lemma {:induction false} ZeroKey(n: nat)
    ensures FromBits(Zeros(n)) == 0
  {
    if n > 0 {
      assert Zeros(n)[1..] == Zeros(n - 1);
      ZeroKey(n - 1);
    }
  }

  /** An all-zero word loads nothing. */
  lemma {:induction false} ZerosLoadNothing(p: Params, k: Cfg)
    ensures Loaded(p, Zeros(p.Cw()), k) == k
  {
    assert Zeros(p.Cw())[2 * p.width + p.aw + 1..] == Zeros(8);
    ZeroKey(8);
  }

  /** Nor does any other word whose key bits are not the key. */
  lemma {:induction false} UnkeyedLoadsNothing(p: Params, csr: seq<bool>, k: Cfg)
    requires |csr| == p.Cw() && csr[2 * p.width + p.aw + 1..] != ToBits(KEY, 8)
    ensures Loaded(p, csr, k) == k
  {
    hide ToBits, FromBits;
    ToFrom(csr[2 * p.width + p.aw + 1..]);
  }

  // ---- the data chain ----

  datatype Dat = Dat(raddr: nat, raddrN: nat, rdata: Word, dsr: seq<bool>, dsrN: seq<bool>, bitn: nat, bitnN: nat) {
    ghost predicate Valid(p: Params) { raddr < p.depth && raddrN < p.depth && |dsr| == p.width && |dsrN| == p.width }
  }

  function DatNeg(d: Dat): Dat { d.(dsrN := d.dsr, raddrN := d.raddr, bitnN := d.bitn) }

  function DatPos(p: Params, d: Dat, sel: bool, cap: bool, shift: bool, tdi: bool, status: seq<bool>,
      mem: seq<Word>): Dat
    requires d.raddrN < p.depth == |mem| && |d.dsrN| == p.width > 0 && |status| == p.Sw() <= p.width
  {
    var d' := d.(rdata := mem[d.raddrN]);
    if !sel then d'
    else if cap then d'.(dsr := status + Zeros(p.width - p.Sw()), raddr := 0, bitn := 0)
    else if shift then
      if d.bitnN == p.width - 1 then d'.(dsr := d.rdata.bits, raddr := Inc(d.raddrN, p.depth), bitn := 0)
      else d'.(dsr := d.dsrN[1..] + [tdi], bitn := (d.bitnN + 1) % 65536)
    else d'
  }

  /** One shift cycle: both edges. */
  function DatCycle(p: Params, d: Dat, tdi: bool, mem: seq<Word>): Dat
    requires d.raddr < p.depth == |mem| && |d.dsr| == p.width && p.Valid()
  {
    DatPos(p, DatNeg(d), true, false, true, tdi, ToBits(0, p.Sw()), mem)
  }

  /** The word the host receives i-th: the header, then the memory. */
  function WordAt(mem: seq<Word>, header: seq<bool>, i: nat): seq<bool>
    requires i <= |mem|
  {
    if i == 0 then header else mem[i - 1].bits
  }

  /** Bit j of word i is at the foot of the shift register, the next word on its way. */
  ghost predicate Reading(p: Params, d: Dat, mem: seq<Word>, header: seq<bool>, i: nat, j: nat) {
    && |mem| == p.depth > 0 && i <= p.depth && j < p.width
    && |d.dsr| == p.width == |header| && (forall k :: 0 <= k < |mem| ==> |mem[k].bits| == p.width)
    && d.raddr == (if i == p.depth then 0 else i) && d.bitn == j
    && d.dsr[..p.width - j] == WordAt(mem, header, i)[j..]
    && (j >= 1 ==> d.rdata == mem[d.raddr])
  }

  lemma {:induction false} ReadingStep(p: Params, d: Dat, tdi: bool, mem: seq<Word>, header: seq<bool>, i: nat, j: nat)
    requires p.Valid() && Reading(p, d, mem, header, i, j)
    ensures d.dsr[0] == WordAt(mem, header, i)[j]
    ensures var d' := DatCycle(p, d, tdi, mem);
      && (j + 1 < p.width ==> Reading(p, d', mem, header, i, j + 1))
      && (j + 1 == p.width && i < p.depth ==> Reading(p, d', mem, header, i + 1, 0))
  {
    var w := WordAt(mem, header, i);
    assert d.dsr[0] == d.dsr[..p.width - j][0];
    var d' := DatCycle(p, d, tdi, mem);
    if j + 1 < p.width {
      assert d'.dsr[..p.width - (j + 1)] == d.dsr[..p.width - j][1..];
      assert w[j..][1..] == w[j + 1..];
    } else if i < p.depth {
      assert d'.dsr[..p.width] == d'.dsr == mem[i].bits;
    }
  }

  // ---- the registers, clocked as the module clocks them ----

  class ControlChain {
    const p: Params
    var csr: seq<bool>
    var csr_n: seq<bool>
    var mask: Word
    var value: Word
    var post: nat
    var arm_t: bool

    function St(): (Ctl, Cfg)
      reads this
    {
      (Ctl(csr, csr_n), Cfg(mask, value, post, arm_t))
    }

    constructor (p: Params)
      ensures St() == (Ctl(Zeros(p.Cw()), Zeros(p.Cw())), Cfg(Word(Zeros(p.width)), Word(Zeros(p.width)), 0, false))
      ensures this.p == p
    {
      this.p := p;
      csr, csr_n := Zeros(p.Cw()), Zeros(p.Cw());
      mask, value, post, arm_t := Word(Zeros(p.width)), Word(Zeros(p.width)), 0, false;
    }

    method NegEdge()
      modifies `csr_n
      ensures St() == (CtlNeg(old(St()).0), old(St()).1)
    {
      csr_n := csr;
    }

    method PosEdge(sel: bool, cap: bool, shift: bool, tdi: bool, status: seq<bool>)
      requires |csr_n| == p.Cw() && |status| == p.Sw() <= p.Cw()
      modifies `csr
      ensures St() == (CtlPos(p, old(St()).0, sel, cap, shift, tdi, status), old(St()).1)
    {
      if sel {
        if cap {
          csr := status + Zeros(p.Cw() - p.Sw());
        } else if shift {
          csr := csr_n[1..] + [tdi];
        }
      }
    }

    method Update(sel: bool)
      requires |csr| == p.Cw()
      modifies `mask, `value, `post, `arm_t
      ensures St() == (old(St()).0, if sel then Loaded(p, csr, old(St()).1) else old(St()).1)
    {
      var w, aw := p.width, p.aw;
      if sel && FromBits(csr[2 * w + aw + 1..]) == KEY {
        mask, value := Word(csr[..w]), Word(csr[w..2 * w]);
        post, arm_t := FromBits(csr[2 * w..2 * w + aw]), csr[2 * w + aw];
      }
    }
  }

  class DataChain {
    const p: Params
    var raddr: nat
    var raddr_n: nat
    var rdata: Word
    var dsr: seq<bool>
    var dsr_n: seq<bool>
    var bitn: nat
    var bitn_n: nat

    function St(): Dat
      reads this
    {
      Dat(raddr, raddr_n, rdata, dsr, dsr_n, bitn, bitn_n)
    }

    constructor (p: Params, rdata: Word)
      ensures St() == Dat(0, 0, rdata, Zeros(p.width), Zeros(p.width), 0, 0) && this.p == p
    {
      this.p := p;
      raddr, raddr_n, this.rdata, dsr, dsr_n, bitn, bitn_n := 0, 0, rdata, Zeros(p.width), Zeros(p.width), 0, 0;
    }

    method NegEdge()
      modifies `dsr_n, `raddr_n, `bitn_n
      ensures St() == DatNeg(old(St()))
    {
      dsr_n, raddr_n, bitn_n := dsr, raddr, bitn;
    }

    method PosEdge(sel: bool, cap: bool, shift: bool, tdi: bool, status: seq<bool>, mem: array<Word>)
      requires raddr_n < p.depth == mem.Length && |dsr_n| == p.width > 0 && |status| == p.Sw() <= p.width
      modifies `rdata, `dsr, `raddr, `bitn
      ensures St() == DatPos(p, old(St()), sel, cap, shift, tdi, status, mem[..])
    {
      var word := rdata;
      rdata := mem[raddr_n];
      if sel {
        if cap {
          dsr, raddr, bitn := status + Zeros(p.width - p.Sw()), 0, 0;
        } else if shift {
          if bitn_n == p.width - 1 {
            dsr, raddr, bitn := word.bits, Inc(raddr_n, p.depth), 0;
          } else {
            dsr, bitn := dsr_n[1..] + [tdi], (bitn_n + 1) % 65536;
          }
        }
      }
    }
  }
}
