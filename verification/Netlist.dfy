/** Yosys netlists as data, and what they mean: a run gives every net a value (a
    whole waveform, if need be) that every cell accepts. */
module Netlist {

  datatype Bit = Net(id: nat) | Const(c: char)

  /** A cell: its type, its parameters, its attributes, its output ports, its connections. */
  datatype Cell = Cell(kind: string, params: map<string, string>, attrs: map<string, string>,
                       outs: set<string>, conns: map<string, seq<Bit>>)

  datatype Module = Module(ports: map<string, seq<Bit>>, cells: map<string, Cell>, nets: map<string, seq<Bit>>)

  // ---- what a netlist means ----

  /** What each kind of cell accepts on its ports, and the constants.  Attributes
      (placement, source lines) mean nothing. */
  datatype Sem<!V> = Sem(accepts: (string, map<string, string>, map<string, seq<V>>) -> bool, constant: char -> V)

  function Eval<V>(s: Sem<V>, rho: nat -> V, b: Bit): V {
    match b
    case Net(i) => rho(i)
    case Const(c) => s.constant(c)
  }

  function EvalAll<V>(s: Sem<V>, rho: nat -> V, bits: seq<Bit>): (vs: seq<V>)
    ensures |vs| == |bits|
  {
    seq(|bits|, i requires 0 <= i < |bits| => Eval(s, rho, bits[i]))
  }

  function Ports<V>(s: Sem<V>, rho: nat -> V, conns: map<string, seq<Bit>>): map<string, seq<V>> {
    map p | p in conns :: EvalAll(s, rho, conns[p])
  }

  predicate Accepts<V>(s: Sem<V>, rho: nat -> V, c: Cell) {
    s.accepts(c.kind, c.params, Ports(s, rho, c.conns))
  }

  predicate Run<V>(s: Sem<V>, rho: nat -> V, cells: map<string, Cell>) {
    forall n :: n in cells ==> Accepts(s, rho, cells[n])
  }

  // ---- ids ----

  predicate BitBelow(b: Bit, max: nat) { b.Net? ==> b.id <= max }
  predicate BitsBelow(bits: seq<Bit>, max: nat) { forall i :: 0 <= i < |bits| ==> BitBelow(bits[i], max) }
  predicate CellBelow(c: Cell, max: nat) { forall p :: p in c.conns ==> BitsBelow(c.conns[p], max) }
  predicate NetsBelow(nets: map<string, seq<Bit>>, max: nat) { forall n :: n in nets ==> BitsBelow(nets[n], max) }
  predicate CellsBelow(cells: map<string, Cell>, max: nat) { forall n :: n in cells ==> CellBelow(cells[n], max) }
  predicate Below(m: Module, max: nat) { NetsBelow(m.nets, max) && CellsBelow(m.cells, max) }

  /** The largest id among some bits and a bound so far. */
  method MaxBits(bits: seq<Bit>, lo: nat) returns (max: nat)
    ensures max >= lo && BitsBelow(bits, max)
    ensures max == lo || Net(max) in bits
  {
    max := lo;
    for i := 0 to |bits|
      invariant max >= lo && BitsBelow(bits[..i], max)
      invariant max == lo || Net(max) in bits
    {
      if bits[i].Net? && bits[i].id > max {
        max := bits[i].id;
      }
    }
    assert bits[..|bits|] == bits;
  }

  /** The id is that of some net. */
  ghost predicate InNets(nets: map<string, seq<Bit>>, id: nat) { exists n :: n in nets && Net(id) in nets[n] }
  ghost predicate InCells(cells: map<string, Cell>, id: nat) { exists n :: n in cells && InNets(cells[n].conns, id) }
  ghost predicate Occurs(m: Module, id: nat) { InNets(m.nets, id) || InCells(m.cells, id) }

  method MaxNets(nets: map<string, seq<Bit>>, lo: nat) returns (max: nat)
    ensures max >= lo && NetsBelow(nets, max)
    ensures max == lo || InNets(nets, max)
  {
    max := lo;
    var todo := nets.Keys;
    while todo != {}
      invariant todo <= nets.Keys && max >= lo && (max == lo || InNets(nets, max))
      invariant forall n :: n in nets && n !in todo ==> BitsBelow(nets[n], max)
      decreases |todo|
    {
      var n :| n in todo;
      max := MaxBits(nets[n], max);
      todo := todo - {n};
    }
  }

  method MaxCells(cells: map<string, Cell>, lo: nat) returns (max: nat)
    ensures max >= lo && CellsBelow(cells, max)
    ensures max == lo || InCells(cells, max)
  {
    max := lo;
    var todo := cells.Keys;
    while todo != {}
      invariant todo <= cells.Keys && max >= lo && (max == lo || InCells(cells, max))
      invariant forall n :: n in cells && n !in todo ==> CellBelow(cells[n], max)
      decreases |todo|
    {
      var n :| n in todo;
      max := MaxNets(cells[n].conns, max);
      todo := todo - {n};
    }
  }

  /** The first id above every net of every module. */
  method FreshBase(design: map<string, Module>) returns (base: nat)
    ensures base > 0 && forall m :: m in design ==> Below(design[m], base - 1)
    ensures base == 1 || exists m :: m in design && Occurs(design[m], base - 1)
  {
    var max := 0;
    var todo := design.Keys;
    while todo != {}
      invariant todo <= design.Keys && max >= 0
      invariant max == 0 || exists m :: m in design && Occurs(design[m], max)
      invariant forall m :: m in design && m !in todo ==> Below(design[m], max)
      decreases |todo|
    {
      var m :| m in todo;
      max := MaxNets(design[m].nets, max);
      max := MaxCells(design[m].cells, max);
      todo := todo - {m};
    }
    base := max + 1;
  }

  // ---- renaming ----

  function MapBits(f: Bit -> Bit, bits: seq<Bit>): (r: seq<Bit>)
    ensures |r| == |bits| && forall i :: 0 <= i < |bits| ==> r[i] == f(bits[i])
  {
    seq(|bits|, i requires 0 <= i < |bits| => f(bits[i]))
  }

  function MapCell(f: Bit -> Bit, c: Cell): Cell {
    c.(conns := map p | p in c.conns :: MapBits(f, c.conns[p]))
  }

  /** A renamed cell is the same cell on other nets: type, parameters, attributes and
      port directions stay, and each bit of each port is renamed. */
  lemma {:induction false} MapCellIs(f: Bit -> Bit, c: Cell)
    ensures var d := MapCell(f, c);
      && d.kind == c.kind && d.params == c.params && d.attrs == c.attrs && d.outs == c.outs
      && d.conns.Keys == c.conns.Keys
      && forall p :: p in c.conns ==>
           |d.conns[p]| == |c.conns[p]| && forall i :: 0 <= i < |c.conns[p]| ==> d.conns[p][i] == f(c.conns[p][i])
  {
  }

  /** The valuation a renaming gives the netlist before it. */
  function Pull<V>(s: Sem<V>, rho: nat -> V, f: Bit -> Bit): nat -> V {
    (i: nat) => Eval(s, rho, f(Net(i)))
  }

  /** The renaming leaves constants alone. */
  ghost predicate Renames(f: Bit -> Bit) {
    forall c :: f(Const(c)) == Const(c)
  }

  /** A renamed cell accepts a valuation as the cell accepts it pulled back. */
  lemma {:induction false} AcceptsRenamed<V>(s: Sem<V>, rho: nat -> V, f: Bit -> Bit, c: Cell)
    requires Renames(f)
    ensures Accepts(s, rho, MapCell(f, c)) == Accepts(s, Pull(s, rho, f), c)
  {
    var renamed := MapCell(f, c).conns;
    forall p | p in c.conns
      ensures EvalAll(s, rho, renamed[p]) == EvalAll(s, Pull(s, rho, f), c.conns[p])
    {
      forall i | 0 <= i < |c.conns[p]|
        ensures Eval(s, rho, renamed[p][i]) == Eval(s, Pull(s, rho, f), c.conns[p][i])
      {
        assert renamed[p][i] == f(c.conns[p][i]);
      }
    }
    assert Ports(s, rho, renamed) == Ports(s, Pull(s, rho, f), c.conns);
  }

  /** Valuations that agree on a cell's nets are the same to it. */
  lemma {:induction false} AcceptsAgreeing<V>(s: Sem<V>, rho: nat -> V, tau: nat -> V, c: Cell, max: nat)
    requires CellBelow(c, max) && forall i :: 0 <= i <= max ==> rho(i) == tau(i)
    ensures Accepts(s, rho, c) == Accepts(s, tau, c)
  {
    forall p | p in c.conns
      ensures EvalAll(s, rho, c.conns[p]) == EvalAll(s, tau, c.conns[p])
    {
      assert BitsBelow(c.conns[p], max);
    }
    assert Ports(s, rho, c.conns) == Ports(s, tau, c.conns);
  }
}
