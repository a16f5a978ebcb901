/** Splicing a clock controller into a placed design: the clock's buffer gets an
    enable, the controller an ungated copy of the clock, and with the enable up the
    design runs as it did. */
module CtlMerge {
  import opened Netlist
  import opened IlaMerge

  const PREFIX := "tctl."
  const APART: nat := 10_000_000

  function FreeNet(base: nat): nat { base + APART }
  function CeNet(base: nat): nat { base + APART + 1 }

  // ---- the rewriting ----

  /** The gated buffer. */
  function Gated(bufg: Cell, ce: Bit): Cell {
    bufg.(kind := "BUFGCE", conns := bufg.conns["CE" := [ce]])
  }

  /** The controller's own copy of the clock. */
  function FreeBuffer(input: seq<Bit>, output: nat): Cell {
    Cell("BUFG", map[], map[], {"O"}, map["I" := input, "O" := [Net(output)]])
  }

  function StatusBits(nets: map<string, seq<Bit>>, names: seq<string>): seq<Bit> {
    if names == [] then []
    else StatusBits(nets, names[..|names| - 1]) + if names[|names| - 1] in nets then nets[names[|names| - 1]] else []
  }

  /** The controller's ports: its clock, its enable, and the nets it shows as status. */
  function CtlPorts(ctl: Module, word: seq<Bit>, base: nat): map<nat, Bit> {
    var status := if "status" in ctl.ports then PortMap(ctl.ports["status"], word, |ctl.ports["status"]|) else map[];
    Wired(Wired(status, ctl, "clk_free", Net(FreeNet(base))), ctl, "ce", Net(CeNet(base)))
  }

  /** A one-bit port, if the controller has it, wired to a net. */
  function Wired(m: map<nat, Bit>, ctl: Module, pin: string, b: Bit): map<nat, Bit> {
    if pin in ctl.ports && ctl.ports[pin] != [] && ctl.ports[pin][0].Net? then m[ctl.ports[pin][0].id := b] else m
  }

  predicate IsBuffer(cells: map<string, Cell>, name: string) {
    name in cells && Buffers(cells[name].kind) && "I" in cells[name].conns
  }

  predicate Buffers(kind: string) { kind == "BUFG" || kind == "BUFGCE" }

  /** The design's own cells after the rewriting, the new buffer among them. */
  function Rewritten(cells: map<string, Cell>, name: string, base: nat): map<string, Cell>
    requires IsBuffer(cells, name)
  {
    cells[name := Gated(cells[name], Net(CeNet(base)))]
         [PREFIX + "bufg_free" := FreeBuffer(cells[name].conns["I"], FreeNet(base))]
  }

  function Merged(cells: map<string, Cell>, name: string, ctl: Module, ports: map<nat, Bit>, base: nat)
    : map<string, Cell>
    requires IsBuffer(cells, name)
  {
    Rewritten(cells, name, base) + InsertedCells(Renaming(ports, base), PREFIX, ctl.cells)
  }

  /** The names the nets have then: the two reserved ones, and the controller's own under the prefix. */
  function MergedNets(nets: map<string, seq<Bit>>, ctl: Module, ports: map<nat, Bit>, base: nat)
    : map<string, seq<Bit>>
  {
    nets[PREFIX + "clk_free" := [Net(FreeNet(base))]][PREFIX + "ce" := [Net(CeNet(base))]]
      + InsertedNets(ports, base, PREFIX, ctl.nets)
  }

  /** Every placed cell pinned to its bel. */
  function Pinned(cells: map<string, Cell>, place: map<string, Option<string>>): map<string, Cell> {
    map n | n in cells ::
        if n in place && place[n].Some? then cells[n].(attrs := cells[n].attrs["BEL" := place[n].value]) else cells[n]
  }

  predicate Pinnable(cells: map<string, Cell>, place: map<string, Option<string>>) {
    forall n :: n in place && n in cells ==> place[n].Some?
  }

  // ---- the script ----

  method FillStatus(nets: map<string, seq<Bit>>, names: seq<string>) returns (word: seq<Bit>)
    ensures word == StatusBits(nets, names)
  {
    word := [];
    for i := 0 to |names|
      invariant word == StatusBits(nets, names[..i])
    {
      assert names[..i + 1][..i] == names[..i];
      if names[i] in nets {
        word := word + nets[names[i]];
      }
    }
    assert names[..|names|] == names;
  }

  /** The cell as the placement leaves it: its bel among its attributes, if it is
      placed, and nothing else changed. */
  predicate Placed(was: Cell, now: Cell, bel: Option<string>) {
    && now.kind == was.kind && now.params == was.params && now.outs == was.outs && now.conns == was.conns
    && now.attrs == match bel
                    case None => was.attrs
                    case Some(b) => was.attrs["BEL" := b]
  }

  /** The placement's bel for the cell, if it names the cell. */
  function Bel(place: map<string, Option<string>>, n: string): Option<string> {
    if n in place then place[n] else None
  }

  method Pin(cells: map<string, Cell>, place: map<string, Option<string>>) returns (r: Result<map<string, Cell>>)
    ensures r == if Pinnable(cells, place) then Ok(Pinned(cells, place)) else Failed
    ensures r.Failed? <==> exists n :: n in cells && n in place && place[n].None?
    ensures r.Ok? ==>
      r.value.Keys == cells.Keys && forall n :: n in cells ==> Placed(cells[n], r.value[n], Bel(place, n))
  {
    var out := cells;
    var todo := place.Keys;
    while todo != {}
      invariant todo <= place.Keys && out.Keys == cells.Keys
      invariant forall n :: n in place && n !in todo && n in cells ==>
                  place[n].Some? && out[n] == Pinned(cells, place)[n]
      invariant forall n :: n in cells && (n in todo || n !in place) ==> out[n] == cells[n]
      decreases |todo|
    {
      var n :| n in todo;
      if n in out {
        if place[n].None? {
          return Failed;
        }
        out := out[n := out[n].(attrs := out[n].attrs["BEL" := place[n].value])];
      }
      todo := todo - {n};
    }
    assert out == Pinned(cells, place);
    r := Ok(out);
  }

  /** The clock's buffer becomes gated, and a plain one joins it. */
  method Rewrite(cells: map<string, Cell>, name: string, base: nat) returns (r: map<string, Cell>)
    requires IsBuffer(cells, name)
    ensures r == Rewritten(cells, name, base)
  {
    var input := cells[name].conns["I"];
    r := cells[name := Gated(cells[name], Net(CeNet(base)))];
    r := r[PREFIX + "bufg_free" := FreeBuffer(input, FreeNet(base))];
  }

  method Merge(design: map<string, Module>, top: string, ctl: Module, place: map<string, Option<string>>, name: string,
      names: seq<string>)
    returns (r: Result<Module>, ports: map<nat, Bit>, base: nat)
    requires top in design
    ensures !IsBuffer(design[top].cells, name) ==> r == Failed
    ensures IsBuffer(design[top].cells, name) ==>
      && base > 0 && (forall m :: m in design ==> Below(design[m], base - 1))
      && ports == CtlPorts(ctl, StatusBits(design[top].nets, names), base)
      && var cells := Merged(design[top].cells, name, ctl, ports, base);
         r == if !Pinnable(cells, place) then Failed
              else Ok(design[top].(cells := Pinned(cells, place),
                                   nets := MergedNets(design[top].nets, ctl, ports, base)))
  {
    hide Prefixed, MapBits, MapCell, Pinned, Pinnable, Rewritten, Below, CtlPorts, StatusBits;
    ports := map[];
    base := FreshBase(design);
    if !IsBuffer(design[top].cells, name) {
      return Failed, ports, base;
    }
    var cells := Rewrite(design[top].cells, name, base);
    var nets := design[top].nets[PREFIX + "clk_free" := [Net(FreeNet(base))]][PREFIX + "ce" := [Net(CeNet(base))]];
    var word := FillStatus(design[top].nets, names);
    ports := CtlPorts(ctl, word, base);
    cells := Insert(cells, PREFIX, map n | n in ctl.cells :: MapCell(Renaming(ports, base), ctl.cells[n]));
    var own := map n | n in ctl.nets && !Aliases(ports, ctl.nets[n]) :: MapBits(Renaming(ports, base), ctl.nets[n]);
    nets := Insert(nets, PREFIX, own);
    var pinned := Pin(cells, place);
    r := if pinned.Ok? then Ok(design[top].(cells := pinned.value, nets := nets)) else Failed;
  }

  lemma {:induction false} PinnedPlaced(cells: map<string, Cell>, place: map<string, Option<string>>, n: string)
    requires n in cells
    ensures n in Pinned(cells, place) && Placed(cells[n], Pinned(cells, place)[n], Bel(place, n))
  {
  }

  lemma {:induction false} MergedDesign(cells: map<string, Cell>, name: string, ctl: Module, ports: map<nat, Bit>,
      base: nat, n: string)
    requires IsBuffer(cells, name) && Free(PREFIX, cells) && n in cells
    ensures var merged := Merged(cells, name, ctl, ports, base);
      n in merged && merged[n] == if n == name then Gated(cells[name], Net(CeNet(base))) else cells[n]
  {
    hide Gated, MapCell;
    var moved := map k | k in ctl.cells :: MapCell(Renaming(ports, base), ctl.cells[k]);
    if n in Prefixed(PREFIX, moved) {
      PrefixedNames(PREFIX, moved, n);
    }
    hide Prefixed;
    assert PREFIX <= PREFIX + "bufg_free";
  }

  lemma {:induction false} MergedInserted(cells: map<string, Cell>, name: string, ctl: Module, ports: map<nat, Bit>,
      base: nat, k: string)
    requires IsBuffer(cells, name) && k in ctl.cells
    ensures var merged := Merged(cells, name, ctl, ports, base);
      PREFIX + k in merged && merged[PREFIX + k] == MapCell(Renaming(ports, base), ctl.cells[k])
  {
    hide Gated, MapCell, Prefixed;
    PrefixedAt(PREFIX, map n | n in ctl.cells :: MapCell(Renaming(ports, base), ctl.cells[n]), k);
  }

  /** The cells of the script's result: the design's, the buffer gated, and the
      controller's under the prefix, on their new nets; each with its bel. */
  lemma {:induction false} ResultCells(cells: map<string, Cell>, name: string, ctl: Module, ports: map<nat, Bit>,
      base: nat, place: map<string, Option<string>>)
    requires IsBuffer(cells, name) && Free(PREFIX, cells)
    ensures var r := Pinned(Merged(cells, name, ctl, ports, base), place);
      && (forall n :: n in cells && n != name ==> n in r && Placed(cells[n], r[n], Bel(place, n)))
      && name in r && Placed(Gated(cells[name], Net(CeNet(base))), r[name], Bel(place, name))
      && (forall k :: k in ctl.cells ==>
            PREFIX + k in r
            && Placed(MapCell(Renaming(ports, base), ctl.cells[k]), r[PREFIX + k], Bel(place, PREFIX + k)))
  {
    hide Pinned, Placed, Gated, MapCell, Merged;
    var merged := Merged(cells, name, ctl, ports, base);
    var r := Pinned(merged, place);
    forall n | n in cells
      ensures n in r
      ensures Placed(if n == name then Gated(cells[name], Net(CeNet(base))) else cells[n], r[n], Bel(place, n))
    {
      MergedDesign(cells, name, ctl, ports, base, n);
      PinnedPlaced(merged, place, n);
    }
    forall k | k in ctl.cells
      ensures PREFIX + k in r
      ensures Placed(MapCell(Renaming(ports, base), ctl.cells[k]), r[PREFIX + k], Bel(place, PREFIX + k))
    {
      MergedInserted(cells, name, ctl, ports, base, k);
      PinnedPlaced(merged, place, PREFIX + k);
    }
  }

  /** The gated buffer is the buffer with its type and enable changed, and nothing else. */
  lemma {:induction false} GatedIs(bufg: Cell, ce: Bit)
    ensures var g := Gated(bufg, ce);
      && g.kind == "BUFGCE" && g.params == bufg.params && g.attrs == bufg.attrs && g.outs == bufg.outs
      && "CE" in g.conns && g.conns["CE"] == [ce]
      && (forall p :: p in bufg.conns && p != "CE" ==> p in g.conns && g.conns[p] == bufg.conns[p])
  {
  }

  // ---- what it means ----

  /** The buffer as it was, with any enable it had tied up. */
  function Opened(bufg: Cell): Cell {
    Gated(bufg, Const('1'))
  }

  /** Pinning means nothing. */
  lemma {:induction false} PinnedRuns<V>(s: Sem<V>, rho: nat -> V, cells: map<string, Cell>,
      place: map<string, Option<string>>)
    ensures Run(s, rho, Pinned(cells, place)) <==> Run(s, rho, cells)
  {
    var p := Pinned(cells, place);
    forall n | n in cells
      ensures n in p && Accepts(s, rho, p[n]) == Accepts(s, rho, cells[n])
    {
    }
  }

  /** With the enable at one, the gated buffer is the opened one. */
  lemma {:induction false} GatedOpens<V>(s: Sem<V>, rho: nat -> V, bufg: Cell, ce: nat)
    requires rho(ce) == s.constant('1')
    ensures Accepts(s, rho, Gated(bufg, Net(ce))) == Accepts(s, rho, Opened(bufg))
  {
    var a, b := Gated(bufg, Net(ce)).conns, Opened(bufg).conns;
    assert EvalAll(s, rho, [Net(ce)]) == EvalAll(s, rho, [Const('1')]);
    assert Ports(s, rho, a) == Ports(s, rho, b);
  }

  lemma {:induction false} RewrittenRuns<V>(s: Sem<V>, rho: nat -> V, cells: map<string, Cell>, name: string, base: nat)
    requires IsBuffer(cells, name) && Free(PREFIX, cells) && rho(CeNet(base)) == s.constant('1')
    ensures forall n :: n in Rewritten(cells, name, base) ==> n == PREFIX + "bufg_free" || !(PREFIX <= n)
    ensures Run(s, rho, Rewritten(cells, name, base)) <==>
      Run(s, rho, cells[name := Opened(cells[name])])
          && Accepts(s, rho, FreeBuffer(cells[name].conns["I"], FreeNet(base)))
  {
    hide Accepts;
    var r, o := Rewritten(cells, name, base), cells[name := Opened(cells[name])];
    var free := PREFIX + "bufg_free";
    assert PREFIX <= free && free !in cells;
    GatedOpens(s, rho, cells[name], CeNet(base));
    forall n | n in o
      ensures n in r && Accepts(s, rho, r[n]) == Accepts(s, rho, o[n])
    {
    }
    assert r[free] == FreeBuffer(cells[name].conns["I"], FreeNet(base));
    assert forall n :: n in r ==> n == free || n in o;
  }

  /** Everything but the buffer's own name under the prefix. */
  ghost predicate Named(ctl: map<string, Cell>) {
    "bufg_free" !in ctl
  }

  lemma {:induction false} MergedUnion<V>(s: Sem<V>, rho: nat -> V, a: map<string, Cell>, b: map<string, Cell>)
    requires (forall n :: n in a ==> n == PREFIX + "bufg_free" || !(PREFIX <= n)) && Named(b)
    ensures Run(s, rho, a + Prefixed(PREFIX, b)) <==> Run(s, rho, a) && Run(s, rho, Prefixed(PREFIX, b))
  {
    var m := a + Prefixed(PREFIX, b);
    forall n | n in Prefixed(PREFIX, b)
      ensures n !in a && m[n] == Prefixed(PREFIX, b)[n]
    {
      PrefixedNames(PREFIX, b, n);
      assert (PREFIX + "bufg_free")[|PREFIX|..] == "bufg_free";
    }
    assert forall n :: n in a ==> n in m && m[n] == a[n];
  }

  /** For any port map: the runs in which the enable net is always one. */
  lemma {:induction false} GateRuns<V>(s: Sem<V>, rho: nat -> V, cells: map<string, Cell>, name: string, ctl: Module,
      ports: map<nat, Bit>, base: nat)
    requires IsBuffer(cells, name) && Free(PREFIX, cells) && Named(ctl.cells) && rho(CeNet(base)) == s.constant('1')
    ensures Run(s, rho, Merged(cells, name, ctl, ports, base)) <==>
      && Run(s, rho, cells[name := Opened(cells[name])])
      && Accepts(s, rho, FreeBuffer(cells[name].conns["I"], FreeNet(base)))
      && Run(s, Pull(s, rho, Renaming(ports, base)), ctl.cells)
  {
    hide Accepts, Run, Rewritten, FreeBuffer, Opened, MapCell, Prefixed, Free, IsBuffer;
    var f := Renaming(ports, base);
    RenamingRenames(ports, base);
    InsertedRuns(s, rho, f, PREFIX, ctl.cells);
    RewrittenRuns(s, rho, cells, name, base);
    MergedUnion(s, rho, Rewritten(cells, name, base), map n | n in ctl.cells :: MapCell(f, ctl.cells[n]));
  }

  // ---- the controller's ports ----

  /** The bits of all the names before the i-th; an unknown name has none. */
  function StatusBefore(nets: map<string, seq<Bit>>, names: seq<string>, i: nat): nat
    requires i <= |names|
  {
    if i == 0 then 0
    else StatusBefore(nets, names, i - 1) + if names[i - 1] in nets then |nets[names[i - 1]]| else 0
  }

  lemma {:induction false} StatusPrefix(nets: map<string, seq<Bit>>, names: seq<string>, n: nat, i: nat)
    requires i <= n <= |names|
    ensures StatusBefore(nets, names[..n], i) == StatusBefore(nets, names, i)
  {
    if i > 0 {
      StatusPrefix(nets, names, n, i - 1);
    }
  }

  lemma {:induction false} StatusLong(nets: map<string, seq<Bit>>, names: seq<string>)
    ensures |StatusBits(nets, names)| == StatusBefore(nets, names, |names|)
  {
    if names != [] {
      StatusLong(nets, names[..|names| - 1]);
      StatusPrefix(nets, names, |names| - 1, |names| - 1);
    }
  }

  lemma {:induction false} StatusAt(nets: map<string, seq<Bit>>, names: seq<string>, i: nat, j: nat)
    requires i < |names| && names[i] in nets && j < |nets[names[i]]|
    ensures var at, word := StatusBefore(nets, names, i) + j, StatusBits(nets, names);
      at < |word| && word[at] == nets[names[i]][j]
  {
    var front := names[..|names| - 1];
    StatusPrefix(nets, names, |front|, i);
    if i == |front| {
      StatusLong(nets, front);
    } else {
      StatusAt(nets, front, i, j);
    }
  }

  function StatusPort(ctl: Module): seq<Bit> {
    if "status" in ctl.ports then ctl.ports["status"] else []
  }

  /** The controller has a clock and an enable, and its ports are nets, each its own. */
  predicate CtlApart(ctl: Module) {
    && "clk_free" in ctl.ports && ctl.ports["clk_free"] != [] && "ce" in ctl.ports && ctl.ports["ce"] != []
    && var clk, ce, status := ctl.ports["clk_free"][0], ctl.ports["ce"][0], StatusPort(ctl);
       && clk.Net? && ce.Net? && clk != ce && clk !in status && ce !in status
       && (forall i :: 0 <= i < |status| ==> status[i].Net?)
       && (forall i, j :: 0 <= i < j < |status| ==> status[i] != status[j])
  }

  /** What the controller's ports read: its clock is the free copy, its enable the
      buffer's, and its status the nets named, bit by bit, zero past the last. */
  ghost predicate CtlSees<V>(s: Sem<V>, rho: nat -> V, nets: map<string, seq<Bit>>, names: seq<string>, ctl: Module,
      base: nat, seen: nat -> V)
    requires CtlApart(ctl)
  {
    var status := StatusPort(ctl);
    && seen(ctl.ports["clk_free"][0].id) == rho(FreeNet(base))
    && seen(ctl.ports["ce"][0].id) == rho(CeNet(base))
    && (forall i: nat, j: nat :: CtlSeesBit(s, rho, nets, names, status, seen, i, j))
    && (forall k :: StatusBefore(nets, names, |names|) <= k < |status| ==> seen(status[k].id) == s.constant('0'))
  }

  ghost predicate CtlSeesBit<V>(s: Sem<V>, rho: nat -> V, nets: map<string, seq<Bit>>, names: seq<string>,
      status: seq<Bit>, seen: nat -> V, i: nat, j: nat)
    requires forall k :: 0 <= k < |status| ==> status[k].Net?
  {
    i < |names| && names[i] in nets && j < |nets[names[i]]| ==>
      var at := StatusBefore(nets, names, i) + j;
      at < |status| ==> seen(status[at].id) == Eval(s, rho, nets[names[i]][j])
  }

  lemma {:induction false} CtlPortsAre(ctl: Module, word: seq<Bit>, base: nat)
    requires CtlApart(ctl)
    ensures var m, status := CtlPorts(ctl, word, base), StatusPort(ctl);
      && ctl.ports["clk_free"][0].id in m && m[ctl.ports["clk_free"][0].id] == Net(FreeNet(base))
      && ctl.ports["ce"][0].id in m && m[ctl.ports["ce"][0].id] == Net(CeNet(base))
      && (forall k :: 0 <= k < |status| ==>
            status[k].id in m && m[status[k].id] == if k < |word| then word[k] else Const('0'))
      && (forall i :: i in m ==> Net(i) == ctl.ports["clk_free"][0] || Net(i) == ctl.ports["ce"][0] || Net(i) in status)
  {
    var clk, ce, status := ctl.ports["clk_free"][0], ctl.ports["ce"][0], StatusPort(ctl);
    PortMapIs(status, word, |status|);
    forall k | 0 <= k < |status|
      ensures status[k].id != clk.id && status[k].id != ce.id
    {
      assert status[k] in status;
    }
  }

  /** A valuation sees what the ports say exactly when it is the merged one there. */
  lemma {:induction false} PortsSee<V>(s: Sem<V>, rho: nat -> V, nets: map<string, seq<Bit>>, names: seq<string>,
      ctl: Module, base: nat, seen: nat -> V)
    requires CtlApart(ctl)
    ensures var ports := CtlPorts(ctl, StatusBits(nets, names), base);
      CtlSees(s, rho, nets, names, ctl, base, seen) <==> forall i :: i in ports ==> seen(i) == Eval(s, rho, ports[i])
  {
    hide CtlPorts;
    var word, status := StatusBits(nets, names), StatusPort(ctl);
    var ports := CtlPorts(ctl, word, base);
    CtlPortsAre(ctl, word, base);
    StatusLong(nets, names);
    if forall i :: i in ports ==> seen(i) == Eval(s, rho, ports[i]) {
      forall i: nat, j: nat
        ensures CtlSeesBit(s, rho, nets, names, status, seen, i, j)
      {
        if i < |names| && names[i] in nets && j < |nets[names[i]]| {
          StatusAt(nets, names, i, j);
        }
      }
    }
    if CtlSees(s, rho, nets, names, ctl, base, seen) {
      forall k | 0 <= k < |status|
        ensures seen(status[k].id) == Eval(s, rho, if k < |word| then word[k] else Const('0'))
      {
        if k < |word| {
          var i, j := StatusFrom(nets, names, k);
          assert CtlSeesBit(s, rho, nets, names, status, seen, i, j);
        }
      }
    }
  }

  /** The name and the bit of it that a position of the status word is. */
  lemma {:induction false} StatusFrom(nets: map<string, seq<Bit>>, names: seq<string>, k: nat) returns (i: nat, j: nat)
    requires k < |StatusBits(nets, names)|
    ensures i < |names| && names[i] in nets && j < |nets[names[i]]|
    ensures k == StatusBefore(nets, names, i) + j && StatusBits(nets, names)[k] == nets[names[i]][j]
  {
    var front := names[..|names| - 1];
    if k < |StatusBits(nets, front)| {
      i, j := StatusFrom(nets, front, k);
    } else {
      i := |front|;
      j := k - |StatusBits(nets, front)|;
      StatusLong(nets, front);
    }
    StatusPrefix(nets, names, |front|, i);
  }

  /** The theorem, for the ports the script makes: the runs of the merged netlist in
      which the controller's enable is always one are the runs of the design, its
      clock buffer open, beside a free-running copy of the clock and a run of the
      controller, clocked by that copy, on the nets it watches. */
  lemma {:induction false} GateMeans<V>(s: Sem<V>, rho: nat -> V, m: Module, name: string, ctl: Module,
      names: seq<string>, base: nat)
    requires IsBuffer(m.cells, name) && Free(PREFIX, m.cells) && Named(ctl.cells) && CtlApart(ctl)
    ensures var ports := CtlPorts(ctl, StatusBits(m.nets, names), base);
      var seen := Pull(s, rho, Renaming(ports, base));
      && CtlSees(s, rho, m.nets, names, ctl, base, seen)
      && (seen(ctl.ports["ce"][0].id) == s.constant('1') ==>
            (Run(s, rho, Merged(m.cells, name, ctl, ports, base)) <==>
              && Run(s, rho, m.cells[name := Opened(m.cells[name])])
              && Accepts(s, rho, FreeBuffer(m.cells[name].conns["I"], FreeNet(base)))
              && Run(s, seen, ctl.cells)))
  {
    hide Accepts, Run, Merged, CtlPorts, Opened, FreeBuffer, Free, IsBuffer;
    var ports := CtlPorts(ctl, StatusBits(m.nets, names), base);
    var seen := Pull(s, rho, Renaming(ports, base));
    PortsSee(s, rho, m.nets, names, ctl, base, seen);
    if seen(ctl.ports["ce"][0].id) == s.constant('1') {
      GateRuns(s, rho, m.cells, name, ctl, ports, base);
    }
  }

  /** A buffer with its enable up is a plain buffer. */
  ghost predicate GateLaw<V(!new)>(s: Sem<V>) {
    forall p, ports: map<string, seq<V>> :: "CE" !in ports ==>
      (s.accepts("BUFGCE", p, ports["CE" := [s.constant('1')]]) == s.accepts("BUFG", p, ports))
  }

  /** The buffer has no enable, or one tied up already. */
  predicate AlwaysOpen(c: Cell) {
    || (c.kind == "BUFG" && "CE" !in c.conns)
    || (c.kind == "BUFGCE" && "CE" in c.conns && c.conns["CE"] == [Const('1')])
  }

  /** Such a buffer means the same opened. */
  lemma {:induction false} OpenedSame<V(!new)>(s: Sem<V>, rho: nat -> V, c: Cell)
    requires GateLaw(s) && AlwaysOpen(c)
    ensures Accepts(s, rho, Opened(c)) == Accepts(s, rho, c)
  {
    assert EvalAll(s, rho, [Const('1')]) == [s.constant('1')];
    if c.kind == "BUFG" {
      assert Ports(s, rho, Opened(c).conns) == Ports(s, rho, c.conns)["CE" := [s.constant('1')]];
    } else {
      assert Opened(c).conns == c.conns;
    }
  }

  /** For a clock on a buffer that is always open the design runs exactly as it did. */
  lemma {:induction false} OpenBufferSame<V(!new)>(s: Sem<V>, rho: nat -> V, cells: map<string, Cell>, name: string)
    requires GateLaw(s) && name in cells && AlwaysOpen(cells[name])
    ensures Run(s, rho, cells[name := Opened(cells[name])]) <==> Run(s, rho, cells)
  {
    var o := cells[name := Opened(cells[name])];
    OpenedSame(s, rho, cells[name]);
    assert forall n :: n in cells ==> n in o && (n != name ==> o[n] == cells[n]);
    assert o[name] == Opened(cells[name]);
  }

  // ---- a buffer that had an enable ----

  /** A meaning that tells an open buffer on the marked net, or any, from one that
      is not: the constant one is 1, and an open buffer does not drive 2. */
  function Marking(all: bool): Sem<nat> {
    Sem((kind, p, ports) => !(Opens(kind, ports) && (all || ("O" in ports && ports["O"] == [2]))),
        c => if c == '1' then 1 else 0)
  }

  predicate Opens(kind: string, ports: map<string, seq<nat>>) {
    (kind == "BUFG" && "CE" !in ports) || (kind == "BUFGCE" && "CE" in ports && ports["CE"] == [1])
  }

  /** Two on the marked net, zero elsewhere. */
  function Marked(o: nat): nat -> nat {
    i => if i == o then 2 else 0
  }

  lemma {:induction false} MarkingObeys(all: bool)
    ensures GateLaw(Marking(all))
  {
    forall p, ports: map<string, seq<nat>> | "CE" !in ports
      ensures Marking(all).accepts("BUFGCE", p, ports["CE" := [Marking(all).constant('1')]])
          == Marking(all).accepts("BUFG", p, ports)
    {
    }
  }

  /** Under it the marked buffer is rejected exactly when it is open. */
  lemma {:induction false} MarkedBuffer(c: Cell, o: nat, all: bool)
    requires Buffers(c.kind)
    requires all || ("O" in c.conns && c.conns["O"] == [Net(o)])
    ensures Accepts(Marking(all), Marked(o), c) <==> !AlwaysOpen(c)
  {
    var v := Ports(Marking(all), Marked(o), c.conns);
    assert all || v["O"] == [2];
    if "CE" in c.conns {
      assert v["CE"] == EvalAll(Marking(all), Marked(o), c.conns["CE"]);
      if c.conns["CE"] == [Const('1')] {
        assert v["CE"] == [1];
      } else if v["CE"] == [1] {
        assert Eval(Marking(all), Marked(o), c.conns["CE"][0]) == v["CE"][0];
        assert c.conns["CE"] == [c.conns["CE"][0]];
      }
    }
  }

  /** A buffer cell means the same opened, whatever the cells mean, exactly when it
      is a BUFG without an enable or a BUFGCE with its enable tied to one. */
  lemma {:induction false} OpenedIff(c: Cell)
    requires Buffers(c.kind)
    ensures (forall s: Sem<nat>, rho: nat -> nat | GateLaw(s) :: Accepts(s, rho, Opened(c)) == Accepts(s, rho, c))
       <==> AlwaysOpen(c)
  {
    if AlwaysOpen(c) {
      forall s: Sem<nat>, rho: nat -> nat | GateLaw(s)
        ensures Accepts(s, rho, Opened(c)) == Accepts(s, rho, c)
      {
        OpenedSame(s, rho, c);
      }
    } else {
      MarkingObeys(true);
      MarkedBuffer(c, 0, true);
      MarkedBuffer(Opened(c), 0, true);
    }
  }

  // ---- in a design ----

  /** The only buffer on its output net, as a netlist's nets have one driver. */
  predicate OnlyBuffer(cells: map<string, Cell>, name: string, o: nat) {
    && name in cells && Buffers(cells[name].kind)
    && "O" in cells[name].conns && cells[name].conns["O"] == [Net(o)]
    && forall n :: n in cells && n != name && "O" in cells[n].conns && Buffers(cells[n].kind)
        ==> cells[n].conns["O"] != [Net(o)]
  }

  /** No other cell objects to the marking. */
  lemma {:induction false} OthersAccept(c: Cell, o: nat)
    requires Buffers(c.kind) && "O" in c.conns ==> c.conns["O"] != [Net(o)]
    ensures Accepts(Marking(false), Marked(o), c)
  {
    if "O" in c.conns && EvalAll(Marking(false), Marked(o), c.conns["O"]) == [2] {
      assert Eval(Marking(false), Marked(o), c.conns["O"][0]) == EvalAll(Marking(false), Marked(o), c.conns["O"])[0];
      assert c.conns["O"] == [c.conns["O"][0]];
    }
  }

  /** The theorem on the buffer: opening it changes no run of the design, whatever
      the cells mean, exactly when it was always open.  Any other enable is lost to
      the controller's. */
  lemma {:induction false} OpeningIff(cells: map<string, Cell>, name: string, o: nat)
    requires OnlyBuffer(cells, name, o)
    ensures (forall s: Sem<nat>, rho: nat -> nat | GateLaw(s) ::
               Run(s, rho, cells[name := Opened(cells[name])]) <==> Run(s, rho, cells))
       <==> AlwaysOpen(cells[name])
  {
    if AlwaysOpen(cells[name]) {
      forall s: Sem<nat>, rho: nat -> nat | GateLaw(s)
        ensures Run(s, rho, cells[name := Opened(cells[name])]) <==> Run(s, rho, cells)
      {
        OpenBufferSame(s, rho, cells, name);
      }
    } else {
      OpeningChanges(cells, name, o);
    }
  }

  /** Otherwise the marked run is one the merge rules out. */
  lemma {:induction false} OpeningChanges(cells: map<string, Cell>, name: string, o: nat)
    requires OnlyBuffer(cells, name, o) && !AlwaysOpen(cells[name])
    ensures GateLaw(Marking(false))
    ensures Run(Marking(false), Marked(o), cells) && !Run(Marking(false), Marked(o), cells[name := Opened(cells[name])])
  {
    hide Accepts, Marking, Marked, GateLaw;
    MarkingObeys(false);
    MarkedBuffer(cells[name], o, false);
    MarkedBuffer(Opened(cells[name]), o, false);
    var up := cells[name := Opened(cells[name])];
    assert up[name] == Opened(cells[name]);
    forall n | n in cells
      ensures Accepts(Marking(false), Marked(o), cells[n])
    {
      if n != name {
        OthersAccept(cells[n], o);
      }
    }
  }

  // ---- a gate as gates are ----

  /** Nets are low or high; a buffer passes its input, a gated one while enabled. */
  function Gates(): Sem<bool> {
    Sem((kind, p, ports) => Passes(kind, ports), c => c == '1')
  }

  predicate Passes(kind: string, ports: map<string, seq<bool>>) {
    !("I" in ports && "O" in ports) ||
    if kind == "BUFG" then ports["O"] == ports["I"]
    else if kind == "BUFGCE" && "CE" in ports then ports["O"] == if ports["CE"] == [true] then ports["I"] else [false]
    else true
  }

  function Low3(): nat -> bool {
    i => i != 3
  }

  /** A clock that net 3 gates. */
  function GatedClock(): Cell {
    Cell("BUFGCE", map[], map[], {"O"}, map["I" := [Net(1)], "O" := [Net(2)], "CE" := [Net(3)]])
  }

  /** The input that shows it: the gated clock, net 3 low and the clock high.  The
      merged design passes the clock, which the design does not. */
  lemma {:induction false} EnableLost(base: nat, ctl: Module, ports: map<nat, Bit>)
    requires base > 3 && ctl.cells == map[]
    ensures var design := map["clk" := GatedClock()];
      && GateLaw(Gates()) && IsBuffer(design, "clk") && Low3()(CeNet(base)) == Gates().constant('1')
      && Run(Gates(), Low3(), Merged(design, "clk", ctl, ports, base))
      && !Run(Gates(), Low3(), design)
  {
    hide Merged, Gates, Accepts, GateLaw;
    var design := map["clk" := GatedClock()];
    GatesObey();
    GatedClockAt(base);
    assert design["clk"] == GatedClock();
    var up := design["clk" := Opened(GatedClock())];
    assert up["clk"] == Opened(GatedClock());
    assert Free(PREFIX, design);
    GateRuns(Gates(), Low3(), design, "clk", ctl, ports, base);
  }

  lemma {:induction false} GatedClockAt(base: nat)
    requires base > 3
    ensures !Accepts(Gates(), Low3(), GatedClock()) && Accepts(Gates(), Low3(), Opened(GatedClock()))
    ensures Accepts(Gates(), Low3(), FreeBuffer([Net(1)], FreeNet(base)))
  {
    assert EvalAll(Gates(), Low3(), [Net(1)]) == [true] == EvalAll(Gates(), Low3(), [Net(2)]);
    assert EvalAll(Gates(), Low3(), [Const('1')]) == [true] == EvalAll(Gates(), Low3(), [Net(FreeNet(base))]);
    assert EvalAll(Gates(), Low3(), [Net(3)]) == [false];
  }

  /** With them the controller's copy of the clock is the clock. */
  lemma {:induction false} FreeBufferPasses(rho: nat -> bool, clk: Bit, net: nat)
    ensures Accepts(Gates(), rho, FreeBuffer([clk], net)) <==> rho(net) == Eval(Gates(), rho, clk)
  {
    var v := Ports(Gates(), rho, FreeBuffer([clk], net).conns);
    assert v["I"] == [Eval(Gates(), rho, clk)] && v["O"] == [rho(net)];
    assert [Eval(Gates(), rho, clk)][0] == Eval(Gates(), rho, clk) && [rho(net)][0] == rho(net);
  }

  /** And it drives its own net alone. */
  lemma {:induction false} FreeBufferDrives(input: seq<Bit>, net: nat, b: Bit)
    ensures Drives(FreeBuffer(input, net), b) <==> b == Net(net)
  {
    var c := FreeBuffer(input, net);
    assert c.conns["O"] == [Net(net)];
    if b == Net(net) {
      assert "O" in c.outs && "O" in c.conns && b in c.conns["O"];
    }
  }

  lemma {:induction false} GatesObey()
    ensures GateLaw(Gates()) && Gates().constant('1')
  {
    forall p, ports: map<string, seq<bool>> | "CE" !in ports
      ensures Gates().accepts("BUFGCE", p, ports["CE" := [Gates().constant('1')]]) == Gates().accepts("BUFG", p, ports)
    {
    }
  }

  // ---- fresh ids ----

  /** The controller's own nets are apart from the design's and from each other, and
      apart from the two reserved nets exactly when their ids are not 10^7 and
      10^7 + 1. */
  lemma {:induction false} CtlFresh(ports: map<nat, Bit>, base: nat, i: nat)
    requires i !in ports
    ensures IlaBit(ports, base, Net(i)) == Net(base + i) && base + i >= base
    ensures IlaBit(ports, base, Net(i)) != Net(FreeNet(base)) && IlaBit(ports, base, Net(i)) != Net(CeNet(base))
       <==> i != APART && i != APART + 1
  {
  }

  /** Valuations of the design, the free clock and the controller, side by side, the enable up. */
  function Beside<V>(s: Sem<V>, d: nat -> V, clock: V, a: nat -> V, base: nat): nat -> V {
    (i: nat) => if i < base then d(i)
                else if i == FreeNet(base) then clock
                else if i == CeNet(base) then s.constant('1')
                else a(i - base)
  }

  lemma {:induction false} BesidePulls<V>(s: Sem<V>, d: nat -> V, clock: V, a: nat -> V, ports: map<nat, Bit>,
      base: nat, i: nat)
    requires i < APART
    requires i in ports ==> a(i) == Eval(s, Beside(s, d, clock, a, base), ports[i])
    ensures Pull(s, Beside(s, d, clock, a, base), Renaming(ports, base))(i) == a(i)
  {
    var rho := Beside(s, d, clock, a, base);
    assert Pull(s, rho, Renaming(ports, base))(i) == Eval(s, rho, IlaBit(ports, base, Net(i)));
    if i !in ports {
      assert rho(base + i) == a(base + i - base);
    }
  }

  /** The controller's own nets are apart from all others. */
  ghost predicate CtlNetsApart(ports: map<nat, Bit>, base: nat) {
    forall i: nat :: i !in ports && i < APART ==>
      && IlaBit(ports, base, Net(i)) == Net(base + i)
      && IlaBit(ports, base, Net(i)) != Net(FreeNet(base)) && IlaBit(ports, base, Net(i)) != Net(CeNet(base))
  }

  lemma {:induction false} CtlApartNets(ports: map<nat, Bit>, base: nat)
    ensures CtlNetsApart(ports, base)
  {
    forall i: nat | i !in ports && i < APART
      ensures IlaBit(ports, base, Net(i)) == Net(base + i)
      ensures IlaBit(ports, base, Net(i)) != Net(FreeNet(base)) && IlaBit(ports, base, Net(i)) != Net(CeNet(base))
    {
      CtlFresh(ports, base, i);
    }
  }

  /** Conversely every run of the opened design goes on beside the controller, its
      ids below 10^7, on what its ports then read: the merge constrains the design in
      nothing but its enable. */
  lemma {:induction false} GateExtends<V>(s: Sem<V>, d: nat -> V, clock: V, a: nat -> V, m: Module, name: string,
      ctl: Module, names: seq<string>, base: nat)
    requires IsBuffer(m.cells, name) && Free(PREFIX, m.cells) && Named(ctl.cells) && CtlApart(ctl) && base > 0
    requires CellsBelow(m.cells, base - 1) && CellsBelow(ctl.cells, APART - 1)
    requires CtlSees(s, Beside(s, d, clock, a, base), m.nets, names, ctl, base, a)
    requires Run(s, d, m.cells[name := Opened(m.cells[name])]) && Run(s, a, ctl.cells)
    requires Accepts(s, Beside(s, d, clock, a, base), FreeBuffer(m.cells[name].conns["I"], FreeNet(base)))
    ensures var rho, ports := Beside(s, d, clock, a, base), CtlPorts(ctl, StatusBits(m.nets, names), base);
      && Run(s, rho, Merged(m.cells, name, ctl, ports, base)) && (forall i :: 0 <= i < base ==> rho(i) == d(i))
      && CtlNetsApart(ports, base)
  {
    hide Accepts, Run, Eval, Merged, CtlPorts, CtlSees, CtlApart, Free, FreeBuffer, CtlNetsApart, Pull, Renaming;
    var rho, ports := Beside(s, d, clock, a, base), CtlPorts(ctl, StatusBits(m.nets, names), base);
    CtlApartNets(ports, base);
    OpenedBelow(m.cells, name, base - 1);
    RunAgreeing(s, d, rho, m.cells[name := Opened(m.cells[name])], base - 1);
    GateRuns(s, rho, m.cells, name, ctl, ports, base);
    PortsSee(s, rho, m.nets, names, ctl, base, a);
    forall i: nat | i <= APART - 1
      ensures Pull(s, rho, Renaming(ports, base))(i) == a(i)
    {
      BesidePulls(s, d, clock, a, ports, base, i);
    }
    RunAgreeing(s, a, Pull(s, rho, Renaming(ports, base)), ctl.cells, APART - 1);
  }

  lemma {:induction false} OpenedBelow(cells: map<string, Cell>, name: string, max: nat)
    requires name in cells && CellsBelow(cells, max)
    ensures CellsBelow(cells[name := Opened(cells[name])], max)
  {
  }
}
