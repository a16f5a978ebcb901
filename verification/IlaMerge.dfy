/** Splicing a logic analyser's netlist into a design's: the design keeps its
    meaning, and the analyser sees the nets it was asked to probe. */
module IlaMerge {
  import opened Netlist

  datatype Option<T> = None | Some(value: T)
  datatype Result<T> = Ok(value: T) | Failed

  // ---- names ----

  predicate IsDigit(c: char) { '0' <= c <= '9' }

  function TrailingDigits(s: string): (d: nat)
    ensures d <= |s|
    ensures forall i :: |s| - d <= i < |s| ==> IsDigit(s[i])
    ensures d < |s| ==> !IsDigit(s[|s| - d - 1])
  {
    if s == "" || !IsDigit(s[|s| - 1]) then 0 else 1 + TrailingDigits(s[..|s| - 1])
  }

  function Decimal(s: string): nat
    requires forall i :: 0 <= i < |s| ==> IsDigit(s[i])
  {
    if s == "" then 0
    else
      assert IsDigit(s[|s| - 1]);
      10 * Decimal(s[..|s| - 1]) + (s[|s| - 1] as nat - '0' as nat)
  }

  /** NAME[INDEX], split. */
  function Indexed(n: string): Option<(string, nat)> {
    if n == "" || n[|n| - 1] != ']' then None
    else
      var t := n[..|n| - 1];
      var d := TrailingDigits(t);
      if d == 0 || d == |t| || t[|t| - d - 1] != '[' then None
      else Some((t[..|t| - d - 1], Decimal(t[|t| - d..])))
  }

  predicate Digits(ds: string) {
    ds != "" && forall i :: 0 <= i < |ds| ==> IsDigit(ds[i])
  }

  /** A number as Python writes it. */
  function ToDecimal(k: nat): (ds: string)
    ensures Digits(ds)
  {
    var digit := [(k % 10 + '0' as nat) as char];
    if k < 10 then digit else ToDecimal(k / 10) + digit
  }

  lemma {:induction false} DecimalOf(k: nat)
    ensures Decimal(ToDecimal(k)) == k
  {
    var ds := ToDecimal(k);
    if k < 10 {
      assert ds[..0] == "";
    } else {
      DecimalOf(k / 10);
      assert ds[..|ds| - 1] == ToDecimal(k / 10);
    }
  }

  lemma {:induction false} TrailingIs(s: string, ds: string)
    requires (s != "" ==> !IsDigit(s[|s| - 1])) && forall i :: 0 <= i < |ds| ==> IsDigit(ds[i])
    ensures TrailingDigits(s + ds) == |ds|
  {
    if ds == "" {
      assert s + ds == s;
    } else {
      assert (s + ds)[..|s + ds| - 1] == s + ds[..|ds| - 1];
      TrailingIs(s, ds[..|ds| - 1]);
    }
  }

  /** NAME[INDEX] splits so, whatever the name and the digits, and nothing else splits. */
  lemma {:induction false} IndexedIs(name: string, ds: string)
    requires Digits(ds)
    ensures Indexed(name + "[" + ds + "]") == Some((name, Decimal(ds)))
  {
    var n := name + "[" + ds + "]";
    var t := n[..|n| - 1];
    assert t == (name + "[") + ds;
    TrailingIs(name + "[", ds);
    assert t[..|t| - |ds| - 1] == name && t[|t| - |ds|..] == ds;
  }

  lemma {:induction false} IndexedOnly(n: string) returns (ds: string)
    requires Indexed(n).Some?
    ensures Digits(ds) && n == Indexed(n).value.0 + "[" + ds + "]" && Indexed(n).value.1 == Decimal(ds)
  {
    var t := n[..|n| - 1];
    var d := TrailingDigits(t);
    ds := t[|t| - d..];
    assert t == t[..|t| - d - 1] + "[" + ds && n == t + "]";
  }

  /** The bits of a net by name, or the one bit NAME[INDEX]; anything else is an error. */
  function Find(nets: map<string, seq<Bit>>, n: string): Result<seq<Bit>> {
    if n in nets then Ok(nets[n])
    else
      match Indexed(n)
      case None => Failed
      case Some((name, i)) => if name in nets && i < |nets[name]| then Ok([nets[name][i]]) else Failed
  }

  /** A name that is no net's is looked up as a bit of one. */
  lemma {:induction false} FindBit(nets: map<string, seq<Bit>>, name: string, k: nat)
    requires name + "[" + ToDecimal(k) + "]" !in nets
    ensures Find(nets, name + "[" + ToDecimal(k) + "]")
         == if name in nets && k < |nets[name]| then Ok([nets[name][k]]) else Failed
  {
    IndexedIs(name, ToDecimal(k));
    DecimalOf(k);
  }

  // ---- the probe word ----

  /** A net to probe, or its first bits. */
  datatype Probe = Probe(name: string, take: Option<nat>)

  function Taken(bits: seq<Bit>, take: Option<nat>): seq<Bit> {
    if take.Some? && take.value < |bits| then bits[..take.value] else bits
  }

  /** An undriven bit is probed as zero. */
  function Probed(b: Bit): Bit {
    if b == Const('x') then Const('0') else b
  }

  function ProbeBits(nets: map<string, seq<Bit>>, probes: seq<Probe>): Result<seq<Bit>> {
    if probes == [] then Ok([])
    else
      var last := probes[|probes| - 1];
      match (ProbeBits(nets, probes[..|probes| - 1]), Find(nets, last.name))
      case (Ok(bits), Ok(more)) => Ok(bits + MapBits(Probed, Taken(more, last.take)))
      case _ => Failed
  }

  method FillProbes(nets: map<string, seq<Bit>>, probes: seq<Probe>) returns (r: Result<seq<Bit>>)
    ensures r == ProbeBits(nets, probes)
  {
    var word: seq<Bit> := [];
    for i := 0 to |probes|
      invariant ProbeBits(nets, probes[..i]) == Ok(word)
    {
      assert probes[..i + 1][..i] == probes[..i];
      var found := Find(nets, probes[i].name);
      match found
      case Failed =>
        FailsOn(nets, probes, i + 1);
        return Failed;
      case Ok(bits) =>
        var more := FillProbe(Taken(bits, probes[i].take));
        word := word + more;
    }
    assert probes[..|probes|] == probes;
    r := Ok(word);
  }

  method FillProbe(bits: seq<Bit>) returns (word: seq<Bit>)
    ensures word == MapBits(Probed, bits)
  {
    word := [];
    for k := 0 to |bits|
      invariant word == MapBits(Probed, bits)[..k]
    {
      word := word + [Probed(bits[k])];
    }
  }

  lemma {:induction false} FailsOn(nets: map<string, seq<Bit>>, probes: seq<Probe>, i: nat)
    requires i <= |probes| && ProbeBits(nets, probes[..i]) == Failed
    ensures ProbeBits(nets, probes) == Failed
    decreases |probes|
  {
    if i == |probes| {
      assert probes[..i] == probes;
    } else {
      assert probes[..|probes| - 1][..i] == probes[..i];
      FailsOn(nets, probes[..|probes| - 1], i);
    }
  }

  // ---- where the named bits are ----

  function Width(bits: seq<Bit>, take: Option<nat>): (w: nat)
    ensures w <= |bits|
  {
    if take.Some? && take.value < |bits| then take.value else |bits|
  }

  /** The bits of all the probes before the i-th. */
  function Before(nets: map<string, seq<Bit>>, probes: seq<Probe>, i: nat): nat
    requires i <= |probes|
  {
    if i == 0 then 0
    else
      var p := probes[i - 1];
      Before(nets, probes, i - 1) + if Find(nets, p.name).Ok? then Width(Find(nets, p.name).value, p.take) else 0
  }

  lemma {:induction false} BeforePrefix(nets: map<string, seq<Bit>>, probes: seq<Probe>, n: nat, i: nat)
    requires i <= n <= |probes|
    ensures Before(nets, probes[..n], i) == Before(nets, probes, i)
  {
    if i > 0 {
      BeforePrefix(nets, probes, n, i - 1);
    }
  }

  /** The probe word is as long as the probes together, and bit j of the i-th net
      named is at position j after those before. */
  lemma {:induction false} ProbesLong(nets: map<string, seq<Bit>>, probes: seq<Probe>)
    requires ProbeBits(nets, probes).Ok?
    ensures |ProbeBits(nets, probes).value| == Before(nets, probes, |probes|)
  {
    if probes != [] {
      ProbesLong(nets, probes[..|probes| - 1]);
      BeforePrefix(nets, probes, |probes| - 1, |probes| - 1);
    }
  }

  /** What the last probe adds to the word. */
  lemma {:induction false} LastProbe(nets: map<string, seq<Bit>>, probes: seq<Probe>) returns (more: seq<Bit>)
    requires ProbeBits(nets, probes).Ok? && probes != []
    ensures var front, last := probes[..|probes| - 1], probes[|probes| - 1];
      && ProbeBits(nets, front).Ok? && ProbeBits(nets, probes).value == ProbeBits(nets, front).value + more
      && Find(nets, last.name).Ok? && |more| == Width(Find(nets, last.name).value, last.take)
      && forall j :: 0 <= j < |more| ==> more[j] == Probed(Find(nets, last.name).value[j])
  {
    hide Find, Probed;
    var last := probes[|probes| - 1];
    more := MapBits(Probed, Taken(Find(nets, last.name).value, last.take));
  }

  lemma {:induction false} ProbeAt(nets: map<string, seq<Bit>>, probes: seq<Probe>, i: nat, j: nat)
    requires ProbeBits(nets, probes).Ok? && i < |probes|
    ensures Find(nets, probes[i].name).Ok?
    ensures var found, word := Find(nets, probes[i].name).value, ProbeBits(nets, probes).value;
      j < Width(found, probes[i].take) ==>
        Before(nets, probes, i) + j < |word| && word[Before(nets, probes, i) + j] == Probed(found[j])
  {
    hide Find, ProbeBits, Before, Probed;
    var front := probes[..|probes| - 1];
    BeforePrefix(nets, probes, |front|, i);
    var more := LastProbe(nets, probes);
    if i == |front| {
      ProbesLong(nets, front);
    } else {
      ProbeAt(nets, front, i, j);
    }
  }

  // ---- the probe map ----

  /** The name the map gives to bit k of a probe: NAME[K], or NAME for a single bit. */
  function BitName(name: string, k: nat, n: nat): string {
    if n > 1 then name + "[" + ToDecimal(k) + "]" else name
  }

  /** The map's name, unless a net has that name, finds the bit probed exactly when
      no take has cut a wider net to one bit: that bit gets the name of all. */
  lemma {:induction false} BitNameFinds(nets: map<string, seq<Bit>>, name: string, take: Option<nat>, k: nat)
    requires Find(nets, name).Ok? && k < Width(Find(nets, name).value, take)
    requires BitName(name, k, Width(Find(nets, name).value, take)) in nets ==> Width(Find(nets, name).value, take) == 1
    ensures var found := Find(nets, name).value; var n := Width(found, take);
      Find(nets, BitName(name, k, n)) == Ok([found[k]]) <==> n > 1 || |found| == 1
  {
    var found := Find(nets, name).value;
    if Width(found, take) > 1 {
      FindBit(nets, name, k);
    } else if |found| == 1 {
      assert found == [found[k]];
    }
  }

  // ---- the port map and the renaming ----

  /** What the analyser's probe and clock port nets become. */
  function PortMap(port: seq<Bit>, word: seq<Bit>, n: nat): map<nat, Bit>
    requires n <= |port|
  {
    if n == 0 then map[]
    else
      var m := PortMap(port, word, n - 1);
      if port[n - 1].Net? then m[port[n - 1].id := if n - 1 < |word| then word[n - 1] else Const('0')] else m
  }

  function IlaBit(ports: map<nat, Bit>, base: nat, b: Bit): Bit {
    match b
    case Const(_) => b
    case Net(i) => if i in ports then ports[i] else Net(base + i)
  }

  function Renaming(ports: map<nat, Bit>, base: nat): Bit -> Bit {
    b => IlaBit(ports, base, b)
  }

  /** The probe port reads the probe word, zero where it is not filled. */
  lemma {:induction false} PortMapIs(port: seq<Bit>, word: seq<Bit>, n: nat)
    requires n <= |port| && (forall i :: 0 <= i < |port| ==> port[i].Net?)
    requires forall i, j :: 0 <= i < j < |port| ==> port[i] != port[j]
    ensures var m := PortMap(port, word, n);
      && (forall k :: 0 <= k < n ==> port[k].id in m && m[port[k].id] == if k < |word| then word[k] else Const('0'))
      && (forall i :: i in m ==> exists k :: 0 <= k < n && port[k] == Net(i))
  {
    if n > 0 {
      PortMapIs(port, word, n - 1);
    }
  }

  // ---- the splice ----

  /** The inserted entries, under their prefix. */
  function Prefixed<T>(prefix: string, m: map<string, T>): (r: map<string, T>)
  {
    map n | n in (set k | k in m :: prefix + k) :: m[n[|prefix|..]]
  }

  function InsertedCells(f: Bit -> Bit, prefix: string, cells: map<string, Cell>): map<string, Cell> {
    Prefixed(prefix, map n | n in cells :: MapCell(f, cells[n]))
  }

  /** A net all of whose bits are ports or constants gets no second name. */
  predicate Aliases(ports: map<nat, Bit>, bits: seq<Bit>) {
    forall i :: 0 <= i < |bits| ==> bits[i].Const? || bits[i].id in ports
  }

  function InsertedNets(ports: map<nat, Bit>, base: nat, prefix: string, nets: map<string, seq<Bit>>)
    : map<string, seq<Bit>>
  {
    Prefixed(prefix, map n | n in nets && !Aliases(ports, nets[n]) :: MapBits(Renaming(ports, base), nets[n]))
  }

  ghost predicate Free<T>(prefix: string, m: map<string, T>) {
    forall n :: n in m ==> !(prefix <= n)
  }

  lemma {:induction false} PrefixedAt<T>(prefix: string, m: map<string, T>, k: string)
    requires k in m
    ensures prefix + k in Prefixed(prefix, m) && Prefixed(prefix, m)[prefix + k] == m[k]
  {
  }

  lemma {:induction false} PrefixedNames<T>(prefix: string, m: map<string, T>, n: string)
    requires n in Prefixed(prefix, m)
    ensures prefix <= n && n[|prefix|..] in m && n == prefix + n[|prefix|..]
        && Prefixed(prefix, m)[n] == m[n[|prefix|..]]
  {
  }

  lemma {:induction false} PrefixedHas<T>(prefix: string, m: map<string, T>, n: string)
    ensures n in Prefixed(prefix, m) <==> prefix <= n && n[|prefix|..] in m
  {
    if prefix <= n {
      assert prefix + n[|prefix|..] == n;
    }
  }

  /** The inserting loop. */
  method Insert<T>(target: map<string, T>, prefix: string, m: map<string, T>) returns (r: map<string, T>)
    ensures r == target + Prefixed(prefix, m)
  {
    hide Prefixed;
    r := target;
    var todo := m.Keys;
    Nothing(target, prefix, m);
    while todo != {}
      invariant todo <= m.Keys && r == target + Prefixed(prefix, m - todo)
      decreases |todo|
    {
      var n :| n in todo;
      InsertStep(target, prefix, m, todo, n);
      r := r[prefix + n := m[n]];
      todo := todo - {n};
    }
    NothingLeft(m, todo);
  }

  lemma {:induction false} InsertStep<T>(target: map<string, T>, prefix: string, m: map<string, T>, todo: set<string>,
      n: string)
    requires n in todo && n in m
    ensures (target + Prefixed(prefix, m - todo))[prefix + n := m[n]] == target + Prefixed(prefix, m - (todo - {n}))
  {
  }

  lemma {:induction false} NothingLeft<T>(m: map<string, T>, todo: set<string>)
    requires todo == {}
    ensures m - todo == m
  {
  }

  lemma {:induction false} Nothing<T>(target: map<string, T>, prefix: string, m: map<string, T>)
    ensures target + Prefixed(prefix, m - m.Keys) == target
  {
  }

  /** The design's top module, spliced in place. */
  class Top {
    var cells: map<string, Cell>
    var nets: map<string, seq<Bit>>

    constructor (m: Module)
      ensures cells == m.cells && nets == m.nets
    {
      cells, nets := m.cells, m.nets;
    }

    method Splice(ila: Module, prefix: string, ports: map<nat, Bit>, base: nat)
      modifies this
      ensures cells == old(cells) + InsertedCells(Renaming(ports, base), prefix, ila.cells)
      ensures nets == old(nets) + InsertedNets(ports, base, prefix, ila.nets)
    {
      hide Prefixed, MapCell, MapBits;
      var f := Renaming(ports, base);
      cells := Insert(cells, prefix, map n | n in ila.cells :: MapCell(f, ila.cells[n]));
      nets := Insert(nets, prefix, map n | n in ila.nets && !Aliases(ports, ila.nets[n]) :: MapBits(f, ila.nets[n]));
    }
  }

  // ---- what the merged netlist means ----

  lemma {:induction false} RenamingRenames(ports: map<nat, Bit>, base: nat)
    ensures Renames(Renaming(ports, base))
  {
  }

  /** The runs of inserted cells are the runs of the cells, pulled back. */
  lemma {:induction false} InsertedRuns<V>(s: Sem<V>, rho: nat -> V, f: Bit -> Bit, prefix: string,
      cells: map<string, Cell>)
    requires Renames(f)
    ensures Run(s, rho, InsertedCells(f, prefix, cells)) <==> Run(s, Pull(s, rho, f), cells)
  {
    var moved := map n | n in cells :: MapCell(f, cells[n]);
    forall n | n in cells
      ensures Accepts(s, rho, moved[n]) == Accepts(s, Pull(s, rho, f), cells[n])
    {
      AcceptsRenamed(s, rho, f, cells[n]);
    }
    forall n | n in cells
      ensures prefix + n in Prefixed(prefix, moved) && Prefixed(prefix, moved)[prefix + n] == moved[n]
    {
      PrefixedAt(prefix, moved, n);
    }
    forall n | n in Prefixed(prefix, moved)
      ensures n[|prefix|..] in cells && Prefixed(prefix, moved)[n] == moved[n[|prefix|..]]
    {
      PrefixedNames(prefix, moved, n);
    }
  }

  /** The cells of the merged netlist: the design's, untouched, and each of the
      analyser's under the prefix, renamed. */
  lemma {:induction false} MergedCells(design: map<string, Cell>, f: Bit -> Bit, prefix: string, ila: map<string, Cell>)
    requires Free(prefix, design)
    ensures var merged := design + InsertedCells(f, prefix, ila);
      && (forall n :: n in merged <==> n in design || (prefix <= n && n[|prefix|..] in ila))
      && (forall n :: n in design ==> merged[n] == design[n])
      && (forall k :: k in ila ==> prefix + k in merged && merged[prefix + k] == MapCell(f, ila[k]))
  {
    var moved := map n | n in ila :: MapCell(f, ila[n]);
    var merged := design + Prefixed(prefix, moved);
    forall n
      ensures n in Prefixed(prefix, moved) <==> prefix <= n && n[|prefix|..] in ila
    {
      PrefixedHas(prefix, moved, n);
    }
    forall k | k in ila
      ensures prefix + k in merged && merged[prefix + k] == MapCell(f, ila[k])
    {
      PrefixedAt(prefix, moved, k);
    }
  }

  /** Cells under a free prefix leave the others as they are. */
  lemma {:induction false} RunUnion<V>(s: Sem<V>, rho: nat -> V, prefix: string, a: map<string, Cell>,
      b: map<string, Cell>)
    requires Free(prefix, a)
    ensures Run(s, rho, a + Prefixed(prefix, b)) <==> Run(s, rho, a) && Run(s, rho, Prefixed(prefix, b))
  {
    var m := a + Prefixed(prefix, b);
    forall n | n in Prefixed(prefix, b)
      ensures n !in a && m[n] == Prefixed(prefix, b)[n]
    {
      PrefixedNames(prefix, b, n);
    }
    assert forall n :: n in a ==> n in m && m[n] == a[n];
  }

  /** The theorem: the runs of the merged netlist are the runs of the design that
      are also, through the renaming, runs of the analyser; and there its probe
      inputs are the nets named, zero where unfilled. */
  lemma {:induction false} SpliceMeans<V>(s: Sem<V>, rho: nat -> V, design: map<string, Cell>, ila: map<string, Cell>,
      prefix: string, ports: map<nat, Bit>, base: nat)
    requires Free(prefix, design)
    ensures var f := Renaming(ports, base); var pulled := Pull(s, rho, f);
      && (Run(s, rho, design + InsertedCells(f, prefix, ila)) <==> Run(s, rho, design) && Run(s, pulled, ila))
      && (forall i :: i in ports ==> pulled(i) == Eval(s, rho, ports[i]))
  {
    var f := Renaming(ports, base);
    RenamingRenames(ports, base);
    InsertedRuns(s, rho, f, prefix, ila);
    RunUnion(s, rho, prefix, design, map n | n in ila :: MapCell(f, ila[n]));
  }

  /** No two of the analyser's own nets become one, and none becomes one of the design's. */
  ghost predicate Fresh(ports: map<nat, Bit>, base: nat) {
    forall i: nat, j: nat :: i !in ports && j !in ports ==>
      && IlaBit(ports, base, Net(i)).Net? && IlaBit(ports, base, Net(i)).id >= base
      && (IlaBit(ports, base, Net(i)) == IlaBit(ports, base, Net(j)) <==> i == j)
  }

  lemma {:induction false} SpliceFresh(ports: map<nat, Bit>, base: nat)
    ensures Fresh(ports, base)
  {
  }

  /** A valuation of the design and one of the analyser, side by side. */
  function Joined<V>(d: nat -> V, a: nat -> V, base: nat): nat -> V {
    (i: nat) => if i < base then d(i) else a(i - base)
  }

  lemma {:induction false} RunAgreeing<V>(s: Sem<V>, rho: nat -> V, tau: nat -> V, cells: map<string, Cell>, max: nat)
    requires CellsBelow(cells, max) && forall i :: 0 <= i <= max ==> rho(i) == tau(i)
    ensures Run(s, rho, cells) <==> Run(s, tau, cells)
  {
    forall n | n in cells
      ensures Accepts(s, rho, cells[n]) == Accepts(s, tau, cells[n])
    {
      AcceptsAgreeing(s, rho, tau, cells[n], max);
    }
  }

  /** Conversely every run of the design goes on, whatever run the analyser makes of
      the probed values: the splice constrains the design in nothing. */
  lemma {:induction false} SpliceExtends<V>(s: Sem<V>, d: nat -> V, a: nat -> V, design: map<string, Cell>,
      ila: map<string, Cell>, prefix: string, ports: map<nat, Bit>, base: nat, max: nat)
    requires Free(prefix, design) && base > 0 && CellsBelow(design, base - 1) && CellsBelow(ila, max)
    requires forall i :: i in ports ==> BitBelow(ports[i], base - 1) && a(i) == Eval(s, d, ports[i])
    requires Run(s, d, design) && Run(s, a, ila)
    ensures Fresh(ports, base)
    ensures var rho := Joined(d, a, base);
      && Run(s, rho, design + InsertedCells(Renaming(ports, base), prefix, ila))
      && (forall i :: 0 <= i < base ==> rho(i) == d(i))
      && (forall i: nat :: i !in ports ==> Eval(s, rho, IlaBit(ports, base, Net(i))) == a(i))
  {
    hide Run, Eval, CellsBelow, InsertedCells, Free, Fresh;
    var rho := Joined(d, a, base);
    SpliceFresh(ports, base);
    SpliceMeans(s, rho, design, ila, prefix, ports, base);
    RunAgreeing(s, d, rho, design, base - 1);
    JoinedPulls(s, d, a, ports, base);
    RunAgreeing(s, a, Pull(s, rho, Renaming(ports, base)), ila, max);
  }

  lemma {:induction false} JoinedPulls<V>(s: Sem<V>, d: nat -> V, a: nat -> V, ports: map<nat, Bit>, base: nat)
    requires base > 0 && forall i :: i in ports ==> BitBelow(ports[i], base - 1) && a(i) == Eval(s, d, ports[i])
    ensures forall i: nat :: Eval(s, Joined(d, a, base), IlaBit(ports, base, Net(i))) == a(i)
  {
  }

  // ---- drivers and names ----

  ghost predicate Drives(c: Cell, b: Bit) {
    exists p :: p in c.outs && p in c.conns && b in c.conns[p]
  }

  ghost predicate Driven(cells: map<string, Cell>, b: Bit) {
    exists n :: n in cells && Drives(cells[n], b)
  }

  /** The analyser drives one of its own ports. */
  ghost predicate DrivesPort(ports: map<nat, Bit>, cells: map<string, Cell>) {
    exists n, i :: n in cells && i in ports && Drives(cells[n], Net(i))
  }

  /** The design's nets keep exactly their drivers when the analyser drives none of its inputs. */
  lemma {:induction false} SpliceDrives(design: map<string, Cell>, ila: map<string, Cell>, prefix: string,
      ports: map<nat, Bit>, base: nat, id: nat)
    requires Free(prefix, design) && id < base && !DrivesPort(ports, ila)
    ensures Driven(design + InsertedCells(Renaming(ports, base), prefix, ila), Net(id)) <==> Driven(design, Net(id))
  {
    var f := Renaming(ports, base);
    var moved := map n | n in ila :: MapCell(f, ila[n]);
    var merged := design + Prefixed(prefix, moved);
    forall n | n in design
      ensures n in merged && merged[n] == design[n]
    {
      if n in Prefixed(prefix, moved) {
        PrefixedNames(prefix, moved, n);
      }
    }
    if Driven(merged, Net(id)) {
      var n :| n in merged && Drives(merged[n], Net(id));
      if n in Prefixed(prefix, moved) {
        PrefixedNames(prefix, moved, n);
        InsertedDrives(ports, base, ila[n[|prefix|..]], id);
        assert false;
      }
    }
  }

  lemma {:induction false} InsertedDrives(ports: map<nat, Bit>, base: nat, c: Cell, id: nat)
    requires id < base && Drives(MapCell(Renaming(ports, base), c), Net(id))
    ensures exists i :: i in ports && Drives(c, Net(i))
  {
  }

  /** Every name the design gave a net still names the same bits. */
  lemma {:induction false} NamesKept(nets: map<string, seq<Bit>>, prefix: string, ports: map<nat, Bit>, base: nat,
      ila: map<string, seq<Bit>>, n: string)
    requires Free(prefix, nets) && n in nets
    ensures var merged := nets + InsertedNets(ports, base, prefix, ila); n in merged && merged[n] == nets[n]
  {
    var moved := map k | k in ila && !Aliases(ports, ila[k]) :: MapBits(Renaming(ports, base), ila[k]);
    if n in Prefixed(prefix, moved) {
      PrefixedNames(prefix, moved, n);
    }
  }

  /** The names added are those of nets with a bit of the analyser's own, and each has
      a bit that is no net of the design: none is an alias. */
  lemma {:induction false} NamesAdded(ports: map<nat, Bit>, base: nat, prefix: string,
      nets: map<string, seq<Bit>>, k: string)
    ensures var added := InsertedNets(ports, base, prefix, nets);
      && (prefix + k in added <==> k in nets && exists i :: Net(i) in nets[k] && i !in ports)
      && (prefix + k in added ==> exists b :: b in added[prefix + k] && b.Net? && b.id >= base)
  {
    var kept := map n | n in nets && !Aliases(ports, nets[n]) :: MapBits(Renaming(ports, base), nets[n]);
    var added := InsertedNets(ports, base, prefix, nets);
    assert (prefix + k)[|prefix|..] == k;
    if k in nets && !Aliases(ports, nets[k]) {
      PrefixedAt(prefix, kept, k);
      var j :| 0 <= j < |nets[k]| && nets[k][j].Net? && nets[k][j].id !in ports;
      assert added[prefix + k][j] == Net(base + nets[k][j].id);
      assert added[prefix + k][j] in added[prefix + k];
      assert Net(nets[k][j].id) in nets[k];
    } else if prefix + k in added {
      PrefixedNames(prefix, kept, prefix + k);
    }
  }

  // ---- the whole script ----

  /** The analyser's probe port on the word, its clock port on the clock. */
  function AllPorts(probe: seq<Bit>, clock: Bit, word: seq<Bit>, clk: Bit): map<nat, Bit> {
    var m := PortMap(probe, word, |probe|);
    if clock.Net? then m[clock.id := clk] else m
  }

  method FillPorts(probe: seq<Bit>, clock: Bit, word: seq<Bit>, clk: Bit) returns (m: map<nat, Bit>)
    ensures m == AllPorts(probe, clock, word, clk)
  {
    m := map[];
    for k := 0 to |probe|
      invariant m == PortMap(probe, word, k)
    {
      if probe[k].Net? {
        m := m[probe[k].id := if k < |word| then word[k] else Const('0')];
      }
    }
    if clock.Net? {
      m := m[clock.id := clk];
    }
  }

  predicate HasPorts(ila: Module) {
    "probe" in ila.ports && "clk" in ila.ports && ila.ports["clk"] != []
  }

  lemma {:induction false} AllFound(nets: map<string, seq<Bit>>, probes: seq<Probe>)
    ensures ProbeBits(nets, probes).Ok? <==> forall i :: 0 <= i < |probes| ==> Find(nets, probes[i].name).Ok?
  {
    if probes != [] {
      var front := probes[..|probes| - 1];
      AllFound(nets, front);
      assert forall i :: 0 <= i < |front| ==> front[i] == probes[i];
    }
  }

  /** When that is: the analyser has a probe and a clock port, every net named is found,
      the clock's with a bit in it, and the probes together are no wider than the port. */
  lemma {:induction false} MergeableIff(nets: map<string, seq<Bit>>, clk: string, probes: seq<Probe>, ila: Module)
    ensures Mergeable(nets, clk, probes, ila) <==>
      && "probe" in ila.ports && "clk" in ila.ports && |ila.ports["clk"]| > 0
      && Find(nets, clk).Ok? && |Find(nets, clk).value| > 0
      && (forall i :: 0 <= i < |probes| ==> Find(nets, probes[i].name).Ok?)
      && !(Before(nets, probes, |probes|) > |ila.ports["probe"]|)
  {
    AllFound(nets, probes);
    if ProbeBits(nets, probes).Ok? {
      ProbesLong(nets, probes);
    }
  }

  /** The analyser's ports are nets, each its own. */
  predicate ApartPorts(ila: Module)
    requires HasPorts(ila)
  {
    var probe := ila.ports["probe"];
    && ila.ports["clk"][0].Net? && ila.ports["clk"][0] !in probe
    && (forall i :: 0 <= i < |probe| ==> probe[i].Net?)
    && (forall i, j :: 0 <= i < j < |probe| ==> probe[i] != probe[j])
  }

  /** The ports of a merge. */
  function MergePorts(nets: map<string, seq<Bit>>, clk: string, probes: seq<Probe>, ila: Module): map<nat, Bit>
    requires Mergeable(nets, clk, probes, ila)
  {
    AllPorts(ila.ports["probe"], ila.ports["clk"][0], ProbeBits(nets, probes).value, Find(nets, clk).value[0])
  }

  /** The value a probe of the bit shows: that of the net, zero for an undriven one. */
  function Shown<V>(s: Sem<V>, rho: nat -> V, b: Bit): V {
    if b == Const('x') then s.constant('0') else Eval(s, rho, b)
  }

  /** What the analyser's ports read in a run of the merged netlist: bit j of the i-th
      net named at its place, zero past the last, and the clock named. */
  ghost predicate Sees<V>(s: Sem<V>, rho: nat -> V, nets: map<string, seq<Bit>>, clk: string, probes: seq<Probe>,
      ila: Module, seen: nat -> V)
    requires Mergeable(nets, clk, probes, ila) && ApartPorts(ila)
  {
    var probe := ila.ports["probe"];
    && (forall i, j {:trigger SeesBit(s, rho, nets, probes, probe, seen, i, j)} ::
          SeesBit(s, rho, nets, probes, probe, seen, i, j))
    && (forall k :: Before(nets, probes, |probes|) <= k < |probe| ==> seen(probe[k].id) == s.constant('0'))
    && seen(ila.ports["clk"][0].id) == Eval(s, rho, Find(nets, clk).value[0])
  }

  ghost predicate SeesBit<V>(s: Sem<V>, rho: nat -> V, nets: map<string, seq<Bit>>, probes: seq<Probe>, probe: seq<Bit>,
      seen: nat -> V, i: nat, j: nat)
    requires forall k :: 0 <= k < |probe| ==> probe[k].Net?
  {
    i < |probes| ==>
      var found := Find(nets, probes[i].name);
      && found.Ok?
      && (j < Width(found.value, probes[i].take) ==>
            var at := Before(nets, probes, i) + j;
            at < |probe| && seen(probe[at].id) == Shown(s, rho, found.value[j]))
  }

  lemma {:induction false} PortsSee<V>(s: Sem<V>, rho: nat -> V, nets: map<string, seq<Bit>>, clk: string,
      probes: seq<Probe>, ila: Module, base: nat)
    requires Mergeable(nets, clk, probes, ila) && ApartPorts(ila)
    ensures Sees(s, rho, nets, clk, probes, ila, Pull(s, rho, Renaming(MergePorts(nets, clk, probes, ila), base)))
  {
    var probe, word := ila.ports["probe"], ProbeBits(nets, probes).value;
    var ports := MergePorts(nets, clk, probes, ila);
    var seen := Pull(s, rho, Renaming(ports, base));
    PortMapIs(probe, word, |probe|);
    ProbesLong(nets, probes);
    forall k | 0 <= k < |probe|
      ensures seen(probe[k].id) == Eval(s, rho, if k < |word| then word[k] else Const('0'))
    {
      assert probe[k] != ila.ports["clk"][0];
    }
    forall i: nat, j: nat
      ensures SeesBit(s, rho, nets, probes, probe, seen, i, j)
    {
      if i < |probes| {
        ProbeAt(nets, probes, i, j);
      }
    }
  }

  /** The theorem for a merge the script makes: the runs of the merged netlist are the
      runs of the design that are also runs of the analyser, whose ports read the nets
      named. */
  lemma {:induction false} MergeMeans<V>(s: Sem<V>, rho: nat -> V, m: Module, clk: string, probes: seq<Probe>,
      ila: Module, prefix: string, base: nat)
    requires Mergeable(m.nets, clk, probes, ila) && ApartPorts(ila) && Free(prefix, m.cells)
    ensures var f := Renaming(MergePorts(m.nets, clk, probes, ila), base); var seen := Pull(s, rho, f);
      && (Run(s, rho, m.cells + InsertedCells(f, prefix, ila.cells)) <==>
            Run(s, rho, m.cells) && Run(s, seen, ila.cells))
      && Sees(s, rho, m.nets, clk, probes, ila, seen)
  {
    hide Sees, MergePorts, Run, InsertedCells, Mergeable, ApartPorts;
    SpliceMeans(s, rho, m.cells, ila.cells, prefix, MergePorts(m.nets, clk, probes, ila), base);
    PortsSee(s, rho, m.nets, clk, probes, ila, base);
  }

  /** The script succeeds exactly when every net named exists, in range, and the
      analyser has its ports, wide enough for the probes. */
  predicate Mergeable(nets: map<string, seq<Bit>>, clk: string, probes: seq<Probe>, ila: Module) {
    && HasPorts(ila) && ProbeBits(nets, probes).Ok? && |ProbeBits(nets, probes).value| <= |ila.ports["probe"]|
    && Find(nets, clk).Ok? && Find(nets, clk).value != []
  }

  method Merge(design: map<string, Module>, top: string, ila: Module, clk: string, probes: seq<Probe>, prefix: string)
    returns (r: Result<Module>, ports: map<nat, Bit>, base: nat)
    requires top in design
    ensures r.Ok? <==> Mergeable(design[top].nets, clk, probes, ila)
    ensures r.Ok? ==>
      && base > 0 && (forall m :: m in design ==> Below(design[m], base - 1))
      && ports == MergePorts(design[top].nets, clk, probes, ila)
      && r.value == design[top].(cells := design[top].cells + InsertedCells(Renaming(ports, base), prefix, ila.cells),
                                 nets := design[top].nets + InsertedNets(ports, base, prefix, ila.nets))
  {
    hide InsertedCells, InsertedNets;
    ports := map[];
    base := FreshBase(design);
    var m := design[top];
    var word := FillProbes(m.nets, probes);
    var clock := Find(m.nets, clk);
    if !HasPorts(ila) || word.Failed? || |word.value| > |ila.ports["probe"]| || clock.Failed? || clock.value == [] {
      return Failed, ports, base;
    }
    ports := FillPorts(ila.ports["probe"], ila.ports["clk"][0], word.value, clock.value[0]);
    var t := new Top(m);
    t.Splice(ila, prefix, ports, base);
    r := Ok(m.(cells := t.cells, nets := t.nets));
  }

  lemma {:induction false} FoundBelow(nets: map<string, seq<Bit>>, n: string, max: nat)
    requires NetsBelow(nets, max) && Find(nets, n).Ok?
    ensures BitsBelow(Find(nets, n).value, max)
  {
  }

  lemma {:induction false} WordBelow(nets: map<string, seq<Bit>>, probes: seq<Probe>, max: nat)
    requires NetsBelow(nets, max) && ProbeBits(nets, probes).Ok?
    ensures BitsBelow(ProbeBits(nets, probes).value, max)
  {
    if probes != [] {
      WordBelow(nets, probes[..|probes| - 1], max);
      FoundBelow(nets, probes[|probes| - 1].name, max);
    }
  }

  lemma {:induction false} PortMapBelow(port: seq<Bit>, word: seq<Bit>, n: nat, max: nat)
    requires n <= |port| && BitsBelow(word, max)
    ensures forall i :: i in PortMap(port, word, n) ==> BitBelow(PortMap(port, word, n)[i], max)
  {
    if n > 0 {
      PortMapBelow(port, word, n - 1, max);
    }
  }

  /** What the analyser is wired to are nets of the design, or constants, so
      SpliceExtends applies to every merge. */
  lemma {:induction false} PortsBelow(nets: map<string, seq<Bit>>, probe: seq<Bit>, clock: Bit, clk: string,
      probes: seq<Probe>, max: nat)
    requires NetsBelow(nets, max) && ProbeBits(nets, probes).Ok? && Find(nets, clk).Ok? && Find(nets, clk).value != []
    ensures var ports := AllPorts(probe, clock, ProbeBits(nets, probes).value, Find(nets, clk).value[0]);
      forall i :: i in ports ==> BitBelow(ports[i], max)
  {
    WordBelow(nets, probes, max);
    FoundBelow(nets, clk, max);
    PortMapBelow(probe, ProbeBits(nets, probes).value, |probe|, max);
  }
}
