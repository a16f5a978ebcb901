/** Flip-flop state as lines of a FASM file: reading it, and writing some of it. */
module FfState {

  const ZINI := ".ZINI"

  /** Python's white space. */
  predicate Space(c: char) {
    || '\t' <= c <= '\r' || '\U{1C}' <= c <= ' ' || c == '\U{85}' || c == '\U{A0}' || c == '\U{1680}'
    || '\U{2000}' <= c <= '\U{200A}' || c == '\U{2028}' || c == '\U{2029}' || c == '\U{202F}' || c == '\U{205F}'
    || c == '\U{3000}'
  }

  /** Without the white space at either end. */
  function Strip(s: string): string {
    if s == "" then s
    else if Space(s[0]) then Strip(s[1..])
    else if Space(s[|s| - 1]) then Strip(s[..|s| - 1])
    else s
  }

  predicate EndsWith(s: string, t: string) {
    |t| <= |s| && s[|s| - |t|..] == t
  }

  /** A line that is a feature as it stands. */
  predicate IsFeature(f: string) { Strip(f) == f && EndsWith(f, ZINI) && '\n' !in f }

  /** White space is what Python's str.isspace says it is. */
  lemma {:induction false} SpaceIs(c: char)
    ensures Space(c) <==>
      c in "\t\n\U{B}\U{C}\r\U{1C}\U{1D}\U{1E}\U{1F} \U{85}\U{A0}\U{1680}"
      || c in "\U{2000}\U{2001}\U{2002}\U{2003}\U{2004}\U{2005}\U{2006}\U{2007}\U{2008}\U{2009}\U{200A}"
      || c in "\U{2028}\U{2029}\U{202F}\U{205F}\U{3000}"
  {
  }

  lemma {:induction false} EndsWithIs(s: string, t: string)
    ensures EndsWith(s, t) <==> exists p :: s == p + t
  {
    if EndsWith(s, t) {
      assert s == s[..|s| - |t|] + t;
    }
  }

  predicate Spaces(s: string) { forall c :: c in s ==> Space(c) }

  /** Stripping takes the white space at both ends, and nothing else. */
  lemma {:induction false} StripIs(a: string, s: string, b: string)
    requires Spaces(a) && Spaces(b) && (s != "" ==> !Space(s[0]) && !Space(s[|s| - 1]))
    ensures Strip(a + s + b) == s
    decreases |a| + |b|
  {
    var t := a + s + b;
    if a != "" {
      assert a[0] in a && t[1..] == a[1..] + s + b;
      StripIs(a[1..], s, b);
    } else if b != "" {
      var c := b[|b| - 1];
      assert c in b && t == s + b && t[|t| - 1] == c;
      if s == "" {
        assert b[0] in b && t[1..] == "" + s + b[1..];
        StripIs("", s, b[1..]);
      } else {
        assert t[..|t| - 1] == "" + s + b[..|b| - 1];
        StripIs("", s, b[..|b| - 1]);
      }
    } else {
      assert t == s;
    }
  }

  // ---- the file as lines ----

  /** The lines of a text, as Python splits it: a text that ends a line has an empty one after it. */
  function Split(t: string): (ls: seq<string>)
    ensures ls != []
  {
    if t == "" then [""]
    else
      var rest := Split(t[1..]);
      if t[0] == '\n' then [""] + rest else [[t[0]] + rest[0]] + rest[1..]
  }

  function Join(ls: seq<string>): string {
    if ls == [] then "" else if |ls| == 1 then ls[0] else ls[0] + "\n" + Join(ls[1..])
  }

  /** What is written of the lines: joined, and the last one ended unless it is empty. */
  function Text(ls: seq<string>): string {
    Join(ls) + if ls != [] && ls[|ls| - 1] != "" then "\n" else ""
  }

  predicate OneLine(s: string) { '\n' !in s }
  predicate OneLines(ls: seq<string>) { forall i :: 0 <= i < |ls| ==> OneLine(ls[i]) }

  lemma {:induction false} JoinSplit(t: string)
    ensures Join(Split(t)) == t && OneLines(Split(t))
  {
    if t != "" {
      JoinSplit(t[1..]);
      var rest, ls := Split(t[1..]), Split(t);
      if t[0] == '\n' {
        assert ls[1..] == rest;
        assert t == "\n" + t[1..];
      } else {
        assert ls[1..] == rest[1..];
        assert t == [t[0]] + t[1..];
        assert |rest| > 1 ==> [t[0]] + (rest[0] + "\n" + Join(rest[1..])) == ls[0] + "\n" + Join(ls[1..]);
      }
    }
  }

  lemma {:induction false} SplitFront(c: char, t: string)
    requires c != '\n'
    ensures Split([c] + t) == [[c] + Split(t)[0]] + Split(t)[1..]
  {
    assert ([c] + t)[1..] == t;
  }

  lemma {:induction false} JoinFront(c: char, l: string, rest: seq<string>)
    ensures Join([[c] + l] + rest) == [c] + Join([l] + rest)
  {
    assert ([[c] + l] + rest)[1..] == rest == ([l] + rest)[1..];
    if rest != [] {
      assert ([c] + l) + "\n" + Join(rest) == [c] + (l + "\n" + Join(rest));
    }
  }

  /** Lines joined come apart again. */
  lemma {:induction false} SplitJoin(ls: seq<string>)
    requires ls != [] && OneLines(ls)
    ensures Split(Join(ls)) == ls
    decreases |ls|, |ls[0]|
  {
    var l, rest := ls[0], ls[1..];
    assert ls == [l] + rest;
    if l != "" {
      assert OneLine(l) && l[0] in l && l == [l[0]] + l[1..];
      JoinFront(l[0], l[1..], rest);
      ShorterLine(l, rest);
      SplitJoin([l[1..]] + rest);
      SplitFront(l[0], Join([l[1..]] + rest));
    } else if rest != [] {
      SplitJoin(rest);
      assert Join(ls)[1..] == Join(rest);
    }
  }

  lemma {:induction false} ShorterLine(l: string, rest: seq<string>)
    requires l != "" && OneLine(l) && OneLines(rest)
    ensures OneLines([l[1..]] + rest)
  {
    forall c | c in l[1..]
      ensures c != '\n'
    {
      assert c in l;
    }
  }

  /** What is written reads back as the same lines, but for the empty one at the end. */
  lemma {:induction false} SplitText(ls: seq<string>)
    requires OneLines(ls)
    ensures Split(Text(ls)) == ls || Split(Text(ls)) == ls + [""]
  {
    if ls == [] {
    } else if ls[|ls| - 1] == "" {
      SplitJoin(ls);
      assert Text(ls) == Join(ls);
    } else {
      SplitJoin(ls + [""]);
      JoinEnd(ls);
    }
  }

  lemma {:induction false} JoinEnd(ls: seq<string>)
    requires ls != []
    ensures Join(ls + [""]) == Join(ls) + "\n"
  {
    if |ls| == 1 {
      assert (ls + [""])[1..] == [""];
    } else {
      JoinEnd(ls[1..]);
      assert (ls + [""])[1..] == ls[1..] + [""];
    }
  }

  // ---- the feature of a flip-flop ----

  /** Where the placer put it: the tile, the parity of its site's column, its bel. */
  datatype Place = Place(tile: string, odd: bool, bel: string)

  predicate Starts(s: string, t: string) { t <= s }

  function Slice(p: Place): string {
    "SLICE" + (if Starts(p.tile, "CLBLM") && !p.odd then "M" else "L") + (if p.odd then "_X1" else "_X0")
  }

  function Feature(p: Place): string {
    p.tile + "." + (Slice(p) + "." + (p.bel + ZINI))
  }

  /** Where the first dot is, the length if there is none. */
  function FirstDot(s: string): (d: nat)
    ensures d <= |s|
  {
    if s == "" || s[0] == '.' then 0 else 1 + FirstDot(s[1..])
  }

  lemma {:induction false} FirstDotIs(a: string, b: string)
    requires '.' !in a
    ensures FirstDot(a + "." + b) == |a|
  {
    if a == "" {
      assert a + "." + b == "." + b;
    } else {
      FirstDotIs(a[1..], b);
      assert (a + "." + b)[1..] == a[1..] + "." + b;
      assert a[0] in a;
    }
  }

  lemma {:induction false} SplitsAtDot(a: string, b: string, c: string, d: string)
    requires '.' !in a && '.' !in c && a + "." + b == c + "." + d
    ensures a == c && b == d
  {
    FirstDotIs(a, b);
    FirstDotIs(c, d);
    assert (a + "." + b)[..|a|] == a && (c + "." + d)[..|a|] == c;
    assert (a + "." + b)[|a| + 1..] == b && (c + "." + d)[|a| + 1..] == d;
  }

  lemma {:induction false} SliceIs(p: Place)
    ensures Slice(p) == if p.odd then "SLICEL_X1" else if "CLBLM" <= p.tile then "SLICEM_X0" else "SLICEL_X0"
  {
  }

  /** The feature, spelled out. */
  lemma {:induction false} FeatureIs(p: Place)
    ensures Feature(p)
         == p.tile + (if p.odd then ".SLICEL_X1." else if "CLBLM" <= p.tile then ".SLICEM_X0." else ".SLICEL_X0.")
            + p.bel + ".ZINI"
  {
    hide Slice;
    SliceIs(p);
    var slice := Slice(p);
    assert p.tile + "." + (slice + "." + (p.bel + ZINI)) == p.tile + ("." + slice + ".") + p.bel + ZINI;
  }

  lemma {:induction false} SuffixOff(a: string, b: string, t: string)
    requires a + t == b + t
    ensures a == b
  {
    assert (a + t)[..|a|] == a && (b + t)[..|b|] == b;
  }

  /** Flip-flops in different places have different features. */
  lemma {:induction false} FeatureInjective(p: Place, q: Place)
    requires '.' !in p.tile && '.' !in q.tile && Feature(p) == Feature(q)
    ensures p == q
  {
    hide Slice;
    SliceIs(p);
    SliceIs(q);
    SplitsAtDot(p.tile, Slice(p) + "." + (p.bel + ZINI), q.tile, Slice(q) + "." + (q.bel + ZINI));
    SplitsAtDot(Slice(p), p.bel + ZINI, Slice(q), q.bel + ZINI);
    SuffixOff(p.bel, q.bel, ZINI);
  }

  // ---- reading ----

  function Present(lines: seq<string>): set<string> {
    set l | l in lines && EndsWith(Strip(l), ZINI) :: Strip(l)
  }

  /** The feature present means zero. */
  function Value(lines: seq<string>, feature: string): int {
    if feature in Present(lines) then 0 else 1
  }

  /** A flop's value is zero exactly when a line, stripped, is its feature. */
  lemma {:induction false} ValueIs(lines: seq<string>, bel: string)
    ensures Value(lines, bel + ".ZINI") == if exists l :: l in lines && Strip(l) == bel + ".ZINI" then 0 else 1
  {
    EndsWithIs(bel + ".ZINI", ZINI);
    assert bel + ".ZINI" == bel + ZINI;
  }

  // ---- writing ----

  /** A Python dictionary: keys in order of first insertion. */
  datatype Dict = Dict(keys: seq<string>, m: map<string, int>) {
    ghost predicate Valid() { forall k :: k in keys <==> k in m }
  }

  function Put(d: Dict, k: string, v: int): Dict {
    Dict(if k in d.m then d.keys else d.keys + [k], d.m[k := v])
  }

  /** The edits asked for: unknown names are ignored, the last of a flop's names wins. */
  function Edits(flopOf: map<string, string>, want: seq<(string, int)>): (d: Dict)
    ensures d.Valid()
  {
    if want == [] then Dict([], map[])
    else
      var (n, v) := want[|want| - 1];
      var d := Edits(flopOf, want[..|want| - 1]);
      if n in flopOf then Put(d, flopOf[n], v) else d
  }

  /** A line stays unless it is a feature set to one. */
  predicate Stays(edits: Dict, line: string) {
    Strip(line) !in edits.m || edits.m[Strip(line)] == 0
  }

  function Filtered(edits: Dict, lines: seq<string>): seq<string> {
    if lines == [] then []
    else Filtered(edits, lines[..|lines| - 1]) + if Stays(edits, lines[|lines| - 1]) then [lines[|lines| - 1]] else []
  }

  /** The features set to zero that are missing, in order. */
  function Missing(edits: Dict, present: set<string>, keys: seq<string>): seq<string>
    requires forall k :: k in keys ==> k in edits.m
  {
    if keys == [] then []
    else
      var k := keys[|keys| - 1];
      Missing(edits, present, keys[..|keys| - 1]) + if edits.m[k] == 0 && k !in present then [k] else []
  }

  function Written(lines: seq<string>, edits: Dict): seq<string>
    requires edits.Valid()
  {
    Filtered(edits, lines) + Missing(edits, Present(lines), edits.keys)
  }

  /** The file written from the file read. */
  function WrittenText(t: string, edits: Dict): string
    requires edits.Valid()
  {
    Text(Written(Split(t), edits))
  }

  method Gather(flopOf: map<string, string>, want: seq<(string, int)>) returns (edits: Dict)
    ensures edits == Edits(flopOf, want)
  {
    var keys: seq<string>, m: map<string, int> := [], map[];
    for i := 0 to |want|
      invariant Dict(keys, m) == Edits(flopOf, want[..i])
    {
      assert want[..i + 1][..i] == want[..i];
      var (n, v) := want[i];
      if n in flopOf {
        if flopOf[n] !in m {
          keys := keys + [flopOf[n]];
        }
        m := m[flopOf[n] := v];
      }
    }
    assert want[..|want|] == want;
    edits := Dict(keys, m);
  }

  method Filter(edits: Dict, lines: seq<string>) returns (out: seq<string>)
    ensures out == Filtered(edits, lines)
  {
    out := [];
    for i := 0 to |lines|
      invariant out == Filtered(edits, lines[..i])
    {
      assert lines[..i + 1][..i] == lines[..i];
      if Stays(edits, lines[i]) {
        out := out + [lines[i]];
      }
    }
    assert lines[..|lines|] == lines;
  }

  method Write(t: string, flopOf: map<string, string>, want: seq<(string, int)>) returns (text: string)
    ensures text == WrittenText(t, Edits(flopOf, want))
  {
    hide Edits, Filtered, Split, Text;
    var lines := Split(t);
    var edits := Gather(flopOf, want);
    var out := Filter(edits, lines);
    ghost var kept := out;
    var keys, present := edits.keys, Present(lines);
    for i := 0 to |keys|
      invariant out == kept + Missing(edits, present, keys[..i])
    {
      assert keys[..i + 1][..i] == keys[..i];
      assert keys[i] in keys;
      if edits.m[keys[i]] == 0 && keys[i] !in present {
        out := out + [keys[i]];
      }
    }
    assert keys[..|keys|] == keys;
    text := Text(out);
  }

  // ---- the laws ----

  lemma {:induction false} FilteredHas(edits: Dict, lines: seq<string>, l: string)
    ensures l in Filtered(edits, lines) <==> l in lines && Stays(edits, l)
  {
    if lines != [] {
      FilteredHas(edits, lines[..|lines| - 1], l);
      assert lines == lines[..|lines| - 1] + [lines[|lines| - 1]];
    }
  }

  lemma {:induction false} MissingHas(edits: Dict, present: set<string>, keys: seq<string>, k: string)
    requires forall x :: x in keys ==> x in edits.m
    ensures k in Missing(edits, present, keys) <==> k in keys && edits.m[k] == 0 && k !in present
  {
    if keys != [] {
      MissingHas(edits, present, keys[..|keys| - 1], k);
      assert keys == keys[..|keys| - 1] + [keys[|keys| - 1]];
    }
  }

  /** The lines that stay keep their order and number, each by itself. */
  lemma {:induction false} FilteredConcat(edits: Dict, a: seq<string>, b: seq<string>)
    ensures Filtered(edits, a + b) == Filtered(edits, a) + Filtered(edits, b)
  {
    if b == [] {
      assert a + b == a;
    } else {
      assert (a + b)[..|a + b| - 1] == a + b[..|b| - 1];
      FilteredConcat(edits, a, b[..|b| - 1]);
    }
  }

  lemma {:induction false} FilteredOne(edits: Dict, l: string)
    ensures Filtered(edits, [l]) == if Strip(l) in edits.m && edits.m[Strip(l)] != 0 then [] else [l]
  {
    assert [l][..0] == [];
  }

  /** The features appended come in the order of the edits, each by itself. */
  lemma {:induction false} MissingConcat(edits: Dict, present: set<string>, a: seq<string>, b: seq<string>)
    requires forall k :: k in a + b ==> k in edits.m
    ensures (forall k :: k in a ==> k in edits.m) && (forall k :: k in b ==> k in edits.m)
    ensures Missing(edits, present, a + b) == Missing(edits, present, a) + Missing(edits, present, b)
  {
    forall k | k in a ensures k in edits.m { assert k in a + b; }
    forall k | k in b ensures k in edits.m { assert k in a + b; }
    if b == [] {
      assert a + b == a;
    } else {
      assert (a + b)[..|a + b| - 1] == a + b[..|b| - 1];
      forall k | k in a + b[..|b| - 1] ensures k in edits.m { assert k in a + b; }
      MissingConcat(edits, present, a, b[..|b| - 1]);
    }
  }

  lemma {:induction false} MissingOne(edits: Dict, present: set<string>, k: string)
    requires k in edits.m
    ensures Missing(edits, present, [k]) == if edits.m[k] == 0 && k !in present then [k] else []
  {
    assert [k][..0] == [];
  }

  /** Writing sets each feature edited and leaves every other as it was. */
  lemma {:induction false} WrittenValue(lines: seq<string>, edits: Dict, f: string)
    requires edits.Valid() && IsFeature(f) && forall k :: k in edits.m ==> IsFeature(k)
    ensures Value(Written(lines, edits), f)
         == if f in edits.m then (if edits.m[f] == 0 then 0 else 1) else Value(lines, f)
  {
    var out := Written(lines, edits);
    var missing := Missing(edits, Present(lines), edits.keys);
    forall l
      ensures l in out <==>
          (l in lines && Stays(edits, l)) || (l in edits.keys && edits.m[l] == 0 && l !in Present(lines))
    {
      FilteredHas(edits, lines, l);
      MissingHas(edits, Present(lines), edits.keys, l);
    }
    if f in Present(lines) && (f in edits.m ==> edits.m[f] == 0) {
      var l :| l in lines && EndsWith(Strip(l), ZINI) && Strip(l) == f;
      assert l in out;
      assert f in Present(out);
    } else if f in edits.m && edits.m[f] == 0 {
      assert f in out;
      assert f in Present(out);
    }
  }

  lemma {:induction false} WrittenLines(lines: seq<string>, edits: Dict)
    requires edits.Valid() && OneLines(lines) && forall k :: k in edits.m ==> IsFeature(k)
    ensures OneLines(Written(lines, edits))
  {
    var out := Written(lines, edits);
    forall i | 0 <= i < |out|
      ensures OneLine(out[i])
    {
      assert out[i] in out;
      FilteredHas(edits, lines, out[i]);
      MissingHas(edits, Present(lines), edits.keys, out[i]);
    }
  }

  /** The value of a feature in the file is its value in the lines written. */
  lemma {:induction false} TextValue(t: string, edits: Dict, f: string)
    requires edits.Valid() && forall k :: k in edits.m ==> IsFeature(k)
    ensures Value(Split(WrittenText(t, edits)), f) == Value(Written(Split(t), edits), f)
  {
    JoinSplit(t);
    var out := Written(Split(t), edits);
    WrittenLines(Split(t), edits);
    SplitText(out);
    EmptyLast(out, f);
  }

  lemma {:induction false} EmptyLast(lines: seq<string>, f: string)
    ensures Value(lines + [""], f) == Value(lines, f)
  {
    assert forall l :: l in lines + [""] <==> l in lines || l == "";
    assert Present(lines + [""]) == Present(lines);
  }

  ghost predicate Features(flopOf: map<string, string>) {
    forall n :: n in flopOf ==> IsFeature(flopOf[n])
  }

  lemma {:induction false} EditsFeatures(flopOf: map<string, string>, want: seq<(string, int)>)
    requires Features(flopOf)
    ensures forall f :: f in Edits(flopOf, want).m ==>
        IsFeature(f) && exists i :: 0 <= i < |want| && want[i].0 in flopOf && flopOf[want[i].0] == f
  {
    if want != [] {
      EditsFeatures(flopOf, want[..|want| - 1]);
      var d := Edits(flopOf, want[..|want| - 1]);
      forall f | f in Edits(flopOf, want).m
        ensures IsFeature(f) && exists i :: 0 <= i < |want| && want[i].0 in flopOf && flopOf[want[i].0] == f
      {
        if f in d.m {
          var i :| 0 <= i < |want| - 1 && want[..|want| - 1][i].0 in flopOf && flopOf[want[..|want| - 1][i].0] == f;
          assert want[i] == want[..|want| - 1][i];
        } else {
          assert flopOf[want[|want| - 1].0] == f;
        }
      }
    }
  }

  /** Two names of one flop are asked for different values. */
  predicate Conflict(flopOf: map<string, string>, want: seq<(string, int)>) {
    exists i, j :: 0 <= i < |want| && 0 <= j < |want| && Clash(flopOf, want[i], want[j])
  }

  predicate Clash(flopOf: map<string, string>, a: (string, int), b: (string, int)) {
    a.0 in flopOf && b.0 in flopOf && flopOf[a.0] == flopOf[b.0] && a.1 != b.1
  }

  /** The edit of an asked flop is one of the values asked of it. */
  lemma {:induction false} EditAsked(flopOf: map<string, string>, want: seq<(string, int)>, i: nat) returns (j: nat)
    requires i < |want| && want[i].0 in flopOf
    ensures var f := flopOf[want[i].0]; var d := Edits(flopOf, want);
      f in d.m && j < |want| && want[j].0 in flopOf && flopOf[want[j].0] == f && d.m[f] == want[j].1
  {
    var t := |want| - 1;
    if want[t].0 in flopOf && flopOf[want[t].0] == flopOf[want[i].0] {
      j := t;
    } else {
      j := EditAsked(flopOf, want[..t], i);
    }
  }

  /** Every value asked is zero or one. */
  predicate Binary(want: seq<(string, int)>) {
    forall i :: 0 <= i < |want| ==> want[i].1 == 0 || want[i].1 == 1
  }

  /** Reading back what was written gives every value asked for. */
  ghost predicate ReadsBack(t: string, flopOf: map<string, string>, want: seq<(string, int)>) {
    forall i :: 0 <= i < |want| && want[i].0 in flopOf ==>
      Value(Split(WrittenText(t, Edits(flopOf, want))), flopOf[want[i].0]) == want[i].1
  }

  /** It does exactly when no two names of one flop are asked for different values. */
  lemma {:induction false} ReadAfterWrite(t: string, flopOf: map<string, string>, want: seq<(string, int)>)
    requires Features(flopOf) && Binary(want)
    ensures ReadsBack(t, flopOf, want) <==> !Conflict(flopOf, want)
  {
    EditsFeatures(flopOf, want);
    var out := Split(WrittenText(t, Edits(flopOf, want)));
    if !Conflict(flopOf, want) {
      forall i | 0 <= i < |want| && want[i].0 in flopOf
        ensures Value(out, flopOf[want[i].0]) == want[i].1
      {
        var j := EditAsked(flopOf, want, i);
        WrittenValue(Split(t), Edits(flopOf, want), flopOf[want[i].0]);
        TextValue(t, Edits(flopOf, want), flopOf[want[i].0]);
        assert !Clash(flopOf, want[i], want[j]);
      }
    } else {
      var i, j :| 0 <= i < |want| && 0 <= j < |want| && Clash(flopOf, want[i], want[j]);
      assert flopOf[want[i].0] == flopOf[want[j].0];
    }
  }

  /** Flops not asked for keep their values. */
  lemma {:induction false} OthersKept(t: string, flopOf: map<string, string>, want: seq<(string, int)>, f: string)
    requires Features(flopOf) && IsFeature(f)
    requires forall i :: 0 <= i < |want| && want[i].0 in flopOf ==> flopOf[want[i].0] != f
    ensures Value(Split(WrittenText(t, Edits(flopOf, want))), f) == Value(Split(t), f)
  {
    EditsFeatures(flopOf, want);
    WrittenValue(Split(t), Edits(flopOf, want), f);
    TextValue(t, Edits(flopOf, want), f);
  }

  /** Writing values that were read, all of them or any, gives the file back, exactly
      when its last line is ended; else it ends it. */
  lemma {:induction false} WriteOfRead(t: string, flopOf: map<string, string>, want: seq<(string, int)>)
    requires Features(flopOf)
    requires forall i :: 0 <= i < |want| && want[i].0 in flopOf ==> want[i].1 == Value(Split(t), flopOf[want[i].0])
    ensures var out := WrittenText(t, Edits(flopOf, want));
      && (out == t || out == t + "\n")
      && (out == t <==> t == "" || t[|t| - 1] == '\n')
  {
    LinesOfRead(Split(t), flopOf, want);
    JoinSplit(t);
    LastLine(t);
  }

  lemma {:induction false} LastLine(t: string)
    ensures Split(t)[|Split(t)| - 1] == "" <==> t == "" || t[|t| - 1] == '\n'
  {
    if t != "" {
      LastLine(t[1..]);
      if t[1..] == "" {
        assert Split(t[1..]) == [""];
      }
    }
  }

  lemma {:induction false} LinesOfRead(lines: seq<string>, flopOf: map<string, string>, want: seq<(string, int)>)
    requires Features(flopOf)
    requires forall i :: 0 <= i < |want| && want[i].0 in flopOf ==> want[i].1 == Value(lines, flopOf[want[i].0])
    ensures Written(lines, Edits(flopOf, want)) == lines
  {
    var d := Edits(flopOf, want);
    EditsRead(lines, flopOf, want);
    AllStay(lines, d, lines);
    NoneMissing(lines, d, d.keys);
  }

  lemma {:induction false} EditsRead(lines: seq<string>, flopOf: map<string, string>, want: seq<(string, int)>)
    requires forall i :: 0 <= i < |want| && want[i].0 in flopOf ==> want[i].1 == Value(lines, flopOf[want[i].0])
    requires Features(flopOf)
    ensures forall f :: f in Edits(flopOf, want).m ==> IsFeature(f) && Edits(flopOf, want).m[f] == Value(lines, f)
  {
    if want != [] {
      var w := want[..|want| - 1];
      assert forall i :: 0 <= i < |w| ==> w[i] == want[i];
      EditsRead(lines, flopOf, w);
    }
  }

  lemma {:induction false} AllStay(all: seq<string>, d: Dict, lines: seq<string>)
    requires forall f :: f in d.m ==> IsFeature(f) && d.m[f] == Value(all, f)
    requires forall l :: l in lines ==> l in all
    ensures Filtered(d, lines) == lines
  {
    if lines != [] {
      var l := lines[|lines| - 1];
      AllStay(all, d, lines[..|lines| - 1]);
      assert l in all;
      assert Stays(d, l);
    }
  }

  lemma {:induction false} NoneMissing(lines: seq<string>, d: Dict, keys: seq<string>)
    requires forall f :: f in d.m ==> d.m[f] == Value(lines, f)
    requires forall k :: k in keys ==> k in d.m
    ensures Missing(d, Present(lines), keys) == []
  {
    if keys != [] {
      NoneMissing(lines, d, keys[..|keys| - 1]);
      assert keys[|keys| - 1] in keys;
    }
  }

  /** A second write wins where it speaks, and the first holds elsewhere. */
  lemma {:induction false} SecondWriteWins(t: string, flopOf: map<string, string>, first: seq<(string, int)>,
      second: seq<(string, int)>, f: string)
    requires Features(flopOf) && IsFeature(f)
    ensures var d1, d2 := Edits(flopOf, first), Edits(flopOf, second);
      Value(Split(WrittenText(WrittenText(t, d1), d2)), f)
        == Value(Split(WrittenText(t, if f in d2.m then d2 else d1)), f)
  {
    EditsFeatures(flopOf, first);
    EditsFeatures(flopOf, second);
    var d1, d2 := Edits(flopOf, first), Edits(flopOf, second);
    var t1 := WrittenText(t, d1);
    WrittenValue(Split(t1), d2, f);
    TextValue(t1, d2, f);
    WrittenValue(Split(t), d2, f);
    TextValue(t, d1, f);
    TextValue(t, d2, f);
  }
}
