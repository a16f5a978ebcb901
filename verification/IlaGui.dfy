/** The graphical host's driver: bit vectors kept as bytes, updated in place, and
    its control words and reads, which are the Python driver's. */
module IlaGui {
  import opened Bits
  import opened BitVec
  import opened IlaCapture
  import opened IlaSerial
  import opened IlaHost

  type Byte = x: nat | x < 256

  // ---- bytes as bits ----

  /** The bits of a byte vector: bit i is bit i % 8 of byte i / 8. */
  function View(b: seq<Byte>): (v: seq<bool>)
    ensures |v| == 8 * |b|
  {
    if b == [] then [] else ToBits(b[0], 8) + View(b[1..])
  }

  lemma {:induction false} ViewConcat(a: seq<Byte>, b: seq<Byte>)
    ensures View(a + b) == View(a) + View(b)
  {
    if a == [] {
      assert a + b == b;
    } else {
      hide ToBits;
      ViewConcat(a[1..], b);
      assert (a + b)[1..] == a[1..] + b;
      assert View(a + b) == ToBits(a[0], 8) + View(a[1..] + b);
      Assoc(ToBits(a[0], 8), View(a[1..]), View(b));
    }
  }

  lemma {:induction false} Assoc<T>(x: seq<T>, y: seq<T>, z: seq<T>)
    ensures x + (y + z) == (x + y) + z
  {
  }

  /** The view around byte q. */
  lemma {:induction false} ViewAround(b: seq<Byte>, q: nat)
    requires q < |b|
    ensures View(b) == View(b[..q]) + ToBits(b[q], 8) + View(b[q + 1..])
  {
    assert b == b[..q] + b[q..] && b[q..] == [b[q]] + b[q + 1..];
    ViewConcat(b[..q], b[q..]);
    assert b[q..][1..] == b[q + 1..];
  }

  lemma {:induction false} ViewAt(b: seq<Byte>, i: nat)
    requires i < 8 * |b|
    ensures View(b)[i] == (Shr(b[i / 8], i % 8) % 2 == 1)
  {
    var q, r := i / 8, i % 8;
    ViewAround(b, q);
    assert View(b)[i] == ToBits(b[q], 8)[r];
    ToBitsAt(b[q], 8, r);
  }

  lemma {:induction false} ToBitsAt(v: nat, n: nat, j: nat)
    requires j < n
    ensures ToBits(v, n)[j] == (Shr(v, j) % 2 == 1)
  {
    if j > 0 {
      ToBitsAt(v / 2, n - 1, j - 1);
    }
  }

  lemma {:induction false} ToBitsCons(low: bool, v: nat, n: nat)
    requires n > 0
    ensures ToBits(B(low) + 2 * v, n) == [low] + ToBits(v, n - 1)
  {
  }

  /** b | 1 << r and b & ~(1 << r). */
  function SetBit(b: nat, r: nat, v: bool): nat {
    if v then Or(b, Pow2(r)) else Clear(b, Pow2(r))
  }

  lemma {:induction false} SetBitIs(b: nat, r: nat, v: bool, n: nat)
    requires r < n
    ensures ToBits(SetBit(b, r, v), n) == ToBits(b, n)[r := v]
    ensures b < Pow2(n) ==> SetBit(b, r, v) < Pow2(n)
  {
    hide SetBit, ToBits;
    var low := b % 2 == 1;
    ToBitsCons(low, b / 2, n);
    assert Pow2(n) == 2 * Pow2(n - 1);
    if r == 0 {
      LowBit(b, v);
      ToBitsCons(v, b / 2, n);
    } else {
      HigherBit(b, r, v);
      SetBitIs(b / 2, r - 1, v, n - 1);
      ToBitsCons(low, SetBit(b / 2, r - 1, v), n);
    }
  }

  lemma {:induction false} LowBit(b: nat, v: bool)
    ensures SetBit(b, 0, v) == B(v) + 2 * (b / 2)
  {
    assert Pow2(0) == 1;
    if b == 0 {
    } else {
      OrOdd(b, 1, 0);
      AndOdd(b, 1, 0);
    }
  }

  lemma {:induction false} HigherBit(b: nat, r: nat, v: bool)
    requires r > 0
    ensures SetBit(b, r, v) == 2 * SetBit(b / 2, r - 1, v) + b % 2
  {
  }

  // ---- the bit vector ----

  class ByteBits {
    const b: array<Byte>

    function Data(): (v: seq<bool>)
      reads this, b
      ensures |v| == 8 * b.Length
    {
      View(b[..])
    }

    constructor (n: nat)
      ensures fresh(b) && b.Length == (n + 7) / 8 && Data() == Zeros(8 * ((n + 7) / 8))
    {
      b := new Byte[(n + 7) / 8](i => 0);
      new;
      assert b[..] == seq((n + 7) / 8, i => 0);
      ZeroView((n + 7) / 8);
    }

    method Get(i: nat) returns (v: bool)
      requires i < 8 * b.Length
      ensures v == Data()[i]
    {
      v := Shr(b[i / 8], i % 8) % 2 == 1;
      ViewAt(b[..], i);
      assert b[..][i / 8] == b[i / 8];
    }

    method Set(i: nat, v: bool)
      requires i < 8 * b.Length
      modifies b
      ensures Data() == old(Data())[i := v]
    {
      var q, r := i / 8, i % 8;
      SetBitIs(b[q], r, v, 8);
      assert Pow2(8) == 256;
      ghost var was := b[..];
      b[q] := SetBit(b[q], r, v);
      assert b[..] == was[q := b[q]];
      ByteSet(was, q, r, b[q], v);
    }

    /** The low n bits of v, at position lsb. */
    method Put(lsb: nat, n: nat, v: nat)
      requires lsb + n <= 8 * b.Length
      modifies b
      ensures Data() == old(Data())[..lsb] + ToBits(v, n) + old(Data())[lsb + n..]
    {
      hide View, Shr;
      ghost var was := Data();
      for i := 0 to n
        invariant Data() == was[..lsb] + ToBits(v, n)[..i] + was[lsb + i..]
      {
        ToBitsAt(v, n, i);
        Set(lsb + i, Shr(v, i) % 2 == 1);
      }
    }

    /** The n bits at position lsb, at most 64 of them. */
    method Field(lsb: nat, n: nat) returns (v: nat)
      requires lsb + n <= 8 * b.Length
      ensures v == FromBits(Data()[lsb..lsb + if n < 64 then n else 64])
    {
      hide View, Or, FromBits, Pow2;
      v := 0;
      var i := 0;
      assert Data()[lsb..lsb + 0] == [];
      assert v == FromBits([]) by { FromEmpty(); }
      while i < n && i < 64
        invariant 0 <= i <= n && i <= 64
        invariant v == FromBits(Data()[lsb..lsb + i])
      {
        var bit := Get(lsb + i);
        NextBit(Data(), lsb, i);
        v := Or(v, B(bit) * Pow2(i));
        i := i + 1;
      }
    }
  }

  lemma {:induction false} FromEmpty()
    ensures FromBits([]) == 0
  {
  }

  lemma {:induction false} NextBit(b: seq<bool>, lsb: nat, i: nat)
    requires lsb + i < |b|
    ensures Or(FromBits(b[lsb..lsb + i]), B(b[lsb + i]) * Pow2(i)) == FromBits(b[lsb..lsb + i + 1])
  {
    OneBit(b[lsb + i]);
    OrConcat(b[lsb..lsb + i], [b[lsb + i]]);
    assert b[lsb..lsb + i + 1] == b[lsb..lsb + i] + [b[lsb + i]];
  }

  lemma {:induction false} ZeroView(n: nat)
    ensures View(seq(n, i => 0)) == Zeros(8 * n)
  {
    if n > 0 {
      ZeroView(n - 1);
      assert seq(n, i => 0 as Byte)[1..] == seq(n - 1, i => 0 as Byte);
      ZeroBits(8);
      assert Zeros(8) + Zeros(8 * (n - 1)) == Zeros(8 * n);
    }
  }

  lemma {:induction false} ZeroBits(n: nat)
    ensures ToBits(0, n) == Zeros(n)
  {
    if n > 0 {
      ZeroBits(n - 1);
      assert [false] + Zeros(n - 1) == Zeros(n);
    }
  }

  lemma {:induction false} ByteSet(b: seq<Byte>, q: nat, r: nat, x: Byte, v: bool)
    requires q < |b| && r < 8 && ToBits(x, 8) == ToBits(b[q], 8)[r := v]
    ensures View(b[q := x]) == View(b)[8 * q + r := v]
  {
    ViewAround(b, q);
    ViewAround(b[q := x], q);
    assert b[q := x][..q] == b[..q] && b[q := x][q + 1..] == b[q + 1..];
  }

  // ---- control words and status words ----

  /** b cut or zero-extended to n bits. */
  function Fit(b: seq<bool>, n: nat): (r: seq<bool>)
    ensures |r| == n
  {
    seq(n, i requires 0 <= i < n => i < |b| && b[i])
  }

  lemma {:induction false} FitIs(b: seq<bool>, n: nat)
    ensures Fit(b, n) == ToBits(FromBits(b), n)
  {
    if b == [] {
      ZeroBits(n);
    } else if n > 0 {
      hide Fit, ToBits;
      FitIs(b[1..], n - 1);
      FitCons(b, n);
      ToBitsCons(b[0], FromBits(b[1..]), n);
    } else {
      assert Fit(b, 0) == [];
    }
  }

  lemma {:induction false} FitCons(b: seq<bool>, n: nat)
    requires b != [] && n > 0
    ensures Fit(b, n) == [b[0]] + Fit(b[1..], n - 1)
  {
  }

  /** The control word, built bit by bit. */
  method CtlWord(p: Params, mask: ByteBits, value: ByteBits, post: nat, arm: bool) returns (w: ByteBits)
    ensures fresh(w) && fresh(w.b) && w.b.Length == (p.Cw() + 7) / 8
    ensures w.Data()[..p.Cw()]
        == CtlBits(p, Cfg(Word(Fit(mask.Data(), p.width)), Word(Fit(value.Data(), p.width)), post, arm))
    ensures w.Data()[p.Cw()..] == Zeros(8 * w.b.Length - p.Cw())
  {
    hide View, Fit, ToBits;
    w := new ByteBits(p.Cw());
    PutMasks(w, mask, value, p.width);
    PutFields(p, w, post, arm);
  }

  method PutMasks(w: ByteBits, mask: ByteBits, value: ByteBits, n: nat)
    requires 2 * n <= 8 * w.b.Length && w.Data() == Zeros(8 * w.b.Length) && mask.b != w.b && value.b != w.b
    modifies w.b
    ensures w.Data() == Fit(mask.Data(), n) + Fit(value.Data(), n) + Zeros(8 * w.b.Length - 2 * n)
  {
    hide View, ToBits, Fit;
    ghost var m, v, z := Fit(mask.Data(), n), Fit(value.Data(), n), Zeros(8 * w.b.Length - 2 * n);
    for i := 0 to n
      invariant mask.Data() == old(mask.Data()) && value.Data() == old(value.Data())
      invariant w.Data() == (m[..i] + Zeros(n - i)) + (v[..i] + Zeros(n - i)) + z
    {
      var bit := FitBit(mask, i, n);
      w.Set(i, bit);
      bit := FitBit(value, i, n);
      w.Set(n + i, bit);
      Filled(m, v, z, n, i);
    }
  }

  /** i < x.size() && x.get(i). */
  method FitBit(x: ByteBits, i: nat, ghost n: nat) returns (bit: bool)
    requires i < n
    ensures bit == Fit(x.Data(), n)[i]
  {
    hide View;
    bit := false;
    if i < 8 * x.b.Length {
      bit := x.Get(i);
    }
  }

  method PutFields(p: Params, w: ByteBits, post: nat, arm: bool)
    requires p.Cw() <= 8 * w.b.Length
    modifies w.b
    ensures w.Data() == old(w.Data())[..2 * p.width] + ToBits(post, p.aw) + [arm] + ToBits(KEY, 8)
        + old(w.Data())[p.Cw()..]
  {
    hide View, ToBits;
    var n, aw := 2 * p.width, p.aw;
    w.Put(n, aw, post);
    w.Set(n + aw, arm);
    w.Put(n + aw + 1, 8, KEY);
  }

  /** One more bit of each field. */
  lemma {:induction false} Filled(m: seq<bool>, v: seq<bool>, z: seq<bool>, n: nat, i: nat)
    requires i < n == |m| == |v|
    ensures ((m[..i] + Zeros(n - i)) + (v[..i] + Zeros(n - i)) + z)[i := m[i]][n + i := v[i]]
         == (m[..i + 1] + Zeros(n - (i + 1))) + (v[..i + 1] + Zeros(n - (i + 1))) + z
  {
  }

  /** The two drivers send the same control word. */
  lemma {:induction false} SameCtlWord(p: Params, mask: seq<bool>, value: seq<bool>, post: nat, arm: bool)
    ensures CtlBits(p, Cfg(Word(Fit(mask, p.width)), Word(Fit(value, p.width)), post, arm))
         == ToBits(IlaHost.CtlWord(p, FromBits(mask), FromBits(value), post, arm), p.Cw())
  {
    FitIs(mask, p.width);
    FitIs(value, p.width);
    CtlWordBits(p, FromBits(mask), FromBits(value), post, arm);
    hide ToBits, FromBits, Pow2, Fit, IlaHost.CtlWord;
    ToBitsLow(FromBits(mask), p.width);
    ToBitsLow(FromBits(value), p.width);
    ToBitsLow(post, p.aw);
  }

  method DecodeStatus(p: Params, rx: ByteBits, lsb: nat) returns (st: HostStatus)
    requires lsb + p.Sw() <= 8 * rx.b.Length && p.aw <= 31
    ensures st == IlaHost.DecodeStatus(p, FromBits(rx.Data()[lsb..lsb + p.Sw()]))
  {
    var aw := p.aw;
    var waddr := rx.Field(lsb, aw);
    var armed := rx.Get(lsb + aw);
    var trig := rx.Get(lsb + aw + 1);
    var done := rx.Get(lsb + aw + 2);
    var key := rx.Field(lsb + aw + 3, 8);
    st := HostStatus(waddr, armed, trig, done, key == STATUS_KEY);
    ghost var b := rx.Data()[lsb..lsb + p.Sw()];
    assert rx.Data()[lsb..lsb + aw] == b[..aw] && rx.Data()[lsb + aw + 3..lsb + aw + 11] == b[aw + 3..];
    StatusFields(p, b);
  }

  lemma {:induction false} StatusFields(p: Params, b: seq<bool>)
    requires |b| == p.Sw()
    ensures IlaHost.DecodeStatus(p, FromBits(b))
         == HostStatus(FromBits(b[..p.aw]), b[p.aw], b[p.aw + 1], b[p.aw + 2], FromBits(b[p.aw + 3..]) == STATUS_KEY)
  {
    hide Pow2, And, FromBits, ToBits, Shr;
    LowTake(b, p.Sw());
    assert b[..p.Sw()] == b;
    LowTake(b, p.aw);
    BitAt(b, p.aw);
    BitAt(b, p.aw + 1);
    BitAt(b, p.aw + 2);
    ShrDrop(b, p.aw + 3);
  }

  // ---- reads ----

  /** One word of the read, as its own bit vector. */
  method WordOf(rx: ByteBits, at: nat, width: nat) returns (s: ByteBits)
    requires at + width <= 8 * rx.b.Length
    ensures fresh(s) && fresh(s.b)
    ensures s.Data() == Fit(rx.Data()[at..at + width], 8 * ((width + 7) / 8))
  {
    hide View, Fit;
    s := new ByteBits(width);
    ghost var size, rxData := |s.Data()|, rx.Data();
    FitNone(rxData[at..at + 0], size);
    for k := 0 to width
      invariant fresh(s) && fresh(s.b) && 8 * s.b.Length == size == 8 * ((width + 7) / 8) && rx.Data() == rxData
      invariant s.Data() == Fit(rxData[at..at + k], size)
    {
      var bit := rx.Get(at + k);
      s.Set(k, bit);
      FitSnoc(rxData, at, k, size);
    }
  }

  lemma {:induction false} FitNone(b: seq<bool>, n: nat)
    requires b == []
    ensures Fit(b, n) == Zeros(n)
  {
  }

  lemma {:induction false} FitSnoc(b: seq<bool>, at: nat, k: nat, n: nat)
    requires at + k < |b| && k < n
    ensures Fit(b[at..at + k], n)[k := b[at + k]] == Fit(b[at..at + k + 1], n)
  {
  }

  /** The driver's modular indexing is a rotation: oldest first. */
  method Reorder<T>(raw: seq<T>, waddr: nat) returns (ordered: seq<T>)
    requires waddr < |raw|
    ensures ordered == raw[waddr..] + raw[..waddr]
  {
    ordered := [];
    for i := 0 to |raw|
      invariant ordered == (raw[waddr..] + raw[..waddr])[..i]
    {
      Wrapped(waddr + i, |raw|);
      ordered := ordered + [raw[(waddr + i) % |raw|]];
    }
  }

  lemma {:induction false} Wrapped(x: nat, d: nat)
    requires x < 2 * d
    ensures x % d == if x < d then x else x - d
  {
  }

  method ReadWords(p: Params, rx: ByteBits) returns (raw: seq<seq<bool>>)
    requires Mul(p.width, p.depth + 1) <= 8 * rx.b.Length
    ensures |raw| == p.depth
    ensures forall k :: 0 <= k < p.depth ==> FromBits(raw[k]) == HostWords(p, FromBits(rx.Data()))[k + 1]
  {
    hide View, FromBits, HostWords, Fit, Mul;
    raw := [];
    for i := 0 to p.depth
      invariant |raw| == i && rx.Data() == old(rx.Data())
      invariant forall k :: 0 <= k < i ==> FromBits(raw[k]) == HostWords(p, FromBits(rx.Data()))[k + 1]
    {
      WordPlaces(p.width, p.depth, i + 1);
      var s := WordOf(rx, Mul(p.width, i + 1), p.width);
      WordAgrees(p, rx.Data(), i + 1, s.Data());
      raw := raw + [s.Data()];
    }
  }

  function Numbers(samples: seq<seq<bool>>): (ns: seq<nat>)
    ensures |ns| == |samples|
  {
    seq(|samples|, i requires 0 <= i < |samples| => FromBits(samples[i]))
  }

  /** The whole read: the same status and the same samples as the Python driver's. */
  method Read(p: Params, rx: ByteBits) returns (st: HostStatus, samples: seq<seq<bool>>)
    requires p.Valid() && p.aw <= 31 && Mul(p.width, p.depth + 1) <= 8 * rx.b.Length
    ensures (st, Numbers(samples)) == HostRead(p, FromBits(rx.Data()))
  {
    hide View, FromBits, HostWords, Fit, Mul, IlaHost.DecodeStatus;
    WordPlaces(p.width, p.depth, 0);
    st := DecodeStatus(p, rx, 0);
    var raw := ReadWords(p, rx);
    HeaderAgrees(p, rx.Data());
    samples := Reorder(raw, st.waddr);
    Rotations(p, FromBits(rx.Data()), raw, st.waddr);
  }

  lemma {:induction false} Rotations(p: Params, v: nat, raw: seq<seq<bool>>, a: nat)
    requires |raw| == p.depth && a <= |raw|
    requires forall k :: 0 <= k < p.depth ==> FromBits(raw[k]) == HostWords(p, v)[k + 1]
    ensures var ns := HostWords(p, v)[1..]; Numbers(raw[a..] + raw[..a]) == ns[a..] + ns[..a]
  {
  }

  lemma {:induction false} WordPlaces(w: nat, d: nat, i: nat)
    requires i <= d
    ensures Mul(w, 0) == 0 && Mul(w, i) + w <= Mul(w, d + 1)
  {
  }

  lemma {:induction false} WordAgrees(p: Params, b: seq<bool>, i: nat, s: seq<bool>)
    requires i <= p.depth && Mul(p.width, i) + p.width <= |b|
    requires s == Fit(b[Mul(p.width, i)..Mul(p.width, i) + p.width], 8 * ((p.width + 7) / 8))
    ensures FromBits(s) == HostWords(p, FromBits(b))[i]
  {
    hide Mul, FromBits, Shr, And, Pow2;
    var at := Mul(p.width, i);
    var word := b[at..at + p.width];
    ShrDrop(b, at);
    LowTake(b[at..], p.width);
    assert b[at..][..p.width] == word;
    Padded(word, s);
  }

  lemma {:induction false} Padded(b: seq<bool>, s: seq<bool>)
    requires |s| >= |b| && s == Fit(b, |s|)
    ensures FromBits(s) == FromBits(b)
  {
    assert s == b + Zeros(|s| - |b|);
    FromBitsConcat(b, Zeros(|s| - |b|));
    ZeroKey(|s| - |b|);
  }

  /** The header word decodes as the status at the front, and its address is in range. */
  lemma {:induction false} HeaderAgrees(p: Params, b: seq<bool>)
    requires p.Valid() && p.width <= |b|
    ensures IlaHost.DecodeStatus(p, FromBits(b[0..0 + p.Sw()])) == IlaHost.DecodeStatus(p, HostWords(p, FromBits(b))[0])
    ensures IlaHost.DecodeStatus(p, FromBits(b[0..0 + p.Sw()])).waddr < p.depth
  {
    hide FromBits, Shr, And, Pow2;
    assert Mul(p.width, 0) == 0;
    ShrDrop(b, 0);
    assert b[0..] == b;
    LowTake(b, p.width);
    var sw := p.Sw();
    LowTake(b[..p.width], sw);
    assert b[..p.width][..sw] == b[0..0 + sw];
    LowTake(b[0..0 + sw], sw);
    assert b[0..0 + sw][..sw] == b[0..0 + sw];
    LowTake(b[0..0 + sw], p.aw);
  }

  // ---- hexadecimal ----

  const DIGITS := "0123456789abcdef"

  /** A digit's value, zero for any other character. */
  function Digit(c: char): (d: nat)
    ensures d < 16
  {
    if '0' <= c <= '9' then (c - '0') as nat
    else if 'a' <= c <= 'f' then 10 + (c - 'a') as nat
    else if 'A' <= c <= 'F' then 10 + (c - 'A') as nat
    else 0
  }

  lemma {:induction false} DigitIs(d: nat)
    requires d < 16
    ensures Digit(DIGITS[d]) == d && (DIGITS[d] == '0' <==> d == 0)
  {
  }

  /** The bits of a hexadecimal string, the last digit lowest. */
  function HexBits(h: string): (b: seq<bool>)
    ensures |b| == 4 * |h|
  {
    if h == "" then [] else ToBits(Digit(h[|h| - 1]), 4) + HexBits(h[..|h| - 1])
  }

  function HexDigits(b: seq<Byte>): (h: string)
    ensures |h| == 2 * |b|
  {
    if b == [] then "" else HexDigits(b[1..]) + [DIGITS[b[0] / 16], DIGITS[b[0] % 16]]
  }

  /** Leading zeros dropped, but one digit kept. */
  function Strip(h: string): string {
    if |h| > 1 && h[0] == '0' then Strip(h[1..]) else h
  }

  lemma {:induction false} HexDigitsBits(b: seq<Byte>)
    ensures HexBits(HexDigits(b)) == View(b)
  {
    if b != [] {
      HexDigitsBits(b[1..]);
      var h := HexDigits(b[1..]);
      var d1, d0 := DIGITS[b[0] / 16], DIGITS[b[0] % 16];
      DigitIs(b[0] / 16);
      DigitIs(b[0] % 16);
      TwoDigits(h, d1, d0);
      Nibbles(b[0]);
    }
  }

  lemma {:induction false} TwoDigits(h: string, d1: char, d0: char)
    ensures HexBits(h + [d1, d0]) == ToBits(Digit(d0), 4) + ToBits(Digit(d1), 4) + HexBits(h)
  {
    assert (h + [d1, d0])[..|h| + 1] == h + [d1] && (h + [d1])[..|h|] == h;
  }

  lemma {:induction false} Nibbles(x: Byte)
    ensures ToBits(x, 8) == ToBits(x % 16, 4) + ToBits(x / 16, 4)
  {
    hide ToBits;
    ToBitsSplit(x, 4, 4);
    ShrIs(x, 4);
    FromTo(x, 4);
    ToFrom(ToBits(x, 4));
    assert Pow2(4) == 16;
  }

  /** A leading zero adds only zero bits. */
  lemma {:induction false} LeadingZero(h: string)
    requires h != "" && h[0] == '0'
    ensures HexBits(h) == HexBits(h[1..]) + Zeros(4)
  {
    ZeroBits(4);
    if |h| > 1 {
      LeadingZero(h[..|h| - 1]);
      assert h[..|h| - 1][1..] == h[1..][..|h| - 2];
    } else {
      assert h[..0] == "" && h[1..] == "";
    }
  }

  lemma {:induction false} StripBits(h: string, n: nat)
    ensures Fit(HexBits(Strip(h)), n) == Fit(HexBits(h), n)
  {
    if |h| > 1 && h[0] == '0' {
      StripBits(h[1..], n);
      LeadingZero(h);
    }
  }

  /** The bytes as the tool wants them: most significant digit first, no leading zeros. */
  method Hex(x: ByteBits) returns (h: string)
    ensures h == Strip(HexDigits(x.b[..]))
  {
    h := "";
    var i := x.b.Length;
    while i > 0
      invariant 0 <= i <= x.b.Length
      invariant h == HexDigits(x.b[i..])
    {
      i := i - 1;
      assert x.b[i..][1..] == x.b[i + 1..];
      h := h + [DIGITS[x.b[i] / 16], DIGITS[x.b[i] % 16]];
    }
    assert x.b[0..] == x.b[..];
    var k := 0;
    while k < |h| - 1 && h[k] == '0'
      invariant 0 <= k <= |h|
      invariant Strip(h[k..]) == Strip(h)
    {
      assert h[k..][1..] == h[k + 1..];
      k := k + 1;
    }
    h := h[k..];
  }

  /** Any string: the bits of its last digits, as many as fit. */
  method FromHex(h: string, nbits: nat) returns (r: ByteBits)
    ensures fresh(r) && fresh(r.b) && r.b.Length == (nbits + 7) / 8
    ensures r.Data() == Fit(HexBits(h), 8 * r.b.Length)
  {
    hide View, ToBits, HexBits;
    r := new ByteBits(nbits);
    NoDigits(h, 8 * r.b.Length);
    var i, bit := |h|, 0;
    ghost var size := 8 * r.b.Length;
    while i > 0 && bit < 8 * r.b.Length
      invariant fresh(r) && fresh(r.b) && 0 <= i <= |h| && bit == 4 * (|h| - i) <= size == 8 * r.b.Length
      invariant r.Data() == Fit(HexBits(h[i..]), size)
    {
      i := i - 1;
      NextDigit(h, i);
      var v := Digit(h[i]);
      PutDigit(r, bit, v);
      DigitPlaced(HexBits(h[i + 1..]), ToBits(v, 4), size);
      bit := bit + 4;
    }
    Enough(h, i, size);
  }

  /** The four bits of a digit, as far as they fit: the size is a multiple of four. */
  method PutDigit(r: ByteBits, bit: nat, v: nat)
    requires bit + 4 <= 8 * r.b.Length
    modifies r.b
    ensures r.Data() == old(r.Data())[..bit] + ToBits(v, 4)[..4] + old(r.Data())[bit + 4..]
  {
    hide View, ToBits;
    ghost var was := r.Data();
    for j := 0 to 4
      invariant r.Data() == was[..bit] + ToBits(v, 4)[..j] + was[bit + j..]
    {
      ToBitsAt(v, 4, j);
      r.Set(bit + j, Shr(v, j) % 2 == 1);
    }
  }

  lemma {:induction false} NextDigit(h: string, i: nat)
    requires i < |h|
    ensures HexBits(h[i..]) == HexBits(h[i + 1..]) + ToBits(Digit(h[i]), 4)
    decreases |h|
  {
    var t := |h| - 1;
    if i == t {
      assert h[i..][..0] == "" && h[i + 1..] == "";
    } else {
      NextDigit(h[..t], i);
      assert h[i..][..t - i] == h[..t][i..] && h[i + 1..][..t - i - 1] == h[..t][i + 1..];
    }
  }

  lemma {:induction false} DigitPlaced(b: seq<bool>, d: seq<bool>, size: nat)
    requires |d| == 4 && |b| + 4 <= size
    ensures Fit(b, size)[..|b|] + d[..4] + Fit(b, size)[|b| + 4..] == Fit(b + d, size)
  {
  }

  lemma {:induction false} NoDigits(h: string, size: nat)
    ensures Fit(HexBits(h[|h|..]), size) == Zeros(size)
  {
  }

  /** The digits not read lie beyond the last bit. */
  lemma {:induction false} Enough(h: string, i: nat, size: nat)
    requires i <= |h| && (i == 0 || 4 * (|h| - i) >= size)
    ensures Fit(HexBits(h[i..]), size) == Fit(HexBits(h), size)
  {
    if i == 0 {
      assert h[0..] == h;
    } else {
      Enough(h, i - 1, size);
      NextDigit(h, i - 1);
    }
  }

  /** fromHex inverts hex: the same bits come back, whatever the bytes. */
  method HexRoundTrip(x: ByteBits, nbits: nat) returns (r: ByteBits)
    requires x.b.Length == (nbits + 7) / 8
    ensures fresh(r) && fresh(r.b) && r.Data() == x.Data()
  {
    var h := Hex(x);
    r := FromHex(h, nbits);
    StripBits(HexDigits(x.b[..]), 8 * r.b.Length);
    HexDigitsBits(x.b[..]);
  }

  /** The number a hexadecimal string denotes. */
  function HexNumber(h: string): nat {
    if h == "" then 0 else 16 * HexNumber(h[..|h| - 1]) + Digit(h[|h| - 1])
  }

  lemma {:induction false} HexNumberIs(h: string)
    ensures FromBits(HexBits(h)) == HexNumber(h)
  {
    if h != "" {
      HexNumberIs(h[..|h| - 1]);
      OneDigit(h[|h| - 1], HexBits(h[..|h| - 1]));
    }
  }

  lemma {:induction false} OneDigit(c: char, b: seq<bool>)
    ensures FromBits(ToBits(Digit(c), 4) + b) == Digit(c) + 16 * FromBits(b)
  {
    hide ToBits, FromBits;
    FromBitsConcat(ToBits(Digit(c), 4), b);
    FromTo(Digit(c), 4);
    assert Pow2(4) == 16;
  }

  lemma {:induction false} StripNumber(h: string)
    ensures HexNumber(Strip(h)) == HexNumber(h)
  {
    hide HexBits, FromBits, Pow2;
    if |h| > 1 && h[0] == '0' {
      StripNumber(h[1..]);
      LeadingZero(h);
      HexNumberIs(h);
      HexNumberIs(h[1..]);
      FromBitsConcat(HexBits(h[1..]), Zeros(4));
      ZeroKey(4);
    }
  }

  /** What the tool is given denotes the number the bits are. */
  lemma {:induction false} HexDenotes(b: seq<Byte>)
    ensures HexNumber(Strip(HexDigits(b))) == FromBits(View(b))
  {
    StripNumber(HexDigits(b));
    HexNumberIs(HexDigits(b));
    HexDigitsBits(b);
  }

  /** The loop that finds the address width; int is 32 bits. */
  method Aw(depth: nat) returns (aw: nat)
    requires 0 < depth <= 0x4000_0000
    ensures aw == HostAw(depth)
  {
    var a := 0;
    while Pow2(a) < depth
      invariant a == 0 || Pow2(a - 1) < depth
      decreases depth - Pow2(a)
    {
      a := a + 1;
    }
    LengthIs(depth - 1, a);
    aw := if a < 1 then 1 else a;
  }

  lemma {:induction false} LengthIs(n: nat, a: nat)
    requires n < Pow2(a) && (a == 0 || Pow2(a - 1) <= n)
    ensures BitLength(n) == a
  {
    if a > 0 {
      if a == 1 {
        assert Pow2(1) == 2 && Pow2(0) == 1;
        assert BitLength(0) == 0;
      } else {
        LengthIs(n / 2, a - 1);
      }
    }
  }
}
