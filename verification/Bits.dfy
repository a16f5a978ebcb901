/** Natural numbers as bit vectors: powers of two and the bitwise operators the
    hardware modules use, with the facts that turn them into arithmetic. */
module Bits {

  function Pow2(n: nat): (p: nat)
    ensures p >= 1
  {
    if n == 0 then 1 else 2 * Pow2(n - 1)
  }

  lemma {:induction false} Pow2Add(m: nat, n: nat)
    ensures Pow2(m + n) == Pow2(m) * Pow2(n)
  {
    if m == 0 {
    } else {
      Pow2Add(m - 1, n);
      assert Pow2(m + n) == 2 * Pow2(m - 1 + n);
    }
  }

  lemma {:induction false} Pow2Next(n: nat)
    ensures Pow2(n + 1) == 2 * Pow2(n)
  {
  }

  lemma {:induction false} Pow2Zero()
    ensures Pow2(0) == 1
  {
  }

  lemma {:induction false} Pow2Mono(m: nat, n: nat)
    requires m <= n
    ensures Pow2(m) <= Pow2(n)
  {
    if m < n {
      Pow2Mono(m, n - 1);
    }
  }

  const B51: nat := 0x8_0000_0000_0000
  const B52: nat := 0x10_0000_0000_0000
  const B53: nat := 0x20_0000_0000_0000
  const B54: nat := 0x40_0000_0000_0000
  const B55: nat := 0x80_0000_0000_0000

  lemma {:induction false} Pow2Values()
    ensures Pow2(51) == B51 && Pow2(52) == B52 && Pow2(53) == B53 && Pow2(54) == B54 && Pow2(55) == B55
  {
    assert Pow2(8) == 256;
    Pow2Add(8, 8);
    Pow2Add(16, 16);
    Pow2Add(32, 16);
    assert Pow2(48) == 0x1_0000_0000_0000;
    assert Pow2(51) == 2 * Pow2(50) == 4 * Pow2(49) == 8 * Pow2(48);
    assert Pow2(53) == 2 * Pow2(52) == 4 * Pow2(51);
    assert Pow2(55) == 2 * Pow2(54) == 4 * Pow2(53);
  }

  /** Bit i of x. */
  function Bit(x: nat, i: nat): bool {
    x / Pow2(i) % 2 == 1
  }

  function B(b: bool): nat {
    if b then 1 else 0
  }

  /** Bitwise or, bit by bit; a zero operand is the identity. */
  function Or(x: nat, y: nat): nat {
    if x == 0 then y
    else if y == 0 then x
    else 2 * Or(x / 2, y / 2) + B(x % 2 == 1 || y % 2 == 1)
  }

  /** Bitwise and, bit by bit. */
  function And(x: nat, y: nat): nat {
    if x == 0 || y == 0 then 0
    else 2 * And(x / 2, y / 2) + B(x % 2 == 1 && y % 2 == 1)
  }

  /** x with the bits of y cleared, x & ~y. */
  function Clear(x: nat, y: nat): nat {
    AndLe(x, y);
    x - And(x, y)
  }

  lemma {:induction false} AndLe(x: nat, y: nat)
    ensures And(x, y) <= x
  {
    if x > 0 && y > 0 {
      AndLe(x / 2, y / 2);
    }
  }

  /** A multiple of 2^k and a value below 2^k share no bit, so or is plus. */
  lemma {:induction false} OrDisjoint(m: nat, y: nat, k: nat)
    requires y < Pow2(k)
    ensures Or(m * Pow2(k), y) == m * Pow2(k) + y
  {
    var x := m * Pow2(k);
    if k == 0 || m == 0 || y == 0 {
      assert k == 0 ==> y == 0;
    } else {
      var h := m * Pow2(k - 1);
      assert x == 2 * h;
      assert x > 0 by { MulPos(m, Pow2(k)); }
      OrDisjoint(m, y / 2, k - 1);
    }
  }

  /** A product of naturals, as a natural. */
  function Mul(a: nat, b: nat): (r: nat)
    ensures r == a * b
  {
    MulNat(a, b);
    a * b
  }

  lemma {:induction false} MulNat(a: nat, b: nat)
    ensures a * b >= 0
  {
  }

  lemma {:induction false} MulPos(a: int, b: int)
    requires a > 0 && b > 0
    ensures a * b > 0
  {
  }

  /** The mask of the low k bits, halved. */
  lemma {:induction false} HalveMask(k: nat)
    requires k > 0
    ensures Pow2(k) - 1 > 0 && (Pow2(k) - 1) / 2 == Pow2(k - 1) - 1 && (Pow2(k) - 1) % 2 == 1
  {
  }

  /** One more bit on both operands. */
  lemma {:induction false} OrOdd(x: nat, y: nat, h: nat)
    requires x > 0 && y == 2 * h + 1
    ensures Or(x, y) == 2 * Or(x / 2, h) + 1
  {
    assert y / 2 == h && y % 2 == 1;
  }

  lemma {:induction false} AndOdd(x: nat, y: nat, h: nat)
    requires x > 0 && y == 2 * h + 1
    ensures And(x, y) == 2 * And(x / 2, h) + x % 2
  {
    assert y / 2 == h && y % 2 == 1;
  }

  lemma {:induction false} NoBits(x: nat)
    ensures Or(x, Pow2(0) - 1) == x && And(x, Pow2(0) - 1) == 0 && Or(0, x) == x && And(0, x) == 0
    ensures x % Pow2(0) == 0
  {
  }

  /** Or with the mask of the low k bits fills them. */
  lemma {:induction false} OrLow(x: nat, k: nat)
    ensures Or(x, Pow2(k) - 1) == x - x % Pow2(k) + Pow2(k) - 1
  {
    hide Or;
    if k == 0 {
      NoBits(x);
    } else if x == 0 {
      NoBits(Pow2(k) - 1);
      DivModSmall(0, Pow2(k));
    } else {
      OrLow(x / 2, k - 1);
      HalveMod(x, k);
      HalveMask(k);
      OrOdd(x, Pow2(k) - 1, Pow2(k - 1) - 1);
    }
  }

  /** And with the mask of the low k bits is the remainder. */
  lemma {:induction false} AndLow(x: nat, k: nat)
    ensures And(x, Pow2(k) - 1) == x % Pow2(k)
  {
    hide And;
    if k == 0 {
      NoBits(x);
    } else if x == 0 {
      NoBits(Pow2(k) - 1);
      DivModSmall(0, Pow2(k));
    } else {
      AndLow(x / 2, k - 1);
      HalveMod(x, k);
      HalveMask(k);
      AndOdd(x, Pow2(k) - 1, Pow2(k - 1) - 1);
    }
  }

  /** And with one bit picks it. */
  lemma {:induction false} AndBit(x: nat, k: nat)
    ensures And(x, Pow2(k)) == x / Pow2(k) % 2 * Pow2(k)
  {
    if x == 0 {
      DivModSmall(0, Pow2(k));
    } else if k == 0 {
      assert Pow2(0) == 1;
    } else {
      AndBit(x / 2, k - 1);
      HalveDiv(x, k);
      AndEven(x, Pow2(k), Pow2(k - 1));
      TwiceProduct(x / Pow2(k) % 2, Pow2(k - 1));
    }
  }

  lemma {:induction false} TwiceProduct(b: nat, p: nat)
    ensures 2 * (b * p) == b * (2 * p)
  {
  }

  lemma {:induction false} AndEven(x: nat, n: nat, h: nat)
    requires n == 2 * h
    ensures And(x, n) == 2 * And(x / 2, h)
  {
  }

  /** The quotient and remainder of x by p, as named values. */
  lemma {:induction false} DivMod(x: nat, p: nat) returns (q: nat, r: nat)
    requires p > 0
    ensures q == x / p && r == x % p && x == p * q + r && r < p
  {
    q, r := x / p, x % p;
  }

  lemma {:induction false} DivModSmall(x: nat, p: nat)
    requires x < p
    ensures x / p == 0 && x % p == x
  {
  }

  lemma {:induction false} HalveDiv(x: nat, k: nat)
    requires k > 0
    ensures x / Pow2(k) == x / 2 / Pow2(k - 1)
  {
    var p := Pow2(k - 1);
    var h := x / 2;
    var q, r := h / p, h % p;
    assert h == p * q + r;
    assert x == 2 * h + x % 2;
    assert x == (2 * p) * q + (2 * r + x % 2);
    DivModUnique(x, 2 * p, q, 2 * r + x % 2);
  }

  lemma {:induction false} HalveMod(x: nat, k: nat)
    requires k > 0
    ensures x % Pow2(k) == 2 * (x / 2 % Pow2(k - 1)) + x % 2
  {
    var p := Pow2(k - 1);
    var h := x / 2;
    var q, r := h / p, h % p;
    assert h == p * q + r;
    assert x == (2 * p) * q + (2 * r + x % 2);
    DivModUnique(x, 2 * p, q, 2 * r + x % 2);
  }

  /** Quotient and remainder are determined by x = p*q + r with 0 <= r < p. */
  lemma {:induction false} DivModUnique(x: int, p: nat, q: int, r: int)
    requires p > 0 && x == p * q + r && 0 <= r < p
    ensures x / p == q && x % p == r
  {
    var q', r' := x / p, x % p;
    assert x == p * q' + r';
    if q > q' {
      MulMono(p, q' + 1, q);
    } else if q < q' {
      MulMono(p, q + 1, q');
    }
  }

  lemma {:induction false} MulMono(c: nat, a: int, b: int)
    requires a <= b
    ensures c * a <= c * b
  {
  }

  lemma {:induction false} MulStrict(c: nat, a: int, b: int)
    requires c > 0
    ensures a < b <==> c * a < c * b
    ensures a <= b <==> c * a <= c * b
    ensures a == b <==> c * a == c * b
  {
  }

  lemma {:induction false} OrEven(x: nat, n: nat, h: nat)
    requires n == 2 * h
    ensures Or(x, n) == 2 * Or(x / 2, h) + x % 2
  {
  }

  /** Or and and with a mask above the low nine bits act on the high part alone. */
  lemma {:induction false} Or8(x: nat, m: nat)
    ensures Or(x, 8 * m) == 8 * Or(x / 8, m) + x % 8
  {
    OrEven(x, 8 * m, 4 * m);
    OrEven(x / 2, 4 * m, 2 * m);
    OrEven(x / 4, 2 * m, m);
    assert x / 2 / 2 == x / 4 && x / 4 / 2 == x / 8;
  }

  lemma {:induction false} Or512(x: nat, m: nat)
    ensures Or(x, 512 * m) == 512 * Or(x / 512, m) + x % 512
  {
    hide Or;
    Or8(x, 64 * m);
    Or8(x / 8, 8 * m);
    Or8(x / 64, m);
    assert x / 8 / 8 == x / 64 && x / 64 / 8 == x / 512;
  }

  lemma {:induction false} And8(x: nat, m: nat)
    ensures And(x, 8 * m) == 8 * And(x / 8, m)
  {
    AndEven(x, 8 * m, 4 * m);
    AndEven(x / 2, 4 * m, 2 * m);
    AndEven(x / 4, 2 * m, m);
    assert x / 2 / 2 == x / 4 && x / 4 / 2 == x / 8;
  }

  lemma {:induction false} And512(x: nat, m: nat)
    ensures And(x, 512 * m) == 512 * And(x / 512, m)
  {
    And8(x, 64 * m);
    And8(x / 8, 8 * m);
    And8(x / 64, m);
    assert x / 8 / 8 == x / 64 && x / 64 / 8 == x / 512;
  }
}
