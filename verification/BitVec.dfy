/** Numbers as sequences of bits, least significant first: what a scan chain shifts. */
module BitVec {
  import opened Bits

  /** The low n bits of v. */
  function ToBits(v: nat, n: nat): (b: seq<bool>)
    ensures |b| == n
  {
    if n == 0 then [] else [v % 2 == 1] + ToBits(v / 2, n - 1)
  }

  function FromBits(b: seq<bool>): (v: nat)
    ensures v < Pow2(|b|)
  {
    if b == [] then 0 else B(b[0]) + 2 * FromBits(b[1..])
  }

  lemma {:induction false} FromTo(v: nat, n: nat)
    ensures FromBits(ToBits(v, n)) == v % Pow2(n)
  {
    if n > 0 {
      FromTo(v / 2, n - 1);
      HalveMod(v, n);
      assert ToBits(v, n)[1..] == ToBits(v / 2, n - 1);
    }
  }

  lemma {:induction false} ToFrom(b: seq<bool>)
    ensures ToBits(FromBits(b), |b|) == b
  {
    if b != [] {
      ToFrom(b[1..]);
      assert b == [b[0]] + b[1..];
    }
  }

  /** v shifted right by i places. */
  function Shr(v: nat, i: nat): nat {
    if i == 0 then v else Shr(v / 2, i - 1)
  }

  /** Bits past the width do not count. */
  lemma {:induction false} ToBitsLow(v: nat, n: nat)
    ensures ToBits(v % Pow2(n), n) == ToBits(v, n)
  {
    hide ToBits, FromBits;
    FromTo(v, n);
    ToFrom(ToBits(v, n));
  }

  lemma {:induction false} ShrIs(v: nat, i: nat)
    ensures Shr(v, i) == v / Pow2(i)
  {
    if i == 0 {
      assert Pow2(0) == 1;
    } else {
      ShrIs(v / 2, i - 1);
      HalveDiv(v, i);
    }
  }

  /** Splitting a number's bits at position i. */
  lemma {:induction false} ToBitsSplit(v: nat, i: nat, n: nat)
    ensures ToBits(v, i + n) == ToBits(v, i) + ToBits(Shr(v, i), n)
  {
    if i > 0 {
      ToBitsSplit(v / 2, i - 1, n);
      assert (i + n) - 1 == (i - 1) + n;
      assert ToBits(v, i) == [v % 2 == 1] + ToBits(v / 2, i - 1);
    }
  }

  lemma {:induction false} FromBitsConcat(a: seq<bool>, b: seq<bool>)
    ensures FromBits(a + b) == FromBits(a) + Pow2(|a|) * FromBits(b)
  {
    if a == [] {
      assert a + b == b;
    } else {
      var t, p := a[1..], Pow2(|a| - 1);
      FromBitsConcat(t, b);
      assert (a + b)[1..] == t + b;
      assert Pow2(|a|) == 2 * p;
      Unroll(B(a[0]), FromBits(t), p, FromBits(b));
    }
  }

  lemma {:induction false} Unroll(c: nat, t: nat, p: nat, v: nat)
    ensures c + 2 * (t + p * v) == (c + 2 * t) + (2 * p) * v
  {
  }

  /** Concatenated bits are shifted and or-ed numbers. */
  lemma {:induction false} OrConcat(a: seq<bool>, b: seq<bool>)
    ensures Or(FromBits(a), FromBits(b) * Pow2(|a|)) == FromBits(a + b)
  {
    OrCommutes(FromBits(a), FromBits(b) * Pow2(|a|));
    OrDisjoint(FromBits(b), FromBits(a), |a|);
    FromBitsConcat(a, b);
  }

  lemma {:induction false} OrCommutes(x: nat, y: nat)
    ensures Or(x, y) == Or(y, x)
  {
    if x > 0 && y > 0 {
      OrCommutes(x / 2, y / 2);
    }
  }

}
