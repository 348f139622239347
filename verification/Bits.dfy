/**
 Powers of two, shifts and bitwise OR on natural numbers, one binary digit at a time, as far as
 prefix and mask arithmetic needs them.
 */
module Bits {

  function Pow2(n: nat): (p: nat)
    ensures p >= 1
  {
    if n == 0 then 1 else 2 * Pow2(n - 1)
  }

  function BitOr(a: nat, b: nat): nat
    decreases a + b
  {
    if a == 0 && b == 0 then 0
    else 2 * BitOr(a / 2, b / 2) + (if a % 2 == 1 || b % 2 == 1 then 1 else 0)
  }

  /** n shifted right by k: its bits above position k. */
  function TopBits(n: nat, k: nat): nat {
    if k == 0 then n else TopBits(n / 2, k - 1)
  }

  /** n with its k low bits cleared: the start of its block of size 2^k. */
  function ClearLow(n: nat, k: nat): nat {
    if k == 0 then n else 2 * ClearLow(n / 2, k - 1)
  }

  lemma {:induction false} ClearLowBounds(n: nat, k: nat)
    ensures ClearLow(n, k) <= n < ClearLow(n, k) + Pow2(k)
  {
    if k > 0 {
      ClearLowBounds(n / 2, k - 1);
    }
  }

  /** Two numbers share their top bits exactly when each lies in the block the other starts. */
  lemma {:induction false} SameBlock(a: nat, b: nat, k: nat)
    ensures TopBits(a, k) == TopBits(b, k) <==> ClearLow(a, k) <= b < ClearLow(a, k) + Pow2(k)
    ensures TopBits(a, k) == TopBits(b, k) <==> ClearLow(a, k) == ClearLow(b, k)
  {
    if k > 0 {
      SameBlock(a / 2, b / 2, k - 1);
    }
  }

  /** ORing with k low one-bits yields the last number of the block. */
  lemma {:induction false} OrMask(a: nat, k: nat)
    ensures BitOr(a, Pow2(k) - 1) == ClearLow(a, k) + Pow2(k) - 1
  {
    if k == 0 {
      OrZero(a);
    } else {
      assert BitOr(a, 2 * Pow2(k - 1) - 1) == 2 * BitOr(a / 2, Pow2(k - 1) - 1) + 1;
      OrMask(a / 2, k - 1);
    }
  }

  lemma {:induction false} OrZero(a: nat)
    ensures BitOr(a, 0) == a
  {
    if a > 0 {
      OrZero(a / 2);
    }
  }

  /** A block never reaches past a larger power of two that bounds one of its members. */
  lemma {:induction false} BlockBelow(n: nat, h: nat, b: nat)
    requires n < Pow2(h + b)
    ensures ClearLow(n, h) + Pow2(h) <= Pow2(h + b)
  {
    if h > 0 {
      BlockBelow(n / 2, h - 1, b);
    }
  }

  lemma {:induction false} TopBitsTwice(n: nat, g: nat, h: nat)
    requires h <= g
    ensures TopBits(n, g) == TopBits(TopBits(n, h), g - h)
  {
    if h > 0 {
      TopBitsTwice(n / 2, g - 1, h - 1);
    }
  }

  /** Sharing more top bits implies sharing fewer. */
  lemma BlockInside(n: nat, m: nat, g: nat, h: nat)
    requires h <= g && TopBits(n, h) == TopBits(m, h)
    ensures TopBits(n, g) == TopBits(m, g)
  {
    TopBitsTwice(n, g, h);
    TopBitsTwice(m, g, h);
  }

  // ---------- powers used as address-space sizes ----------

  lemma Pow2Add8(n: nat)
    ensures Pow2(n + 8) == 256 * Pow2(n)
  {
    assert Pow2(n + 2) == 4 * Pow2(n);
    assert Pow2(n + 4) == 4 * Pow2(n + 2);
    assert Pow2(n + 6) == 4 * Pow2(n + 4);
    assert Pow2(n + 8) == 4 * Pow2(n + 6);
  }

  lemma Pow2Add32(n: nat)
    ensures Pow2(n + 32) == 0x1_0000_0000 * Pow2(n)
  {
    Pow2Add8(n);
    Pow2Add8(n + 8);
    Pow2Add8(n + 16);
    Pow2Add8(n + 24);
  }

  lemma Pow2Of32()
    ensures Pow2(32) == 0x1_0000_0000
  {
    Pow2Add32(0);
  }

  lemma Pow2Of128()
    ensures Pow2(128) == 0x1_0000_0000_0000_0000_0000_0000_0000_0000
  {
    Pow2Of32();
    Pow2Add32(32);
    Pow2Add32(64);
    Pow2Add32(96);
  }

  // ---------- bytes ----------

  lemma ClearLowTwo(n: nat, k: nat)
    ensures ClearLow(n, k + 2) == 4 * ClearLow(n / 4, k)
  {
    assert ClearLow(n, k + 2) == 2 * ClearLow(n / 2, k + 1);
    assert n / 2 / 2 == n / 4;
  }

  /** Clearing eight more bits first drops the last byte. */
  lemma ClearLowByByte(n: nat, k: nat)
    ensures ClearLow(n, k + 8) == 256 * ClearLow(n / 256, k)
  {
    ClearLowTwo(n, k + 6);
    ClearLowTwo(n / 4, k + 4);
    ClearLowTwo(n / 4 / 4, k + 2);
    ClearLowTwo(n / 4 / 4 / 4, k);
    assert n / 4 / 4 / 4 / 4 == n / 256;
  }

  /** A number with its low bits clear stays out of the way of the low bits of another. */
  lemma {:induction false} ClearLowAdd(u: nat, x: nat, k: nat)
    requires ClearLow(u, k) == u
    ensures ClearLow(u + x, k) == u + ClearLow(x, k)
  {
    if k > 0 {
      ClearLowAdd(u / 2, x / 2, k - 1);
    }
  }

  lemma {:induction false} ClearFewer(u: nat, k: nat, l: nat)
    requires ClearLow(u, l) == u && k <= l
    ensures ClearLow(u, k) == u
  {
    if k > 0 {
      ClearFewer(u / 2, k - 1, l - 1);
    }
  }
}
