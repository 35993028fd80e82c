/** Bitwise operations on natural numbers, by their binary digits. */
module Bits {

  function Pow2(k: nat): (r: nat)
    ensures r > 0
  {
    if k == 0 then 1 else 2 * Pow2(k - 1)
  }

  function BitOr(a: nat, b: nat): (r: nat)
    decreases a + b
  {
    if a == 0 && b == 0 then 0
    else 2 * BitOr(a / 2, b / 2) + if a % 2 == 1 || b % 2 == 1 then 1 else 0
  }

  function BitAnd(a: nat, b: nat): (r: nat)
    decreases a + b
  {
    if a == 0 && b == 0 then 0
    else 2 * BitAnd(a / 2, b / 2) + if a % 2 == 1 && b % 2 == 1 then 1 else 0
  }

  lemma {:induction false} OrZero(b: nat)
    ensures BitOr(0, b) == b
  {
    if b == 0 {
    } else {
      OrZero(b / 2);
    }
  }

  /** Adding bits above those in use is addition. */
  lemma {:induction false} OrAbove(a: nat, x: nat, k: nat)
    requires a < Pow2(k)
    ensures BitOr(a, x * Pow2(k)) == a + x * Pow2(k)
  {
    if k == 0 {
      OrZero(x);
    } else {
      var b := x * Pow2(k - 1);
      Doubled(x, Pow2(k - 1));
      if a != 0 || b != 0 {
        OrAbove(a / 2, x, k - 1);
      }
    }
  }

  lemma {:induction false} PowAdd(j: nat, k: nat)
    ensures Pow2(j + k) == Pow2(j) * Pow2(k)
  {
    if j == 0 {
    } else {
      PowAdd(j - 1, k);
      Doubled(Pow2(j - 1), Pow2(k));
    }
  }

  lemma Doubled(a: nat, b: nat)
    ensures 2 * (a * b) == (2 * a) * b
    ensures a * (2 * b) == 2 * (a * b)
  {
  }

  lemma {:induction false} PowMonotone(j: nat, k: nat)
    requires j <= k
    ensures Pow2(j) <= Pow2(k)
  {
    if j == k {
    } else {
      PowMonotone(j, k - 1);
    }
  }

  lemma Pow32()
    ensures Pow2(32) == 0x1_0000_0000
    ensures Pow2(35) == 0x8_0000_0000
  {
    assert Pow2(8) == 256;
    PowAdd(8, 8);
    PowAdd(16, 16);
    assert Pow2(3) == 8;
    PowAdd(3, 32);
  }
}
