/** Bitwise operations on natural numbers, and how shifts and masks take them apart. */
module Bits {

  function Pow2(n: nat): (p: nat)
    ensures p > 0
  {
    if n == 0 then 1 else 2 * Pow2(n - 1)
  }

  /** Bitwise and. */
  function And(a: nat, b: nat): nat
  {
    if a == 0 || b == 0 then 0 else (if a % 2 == 1 && b % 2 == 1 then 1 else 0) + 2 * And(a / 2, b / 2)
  }

  /** Bitwise or. */
  function Or(a: nat, b: nat): nat
  {
    if a == 0 then b else if b == 0 then a
    else (if a % 2 == 1 || b % 2 == 1 then 1 else 0) + 2 * Or(a / 2, b / 2)
  }

  /** Bitwise and with the complement of b. */
  function AndNot(a: nat, b: nat): nat
  {
    if a == 0 then 0 else (if a % 2 == 1 && b % 2 == 0 then 1 else 0) + 2 * AndNot(a / 2, b / 2)
  }

  function ShiftRight(x: nat, n: nat): nat
  {
    if n == 0 then x else ShiftRight(x / 2, n - 1)
  }

  function ShiftLeft(x: nat, n: nat): nat
  {
    if n == 0 then x else 2 * ShiftLeft(x, n - 1)
  }

  /** Shifting down and masking take a number apart at bit n. */
  lemma {:induction false} MaskSplits(x: nat, n: nat)
    ensures And(x, Pow2(n) - 1) < Pow2(n)
    ensures x == ShiftLeft(ShiftRight(x, n), n) + And(x, Pow2(n) - 1)
    ensures AndNot(x, Pow2(n) - 1) == x - And(x, Pow2(n) - 1)
    decreases n
  {
    if n == 0 {
      AndNotZero(x);
    } else {
      MaskSplits(x / 2, n - 1);
      HalfMask(Pow2(n - 1));
    }
  }

  lemma HalfMask(p: nat)
    requires p > 0
    ensures (2 * p - 1) / 2 == p - 1 && (2 * p - 1) % 2 == 1
  {
  }

  lemma {:induction false} NextMultiple(x: nat, n: nat)
    ensures ShiftLeft(x + 1, n) == ShiftLeft(x, n) + Pow2(n)
    decreases n
  {
    if n > 0 {
      NextMultiple(x, n - 1);
    }
  }

  lemma {:induction false} AndNotZero(x: nat)
    ensures AndNot(x, 0) == x
    decreases x
  {
    if x > 0 {
      AndNotZero(x / 2);
    }
  }

  lemma {:induction false} ZeroStays(n: nat)
    ensures ShiftLeft(0, n) == 0
    decreases n
  {
    if n > 0 {
      ZeroStays(n - 1);
    }
  }

  /** Bits below n put beside bits from n on add up. */
  lemma {:induction false} OrAdds(k: nat, x: nat, n: nat)
    requires x < Pow2(n)
    ensures Or(ShiftLeft(k, n), x) == ShiftLeft(k, n) + x
    decreases n
  {
    if n > 0 {
      OrAdds(k, x / 2, n - 1);
    }
  }

  /** ... and come apart again. */
  lemma {:induction false} ComesApart(k: nat, x: nat, n: nat)
    requires x < Pow2(n)
    ensures ShiftRight(ShiftLeft(k, n) + x, n) == k
    ensures And(ShiftLeft(k, n) + x, Pow2(n) - 1) == x
    decreases n
  {
    if n > 0 {
      ComesApart(k, x / 2, n - 1);
      HalfMask(Pow2(n - 1));
      assert (ShiftLeft(k, n) + x) / 2 == ShiftLeft(k, n - 1) + x / 2;
    }
  }
}
