/** Bitwise and, or and exclusive or of words kept as numbers, as far as comparisons with
    all-ones and zero need them. */
module BitLogic {
  import opened Arith

  function And(x: nat, y: nat): nat
    decreases x + y
  {
    if x == 0 || y == 0 then 0 else 2 * And(x / 2, y / 2) + (x % 2) * (y % 2)
  }

  function Or(x: nat, y: nat): nat
    decreases x + y
  {
    if x == 0 && y == 0 then 0 else 2 * Or(x / 2, y / 2) + (if x % 2 + y % 2 > 0 then 1 else 0)
  }

  function Xor(x: nat, y: nat): nat
    decreases x + y
  {
    if x == 0 && y == 0 then 0 else 2 * Xor(x / 2, y / 2) + (x % 2 + y % 2) % 2
  }

  lemma HalfBelow(x: nat, k: nat)
    requires k > 0
    ensures x < Pow2(k) <==> x / 2 < Pow2(k - 1)
    ensures x == Pow2(k) - 1 <==> x / 2 == Pow2(k - 1) - 1 && x % 2 == 1
  {
    Pow2Succ(k - 1);
  }

  /** All k bits of a conjunction are set exactly when they are set on both sides. */
  lemma {:induction false} AndOnes(x: nat, y: nat, k: nat)
    requires x < Pow2(k) && y < Pow2(k)
    ensures And(x, y) < Pow2(k)
    ensures And(x, y) == Pow2(k) - 1 <==> x == Pow2(k) - 1 && y == Pow2(k) - 1
    decreases k
  {
    if k > 0 {
      HalfBelow(x, k);
      HalfBelow(y, k);
      HalfBelow(And(x, y), k);
      AndOnes(x / 2, y / 2, k - 1);
    }
  }

  /** A conjunction with k ones keeps a k-bit number. */
  lemma {:induction false} AndFull(x: nat, k: nat)
    requires x < Pow2(k)
    ensures And(x, Pow2(k) - 1) == x
    decreases k
  {
    if k > 0 {
      Pow2Succ(k - 1);
      AndFull(x / 2, k - 1);
      assert (Pow2(k) - 1) / 2 == Pow2(k - 1) - 1;
    }
  }

  lemma {:induction false} OrZero(x: nat, y: nat)
    ensures Or(x, y) == 0 <==> x == 0 && y == 0
    decreases x + y
  {
    if x != 0 || y != 0 {
      OrZero(x / 2, y / 2);
    }
  }

  /** An exclusive or with c gives all ones exactly on the complement of c. */
  lemma {:induction false} XorOnes(x: nat, c: nat, k: nat)
    requires x < Pow2(k) && c < Pow2(k)
    ensures Xor(x, c) < Pow2(k)
    ensures Xor(x, c) == Pow2(k) - 1 <==> x == Pow2(k) - 1 - c
    decreases k
  {
    if k > 0 {
      HalfBelow(x, k);
      HalfBelow(c, k);
      HalfBelow(Xor(x, c), k);
      XorOnes(x / 2, c / 2, k - 1);
      Pow2Succ(k - 1);
    }
  }
}
