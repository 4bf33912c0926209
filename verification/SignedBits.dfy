/** Bits read as signs, and the bit operations of 32-bit words. */
module SignedBits {
  import opened Arith
  import opened BitLogic

  /** sum of (2*v[i] - 1)*2^i over the low l bits of v. */
  ghost function SignSum(l: nat, v: int): int {
    if l == 0 then 0 else SignSum(l - 1, v) + (2 * Bit(v, l - 1) - 1) * Pow2(l - 1)
  }

  lemma {:induction false} SignSumIs(l: nat, v: int)
    ensures SignSum(l, v) == 2 * (v % Pow2(l)) + 1 - Pow2(l)
  {
    if l > 0 {
      SignSumIs(l - 1, v);
      LowBitsSplit(v, l - 1, 1);
      BitIsField(v, l - 1);
      SignTerm(Bit(v, l - 1), Pow2(l - 1));
    }
  }

  lemma SignTerm(b: int, m: int)
    ensures (2 * b - 1) * m == 2 * (m * b) - m
  {
    assert (2 * b) * m == 2 * (m * b);
  }

  // ----- words as numbers -----

  const WORD: nat := 0x1_00000000

  lemma BitUp(x: int, i: nat)
    requires i > 0
    ensures Bit(x, i) == Bit(x / 2, i - 1)
  {
    DivDiv(x, 2, Pow2(i - 1));
  }

  lemma BitLow(x: int)
    ensures Bit(x, 0) == x % 2
  {
    assert Pow2(0) == 1;
  }

  lemma {:induction false} XorBit(x: nat, y: nat, i: nat)
    ensures Bit(Xor(x, y), i) == (Bit(x, i) + Bit(y, i)) % 2
    decreases i
  {
    var z := Xor(x, y);
    assert z / 2 == Xor(x / 2, y / 2) && z % 2 == (x % 2 + y % 2) % 2;
    if i == 0 {
      BitLow(x);
      BitLow(y);
      BitLow(z);
    } else {
      XorBit(x / 2, y / 2, i - 1);
      BitUp(x, i);
      BitUp(y, i);
      BitUp(z, i);
    }
  }

  /** Bits below the cut survive a reduction modulo a power of two. */
  lemma ModBit(x: int, m: nat, i: nat)
    requires i < m
    ensures Bit(x % Pow2(m), i) == Bit(x, i)
  {
    Pow2Add(i, m - i);
    ModMul(x, Pow2(i), Pow2(m - i));
    var y := x / Pow2(i);
    ModMul(y, 2, Pow2(m - i - 1));
    Pow2Succ(m - i - 1);
    var r := x % Pow2(m);
    DivIs(r, Pow2(i), y % Pow2(m - i), x % Pow2(i));
  }

  /** x with bit t cleared. */
  function ClearBit(x: int, t: nat): int { x - Bit(x, t) * Pow2(t) }

  lemma ClearBitBits(x: int, t: nat, k: nat)
    requires k <= t
    ensures Bit(ClearBit(x, t), k) == if k == t then 0 else Bit(x, k)
  {
    AddHighBit(x, 0 - Bit(x, t), t, k);
  }

  /** Adding b*2^t leaves the bits below t and adds b to the rest. */
  lemma AddHighBit(x: int, b: int, t: nat, k: nat)
    requires k <= t
    ensures Bit(x + b * Pow2(t), k) == if k == t then (x / Pow2(t) + b) % 2 else Bit(x, k)
  {
    Pow2Add(k, t - k);
    Pow2Succ(0);
    if k < t {
      Pow2Succ(t - k - 1);
    }
    hide Pow2;
    var a, e := Pow2(k), Pow2(t - k);
    MulAssoc(b, e, a);
    assert b * Pow2(t) == (b * e) * a;
    DivShift(x, b * e, a);
    if k < t {
      TwiceTimes(b, Pow2(t - k - 1));
      EvenShift(x / a, b * Pow2(t - k - 1), b * e);
    }
  }

  lemma TwiceTimes(b: int, h: int)
    ensures b * (2 * h) == 2 * (b * h)
  {
  }

  lemma DivShift(x: int, c: int, a: int)
    requires a > 0
    ensures (x + c * a) / a == x / a + c
  {
    assert (x / a + c) * a == (x / a) * a + c * a;
    DivIs(x + c * a, a, x / a + c, x % a);
  }

  lemma EvenShift(q: int, h: int, c: int)
    requires c == 2 * h
    ensures (q + c) % 2 == q % 2
  {
  }

  /** x shifted left by t within a 32-bit word. */
  function ShiftLeft32(x: nat, t: nat): nat { (x * Pow2(t)) % WORD }

  lemma ShiftLeftBits(x: nat, t: nat, k: nat)
    requires k <= t < 32
    ensures Bit(ShiftLeft32(x, t), k) == if k == t then x % 2 else 0
  {
    Pow2Values();
    ModBit(x * Pow2(t), 32, k);
    AddHighBit(0, x, t, k);
    assert Bit(0, k) == 0 && 0 / Pow2(t) == 0 by { DivIs(0, Pow2(k), 0, 0); DivIs(0, Pow2(t), 0, 0); }
  }

  lemma QuotientNat(x: nat, m: nat)
    requires m > 0
    ensures x / m >= 0
  {
  }

  /** x rotated right within a 32-bit word. */
  function RotateRight32(x: nat, n: nat): nat
    requires n < 32
  {
    QuotientNat(x, Pow2(n));
    if n == 0 then x else x / Pow2(n) + ShiftLeft32(x, 32 - n)
  }

  lemma RotateLowBit(x: nat, n: nat)
    requires n < 32
    ensures RotateRight32(x, n) % 2 == Bit(x, n)
  {
    if n == 0 {
      BitLow(x);
    } else {
      Pow2Succ(31 - n);
      var y := x * Pow2(31 - n);
      assert x * Pow2(32 - n) == 2 * y;
      EvenMod(y);
    }
  }

  lemma EvenMod(y: int)
    ensures ((2 * y) % WORD) % 2 == 0
  {
    var q := (2 * y) / 0x1_00000000;
    assert (2 * y) % 0x1_00000000 == 2 * (y - q * 0x80000000);
  }
}
