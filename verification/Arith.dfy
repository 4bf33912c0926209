/** Powers of two, binary digits and congruences, as used by all the arithmetic modules. */
module Arith {

  function Pow2(k: nat): (r: nat)
    ensures r > 0
  {
    if k == 0 then 1 else 2 * Pow2(k - 1)
  }

  lemma Pow2Succ(k: nat)
    ensures Pow2(k + 1) == 2 * Pow2(k) && Pow2(0) == 1
  {
  }

  lemma {:induction false} Pow2Add(j: nat, k: nat)
    ensures Pow2(j + k) == Pow2(j) * Pow2(k)
  {
    if j > 0 {
      Pow2Add(j - 1, k);
      assert Pow2(j + k) == 2 * Pow2(j - 1 + k);
    }
  }

  lemma Pow2Values()
    ensures Pow2(0) == 1 && Pow2(8) == 0x100 && Pow2(32) == 0x1_00000000
    ensures Pow2(64) == 0x1_00000000_00000000
    ensures Pow2(128) == 0x1_00000000_00000000_00000000_00000000
    ensures Pow2(255) == 0x80000000_00000000_00000000_00000000_00000000_00000000_00000000_00000000
    ensures Pow2(256) == 0x1_00000000_00000000_00000000_00000000_00000000_00000000_00000000_00000000
  {
    Pow2Small();
    hide *;
    Pow2Twice(8, 0x100);
    Pow2Twice(16, 0x10000);
    Pow2Twice(32, 0x1_00000000);
    Pow2Twice(64, 0x1_00000000_00000000);
    Pow2Twice(128, 0x1_00000000_00000000_00000000_00000000);
    Pow2Succ(255);
  }

  lemma Pow2Small()
    ensures Pow2(0) == 1 && Pow2(8) == 0x100
  {
  }

  lemma Pow2Twice(k: nat, v: int)
    requires Pow2(k) == v
    ensures Pow2(2 * k) == v * v
  {
    Pow2Add(k, k);
  }

  lemma {:induction false} Pow2Monotone(j: nat, k: nat)
    requires j <= k
    ensures Pow2(j) <= Pow2(k)
  {
    if j < k {
      Pow2Monotone(j, k - 1);
    }
  }

  lemma SmallMultiple(d: int, m: int)
    requires m > 0 && -m < d * m < m
    ensures d == 0
  {
    if d >= 1 {
      MulMono(1, d, m);
    } else if d <= -1 {
      MulMono(d, -1, m);
    }
  }

  /** The quotient and remainder are the only pair of their kind. */
  lemma DivIs(x: int, m: int, q: int, r: int)
    requires m > 0 && x == q * m + r && 0 <= r < m
    ensures x / m == q && x % m == r
  {
    var d := x / m - q;
    assert d * m == (x / m) * m - q * m;
    SmallMultiple(d, m);
  }

  lemma MulMono(a: int, b: int, m: int)
    requires a <= b && m >= 0
    ensures a * m <= b * m
  {
    assert (b - a) * m >= 0;
  }

  lemma DivMod(x: int, m: int)
    requires m > 0
    ensures x == (x / m) * m + x % m && 0 <= x % m < m
  {
  }

  lemma MulSplit(q: int, b: int, d: int, a: int)
    ensures (q * b + d) * a == (q * b) * a + d * a
  {
  }

  lemma MulAssoc(x: int, y: int, z: int)
    ensures (x * y) * z == x * (z * y)
  {
  }

  lemma DivDiv(x: int, a: int, b: int)
    requires a > 0 && b > 0
    ensures a * b > 0 && x / (a * b) == x / a / b
  {
    var q, d, e := x / a / b, (x / a) % b, x % a;
    assert a * b > 0 by { MulMono(1, b, a); }
    assert x / a == q * b + d;
    MulSplit(q, b, d, a);
    MulAssoc(q, b, a);
    assert x == q * (a * b) + (d * a + e);
    MulMono(0, d, a);
    MulMono(d, b - 1, a);
    assert (b - 1) * a == b * a - a;
    DivIs(x, a * b, q, d * a + e);
  }

  // ----- binary digits -----

  /** The cnt-bit field of x at bit off. */
  function Bits(x: int, off: nat, cnt: nat): (r: nat)
    ensures r < Pow2(cnt)
  {
    (x / Pow2(off)) % Pow2(cnt)
  }

  predicate IsBit(b: int) { b == 0 || b == 1 }

  function Bit(x: int, i: nat): (r: nat)
    ensures IsBit(r)
  {
    (x / Pow2(i)) % 2
  }

  lemma ModMul(x: int, a: int, b: int)
    requires a > 0 && b > 0
    ensures a * b > 0 && x % (a * b) == x % a + a * ((x / a) % b)
  {
    DivDiv(x, a, b);
    var q, d := x / a / b, (x / a) % b;
    assert x / a == q * b + d;
    MulSplit(q, b, d, a);
    MulAssoc(q, b, a);
  }

  lemma BitIsField(s: int, bit: nat)
    ensures Bits(s, bit, 1) == Bit(s, bit)
  {
    assert Pow2(1) == 2;
  }

  /** Cutting a number at bit off + cnt: the low part, then the field. */
  lemma LowBitsSplit(x: int, off: nat, cnt: nat)
    ensures x % Pow2(off + cnt) == x % Pow2(off) + Pow2(off) * Bits(x, off, cnt)
  {
    Pow2Add(off, cnt);
    ModMul(x, Pow2(off), Pow2(cnt));
  }

  // ----- congruence -----

  /** a and b leave the same remainder modulo m. */
  predicate Cong(a: int, b: int, m: int)
    requires m > 0
  {
    a % m == b % m
  }

  lemma CongBy(a: int, b: int, m: int, q: int)
    requires m > 0 && a == b + q * m
    ensures Cong(a, b, m)
  {
    assert a == (b / m + q) * m + b % m by {
      assert (b / m + q) * m == (b / m) * m + q * m;
    }
    DivIs(a, m, b / m + q, b % m);
  }

  /** The witness form of a congruence. */
  lemma CongGap(a: int, b: int, m: int) returns (q: int)
    requires m > 0 && Cong(a, b, m)
    ensures a == b + q * m
  {
    q := a / m - b / m;
    assert q * m == (a / m) * m - (b / m) * m;
  }

  lemma CongRefl(a: int, m: int)
    requires m > 0
    ensures Cong(a, a, m)
  {
  }

  lemma CongSym(a: int, b: int, m: int)
    requires m > 0 && Cong(a, b, m)
    ensures Cong(b, a, m)
  {
  }

  lemma CongTrans(a: int, b: int, c: int, m: int)
    requires m > 0 && Cong(a, b, m) && Cong(b, c, m)
    ensures Cong(a, c, m)
  {
  }

  lemma CongAdd(a: int, b: int, c: int, d: int, m: int)
    requires m > 0 && Cong(a, b, m) && Cong(c, d, m)
    ensures Cong(a + c, b + d, m)
    ensures Cong(a - c, b - d, m)
  {
    var q := CongGap(a, b, m);
    var r := CongGap(c, d, m);
    assert (q + r) * m == q * m + r * m;
    assert (q - r) * m == q * m - r * m;
    CongBy(a + c, b + d, m, q + r);
    CongBy(a - c, b - d, m, q - r);
  }

  lemma CongScale(a: int, b: int, c: int, m: int)
    requires m > 0 && Cong(a, b, m)
    ensures Cong(a * c, b * c, m)
  {
    var q := CongGap(a, b, m);
    MulSplit(q, m, b, c);
    MulAssoc(q, m, c);
    MulAssoc(q, c, m);
    CongBy(a * c, b * c, m, q * c);
  }

  lemma CongMul(a: int, b: int, c: int, d: int, m: int)
    requires m > 0 && Cong(a, b, m) && Cong(c, d, m)
    ensures Cong(a * c, b * d, m)
  {
    CongScale(a, b, c, m);
    CongScale(c, d, b, m);
    assert c * b == b * c && d * b == b * d;
  }

  lemma ModCong(a: int, m: int)
    requires m > 0
    ensures Cong(a % m, a, m)
  {
    CongBy(a, a % m, m, a / m);
  }

  lemma CongSmall(a: int, b: int, m: int)
    requires 0 <= a < m && 0 <= b < m && Cong(a, b, m)
    ensures a == b
  {
    DivIs(a, m, 0, a);
    DivIs(b, m, 0, b);
  }
}
