/** Field multiplication and squaring on five 52-bit limbs with 128-bit accumulators. */
module Field5x52Mul {
  import opened Arith
  import opened Words

  /** The field prime, 2^256 - 2^32 - 977. */
  const P: int := 0xFFFFFFFF_FFFFFFFF_FFFFFFFF_FFFFFFFF_FFFFFFFF_FFFFFFFF_FFFFFFFE_FFFFFC2F

  const LIMB: int := 0x10000000000000

  // Sums of 52-bit limbs, lowest first.

  function Limbs(t0: int, t1: int, t2: int, t3: int, t4: int): int {
    t0 + t1 * 0x10000000000000 + t2 * 0x100000000000000000000000000
    + t3 * 0x1000000000000000000000000000000000000000 + t4 * 0x10000000000000000000000000000000000000000000000000000
  }

  function Nine(p0: int, p1: int, p2: int, p3: int, p4: int, p5: int, p6: int, p7: int, p8: int): int {
    Limbs(p0, p1, p2, p3, p4) + Limbs(p5, p6, p7, p8, 0)
        * 0x100000000000000000000000000000000000000000000000000000000000000000
  }

  /** The number five limbs stand for. */
  function Value(n: seq<int>): int
    requires |n| == 5
  {
    Limbs(n[0], n[1], n[2], n[3], n[4])
  }

  /** The full product of two 64-bit words. */
  function WideMul(a: u64, b: u64): (r: u128) {
    MulRange(a, b);
    a * b
  }

  lemma MulRange(a: int, b: int)
    requires 0 <= a < 0x1_00000000_00000000 && 0 <= b < 0x1_00000000_00000000
    ensures 0 <= a * b < 0x1_00000000_00000000_00000000_00000000
  {
    MulMono(0, a, b);
    MulMono(a, 0xFFFFFFFF_FFFFFFFF, b);
  }

  lemma WideMulBound(a: u64, b: u64, i: nat, j: nat)
    requires a <= i && b <= j
    ensures WideMul(a, b) <= i * j
  {
    MulMono(a, i, b);
    MulMono(b, j, i);
  }

  /** The limbs fit the multiplier: four of 56 bits and a top one of 52 bits. */
  predicate MulInput(n: seq<int>) {
    && |n| == 5
    && (forall i :: 0 <= i < 4 ==> 0 <= n[i] < 0x100000000000000)
    && 0 <= n[4] < 0x10000000000000
  }

  /** Magnitude 1, as a product leaves it. */
  predicate MulOutput(n: seq<int>) {
    && |n| == 5
    && (forall i :: 0 <= i < 4 ==> 0 <= n[i] < LIMB)
    && 0 <= n[4] <= 0x1FFFFFFFFFFFE
  }

  // ----- the product by columns -----

  /** k times a five-limb number, limb by limb. */
  lemma ScaleLimbs(k: int, b0: int, b1: int, b2: int, b3: int, b4: int)
    ensures k * Limbs(b0, b1, b2, b3, b4) == Limbs(k * b0, k * b1, k * b2, k * b3, k * b4)
  {
  }

  lemma ProductBounds(a0: u64, a1: u64, a2: u64, a3: u64, a4: u64, b0: u64, b1: u64, b2: u64, b3: u64, b4: u64)
    requires MulInput([a0, a1, a2, a3, a4]) && MulInput([b0, b1, b2, b3, b4])
    ensures WideMul(a0, b0) <= 0xFFFFFFFFFFFFFE00000000000001 && WideMul(a0, b1) <= 0xFFFFFFFFFFFFFE00000000000001
    ensures WideMul(a0, b2) <= 0xFFFFFFFFFFFFFE00000000000001 && WideMul(a0, b3) <= 0xFFFFFFFFFFFFFE00000000000001
    ensures WideMul(a0, b4) <= 0xFFFFFFFFFFFFEF0000000000001
    ensures WideMul(a1, b0) <= 0xFFFFFFFFFFFFFE00000000000001 && WideMul(a1, b1) <= 0xFFFFFFFFFFFFFE00000000000001
    ensures WideMul(a1, b2) <= 0xFFFFFFFFFFFFFE00000000000001 && WideMul(a1, b3) <= 0xFFFFFFFFFFFFFE00000000000001
    ensures WideMul(a1, b4) <= 0xFFFFFFFFFFFFEF0000000000001
    ensures WideMul(a2, b0) <= 0xFFFFFFFFFFFFFE00000000000001 && WideMul(a2, b1) <= 0xFFFFFFFFFFFFFE00000000000001
    ensures WideMul(a2, b2) <= 0xFFFFFFFFFFFFFE00000000000001 && WideMul(a2, b3) <= 0xFFFFFFFFFFFFFE00000000000001
    ensures WideMul(a2, b4) <= 0xFFFFFFFFFFFFEF0000000000001
    ensures WideMul(a3, b0) <= 0xFFFFFFFFFFFFFE00000000000001 && WideMul(a3, b1) <= 0xFFFFFFFFFFFFFE00000000000001
    ensures WideMul(a3, b2) <= 0xFFFFFFFFFFFFFE00000000000001 && WideMul(a3, b3) <= 0xFFFFFFFFFFFFFE00000000000001
    ensures WideMul(a3, b4) <= 0xFFFFFFFFFFFFEF0000000000001
    ensures WideMul(a4, b0) <= 0xFFFFFFFFFFFFEF0000000000001 && WideMul(a4, b1) <= 0xFFFFFFFFFFFFEF0000000000001
    ensures WideMul(a4, b2) <= 0xFFFFFFFFFFFFEF0000000000001 && WideMul(a4, b3) <= 0xFFFFFFFFFFFFEF0000000000001
    ensures WideMul(a4, b4) <= 0xFFFFFFFFFFFFE0000000000001
  {
    var a, b := [a0, a1, a2, a3, a4], [b0, b1, b2, b3, b4];
    hide WideMul;
    assert a0 == a[0] && a1 == a[1] && a2 == a[2] && a3 == a[3] && a4 == a[4];
    assert b0 == b[0] && b1 == b[1] && b2 == b[2] && b3 == b[3] && b4 == b[4];
    WideMulBound(a0, b0, 0xFFFFFFFFFFFFFF, 0xFFFFFFFFFFFFFF);
    WideMulBound(a0, b1, 0xFFFFFFFFFFFFFF, 0xFFFFFFFFFFFFFF);
    WideMulBound(a0, b2, 0xFFFFFFFFFFFFFF, 0xFFFFFFFFFFFFFF);
    WideMulBound(a0, b3, 0xFFFFFFFFFFFFFF, 0xFFFFFFFFFFFFFF);
    WideMulBound(a0, b4, 0xFFFFFFFFFFFFFF, 0xFFFFFFFFFFFFF);
    WideMulBound(a1, b0, 0xFFFFFFFFFFFFFF, 0xFFFFFFFFFFFFFF);
    WideMulBound(a1, b1, 0xFFFFFFFFFFFFFF, 0xFFFFFFFFFFFFFF);
    WideMulBound(a1, b2, 0xFFFFFFFFFFFFFF, 0xFFFFFFFFFFFFFF);
    WideMulBound(a1, b3, 0xFFFFFFFFFFFFFF, 0xFFFFFFFFFFFFFF);
    WideMulBound(a1, b4, 0xFFFFFFFFFFFFFF, 0xFFFFFFFFFFFFF);
    WideMulBound(a2, b0, 0xFFFFFFFFFFFFFF, 0xFFFFFFFFFFFFFF);
    WideMulBound(a2, b1, 0xFFFFFFFFFFFFFF, 0xFFFFFFFFFFFFFF);
    WideMulBound(a2, b2, 0xFFFFFFFFFFFFFF, 0xFFFFFFFFFFFFFF);
    WideMulBound(a2, b3, 0xFFFFFFFFFFFFFF, 0xFFFFFFFFFFFFFF);
    WideMulBound(a2, b4, 0xFFFFFFFFFFFFFF, 0xFFFFFFFFFFFFF);
    WideMulBound(a3, b0, 0xFFFFFFFFFFFFFF, 0xFFFFFFFFFFFFFF);
    WideMulBound(a3, b1, 0xFFFFFFFFFFFFFF, 0xFFFFFFFFFFFFFF);
    WideMulBound(a3, b2, 0xFFFFFFFFFFFFFF, 0xFFFFFFFFFFFFFF);
    WideMulBound(a3, b3, 0xFFFFFFFFFFFFFF, 0xFFFFFFFFFFFFFF);
    WideMulBound(a3, b4, 0xFFFFFFFFFFFFFF, 0xFFFFFFFFFFFFF);
    WideMulBound(a4, b0, 0xFFFFFFFFFFFFF, 0xFFFFFFFFFFFFFF);
    WideMulBound(a4, b1, 0xFFFFFFFFFFFFF, 0xFFFFFFFFFFFFFF);
    WideMulBound(a4, b2, 0xFFFFFFFFFFFFF, 0xFFFFFFFFFFFFFF);
    WideMulBound(a4, b3, 0xFFFFFFFFFFFFF, 0xFFFFFFFFFFFFFF);
    WideMulBound(a4, b4, 0xFFFFFFFFFFFFF, 0xFFFFFFFFFFFFF);
  }

  /** The product of two numbers is the sum of the nine columns. */
  lemma Columns(a0: u64, a1: u64, a2: u64, a3: u64, a4: u64, b0: u64, b1: u64, b2: u64, b3: u64, b4: u64)
    ensures Limbs(a0, a1, a2, a3, a4) * Limbs(b0, b1, b2, b3, b4)
      == Nine(WideMul(a0, b0),
        WideMul(a0, b1) + WideMul(a1, b0),
        WideMul(a0, b2) + WideMul(a1, b1) + WideMul(a2, b0),
        WideMul(a0, b3) + WideMul(a1, b2) + WideMul(a2, b1) + WideMul(a3, b0),
        WideMul(a0, b4) + WideMul(a1, b3) + WideMul(a2, b2) + WideMul(a3, b1) + WideMul(a4, b0),
        WideMul(a1, b4) + WideMul(a2, b3) + WideMul(a3, b2) + WideMul(a4, b1),
        WideMul(a2, b4) + WideMul(a3, b3) + WideMul(a4, b2),
        WideMul(a3, b4) + WideMul(a4, b3),
        WideMul(a4, b4))
  {
    var b := Limbs(b0, b1, b2, b3, b4);
    ScaleLimbs(a0, b0, b1, b2, b3, b4);
    ScaleLimbs(a1, b0, b1, b2, b3, b4);
    ScaleLimbs(a2, b0, b1, b2, b3, b4);
    ScaleLimbs(a3, b0, b1, b2, b3, b4);
    ScaleLimbs(a4, b0, b1, b2, b3, b4);
    ScaleLimbs(b, a0, a1, a2, a3, a4);
    Commute(a0, a1, a2, a3, a4, b);
  }

  lemma Commute(a0: int, a1: int, a2: int, a3: int, a4: int, b: int)
    ensures a0 * b == b * a0 && a1 * b == b * a1 && a2 * b == b * a2 && a3 * b == b * a3 && a4 * b == b * a4
    ensures Limbs(a0, a1, a2, a3, a4) * b == b * Limbs(a0, a1, a2, a3, a4)
  {
  }

  // ----- the reduction -----

  /** The four stages of the reduction, put together: the limbs differ from the columns by a
      multiple of P. */
  lemma Combine(p0: int, p1: int, p2: int, p3: int, p4: int, p5: int, p6: int, p7: int, p8: int,
      t3: int, t4: int, tx: int, dA: int, u0: int, dB: int, c0: int, dm: int, dC: int, c1: int,
      r0: int, r1: int, r2: int, r3: int, r4: int)
    requires t3 + t4 * 0x10000000000000 + tx * 0x10000000000000000000000000 + dA * 0x100000000000000000000000000
      == p3 + p4 * 0x10000000000000 + p8 * 0x1000003D10
    requires u0 + dB * 0x10000000000000 == dA + p5
    requires r0 + c0 * 0x10000000000000 == p0 + (u0 * 16 + tx) * 0x1000003D1
    requires dm + dC * 0x10000000000000 == dB + p6
    requires r1 + c1 * 0x10000000000000 == c0 + p1 + dm * 0x1000003D10
    requires r2 + r3 * 0x10000000000000 + (r4 - t4) * 0x100000000000000000000000000
      == c1 + p2 + (dC + p7) * 0x1000003D10 + t3 * 0x10000000000000
    ensures Nine(p0, p1, p2, p3, p4, p5, p6, p7, p8)
         == Limbs(r0, r1, r2, r3, r4)
          + ((u0 * 16 + tx) + 16 * Limbs(0, dm, dC + p7, p8, 0))
            * 0xFFFFFFFFFFFFFFFFFFFFFFFFFFFFFFFFFFFFFFFFFFFFFFFFFFFFFFFEFFFFFC2F
  {
  }

  // The steps between the column sums. The source writes them out in both functions; the bounds
  // are its own checks.

  /** Folds column 8 into column 3 and cuts limb 3 off. */
  method FoldTop(d0: u128, c0: u128) returns (t3: u64, d: u128, c: u128, ghost lo: int)
    requires d0 < 0x40000000000000000000000000000 && c0 < 0x10000000000000000000000000000
    ensures t3 < 0x10000000000000 && d < 0x8000000000000000 && c < 0x1000000000000
    ensures c0 == lo + c * 0x1_00000000_00000000 && t3 + d * 0x10000000000000 == d0 + lo * 0x1000003D10
  {
    lo := c0 % 0x1_00000000_00000000;
    d := d0 + 0x1000003D10 * (c0 % 0x1_00000000_00000000);
    c := c0 / 0x1_00000000_00000000;
    assert d < 0x80000000000000000000000000000;
    t3 := d % 0x10000000000000;
    d := d / 0x10000000000000;
  }

  /** Folds the rest of column 8 into column 4 and cuts limb 4 off, its top four bits apart. */
  method FoldRest(d0: u128, c: u128) returns (t4: u64, tx: u64, d: u128)
    requires d0 < 0x80000000000000000000000000000 && c < 0x1000000000000
    ensures t4 < 0x1000000000000 && tx < 0x10 && d < 0x10000000000000000
    ensures t4 + tx * 0x1000000000000 + d * 0x10000000000000 == d0 + c * 0x1000003D10000
  {
    d := d0 + 0x1000003D10000 * c;
    assert d < 0x100000000000000000000000000000;
    t4 := d % 0x10000000000000;
    d := d / 0x10000000000000;
    tx := t4 / 0x1000000000000;
    t4 := t4 % 0x1000000000000;
  }

  /** Folds limb 5 and the four spare bits into column 0 and cuts limb 0 off. */
  method FoldFive(c0: u128, d0: u128, tx: u64) returns (r0: u64, c: u128, d: u128, ghost u5: int)
    requires c0 < 0x10000000000000000000000000000 && d0 < 0x40000000000000000000000000000 && tx < 0x10
    ensures r0 < 0x10000000000000 && c < 0x2000000000000000 && d < 0x4000000000000000
    ensures u5 + d * 0x10000000000000 == d0
    ensures r0 + c * 0x10000000000000 == c0 + (u5 * 16 + tx) * 0x1000003D1
  {
    var u0: u64 := d0 % 0x10000000000000;
    d := d0 / 0x10000000000000;
    u5 := u0;
    u0 := u0 * 16 + tx;
    assert u0 < 0x100000000000000;
    c := c0 + u0 * 0x1000003D1;
    assert c < 0x20000000000000000000000000000;
    r0 := c % 0x10000000000000;
    c := c / 0x10000000000000;
  }

  /** Folds limb 6 into column 1 and cuts limb 1 off. */
  method FoldSix(c0: u128, d0: u128) returns (r1: u64, c: u128, d: u128, ghost dm: int)
    requires c0 < 0x40000000000000000000000000000 && d0 < 0x40000000000000000000000000000
    ensures r1 < 0x10000000000000 && c < 0x8000000000000000 && d < 0x4000000000000000
    ensures dm + d * 0x10000000000000 == d0
    ensures r1 + c * 0x10000000000000 == c0 + dm * 0x1000003D10
  {
    dm := d0 % 0x10000000000000;
    c := c0 + (d0 % 0x10000000000000) * 0x1000003D10;
    d := d0 / 0x10000000000000;
    assert c < 0x80000000000000000000000000000;
    r1 := c % 0x10000000000000;
    c := c / 0x10000000000000;
  }

  /** Folds column 7 into columns 2 and 3 and cuts the last limbs off. */
  method FoldSeven(c0: u128, d0: u128, t3: u64, t4: u64) returns (r2: u64, r3: u64, r4: u64)
    requires c0 < 0x40000000000000000000000000000 && d0 < 0x40000000000000000000000000000 && t3 < 0x10000000000000
      && t4 < 0x1000000000000
    ensures r2 < 0x10000000000000 && r3 < 0x10000000000000 && r4 <= 0x1FFFFFFFFFFFE
    ensures r2 + r3 * 0x10000000000000 + (r4 - t4) * 0x100000000000000000000000000
      == c0 + d0 * 0x1000003D10 + t3 * 0x10000000000000
  {
    var c: u128, d: u128 := c0, d0;
    c := c + 0x1000003D10 * (d % 0x1_00000000_00000000);
    d := d / 0x1_00000000_00000000;
    assert c < 0x80000000000000000000000000000 && d < 0x4000000000000;
    r2 := c % 0x10000000000000;
    c := c / 0x10000000000000;
    assert c < 0x8000000000000000;
    c := c + 0x1000003D10000 * d;
    c := c + t3;
    assert c < 0x10000000000000000000000000;
    r3 := c % 0x10000000000000;
    c := c / 0x10000000000000;
    assert c < 0x1000000000000;
    r4 := c + t4;
  }

  /** The stages compute the product. */
  lemma Finish(a0: u64, a1: u64, a2: u64, a3: u64, a4: u64, b0: u64, b1: u64, b2: u64, b3: u64, b4: u64,
      t3: int, t4: int, tx: int, lo: int, hi: int, d3: int, dA: int, u5: int, dB: int, c0: int, dm: int, dC: int,
          c1: int,
      r0: int, r1: int, r2: int, r3: int, r4: int)
    requires WideMul(a4, b4) == lo + hi * 0x1_00000000_00000000
    requires t3 + d3 * 0x10000000000000 == WideMul(a0, b3) + WideMul(a1, b2) + WideMul(a2, b1) + WideMul(a3, b0)
      + lo * 0x1000003D10
    requires t4 + tx * 0x1000000000000 + dA * 0x10000000000000
      == d3 + WideMul(a0, b4) + WideMul(a1, b3) + WideMul(a2, b2) + WideMul(a3, b1) + WideMul(a4, b0)
      + hi * 0x1000003D10000
    requires u5 + dB * 0x10000000000000 == dA + WideMul(a1, b4) + WideMul(a2, b3) + WideMul(a3, b2) + WideMul(a4, b1)
    requires r0 + c0 * 0x10000000000000 == WideMul(a0, b0) + (u5 * 16 + tx) * 0x1000003D1
    requires dm + dC * 0x10000000000000 == dB + WideMul(a2, b4) + WideMul(a3, b3) + WideMul(a4, b2)
    requires r1 + c1 * 0x10000000000000 == c0 + WideMul(a0, b1) + WideMul(a1, b0) + dm * 0x1000003D10
    requires r2 + r3 * 0x10000000000000 + (r4 - t4) * 0x100000000000000000000000000
      == c1 + WideMul(a0, b2) + WideMul(a1, b1) + WideMul(a2, b0)
      + (dC + WideMul(a3, b4) + WideMul(a4, b3)) * 0x1000003D10 + t3 * 0x10000000000000
    ensures Cong(Limbs(r0, r1, r2, r3, r4), Limbs(a0, a1, a2, a3, a4) * Limbs(b0, b1, b2, b3, b4), P)
  {
    hide WideMul, Cong;
    var p3: int, p4: int := WideMul(a0, b3) + WideMul(a1, b2) + WideMul(a2, b1) + WideMul(a3, b0),
      WideMul(a0, b4) + WideMul(a1, b3) + WideMul(a2, b2) + WideMul(a3, b1) + WideMul(a4, b0);
    var p7: int, p8: int := WideMul(a3, b4) + WideMul(a4, b3), WideMul(a4, b4);
    Combine(WideMul(a0, b0), WideMul(a0, b1) + WideMul(a1, b0), WideMul(a0, b2) + WideMul(a1, b1) + WideMul(a2, b0), p3,
        p4,
      WideMul(a1, b4) + WideMul(a2, b3) + WideMul(a3, b2) + WideMul(a4, b1),
          WideMul(a2, b4) + WideMul(a3, b3) + WideMul(a4, b2), p7, p8,
      t3, t4, tx, dA, u5, dB, c0, dm, dC, c1, r0, r1, r2, r3, r4);
    Columns(a0, a1, a2, a3, a4, b0, b1, b2, b3, b4);
    CongBy(Limbs(a0, a1, a2, a3, a4) * Limbs(b0, b1, b2, b3, b4), Limbs(r0, r1, r2, r3, r4), P,
      (u5 * 16 + tx) + 16 * Limbs(0, dm, dC + p7, p8, 0));
    CongSym(Limbs(a0, a1, a2, a3, a4) * Limbs(b0, b1, b2, b3, b4), Limbs(r0, r1, r2, r3, r4), P);
  }

  /** r = a*b: no accumulator overflows, the limbs come out with magnitude 1. r may be a. */
  method MulInner(r: array<int>, a: array<int>, b: array<int>)
    requires r.Length == a.Length == b.Length == 5 && r != b && a != b
    requires MulInput(a[..]) && MulInput(b[..])
    modifies r
    ensures MulOutput(r[..])
    ensures Cong(Value(r[..]), old(Value(a[..])) * Value(b[..]), P)
  {
    hide WideMul, Cong;
    var a0: u64, a1: u64, a2: u64, a3: u64, a4: u64 := a[0], a[1], a[2], a[3], a[4];
    ghost var b0: u64, b1: u64, b2: u64, b3: u64, b4: u64 := b[0], b[1], b[2], b[3], b[4];
    assert [a0, a1, a2, a3, a4] == a[..] && [b0, b1, b2, b3, b4] == b[..];
    ProductBounds(a0, a1, a2, a3, a4, b0, b1, b2, b3, b4);
    var t3, t4, tx, r0, r1, r2, r3, r4;
    ghost var u5, dm, lo;
    var d: u128 := WideMul(a0, b[3]);
    d := d + WideMul(a1, b[2]);
    d := d + WideMul(a2, b[1]);
    d := d + WideMul(a3, b[0]);
    var c: u128 := WideMul(a4, b[4]);
    t3, d, c, lo := FoldTop(d, c);
    ghost var d3: int, hi: int := d, c;
    d := d + WideMul(a0, b[4]);
    d := d + WideMul(a1, b[3]);
    d := d + WideMul(a2, b[2]);
    d := d + WideMul(a3, b[1]);
    d := d + WideMul(a4, b[0]);
    t4, tx, d := FoldRest(d, c);
    ghost var dA: int := d;
    c := WideMul(a0, b[0]);
    d := d + WideMul(a1, b[4]);
    d := d + WideMul(a2, b[3]);
    d := d + WideMul(a3, b[2]);
    d := d + WideMul(a4, b[1]);
    r0, c, d, u5 := FoldFive(c, d, tx);
    ghost var c0: int, dB: int := c, d;
    c := c + WideMul(a0, b[1]);
    c := c + WideMul(a1, b[0]);
    d := d + WideMul(a2, b[4]);
    d := d + WideMul(a3, b[3]);
    d := d + WideMul(a4, b[2]);
    r1, c, d, dm := FoldSix(c, d);
    ghost var c1: int, dC: int := c, d;
    c := c + WideMul(a0, b[2]);
    c := c + WideMul(a1, b[1]);
    c := c + WideMul(a2, b[0]);
    d := d + WideMul(a3, b[4]);
    d := d + WideMul(a4, b[3]);
    r2, r3, r4 := FoldSeven(c, d, t3, t4);
    Finish(a0, a1, a2, a3, a4, b0, b1, b2, b3, b4,
      t3, t4, tx, lo, hi, d3, dA, u5, dB, c0, dm, dC, c1, r0, r1, r2, r3, r4);
    r[0], r[1], r[2], r[3], r[4] := r0, r1, r2, r3, r4;
  }

  /** Doubling a factor doubles the product. */
  lemma DoubledProducts(a0: u64, a1: u64, a2: u64, a3: u64, a4: u64)
    requires a0 < 0x100000000000000 && a1 < 0x100000000000000 && a2 < 0x100000000000000 && a3 < 0x100000000000000
    requires a4 < 0x10000000000000
    ensures WideMul(a0 * 2, a3) == WideMul(a0, a3) + WideMul(a3, a0)
      && WideMul(a1 * 2, a2) == WideMul(a1, a2) + WideMul(a2, a1)
    ensures WideMul(a0, a4 * 2) == WideMul(a0, a4) + WideMul(a4, a0)
      && WideMul(a1 * 2, a3) == WideMul(a1, a3) + WideMul(a3, a1)
    ensures WideMul(a1, a4 * 2) == WideMul(a1, a4) + WideMul(a4, a1)
      && WideMul(a2 * 2, a3) == WideMul(a2, a3) + WideMul(a3, a2)
    ensures WideMul(a2, a4 * 2) == WideMul(a2, a4) + WideMul(a4, a2)
      && WideMul(a3, a4 * 2) == WideMul(a3, a4) + WideMul(a4, a3)
    ensures WideMul(a0 * 2, a1) == WideMul(a0, a1) + WideMul(a1, a0)
      && WideMul(a0 * 2, a2) == WideMul(a0, a2) + WideMul(a2, a0)
  {
    WideDouble(a0, a3);
    WideDouble(a1, a2);
    WideDouble(a4, a0);
    WideDouble(a1, a3);
    WideDouble(a4, a1);
    WideDouble(a2, a3);
    WideDouble(a4, a2);
    WideDouble(a4, a3);
    WideDouble(a0, a1);
    WideDouble(a0, a2);
    hide WideMul;
  }

  lemma WideDouble(a: u64, b: u64)
    requires a < 0x8000000000000000
    ensures WideMul(a * 2, b) == WideMul(a, b) + WideMul(b, a) && WideMul(b, a * 2) == WideMul(b, a) + WideMul(a, b)
  {
  }

  /** r = a^2, with the mixed products doubled. r may be a. */
  method SqrInner(r: array<int>, a: array<int>)
    requires r.Length == a.Length == 5
    requires MulInput(a[..])
    modifies r
    ensures MulOutput(r[..])
    ensures Cong(Value(r[..]), old(Value(a[..])) * old(Value(a[..])), P)
  {
    hide WideMul, Cong;
    var a0: u64, a1: u64, a2: u64, a3: u64, a4: u64 := a[0], a[1], a[2], a[3], a[4];
    assert [a0, a1, a2, a3, a4] == a[..];
    ProductBounds(a0, a1, a2, a3, a4, a0, a1, a2, a3, a4);
    DoubledProducts(a0, a1, a2, a3, a4);
    var dbl0: u64, dbl4: u64 := a0 * 2, a4 * 2;
    var t3, t4, tx, r0, r1, r2, r3, r4;
    ghost var u5, dm, lo;
    var d: u128 := WideMul(a0 * 2, a3);
    d := d + WideMul(a1 * 2, a2);
    var c: u128 := WideMul(a4, a4);
    t3, d, c, lo := FoldTop(d, c);
    ghost var d3: int, hi: int := d, c;
    d := d + WideMul(a0, dbl4);
    d := d + WideMul(a1 * 2, a3);
    d := d + WideMul(a2, a2);
    t4, tx, d := FoldRest(d, c);
    ghost var dA: int := d;
    c := WideMul(a0, a0);
    d := d + WideMul(a1, dbl4);
    d := d + WideMul(a2 * 2, a3);
    r0, c, d, u5 := FoldFive(c, d, tx);
    ghost var c0: int, dB: int := c, d;
    c := c + WideMul(dbl0, a1);
    d := d + WideMul(a2, dbl4);
    d := d + WideMul(a3, a3);
    r1, c, d, dm := FoldSix(c, d);
    ghost var c1: int, dC: int := c, d;
    c := c + WideMul(dbl0, a2);
    c := c + WideMul(a1, a1);
    d := d + WideMul(a3, dbl4);
    r2, r3, r4 := FoldSeven(c, d, t3, t4);
    Finish(a0, a1, a2, a3, a4, a0, a1, a2, a3, a4,
      t3, t4, tx, lo, hi, d3, dA, u5, dB, c0, dm, dC, c1, r0, r1, r2, r3, r4);
    r[0], r[1], r[2], r[3], r[4] := r0, r1, r2, r3, r4;
  }
}
