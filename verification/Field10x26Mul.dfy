/** Field multiplication and squaring on ten 26-bit limbs with 64-bit accumulators. */
module Field10x26Mul {
  import opened Arith
  import opened Words
  import F = Field5x52Mul

  // Sums of 26-bit limbs, lowest first.

  function Nine(t0: int, t1: int, t2: int, t3: int, t4: int, t5: int, t6: int, t7: int, t8: int): int {
    t0 + t1 * 0x4000000 + t2 * 0x10000000000000
    + t3 * 0x40000000000000000000 + t4 * 0x100000000000000000000000000 + t5 * 0x400000000000000000000000000000000
    + t6 * 0x1000000000000000000000000000000000000000 + t7 * 0x4000000000000000000000000000000000000000000000
      + t8 * 0x10000000000000000000000000000000000000000000000000000
  }

  function Limbs(t0: int, t1: int, t2: int, t3: int, t4: int, t5: int, t6: int, t7: int, t8: int, t9: int): int {
    Nine(t0, t1, t2, t3, t4, t5, t6, t7, t8) + t9 * 0x40000000000000000000000000000000000000000000000000000000000
  }

  function Nineteen(p0: int, p1: int, p2: int, p3: int, p4: int, p5: int, p6: int, p7: int, p8: int, p9: int,
      p10: int, p11: int, p12: int, p13: int, p14: int, p15: int, p16: int, p17: int, p18: int): int
  {
    Limbs(p0, p1, p2, p3, p4, p5, p6, p7, p8, p9)
    + Nine(p10, p11, p12, p13, p14, p15, p16, p17, p18)
      * 0x100000000000000000000000000000000000000000000000000000000000000000
  }

  /** The number ten limbs stand for. */
  function Value10(n: seq<int>): int
    requires |n| == 10
  {
    Limbs(n[0], n[1], n[2], n[3], n[4], n[5], n[6], n[7], n[8], n[9])
  }

  /** The limbs fit the multiplier: nine of 30 bits and a top one of 26 bits. */
  predicate Input(n: seq<int>) {
    && |n| == 10
    && (forall i :: 0 <= i < 9 ==> 0 <= n[i] < 0x40000000)
    && 0 <= n[9] < 0x4000000
  }

  /** The widths a product's limbs are asserted to have: 26 bits, but 27 for limb 2 and 22 for the
      top one, and in any case magnitude 1. */
  predicate Output(n: seq<int>) {
    && |n| == 10
    && (forall i :: 0 <= i < 9 && i != 2 ==> 0 <= n[i] <= 0x3FFFFFF)
    && 0 <= n[2] <= 0x7FFFFFE && 0 <= n[9] <= 0x3FFFFF
  }

  /** The product of two 32-bit words, one of them widened first. */
  function Prod(a: u32, b: u32): (r: u64) {
    MulRange32(a, b);
    a * b
  }

  lemma MulRange32(a: int, b: int)
    requires 0 <= a < 0x1_00000000 && 0 <= b < 0x1_00000000
    ensures 0 <= a * b < 0x1_00000000_00000000
  {
    MulMono(0, a, b);
    MulMono(a, 0xFFFFFFFF, b);
  }

  lemma ProdBound(a: u32, b: u32, i: nat, j: nat)
    requires a <= i && b <= j
    ensures Prod(a, b) <= i * j
  {
    MulMono(a, i, b);
    MulMono(b, j, i);
  }

  // ----- the columns of a product -----

  /** The products of column x among the limbs of a from i on: a[i]*b[x], a[i + 1]*b[x - 1] and so
      on, where b has the limb. The source adds them one by one; all are non-negative, so a sum that
      fits 64 bits never wraps on the way. */
  function Products(a: seq<int>, b: seq<int>, i: nat, x: int): (p: nat)
    requires Input(a) && Input(b) && i <= 10
    decreases 10 - i
  {
    if i == 10 || x < 0 then 0
    else (if x <= 9 then Prod(a[i], b[x]) else 0) + Products(a, b, i + 1, x - 1)
  }

  /** The most that one product can be, and the most that the products of a column can be. */
  ghost function Cap(i: nat, x: nat): nat {
    if i == 9 && x == 9 then 0xffffff8000001 else if i == 9 || x == 9 then 0xffffffbc000001 else 0xfffffff80000001
  }

  ghost function Caps(i: nat, x: int): nat
    requires i <= 10
    decreases 10 - i
  {
    if i == 10 || x < 0 then 0
    else (if x <= 9 then Cap(i, x) else 0) + Caps(i + 1, x - 1)
  }

  lemma {:induction false} ProductsBound(a: seq<int>, b: seq<int>, i: nat, x: int)
    requires Input(a) && Input(b) && i <= 10
    ensures Products(a, b, i, x) <= Caps(i, x)
    decreases 10 - i
  {
    if i < 10 && x >= 0 {
      ProductsBound(a, b, i + 1, x - 1);
      if x <= 9 {
        ProdBound(a[i], b[x], if i == 9 then 0x3ffffff else 0x3fffffff, if x == 9 then 0x3ffffff else 0x3fffffff);
      }
      hide Prod;
    }
  }

  const MOST: seq<int> := [
    0xfffffff80000001, 0x1fffffff00000002, 0x2ffffffe80000003, 0x3ffffffe00000004, 0x4ffffffd80000005,
        0x5ffffffd00000006,
    0x6ffffffc80000007, 0x7ffffffc00000008, 0x8ffffffb80000009, 0x81fffffb7800000a, 0x71fffffbf8000009,
        0x61fffffc78000008,
    0x51fffffcf8000007, 0x41fffffd78000006, 0x31fffffdf8000005, 0x21fffffe78000004, 0x11fffffef8000003,
        0x1ffffff78000002, 0xffffff8000001]

  lemma LowColumns()
    ensures Caps(0, 0) == 0xfffffff80000001 && Caps(0, 1) == 0x1fffffff00000002 && Caps(0, 2) == 0x2ffffffe80000003
      && Caps(0, 3) == 0x3ffffffe00000004 && Caps(0, 4) == 0x4ffffffd80000005 && Caps(0, 5) == 0x5ffffffd00000006
      && Caps(0, 6) == 0x6ffffffc80000007 && Caps(0, 7) == 0x7ffffffc00000008 && Caps(0, 8) == 0x8ffffffb80000009
  {
  }

  lemma MiddleColumns()
    ensures Caps(0, 9) == 0x81fffffb7800000a && Caps(0, 10) == 0x71fffffbf8000009
  {
  }

  lemma UpperColumns()
    ensures Caps(0, 11) == 0x61fffffc78000008 && Caps(0, 12) == 0x51fffffcf8000007
      && Caps(0, 13) == 0x41fffffd78000006
  {
  }

  lemma HighColumns()
    ensures Caps(0, 14) == 0x31fffffdf8000005 && Caps(0, 15) == 0x21fffffe78000004 && Caps(0, 16) == 0x11fffffef8000003
      && Caps(0, 17) == 0x1ffffff78000002 && Caps(0, 18) == 0xffffff8000001
  {
  }

  lemma MostColumns(x: nat)
    requires x <= 18
    ensures Caps(0, x) == MOST[x] < 0x1_00000000_00000000
  {
    LowColumns();
    MiddleColumns();
    UpperColumns();
    HighColumns();
    hide Caps;
  }

  /** Column x of a product of ten limbs. */
  function Column(a: seq<int>, b: seq<int>, x: nat): (p: u64)
    requires Input(a) && Input(b) && x <= 18
    ensures p <= MOST[x]
  {
    ProductsBound(a, b, 0, x);
    MostColumns(x);
    Products(a, b, 0, x)
  }

  lemma ColumnsFit(a: seq<int>, b: seq<int>)
    requires Input(a) && Input(b)
    ensures Column(a, b, 0) <= 0xfffffff80000001 && Column(a, b, 1) <= 0x1fffffff00000002
      && Column(a, b, 2) <= 0x2ffffffe80000003 && Column(a, b, 3) <= 0x3ffffffe00000004
      && Column(a, b, 4) <= 0x4ffffffd80000005 && Column(a, b, 5) <= 0x5ffffffd00000006
      && Column(a, b, 6) <= 0x6ffffffc80000007 && Column(a, b, 7) <= 0x7ffffffc00000008
      && Column(a, b, 8) <= 0x8ffffffb80000009
    ensures Column(a, b, 9) <= 0x81fffffb7800000a && Column(a, b, 10) <= 0x71fffffbf8000009
      && Column(a, b, 11) <= 0x61fffffc78000008 && Column(a, b, 12) <= 0x51fffffcf8000007
      && Column(a, b, 13) <= 0x41fffffd78000006 && Column(a, b, 14) <= 0x31fffffdf8000005
      && Column(a, b, 15) <= 0x21fffffe78000004 && Column(a, b, 16) <= 0x11fffffef8000003
      && Column(a, b, 17) <= 0x1ffffff78000002 && Column(a, b, 18) <= 0xffffff8000001
  {
    hide Column;
  }

  // ----- a product is the sum of its columns -----

  /** The limbs from x on, as a number. */
  ghost function Tail(b: seq<int>, x: nat): int
    requires |b| == 10
    decreases 10 - x
  {
    if x >= 10 then 0 else b[x] + 0x4000000 * Tail(b, x + 1)
  }

  /** The columns from x on of the limbs of a from i on, as a number. */
  ghost function Joined(a: seq<int>, b: seq<int>, i: nat, x: nat): int
    requires Input(a) && Input(b) && i <= 10 && x <= 19
    decreases 19 - x
  {
    if x == 19 then 0 else Products(a, b, i, x) + 0x4000000 * Joined(a, b, i, x + 1)
  }

  /** There are no products beyond the last column. */
  lemma {:induction false} NoProducts(a: seq<int>, b: seq<int>, i: nat, x: int)
    requires Input(a) && Input(b) && i <= 10 && x > 18 - i
    ensures Products(a, b, i, x) == 0
    decreases 10 - i
  {
    if i < 10 && x >= 0 {
      NoProducts(a, b, i + 1, x - 1);
    }
  }

  lemma Distribute(k: int, v: int, t: int, j: int)
    ensures k * v + 0x4000000 * (k * t + j) == k * (v + 0x4000000 * t) + 0x4000000 * j
  {
    assert k * (0x4000000 * t) == 0x4000000 * (k * t);
    assert k * (v + 0x4000000 * t) == k * v + k * (0x4000000 * t);
  }

  /** Limb i takes part with all of b; what is left is one column further up. */
  lemma {:induction false} LimbOut(a: seq<int>, b: seq<int>, i: nat, x: nat)
    requires Input(a) && Input(b) && i < 10 && 1 <= x <= 19
    ensures Joined(a, b, i, x) == a[i] * Tail(b, x) + Joined(a, b, i + 1, x - 1)
    decreases 19 - x
  {
    hide *;
    InputLength(a);
    InputLength(b);
    if x == 19 {
      NoProducts(a, b, i + 1, 18);
      JoinedEnd(a, b, i);
      JoinedStep(a, b, i + 1, 18);
      JoinedEnd(a, b, i + 1);
      TailEnd(b);
    } else {
      LimbOut(a, b, i, x + 1);
      ProductsStep(a, b, i, x);
      JoinedStep(a, b, i, x);
      JoinedStep(a, b, i + 1, x - 1);
      TailFrom(b, x);
      Distribute(a[i], if x <= 9 then b[x] else 0, Tail(b, x + 1), Joined(a, b, i + 1, x));
    }
  }

  lemma ProductsStep(a: seq<int>, b: seq<int>, i: nat, x: nat)
    requires Input(a) && Input(b) && i < 10
    ensures Products(a, b, i, x) == a[i] * (if x <= 9 then b[x] else 0) + Products(a, b, i + 1, x - 1)
  {
    hide Input;
    InputLength(a);
    InputLength(b);
  }

  lemma JoinedEnd(a: seq<int>, b: seq<int>, i: nat)
    requires Input(a) && Input(b) && i <= 10
    ensures Joined(a, b, i, 19) == 0
  {
  }

  lemma TailEnd(b: seq<int>)
    requires |b| == 10
    ensures Tail(b, 19) == 0
  {
  }

  lemma TailFrom(b: seq<int>, x: nat)
    requires |b| == 10
    ensures Tail(b, x) == (if x <= 9 then b[x] else 0) + 0x4000000 * Tail(b, x + 1)
  {
  }

  /** The columns of the limbs from i on make up those limbs times b. */
  lemma {:induction false} ColumnsFrom(a: seq<int>, b: seq<int>, i: nat)
    requires Input(a) && Input(b) && i <= 10
    ensures Joined(a, b, i, 0) == Tail(a, i) * Tail(b, 0)
    decreases 10 - i
  {
    if i == 10 {
      NothingJoined(a, b, 0);
    } else {
      hide *;
      InputLength(a);
      InputLength(b);
      FirstColumn(a, b, i);
      ColumnsFrom(a, b, i + 1);
      LimbOut(a, b, i, 1);
      TailStep(a, i);
      TailStep(b, 0);
      FirstLimb(a[i], b[0], Tail(b, 1), Tail(b, 0), Tail(a, i + 1), Tail(a, i), Joined(a, b, i + 1, 0),
          Joined(a, b, i, 0));
    }
  }

  lemma FirstLimb(k: int, v: int, t: int, vt: int, m: int, km: int, rest: int, all: int)
    requires vt == v + 0x4000000 * t && km == k + 0x4000000 * m && rest == m * vt
      && all == k * v + 0x4000000 * (k * t + rest)
    ensures all == km * vt
  {
    Distribute(k, v, t, rest);
    assert (k + 0x4000000 * m) * vt == k * vt + 0x4000000 * (m * vt);
  }

  lemma FirstColumn(a: seq<int>, b: seq<int>, i: nat)
    requires Input(a) && Input(b) && i < 10
    ensures Joined(a, b, i, 0) == a[i] * b[0] + 0x4000000 * Joined(a, b, i, 1)
  {
    hide Joined;
    assert Products(a, b, i, 0) == a[i] * b[0];
    JoinedStep(a, b, i, 0);
  }

  lemma JoinedStep(a: seq<int>, b: seq<int>, i: nat, x: nat)
    requires Input(a) && Input(b) && i <= 10 && x < 19
    ensures Joined(a, b, i, x) == Products(a, b, i, x) + 0x4000000 * Joined(a, b, i, x + 1)
  {
  }

  lemma ColumnStep(a: seq<int>, b: seq<int>, x: nat)
    requires Input(a) && Input(b) && x < 19
    ensures Joined(a, b, 0, x) == Column(a, b, x) + 0x4000000 * Joined(a, b, 0, x + 1)
    ensures Joined(a, b, 0, 19) == 0
  {
    hide Products, Input;
  }

  lemma TailStep(n: seq<int>, x: nat)
    requires |n| == 10 && x < 10
    ensures Tail(n, x) == n[x] + 0x4000000 * Tail(n, x + 1)
  {
  }

  lemma {:induction false} NothingJoined(a: seq<int>, b: seq<int>, x: nat)
    requires Input(a) && Input(b) && x <= 19
    ensures Joined(a, b, 10, x) == 0
    decreases 19 - x
  {
    if x < 19 {
      NothingJoined(a, b, x + 1);
    }
  }

  lemma TailIs(n: seq<int>)
    requires |n| == 10
    ensures Tail(n, 0) == Value10(n)
  {
  }

  lemma JoinedIs(a: seq<int>, b: seq<int>)
    requires Input(a) && Input(b)
    ensures Joined(a, b, 0, 0)
         == Nineteen(Column(a, b, 0), Column(a, b, 1), Column(a, b, 2), Column(a, b, 3), Column(a, b, 4),
           Column(a, b, 5), Column(a, b, 6), Column(a, b, 7), Column(a, b, 8), Column(a, b, 9), Column(a, b, 10),
           Column(a, b, 11), Column(a, b, 12), Column(a, b, 13), Column(a, b, 14), Column(a, b, 15), Column(a, b, 16),
           Column(a, b, 17), Column(a, b, 18))
  {
    hide *;
    ColumnStep(a, b, 0);
    ColumnStep(a, b, 1);
    ColumnStep(a, b, 2);
    ColumnStep(a, b, 3);
    ColumnStep(a, b, 4);
    ColumnStep(a, b, 5);
    ColumnStep(a, b, 6);
    ColumnStep(a, b, 7);
    ColumnStep(a, b, 8);
    ColumnStep(a, b, 9);
    ColumnStep(a, b, 10);
    ColumnStep(a, b, 11);
    ColumnStep(a, b, 12);
    ColumnStep(a, b, 13);
    ColumnStep(a, b, 14);
    ColumnStep(a, b, 15);
    ColumnStep(a, b, 16);
    ColumnStep(a, b, 17);
    ColumnStep(a, b, 18);
    Horner(Column(a, b, 0), Column(a, b, 1), Column(a, b, 2), Column(a, b, 3), Column(a, b, 4), Column(a, b, 5),
        Column(a, b, 6), Column(a, b, 7), Column(a, b, 8), Column(a, b, 9), Column(a, b, 10), Column(a, b, 11),
        Column(a, b, 12), Column(a, b, 13), Column(a, b, 14), Column(a, b, 15), Column(a, b, 16), Column(a, b, 17),
        Column(a, b, 18),
      Joined(a, b, 0, 0), Joined(a, b, 0, 1), Joined(a, b, 0, 2), Joined(a, b, 0, 3), Joined(a, b, 0, 4),
          Joined(a, b, 0, 5), Joined(a, b, 0, 6), Joined(a, b, 0, 7), Joined(a, b, 0, 8), Joined(a, b, 0, 9),
          Joined(a, b, 0, 10), Joined(a, b, 0, 11), Joined(a, b, 0, 12), Joined(a, b, 0, 13), Joined(a, b, 0, 14),
          Joined(a, b, 0, 15), Joined(a, b, 0, 16), Joined(a, b, 0, 17), Joined(a, b, 0, 18));
  }

  lemma Horner(p0: int, p1: int, p2: int, p3: int, p4: int, p5: int, p6: int, p7: int, p8: int, p9: int, p10: int,
        p11: int, p12: int, p13: int, p14: int, p15: int, p16: int, p17: int, p18: int,
      j0: int, j1: int, j2: int, j3: int, j4: int, j5: int, j6: int, j7: int, j8: int, j9: int, j10: int, j11: int,
          j12: int, j13: int, j14: int, j15: int, j16: int, j17: int, j18: int)
    requires j0 == p0 + 0x4000000 * j1 && j1 == p1 + 0x4000000 * j2 && j2 == p2 + 0x4000000 * j3
      && j3 == p3 + 0x4000000 * j4 && j4 == p4 + 0x4000000 * j5 && j5 == p5 + 0x4000000 * j6
      && j6 == p6 + 0x4000000 * j7 && j7 == p7 + 0x4000000 * j8 && j8 == p8 + 0x4000000 * j9
      && j9 == p9 + 0x4000000 * j10 && j10 == p10 + 0x4000000 * j11 && j11 == p11 + 0x4000000 * j12
      && j12 == p12 + 0x4000000 * j13 && j13 == p13 + 0x4000000 * j14 && j14 == p14 + 0x4000000 * j15
      && j15 == p15 + 0x4000000 * j16 && j16 == p16 + 0x4000000 * j17 && j17 == p17 + 0x4000000 * j18 && j18 == p18
    ensures j0 == Nineteen(p0, p1, p2, p3, p4, p5, p6, p7, p8, p9, p10, p11, p12, p13, p14, p15, p16, p17, p18)
  {
  }

  /** The product of two numbers is the sum of its nineteen columns. */
  lemma Columns(a: seq<int>, b: seq<int>)
    requires Input(a) && Input(b)
    ensures Value10(a) * Value10(b)
         == Nineteen(Column(a, b, 0), Column(a, b, 1), Column(a, b, 2), Column(a, b, 3), Column(a, b, 4),
           Column(a, b, 5), Column(a, b, 6), Column(a, b, 7), Column(a, b, 8), Column(a, b, 9), Column(a, b, 10),
           Column(a, b, 11), Column(a, b, 12), Column(a, b, 13), Column(a, b, 14), Column(a, b, 15), Column(a, b, 16),
           Column(a, b, 17), Column(a, b, 18))
  {
    hide *;
    ColumnsFrom(a, b, 0);
    InputLength(a);
    InputLength(b);
    TailIs(a);
    TailIs(b);
    JoinedIs(a, b);
  }

  lemma InputLength(a: seq<int>)
    requires Input(a)
    ensures |a| == 10
  {
  }

  // ----- squares -----

  /** The products of a square between limbs i and j, from both ends inwards; mixed ones doubled. */
  function Squares(a: seq<int>, i: nat, j: int): (p: nat)
    requires Input(a) && i <= j + 1 <= 10
    decreases j + 1 - i
  {
    if i > j then 0
    else if i == j then Prod(a[i], a[i])
    else Prod(a[i] * 2, a[j]) + Squares(a, i + 1, j - 1)
  }

  /** Column x of a square. */
  function Square(a: seq<int>, x: nat): (p: u64)
    requires Input(a) && x <= 18
    ensures p == Column(a, a, x)
  {
    SquareIsColumn(a, x);
    if x <= 9 then Squares(a, 0, x) else Squares(a, x - 9, 9)
  }

  lemma ProdDoubled(a: u32, b: u32)
    requires a < 0x40000000
    ensures Prod(a * 2, b) == Prod(a, b) + Prod(b, a)
  {
  }

  /** n products, from a[i]*a[j] on, the one index rising and the other falling. */
  ghost function Run(a: seq<int>, i: nat, j: int, n: nat): int
    requires Input(a) && i + n <= 10 && n - 1 <= j <= 9
    decreases n
  {
    if n == 0 then 0 else Prod(a[i], a[j]) + Run(a, i + 1, j - 1, n - 1)
  }

  lemma {:induction false} RunLast(a: seq<int>, i: nat, j: int, n: nat)
    requires Input(a) && i + n + 1 <= 10 && n <= j <= 9
    ensures Run(a, i, j, n + 1) == Run(a, i, j, n) + Prod(a[i + n], a[j - n])
    decreases n
  {
    if n > 0 {
      RunLast(a, i + 1, j - 1, n - 1);
    }
    hide Prod;
  }

  /** From both ends inwards or from one end to the other: the sum is the same. */
  lemma {:induction false} SquaresAreRun(a: seq<int>, i: nat, j: int)
    requires Input(a) && i <= j + 1 <= 10
    ensures Squares(a, i, j) == Run(a, i, j, j + 1 - i)
    decreases j + 1 - i
  {
    if i < j {
      SquaresAreRun(a, i + 1, j - 1);
      RunLast(a, i, j, j - i);
      ProdDoubled(a[i], a[j]);
    }
    hide Prod;
  }

  /** Below column 10 the products stop where the falling index or the rising one ends. */
  lemma {:induction false} ProductsAreRun(a: seq<int>, i: nat, x: int, n: nat)
    requires Input(a) && -1 <= x <= 9 && i <= 10 && n == (if x + 1 <= 10 - i then x + 1 else 10 - i)
    ensures Products(a, a, i, x) == Run(a, i, x, n)
    decreases n
  {
    if n > 0 {
      ProductsAreRun(a, i + 1, x - 1, n - 1);
    }
    hide Prod;
  }

  /** Above, b has no limbs for the lowest ones of a. */
  lemma {:induction false} LowLimbsSkipped(a: seq<int>, i: nat, x: int)
    requires Input(a) && 9 <= x <= 18 && i + 9 <= 18 && x - 9 + i <= 9
    ensures Products(a, a, i, x) == Products(a, a, i + x - 9, 9)
    decreases x
  {
    if x > 9 {
      LowLimbsSkipped(a, i + 1, x - 1);
    }
  }

  /** Doubling the mixed products changes no column. */
  lemma SquareIsColumn(a: seq<int>, x: nat)
    requires Input(a) && x <= 18
    ensures (if x <= 9 then Squares(a, 0, x) else Squares(a, x - 9, 9)) == Column(a, a, x)
  {
    if x <= 9 {
      SquaresAreRun(a, 0, x);
      ProductsAreRun(a, 0, x, x + 1);
    } else {
      LowLimbsSkipped(a, 0, x);
      SquaresAreRun(a, x - 9, 9);
      ProductsAreRun(a, x - 9, 9, 19 - x);
    }
    hide Prod, Products, Run, Squares;
  }

  // ----- the reduction -----

  /** Cuts limb k off the upper accumulator, folds it into the lower one and cuts limb k off that. */
  method Fold(c0: u64, d0: u64) returns (t: u64, u: u64, c: u64, d: u64)
    requires c0 <= 0x9000007B80000008
    ensures t <= 0x3FFFFFF && u <= 0x3FFFFFF
    ensures u + d * 0x4000000 == d0
    ensures t + c * 0x4000000 == c0 + u * 0x1000003D10
    ensures c <= 0x34000057EF && d <= 0x3FFFFFFFFF
  {
    c, d := c0, d0;
    u := d % 0x4000000;
    d := d / 0x4000000;
    c := c + u * 0x3D10;
    t := c % 0x4000000;
    c := c / 0x4000000;
    c := c + u * 0x400;
  }

  lemma LowSteps(p0: int, p1: int, p2: int, p3: int, p4: int, p5: int, p6: int, p7: int, p8: int, t0: int, t1: int,
        t2: int, t3: int, t4: int, t5: int, t6: int, t7: int, t8: int, u0: int, u1: int, u2: int, u3: int, u4: int,
        u5: int, u6: int, u7: int, u8: int, c0: int, c1: int, c2: int, c3: int, c4: int, c5: int, c6: int, c7: int,
        c8: int)
    requires t0 + c0 * 0x4000000 == p0 + u0 * 0x1000003D10
    requires t1 + c1 * 0x4000000 == c0 + p1 + u1 * 0x1000003D10
    requires t2 + c2 * 0x4000000 == c1 + p2 + u2 * 0x1000003D10
    requires t3 + c3 * 0x4000000 == c2 + p3 + u3 * 0x1000003D10
    requires t4 + c4 * 0x4000000 == c3 + p4 + u4 * 0x1000003D10
    requires t5 + c5 * 0x4000000 == c4 + p5 + u5 * 0x1000003D10
    requires t6 + c6 * 0x4000000 == c5 + p6 + u6 * 0x1000003D10
    requires t7 + c7 * 0x4000000 == c6 + p7 + u7 * 0x1000003D10
    requires t8 + c8 * 0x4000000 == c7 + p8 + u8 * 0x1000003D10
    ensures Limbs(t0, t1, t2, t3, t4, t5, t6, t7, t8, c8)
         == Nine(p0, p1, p2, p3, p4, p5, p6, p7, p8) + Nine(u0, u1, u2, u3, u4, u5, u6, u7, u8) * 0x1000003D10
  {
  }

  lemma HighSteps(dm: int, p10: int, p11: int, p12: int, p13: int, p14: int, p15: int, p16: int, p17: int, p18: int,
        u0: int, u1: int, u2: int, u3: int, u4: int, u5: int, u6: int, u7: int, u8: int, d0: int, d1: int, d2: int,
        d3: int, d4: int, d5: int, d6: int, d7: int, d8: int)
    requires u0 + d0 * 0x4000000 == dm + p10
    requires u1 + d1 * 0x4000000 == d0 + p11
    requires u2 + d2 * 0x4000000 == d1 + p12
    requires u3 + d3 * 0x4000000 == d2 + p13
    requires u4 + d4 * 0x4000000 == d3 + p14
    requires u5 + d5 * 0x4000000 == d4 + p15
    requires u6 + d6 * 0x4000000 == d5 + p16
    requires u7 + d7 * 0x4000000 == d6 + p17
    requires u8 + d8 * 0x4000000 == d7 + p18
    ensures Limbs(u0, u1, u2, u3, u4, u5, u6, u7, u8, d8)
         == dm + Nine(p10, p11, p12, p13, p14, p15, p16, p17, p18)
  {
  }

  /** The last folds: everything above 2^256 goes into the low limbs. */
  method FoldEnd(c8: u64, d8: u64, t0: u64, t1: u64, t2: u64, t9: u64)
      returns (r0: u64, r1: u64, r2: u64, r9: u64, ghost top: int)
    requires c8 <= 0x34000057EF && d8 <= 0x400001e && t0 <= 0x3FFFFFF && t1 <= 0x3FFFFFF && t2 <= 0x3FFFFFF
      && t9 <= 0x3FFFFFF
    ensures r0 <= 0x3FFFFFF && r1 <= 0x3FFFFFF && r2 <= 0x7FFFFFE && r9 <= 0x3FFFFF
    ensures r9 + top * 0x400000 == c8 + t9 + d8 * 0x1000003D10
    ensures r0 + r1 * 0x4000000 + r2 * 0x10000000000000
      == t0 + t1 * 0x4000000 + t2 * 0x10000000000000 + top * 0x1000003D1
  {
    var c: u64, d: u64 := c8, d8;
    c := c + d * 0x3D10 + t9;
    r9 := c % 0x400000;
    c := c / 0x400000;
    c := c + d * 0x4000;
    top := c;
    d := c * 0x3D1 + t0;
    r0 := d % 0x4000000;
    d := d / 0x4000000;
    d := d + c * 0x40 + t1;
    r1 := d % 0x4000000;
    d := d / 0x4000000;
    d := d + t2;
    r2 := d;
  }

  /** The stages put together: what is cut off above 2^256 is a multiple of the prime. */
  lemma Combine10(low: int, us: int, p9: int, dm: int, d8: int, c8: int, t9: int, top: int,
      t0: int, t1: int, t2: int, rest: int, r0: int, r1: int, r2: int, r9: int, lowColumns: int, highColumns: int)
    requires p9 == t9 + dm * 0x4000000
    requires low == t0 + t1 * 0x4000000 + t2 * 0x10000000000000 + rest
    requires low + c8 * 0x40000000000000000000000000000000000000000000000000000000000 == lowColumns + us * 0x1000003D10
    requires us + d8 * 0x40000000000000000000000000000000000000000000000000000000000 == dm + highColumns
    requires r9 + top * 0x400000 == c8 + t9 + d8 * 0x1000003D10
    requires r0 + r1 * 0x4000000 + r2 * 0x10000000000000
      == t0 + t1 * 0x4000000 + t2 * 0x10000000000000 + top * 0x1000003D1
    ensures lowColumns + p9 * 0x40000000000000000000000000000000000000000000000000000000000
      + highColumns * 0x100000000000000000000000000000000000000000000000000000000000000000
         == (r0 + r1 * 0x4000000 + r2 * 0x10000000000000 + rest
           + r9 * 0x40000000000000000000000000000000000000000000000000000000000)
           + (16 * us + 16 * d8 * 0x40000000000000000000000000000000000000000000000000000000000 + top)
           * 0xfffffffffffffffffffffffffffffffffffffffffffffffffffffffefffffc2f
  {
  }

  lemma Limbs10(r0: int, r1: int, r2: int, r3: int, r4: int, r5: int, r6: int, r7: int, r8: int, r9: int)
    ensures Value10([r0, r1, r2, r3, r4, r5, r6, r7, r8, r9]) == Limbs(r0, r1, r2, r3, r4, r5, r6, r7, r8, r9)
  {
  }

  /** All steps together: the columns differ from the limbs by a multiple of the prime. */
  lemma Reduced(p0: int, p1: int, p2: int, p3: int, p4: int, p5: int, p6: int, p7: int, p8: int, p9: int, p10: int,
        p11: int, p12: int, p13: int, p14: int, p15: int, p16: int, p17: int, p18: int, t0: int, t1: int, t2: int,
        t3: int, t4: int, t5: int, t6: int, t7: int, t8: int, t9: int, u0: int, u1: int, u2: int, u3: int, u4: int,
        u5: int, u6: int, u7: int, u8: int, c0: int, c1: int, c2: int, c3: int, c4: int, c5: int, c6: int, c7: int,
        c8: int, dm: int, d0: int, d1: int, d2: int, d3: int, d4: int, d5: int, d6: int, d7: int, d8: int,
      top: int, r0: int, r1: int, r2: int, r9: int) returns (q: int)
    requires t9 + dm * 0x4000000 == p9
    requires t0 + c0 * 0x4000000 == p0 + u0 * 0x1000003D10
    requires t1 + c1 * 0x4000000 == c0 + p1 + u1 * 0x1000003D10
    requires t2 + c2 * 0x4000000 == c1 + p2 + u2 * 0x1000003D10
    requires t3 + c3 * 0x4000000 == c2 + p3 + u3 * 0x1000003D10
    requires t4 + c4 * 0x4000000 == c3 + p4 + u4 * 0x1000003D10
    requires t5 + c5 * 0x4000000 == c4 + p5 + u5 * 0x1000003D10
    requires t6 + c6 * 0x4000000 == c5 + p6 + u6 * 0x1000003D10
    requires t7 + c7 * 0x4000000 == c6 + p7 + u7 * 0x1000003D10
    requires t8 + c8 * 0x4000000 == c7 + p8 + u8 * 0x1000003D10
    requires u0 + d0 * 0x4000000 == dm + p10
    requires u1 + d1 * 0x4000000 == d0 + p11
    requires u2 + d2 * 0x4000000 == d1 + p12
    requires u3 + d3 * 0x4000000 == d2 + p13
    requires u4 + d4 * 0x4000000 == d3 + p14
    requires u5 + d5 * 0x4000000 == d4 + p15
    requires u6 + d6 * 0x4000000 == d5 + p16
    requires u7 + d7 * 0x4000000 == d6 + p17
    requires u8 + d8 * 0x4000000 == d7 + p18
    requires r9 + top * 0x400000 == c8 + t9 + d8 * 0x1000003D10
    requires r0 + r1 * 0x4000000 + r2 * 0x10000000000000
      == t0 + t1 * 0x4000000 + t2 * 0x10000000000000 + top * 0x1000003D1
    ensures Nineteen(p0, p1, p2, p3, p4, p5, p6, p7, p8, p9, p10, p11, p12, p13, p14, p15, p16, p17, p18)
         == Value10([r0, r1, r2, t3, t4, t5, t6, t7, t8, r9])
           + q * 0xfffffffffffffffffffffffffffffffffffffffffffffffffffffffefffffc2f
  {
    LowSteps(p0, p1, p2, p3, p4, p5, p6, p7, p8, t0, t1, t2, t3, t4, t5, t6, t7, t8, u0, u1, u2, u3, u4, u5, u6, u7, u8,
        c0, c1, c2, c3, c4, c5, c6, c7, c8);
    HighSteps(dm, p10, p11, p12, p13, p14, p15, p16, p17, p18, u0, u1, u2, u3, u4, u5, u6, u7, u8, d0, d1, d2, d3, d4,
        d5, d6, d7, d8);
    var us := Nine(u0, u1, u2, u3, u4, u5, u6, u7, u8);
    var low := Nine(t0, t1, t2, t3, t4, t5, t6, t7, t8);
    var rest := t3 * 0x40000000000000000000 + t4 * 0x100000000000000000000000000
        + t5 * 0x400000000000000000000000000000000 + t6 * 0x1000000000000000000000000000000000000000
        + t7 * 0x4000000000000000000000000000000000000000000000
        + t8 * 0x10000000000000000000000000000000000000000000000000000;
    var lowColumns := Nine(p0, p1, p2, p3, p4, p5, p6, p7, p8);
    var highColumns := Nine(p10, p11, p12, p13, p14, p15, p16, p17, p18);
    Combine10(low, us, p9, dm, d8, c8, t9, top, t0, t1, t2, rest, r0, r1, r2, r9, lowColumns, highColumns);
    Limbs10(r0, r1, r2, t3, t4, t5, t6, t7, t8, r9);
    q := 16 * us + 16 * d8 * 0x40000000000000000000000000000000000000000000000000000000000 + top;
  }

  /** The columns reduced modulo the prime, as both functions write it out: two 64-bit
      accumulators that never overflow, and limbs of the asserted widths. */
  method Reduce(r: array<int>, p0: u64, p1: u64, p2: u64, p3: u64, p4: u64, p5: u64, p6: u64, p7: u64, p8: u64, p9: u64,
        p10: u64, p11: u64, p12: u64, p13: u64, p14: u64, p15: u64, p16: u64, p17: u64, p18: u64) returns (ghost q: int)
    requires r.Length == 10
    requires p0 <= 0xfffffff80000001 && p1 <= 0x1fffffff00000002 && p2 <= 0x2ffffffe80000003 && p3 <= 0x3ffffffe00000004
      && p4 <= 0x4ffffffd80000005
    requires p5 <= 0x5ffffffd00000006 && p6 <= 0x6ffffffc80000007 && p7 <= 0x7ffffffc00000008
      && p8 <= 0x8ffffffb80000009 && p9 <= 0x81fffffb7800000a
    requires p10 <= 0x71fffffbf8000009 && p11 <= 0x61fffffc78000008 && p12 <= 0x51fffffcf8000007
      && p13 <= 0x41fffffd78000006 && p14 <= 0x31fffffdf8000005
    requires p15 <= 0x21fffffe78000004 && p16 <= 0x11fffffef8000003 && p17 <= 0x1ffffff78000002
      && p18 <= 0xffffff8000001
    modifies r
    ensures Output(r[..])
    ensures Nineteen(p0, p1, p2, p3, p4, p5, p6, p7, p8, p9, p10, p11, p12, p13, p14, p15, p16, p17, p18)
         == Value10(r[..]) + q * 0xfffffffffffffffffffffffffffffffffffffffffffffffffffffffefffffc2f
  {
    hide *;
    var t9: u64, u: u64, c: u64, d: u64;
    var t0, t1, t2, t3, t4, t5, t6, t7, t8;
    ghost var u0, u1, u2, u3, u4, u5, u6, u7, u8;
    d := p9;
    t9 := d % 0x4000000;
    d := d / 0x4000000;
    ghost var dm: int := d;
    c := p0;
    d := d + p10;
    t0, u, c, d := Fold(c, d);
    u0 := u;
    ghost var c0: int, d0: int := c, d;
    c := c + p1;
    d := d + p11;
    t1, u, c, d := Fold(c, d);
    u1 := u;
    ghost var c1: int, d1: int := c, d;
    c := c + p2;
    d := d + p12;
    t2, u, c, d := Fold(c, d);
    u2 := u;
    ghost var c2: int, d2: int := c, d;
    c := c + p3;
    d := d + p13;
    t3, u, c, d := Fold(c, d);
    u3 := u;
    ghost var c3: int, d3: int := c, d;
    c := c + p4;
    d := d + p14;
    t4, u, c, d := Fold(c, d);
    u4 := u;
    ghost var c4: int, d4: int := c, d;
    c := c + p5;
    d := d + p15;
    t5, u, c, d := Fold(c, d);
    u5 := u;
    ghost var c5: int, d5: int := c, d;
    c := c + p6;
    d := d + p16;
    t6, u, c, d := Fold(c, d);
    u6 := u;
    assert d <= 0x4800001de;
    ghost var c6: int, d6: int := c, d;
    c := c + p7;
    d := d + p17;
    t7, u, c, d := Fold(c, d);
    u7 := u;
    assert d <= 0x800000fe;
    ghost var c7: int, d7: int := c, d;
    c := c + p8;
    d := d + p18;
    t8, u, c, d := Fold(c, d);
    u8 := u;
    assert d <= 0x400001e;
    ghost var c8: int, d8: int := c, d;
    var r0, r1, r2, r9;
    ghost var top;
    r0, r1, r2, r9, top := FoldEnd(c, d, t0, t1, t2, t9);
    q := Reduced(p0, p1, p2, p3, p4, p5, p6, p7, p8, p9, p10, p11, p12, p13, p14, p15, p16, p17, p18, t0, t1, t2, t3,
        t4, t5, t6, t7, t8, t9, u0, u1, u2, u3, u4, u5, u6, u7, u8, c0, c1, c2, c3, c4, c5, c6, c7, c8, dm, d0, d1, d2,
        d3, d4, d5, d6, d7, d8, top, r0, r1, r2, r9);
    r[0], r[1], r[2], r[3], r[4], r[5], r[6], r[7], r[8], r[9] := r0, r1, r2, t3, t4, t5, t6, t7, t8, r9;
    assert r[..] == [r0, r1, r2, t3, t4, t5, t6, t7, t8, r9];
    OutputOf(r0, r1, r2, t3, t4, t5, t6, t7, t8, r9);
  }

  lemma OutputOf(r0: int, r1: int, r2: int, r3: int, r4: int, r5: int, r6: int, r7: int, r8: int, r9: int)
    requires 0 <= r0 <= 0x3FFFFFF && 0 <= r1 <= 0x3FFFFFF && 0 <= r3 <= 0x3FFFFFF && 0 <= r4 <= 0x3FFFFFF
      && 0 <= r5 <= 0x3FFFFFF && 0 <= r6 <= 0x3FFFFFF && 0 <= r7 <= 0x3FFFFFF && 0 <= r8 <= 0x3FFFFFF
      && 0 <= r2 <= 0x7FFFFFE && 0 <= r9 <= 0x3FFFFF
    ensures Output([r0, r1, r2, r3, r4, r5, r6, r7, r8, r9])
  {
  }

  lemma ProductCong(a: seq<int>, b: seq<int>, v: int, q: int)
    requires Input(a) && Input(b)
    requires Nineteen(Column(a, b, 0), Column(a, b, 1), Column(a, b, 2), Column(a, b, 3), Column(a, b, 4),
      Column(a, b, 5), Column(a, b, 6), Column(a, b, 7), Column(a, b, 8), Column(a, b, 9), Column(a, b, 10),
      Column(a, b, 11), Column(a, b, 12), Column(a, b, 13), Column(a, b, 14), Column(a, b, 15), Column(a, b, 16),
      Column(a, b, 17), Column(a, b, 18))
         == v + q * 0xfffffffffffffffffffffffffffffffffffffffffffffffffffffffefffffc2f
    ensures Cong(v, Value10(a) * Value10(b), F.P)
  {
    Columns(a, b);
    hide *;
    GapCong(v, Value10(a) * Value10(b), q);
  }

  lemma GapCong(v: int, w: int, q: int)
    requires w == v + q * 0xfffffffffffffffffffffffffffffffffffffffffffffffffffffffefffffc2f
    ensures Cong(v, w, F.P)
  {
    CongBy(w, v, F.P, q);
  }

  /** r = a*b. r may be a. */
  method MulInner(r: array<int>, a: array<int>, b: array<int>)
    requires r.Length == a.Length == b.Length == 10 && r != b && a != b
    requires Input(a[..]) && Input(b[..])
    modifies r
    ensures Output(r[..])
    ensures Cong(Value10(r[..]), old(Value10(a[..])) * Value10(b[..]), F.P)
  {
    hide *;
    var x, y := a[..], b[..];
    ColumnsFit(x, y);
    ghost var q := Reduce(r,
      Column(x, y, 0), Column(x, y, 1), Column(x, y, 2), Column(x, y, 3), Column(x, y, 4), Column(x, y, 5),
          Column(x, y, 6), Column(x, y, 7), Column(x, y, 8), Column(x, y, 9),
      Column(x, y, 10), Column(x, y, 11), Column(x, y, 12), Column(x, y, 13), Column(x, y, 14), Column(x, y, 15),
          Column(x, y, 16), Column(x, y, 17), Column(x, y, 18));
    ProductCong(x, y, Value10(r[..]), q);
  }

  /** r = a^2, with the mixed products doubled. r may be a. */
  method SqrInner(r: array<int>, a: array<int>)
    requires r.Length == a.Length == 10
    requires Input(a[..])
    modifies r
    ensures Output(r[..])
    ensures Cong(Value10(r[..]), old(Value10(a[..])) * old(Value10(a[..])), F.P)
  {
    hide *;
    var x := a[..];
    ColumnsFit(x, x);
    ghost var q := Reduce(r,
      Square(x, 0), Square(x, 1), Square(x, 2), Square(x, 3), Square(x, 4), Square(x, 5), Square(x, 6), Square(x, 7),
          Square(x, 8), Square(x, 9),
      Square(x, 10), Square(x, 11), Square(x, 12), Square(x, 13), Square(x, 14), Square(x, 15), Square(x, 16),
          Square(x, 17), Square(x, 18));
    ProductCong(x, x, Value10(r[..]), q);
  }
}
