/** Scalars modulo the group order, and their split along the curve endomorphism. */
module Scalars {
  import opened Arith

  /** The order of the secp256k1 group. */
  const N: int := 0xFFFFFFFFFFFFFFFFFFFFFFFFFFFFFFFEBAAEDCE6AF48A03BBFD25E8CD0364141

  /** The eigenvalue of the endomorphism: a primitive cube root of unity modulo N. */
  const LAMBDA: int := 0x5363AD4CC05C30E0A5261C028812645A122E22EA20816678DF02967C1B23BD72

  predicate IsScalar(a: int) { 0 <= a < N }

  function Add(a: int, b: int): (r: int) ensures IsScalar(r) { (a + b) % N }

  function Mul(a: int, b: int): (r: int) ensures IsScalar(r) { (a * b) % N }

  function Negate(a: int): (r: int) ensures IsScalar(r) { (-a) % N }

  /** The scalar whose double is a. */
  function Half(a: int): (r: int)
    requires IsScalar(a)
    ensures IsScalar(r)
  {
    if a % 2 == 0 then a / 2 else (a + N) / 2
  }

  /** In the upper half of the range. */
  predicate IsHigh(a: int) { a > N / 2 }

  /** A scalar is high exactly when its opposite is smaller than itself. */
  lemma HighIs(a: int)
    requires IsScalar(a)
    ensures IsHigh(a) <==> 2 * a > N
    ensures IsHigh(a) <==> Negate(a) < a
  {
    if a > 0 {
      DivIs(-a, N, -1, N - a);
    }
  }

  lemma HalfDoubles(a: int)
    requires IsScalar(a)
    ensures Cong(2 * Half(a), a, N)
  {
    CongBy(2 * Half(a), a, N, if a % 2 == 0 then 0 else 1);
  }

  // ----- splitting a scalar into two short ones -----

  const MINUS_B1: int := 0xE4437ED6010E88286F547FA90ABFE4C3
  const MINUS_B2: int := 0xFFFFFFFFFFFFFFFFFFFFFFFFFFFFFFFE8A280AC50774346DD765CDA83DB1562C
  const G1: int := 0x3086D221A7D46BCDE86C90E49284EB153DAA8A1471E8CA7FE893209A45DBB031
  const G2: int := 0xE4437ED6010E88286F547FA90ABFE4C4221208AC9DF506C61571B4AE8AC47F71

  // The lattice basis: A1 + LAMBDA*B1 and A2 + LAMBDA*B2 vanish modulo N.
  const A1: int := 0x3086D221A7D46BCDE86C90E49284EB15
  const A2: int := 0x114CA50F7A8E2F3F657C1108D9D44CFD8
  const B1: int := -0xE4437ED6010E88286F547FA90ABFE4C3
  const B2: int := 0x3086D221A7D46BCDE86C90E49284EB15

  const TWO_128: int := 0x1_00000000_00000000_00000000_00000000
  const TWO_384: int := TWO_128 * TWO_128 * TWO_128

  /** The product of k and g shifted right by 384 bits, rounded to nearest. */
  function MulShift(k: int, g: int): int {
    (k * g + TWO_384 / 2) / TWO_384
  }

  /** (r1, r2) with r1 + r2*LAMBDA == k, both short. */
  function SplitLambda(k: int): (r: (int, int))
    requires IsScalar(k)
    ensures IsScalar(r.0) && IsScalar(r.1)
  {
    var c1 := Mul(MulShift(k, G1), MINUS_B1);
    var c2 := Mul(MulShift(k, G2), MINUS_B2);
    var r2 := Add(c1, c2);
    var r1 := Add(Negate(Mul(r2, LAMBDA)), k);
    (r1, r2)
  }

  /** The two halves as small signed numbers. */
  function Short1(k: int): int { k - MulShift(k, G1) * A1 - MulShift(k, G2) * A2 }
  function Short2(k: int): int { 0 - MulShift(k, G1) * B1 - MulShift(k, G2) * B2 }

  // The rounded quotient c is close to k*b/n. Literals keep these steps linear.
  lemma Near1(k: int, c: int)
    requires 0 <= k < 0xFFFFFFFFFFFFFFFFFFFFFFFFFFFFFFFEBAAEDCE6AF48A03BBFD25E8CD0364141
    requires 0x1000000000000000000000000000000000000000000000000000000000000000000000000000000000000000000000000 * c
      <= k * 0x3086D221A7D46BCDE86C90E49284EB153DAA8A1471E8CA7FE893209A45DBB031
      + 0x800000000000000000000000000000000000000000000000000000000000000000000000000000000000000000000000
      < 0x1000000000000000000000000000000000000000000000000000000000000000000000000000000000000000000000000 * c
      + 0x1000000000000000000000000000000000000000000000000000000000000000000000000000000000000000000000000
    ensures var x := k * 0x3086D221A7D46BCDE86C90E49284EB15
      - c * 0xFFFFFFFFFFFFFFFFFFFFFFFFFFFFFFFEBAAEDCE6AF48A03BBFD25E8CD0364141;
      -0xFFFFFFFFFFFFFFFFFFFFFFFFFFFFFFFEBAAEDCE6AF48A03BBFD25E8CD0364141 - 2 * 0x157EA4293563668E3D384287E504FD5D
          <= 2 * x <= 0xFFFFFFFFFFFFFFFFFFFFFFFFFFFFFFFEBAAEDCE6AF48A03BBFD25E8CD0364141
          + 2 * 0x157EA4293563668E3D384287E504FD5D
  {
  }

  lemma Near2(k: int, c: int)
    requires 0 <= k < 0xFFFFFFFFFFFFFFFFFFFFFFFFFFFFFFFEBAAEDCE6AF48A03BBFD25E8CD0364141
    requires 0x1000000000000000000000000000000000000000000000000000000000000000000000000000000000000000000000000 * c
      <= k * 0xE4437ED6010E88286F547FA90ABFE4C4221208AC9DF506C61571B4AE8AC47F71
      + 0x800000000000000000000000000000000000000000000000000000000000000000000000000000000000000000000000
      < 0x1000000000000000000000000000000000000000000000000000000000000000000000000000000000000000000000000 * c
      + 0x1000000000000000000000000000000000000000000000000000000000000000000000000000000000000000000000000
    ensures var x := k * 0xE4437ED6010E88286F547FA90ABFE4C3
      - c * 0xFFFFFFFFFFFFFFFFFFFFFFFFFFFFFFFEBAAEDCE6AF48A03BBFD25E8CD0364141;
      -0xFFFFFFFFFFFFFFFFFFFFFFFFFFFFFFFEBAAEDCE6AF48A03BBFD25E8CD0364141 - 2 * 0x46683369B37D763044180E526536385D
          <= 2 * x <= 0xFFFFFFFFFFFFFFFFFFFFFFFFFFFFFFFEBAAEDCE6AF48A03BBFD25E8CD0364141
          + 2 * 0x46683369B37D763044180E526536385D
  {
  }

  lemma Rounded1(k: int)
    requires IsScalar(k)
    ensures 0x1000000000000000000000000000000000000000000000000000000000000000000000000000000000000000000000000
      * MulShift(k, G1)
      <= k * 0x3086D221A7D46BCDE86C90E49284EB153DAA8A1471E8CA7FE893209A45DBB031
      + 0x800000000000000000000000000000000000000000000000000000000000000000000000000000000000000000000000
      < 0x1000000000000000000000000000000000000000000000000000000000000000000000000000000000000000000000000
          * MulShift(k, G1)
      + 0x1000000000000000000000000000000000000000000000000000000000000000000000000000000000000000000000000
  {
  }

  lemma Rounded2(k: int)
    requires IsScalar(k)
    ensures 0x1000000000000000000000000000000000000000000000000000000000000000000000000000000000000000000000000
      * MulShift(k, G2)
      <= k * 0xE4437ED6010E88286F547FA90ABFE4C4221208AC9DF506C61571B4AE8AC47F71
      + 0x800000000000000000000000000000000000000000000000000000000000000000000000000000000000000000000000
      < 0x1000000000000000000000000000000000000000000000000000000000000000000000000000000000000000000000000
          * MulShift(k, G2)
      + 0x1000000000000000000000000000000000000000000000000000000000000000000000000000000000000000000000000
  {
  }

  lemma ShortByNear(k: int, c1: int, c2: int)
    requires var x := k * 0x3086D221A7D46BCDE86C90E49284EB15
      - c1 * 0xFFFFFFFFFFFFFFFFFFFFFFFFFFFFFFFEBAAEDCE6AF48A03BBFD25E8CD0364141;
      -0xFFFFFFFFFFFFFFFFFFFFFFFFFFFFFFFEBAAEDCE6AF48A03BBFD25E8CD0364141 - 2 * 0x157EA4293563668E3D384287E504FD5D
          <= 2 * x <= 0xFFFFFFFFFFFFFFFFFFFFFFFFFFFFFFFEBAAEDCE6AF48A03BBFD25E8CD0364141
          + 2 * 0x157EA4293563668E3D384287E504FD5D
    requires var x := k * 0xE4437ED6010E88286F547FA90ABFE4C3
      - c2 * 0xFFFFFFFFFFFFFFFFFFFFFFFFFFFFFFFEBAAEDCE6AF48A03BBFD25E8CD0364141;
      -0xFFFFFFFFFFFFFFFFFFFFFFFFFFFFFFFEBAAEDCE6AF48A03BBFD25E8CD0364141 - 2 * 0x46683369B37D763044180E526536385D
          <= 2 * x <= 0xFFFFFFFFFFFFFFFFFFFFFFFFFFFFFFFEBAAEDCE6AF48A03BBFD25E8CD0364141
          + 2 * 0x46683369B37D763044180E526536385D
    ensures -0x14551231950B75FC4402DA1722FC9BAEE < 2
      * (k - c1 * 0x3086D221A7D46BCDE86C90E49284EB15 - c2 * 0x114CA50F7A8E2F3F657C1108D9D44CFD8)
      < 0x14551231950B75FC4402DA1722FC9BAEE
    ensures -0x114CA50F7A8E2F3F657C1108D9D44CFDA < 2
      * (c1 * 0xE4437ED6010E88286F547FA90ABFE4C3 - c2 * 0x3086D221A7D46BCDE86C90E49284EB15)
      < 0x114CA50F7A8E2F3F657C1108D9D44CFDA
  {
  }

  /** The halves are within the bounds the source proves for them, and so below 2^128. */
  lemma ShortBounds(k: int)
    requires IsScalar(k)
    ensures 2 * Short1(k) < A1 + A2 + 1 && -2 * Short1(k) < A1 + A2 + 1
    ensures 2 * Short2(k) < B2 - B1 + 2 && -2 * Short2(k) < B2 - B1 + 2
    ensures -TWO_128 < Short1(k) < TWO_128 && -TWO_128 < Short2(k) < TWO_128
  {
    var c1, c2 := MulShift(k, G1), MulShift(k, G2);
    Rounded1(k);
    Rounded2(k);
    hide MulShift;
    Near1(k, c1);
    Near2(k, c2);
    ShortByNear(k, c1, c2);
  }

  lemma SecondHalf(k: int)
    requires IsScalar(k)
    ensures Cong(SplitLambda(k).1, Short2(k), N)
  {
    var c1, c2 := MulShift(k, G1), MulShift(k, G2);
    ModCong(c1 * MINUS_B1, N);
    ModCong(c2 * MINUS_B2, N);
    var d1, d2 := Mul(c1, MINUS_B1), Mul(c2, MINUS_B2);
    CongAdd(d1, c1 * MINUS_B1, d2, c2 * MINUS_B2, N);
    ModCong(d1 + d2, N);
    CongBy(c1 * MINUS_B1 + c2 * MINUS_B2, Short2(k), N, c2);
  }

  /** The split recombines to k. */
  lemma SplitRecombines(k: int)
    requires IsScalar(k)
    ensures var r := SplitLambda(k); Cong(r.0 + r.1 * LAMBDA, k, N)
  {
    var r := SplitLambda(k);
    var product := Mul(r.1, LAMBDA);
    ModCong(r.1 * LAMBDA, N);
    ModCong(-product, N);
    ModCong(Negate(product) + k, N);
    assert r.0 == Add(Negate(product), k);
    hide SplitLambda, MulShift, Cong;
    TakenOff(r.0, k, r.1 * LAMBDA, product, Negate(product));
  }

  /** k less a number, with each step taken modulo N, and that number added again. */
  lemma TakenOff(r: int, k: int, m: int, product: int, negated: int)
    requires Cong(product, m, N) && Cong(negated, -product, N) && Cong(r, negated + k, N)
    ensures Cong(r + m, k, N)
  {
    var q := CongGap(product, m, N);
    var t := CongGap(negated, -product, N);
    var u := CongGap(r, negated + k, N);
    CongBy(r + m, k, N, u + t - q);
  }

  // Both basis vectors lie in the kernel of a + b*l -> a + b*LAMBDA.
  lemma Kernel(k: int, c1: int, c2: int)
    ensures k - (c1 * 0xE4437ED6010E88286F547FA90ABFE4C3 - c2 * 0x3086D221A7D46BCDE86C90E49284EB15)
      * 0x5363AD4CC05C30E0A5261C028812645A122E22EA20816678DF02967C1B23BD72
         == (k - c1 * 0x3086D221A7D46BCDE86C90E49284EB15 - c2 * 0x114CA50F7A8E2F3F657C1108D9D44CFD8)
           + (c1 * -0x4A5AC2BF7B5F37F9F1DB10D7A2A9C981 + c2 * 0xFCE9B1DD4EB7DD2718A2906787061B2)
           * 0xFFFFFFFFFFFFFFFFFFFFFFFFFFFFFFFEBAAEDCE6AF48A03BBFD25E8CD0364141
  {
  }

  lemma FirstHalf(k: int)
    requires IsScalar(k)
    ensures Cong(SplitLambda(k).0, Short1(k), N)
  {
    var c1, c2 := MulShift(k, G1), MulShift(k, G2);
    var t := c1 * -0x4A5AC2BF7B5F37F9F1DB10D7A2A9C981 + c2 * 0xFCE9B1DD4EB7DD2718A2906787061B2;
    assert k - Short2(k) * LAMBDA == Short1(k) + t * N by {
      Kernel(k, c1, c2);
    }
    FirstHalfBy(k, t);
  }

  lemma FirstHalfBy(k: int, t: int)
    requires IsScalar(k) && k - Short2(k) * LAMBDA == Short1(k) + t * N
    ensures Cong(SplitLambda(k).0, Short1(k), N)
  {
    SplitRecombines(k);
    SecondHalf(k);
    hide SplitLambda, Short1, Short2, MulShift;
    var r := SplitLambda(k);
    CongScale(r.1, Short2(k), LAMBDA, N);
    CongAdd(r.0 + r.1 * LAMBDA, k, r.1 * LAMBDA, Short2(k) * LAMBDA, N);
    CongBy(k - Short2(k) * LAMBDA, Short1(k), N, t);
  }

  /** The small signed halves recombine to k as well. */
  lemma ShortsRecombine(k: int)
    requires IsScalar(k)
    ensures Cong(Short1(k) + Short2(k) * LAMBDA, k, N)
  {
    SplitRecombines(k);
    FirstHalf(k);
    SecondHalf(k);
    hide SplitLambda, Short1, Short2, Cong;
    var r := SplitLambda(k);
    CongScale(r.1, Short2(k), LAMBDA, N);
    CongAdd(r.0, Short1(k), r.1 * LAMBDA, Short2(k) * LAMBDA, N);
    CongSym(r.0 + r.1 * LAMBDA, Short1(k) + Short2(k) * LAMBDA, N);
    CongTrans(Short1(k) + Short2(k) * LAMBDA, r.0 + r.1 * LAMBDA, k, N);
  }
}
