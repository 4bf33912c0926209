/** Constant-time multiplication q*A: the bits of two short scalars read as signs. */
module EcmultConst {
  import opened Arith
  import opened Groups
  import opened Scalars
  import opened Curves
  import opened SignedBits

  const GROUP_SIZE: nat := 5
  const TABLE_SIZE: nat := 16
  const GROUPS: nat := 26
  const CONST_BITS: nat := 130

  /** Every bit of a 32-bit word inverted. */
  function Flip32(x: int): int { 0xFFFFFFFF - x }

  /** The table entry for the sign pattern n: 2^4*(+-A) + ... + 2^0*(+-A). */
  method ConstTableGet<P(!new)>(g: Group<P>, pre: seq<P>, n: int, ghost a: P) returns (r: P)
    requires g.Lawful() && |pre| == TABLE_SIZE && OddMultiples(g, pre, a) && 0 <= n < 32
    ensures r == g.Mul(SignSum(GROUP_SIZE, n), a)
  {
    hide Group.Lawful, Group.Mul, SignSum, Pow2;
    SignSumSmall(n);
    var negative := 1 - n / 16;
    var index := (if negative == 1 then Flip32(n) else n) % 16;
    assert index == if n < 16 then 15 - n else n - 16;
    r := pre[0];
    for m := 1 to TABLE_SIZE
      invariant r == pre[if index < m then index else 0]
    {
      if m == index {
        r := pre[m];
      }
    }
    if negative == 1 {
      g.MulNeg(2 * index + 1, a);
      r := g.neg(r);
    }
  }

  lemma SignSumSmall(n: int)
    requires 0 <= n < 32
    ensures SignSum(GROUP_SIZE, n) == 2 * n - 31
  {
    assert Pow2(5) == 32;
    SignSumIs(5, n);
  }

  // ----- the offset -----

  const K: int := 0xA4E88A7DCB13034EC2BDD6BF7C118D6B589AE84826BA29E4B5C2C1DCDE9798D9
  const TWO_129: int := 2 * TWO_128
  const TWO_130: int := 4 * TWO_128

  /** K is the offset that makes the two halves add up. */
  lemma KIsOffset()
    ensures Cong(K, (TWO_130 - TWO_129 - 1) * (1 + LAMBDA), N)
  {
  }

  /** What the sign patterns v1 and v2 stand for, together. */
  lemma OffsetCancels(q: int, s: int, s1: int, s2: int)
    requires Cong(2 * s, q + K, N) && Cong(s1 + s2 * LAMBDA, s, N)
    ensures Cong((2 * (s1 + TWO_128) + 1 - TWO_130) + (2 * (s2 + TWO_128) + 1 - TWO_130) * LAMBDA, q, N)
  {
    KIsOffset();
    hide Cong;
    var off := (TWO_130 - TWO_129 - 1) * (1 + LAMBDA);
    var t := s1 + s2 * LAMBDA;
    CongScale(t, s, 2, N);
    CongAdd(q + K, 2 * s, K, off, N) by { CongSym(2 * s, q + K, N); }
    CongTrans3(t, s, q, off);
    assert (2 * (s1 + TWO_128) + 1 - TWO_130) + (2 * (s2 + TWO_128) + 1 - TWO_130) * LAMBDA == t * 2 - off;
  }

  lemma CongTrans3(t: int, s: int, q: int, off: int)
    requires Cong(t * 2, s * 2, N) && Cong(q + K - K, 2 * s - off, N)
    ensures Cong(t * 2 - off, q, N)
  {
    hide Cong;
    CongRefl(off, N);
    CongAdd(t * 2, s * 2, off, off, N);
    CongSym(q, 2 * s - off, N);
    CongTrans(t * 2 - off, 2 * s - off, q, N);
  }

  // ----- the group loop -----

  /** The signed value of the bits of v from group k upwards. */
  ghost function Signs(v: int, k: nat): int
    requires k <= GROUPS
  {
    2 * (v / Pow2(5 * k)) + 1 - Pow2(CONST_BITS - 5 * k)
  }

  lemma SignsStep(v: int, k: nat)
    requires k < GROUPS
    ensures Signs(v, k) == 32 * Signs(v, k + 1) + SignSum(GROUP_SIZE, Bits(v, 5 * k, GROUP_SIZE))
  {
    assert Pow2(5) == 32;
    var b := Bits(v, 5 * k, 5);
    SignSumSmall(b);
    Pow2Add(5 * k, 5);
    DivDiv(v, Pow2(5 * k), 32);
    assert v / Pow2(5 * (k + 1)) == v / Pow2(5 * k) / 32;
    Pow2Add(CONST_BITS - 5 * (k + 1), 5);
  }

  lemma SignsTop(v: int)
    requires 0 <= v < TWO_130
    ensures Signs(v, GROUPS) == 0
  {
    assert Pow2(2) == 4 && Pow2(0) == 1;
    Pow2Values();
    Pow2Add(128, 2);
    DivIs(v, Pow2(130), 0, v);
  }

  lemma SignsAll(v: int)
    ensures Signs(v, 0) == 2 * v + 1 - TWO_130
  {
    assert Pow2(2) == 4 && Pow2(0) == 1;
    Pow2Values();
    Pow2Add(128, 2);
  }

  /** The shifted halves: both in [0, 2^129), and together they stand for q. */
  lemma OffsetHalves(q: int)
    requires IsScalar(q)
    ensures var h := SplitLambda(Half(Add(q, K)));
      var v1, v2 := Add(h.0, TWO_128), Add(h.1, TWO_128);
      && 0 <= v1 < TWO_129 && 0 <= v2 < TWO_129
      && Cong((2 * v1 + 1 - TWO_130) + (2 * v2 + 1 - TWO_130) * LAMBDA, q, N)
  {
    var qk := Add(q, K);
    var s := Half(qk);
    HalfDoubles(qk);
    ModCong(q + K, N);
    assert Cong(2 * s, q + K, N);
    var h := SplitLambda(s);
    FirstHalf(s);
    SecondHalf(s);
    ShortBounds(s);
    ShiftShort(h.0, Short1(s));
    ShiftShort(h.1, Short2(s));
    ShortsRecombine(s);
    OffsetCancels(q, s, Short1(s), Short2(s));
  }

  lemma ShiftShort(r: int, v: int)
    requires IsScalar(r) && Cong(r, v, N) && -TWO_128 < v < TWO_128
    ensures Add(r, TWO_128) == v + TWO_128
  {
    CongAdd(r, v, TWO_128, TWO_128, N);
    DivIs(v + TWO_128, N, 0, v + TWO_128);
  }

  /** q*A for every scalar q and every point A. */
  method EcmultConst<P(==,!new)>(c: Curve<P>, a: P, q: int) returns (r: P)
    requires c.Lawful() && IsScalar(q)
    ensures r == c.g.Mul(q, a)
  {
    hide Group.Lawful, Group.Mul, Group.HasExponent, SplitLambda, Half, Signs, OddMultiples, Add, SignSum, Bits, Pow2;
    if a == c.g.zero {
      c.g.MulZero(q);
      return c.g.zero;
    }
    var s := Half(Add(q, K));
    var halves := SplitLambda(s);
    var v1, v2 := Add(halves.0, TWO_128), Add(halves.1, TWO_128);
    OffsetHalves(q);
    var pre := OddMultiplesTable(c.g, TABLE_SIZE, a);
    var preLam := [];
    for i := 0 to TABLE_SIZE
      invariant |preLam| == i && (forall k :: 0 <= k < i ==> preLam[k] == c.mulLambda(pre[k]))
    {
      preLam := preLam + [c.mulLambda(pre[i])];
    }
    LambdaTable(c, pre, preLam, a);
    ghost var b := c.mulLambda(a);
    r := c.g.zero;
    SignsTop(v1);
    SignsTop(v2);
    c.g.MulOne(a);
    c.g.MulOne(b);
    c.g.Unit(c.g.zero);
    var group: int := GROUPS - 1;
    while group >= 0
      invariant -1 <= group < GROUPS
      invariant r == c.g.add(c.g.Mul(Signs(v1, group + 1), a), c.g.Mul(Signs(v2, group + 1), b))
    {
      BitsRange(v1, group * GROUP_SIZE);
      BitsRange(v2, group * GROUP_SIZE);
      var bits1 := Bits(v1, group * GROUP_SIZE, GROUP_SIZE);
      var bits2 := Bits(v2, group * GROUP_SIZE, GROUP_SIZE);
      var t := ConstTableGet(c.g, pre, bits1, a);
      ghost var up := r;
      if group == GROUPS - 1 {
        r := t;
        c.g.MulZero(32);
        c.g.Unit(t);
      } else {
        c.g.MulOne(up);
        ghost var f := 1;
        for j := 0 to GROUP_SIZE
          invariant f == (if j == 0 then 1 else if j == 1 then 2 else if j == 2 then 4 else if j == 3 then 8
            else if j == 4 then 16 else 32)
          invariant r == c.g.Mul(f, up)
        {
          c.g.Double(f, up);
          r := c.g.add(r, r);
          f := 2 * f;
        }
        r := c.g.add(r, t);
      }
      t := ConstTableGet(c.g, preLam, bits2, b);
      GroupStep(c.g, v1, v2, group, up, a, b);
      r := c.g.add(r, t);
      group := group - 1;
    }
    SignsAll(v1);
    SignsAll(v2);
    c.Recombine(q, Signs(v1, 0), Signs(v2, 0), a);
  }

  lemma BitsRange(v: int, off: nat)
    ensures Bits(v, off, GROUP_SIZE) < 32
  {
    assert Pow2(5) == 32;
  }

  lemma GroupStep<P(!new)>(g: Group<P>, v1: int, v2: int, k: nat, up: P, a: P, b: P)
    requires g.Lawful() && k < GROUPS
    requires up == g.add(g.Mul(Signs(v1, k + 1), a), g.Mul(Signs(v2, k + 1), b))
    ensures var t1, t2 := SignSum(GROUP_SIZE, Bits(v1, 5 * k, GROUP_SIZE)),
      SignSum(GROUP_SIZE, Bits(v2, 5 * k, GROUP_SIZE));
      g.add(g.add(g.Mul(32, up), g.Mul(t1, a)), g.Mul(t2, b))
      == g.add(g.Mul(Signs(v1, k), a), g.Mul(Signs(v2, k), b))
  {
    hide Group.Lawful, Group.Mul, Signs, SignSum, Bits;
    SignsStep(v1, k);
    SignsStep(v2, k);
    var x, y := Signs(v1, k + 1), Signs(v2, k + 1);
    var t1, t2 := SignSum(GROUP_SIZE, Bits(v1, 5 * k, GROUP_SIZE)), SignSum(GROUP_SIZE, Bits(v2, 5 * k, GROUP_SIZE));
    g.MulDistrib(32, g.Mul(x, a), g.Mul(y, b));
    g.MulMul(32, x, a);
    g.MulMul(32, y, b);
    g.Assoc(g.Mul(32, up), g.Mul(t1, a), g.Mul(t2, b));
    g.Interchange(g.Mul(32 * x, a), g.Mul(32 * y, b), g.Mul(t1, a), g.Mul(t2, b));
    g.MulAdd(32 * x, t1, a);
    g.MulAdd(32 * y, t2, b);
  }
}
