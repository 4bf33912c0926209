/** Square roots in the field: the addition chain for the power (P+1)/4. */
module FieldSqrt {
  import opened Arith
  import opened Fermat
  import opened Field5x52Mul
  import opened Field5x52

  /** x holds the e-th power of a, with limbs a multiplication accepts and returns. */
  ghost predicate IsPow(x: array<int>, a: int, e: nat)
    reads x
  {
    MulOutput(x[..]) && Cong(Value(x[..]), Pow(a, e), P)
  }

  lemma OutputIsInput(n: seq<int>)
    requires MulOutput(n)
    ensures MulInput(n) && Magnitude(n, 1)
  {
  }

  lemma MagnitudeEight(n: seq<int>)
    requires Magnitude(n, 8)
    ensures MulInput(n)
  {
  }

  lemma ProductPow(r: int, x: int, y: int, a: int, e: nat, f: nat)
    requires Cong(x, Pow(a, e), P) && Cong(y, Pow(a, f), P) && Cong(r, x * y, P)
    ensures Cong(r, Pow(a, e + f), P)
  {
    hide Pow;
    CongMul(x, Pow(a, e), y, Pow(a, f), P);
    PowAdd(a, e, f);
  }

  /** x = x * y */
  method Times(x: array<int>, y: array<int>, ghost a: int, ghost e: nat, ghost f: nat)
    requires x.Length == y.Length == 5 && x != y && IsPow(x, a, e) && IsPow(y, a, f)
    modifies x
    ensures IsPow(x, a, e + f)
  {
    hide Cong, Pow, MulInput, MulOutput, Value;
    ghost var u, v := x[..], y[..];
    OutputIsInput(u);
    OutputIsInput(v);
    MulInner(x, x, y);
    ProductPow(Value(x[..]), Value(u), Value(v), a, e, f);
  }

  /** The exponent after n squarings. */
  ghost function Shifted(e: nat, n: nat): (r: nat)
    ensures r == e * Pow2(n)
  {
    MulMono(0, e, Pow2(n));
    e * Pow2(n)
  }

  /** Squares x in place n times. */
  method SquareTimes(x: array<int>, n: nat, ghost a: int, ghost e: nat)
    requires x.Length == 5 && IsPow(x, a, e)
    modifies x
    ensures IsPow(x, a, Shifted(e, n))
  {
    hide Cong, Pow, MulInput, MulOutput, Value, Pow2;
    Pow2Succ(0);
    var j := 0;
    while j < n
      invariant 0 <= j <= n
      invariant IsPow(x, a, Shifted(e, j))
    {
      ghost var u := x[..];
      OutputIsInput(u);
      SqrInner(x, x);
      ProductPow(Value(x[..]), Value(u), Value(u), a, Shifted(e, j), Shifted(e, j));
      DoubleExponent(e, j);
      j := j + 1;
    }
  }

  lemma DoubleExponent(e: nat, j: nat)
    ensures Shifted(e, j) + Shifted(e, j) == Shifted(e, j + 1)
  {
    assert e * (2 * Pow2(j)) == 2 * (e * Pow2(j));
  }

  method Copy(r: array<int>, a: array<int>)
    requires r.Length == a.Length == 5
    modifies r
    ensures r[..] == a[..]
  {
    var i := 0;
    while i < 5
      invariant 0 <= i <= 5 && a[..] == old(a[..]) && r[..i] == a[..i]
    {
      r[i] := a[i];
      i := i + 1;
    }
  }

  /** One block of the chain: r = x^(2^n) * y. */
  method Block(r: array<int>, x: array<int>, y: array<int>, n: nat, ghost a: int, ghost e: nat, ghost f: nat,
        ghost g: nat)
    requires r.Length == x.Length == y.Length == 5 && r != x && r != y
    requires IsPow(x, a, e) && IsPow(y, a, f) && g == e * Pow2(n) + f
    modifies r
    ensures IsPow(r, a, g)
  {
    hide Cong, Pow, MulInput, MulOutput, Value, Pow2;
    Copy(r, x);
    CopyPow(r, x, a, e);
    SquareTimes(r, n, a, e);
    Times(r, y, a, Shifted(e, n), f);
  }

  /** The powers of two by which the blocks shift. */
  lemma BlockShifts()
    ensures Pow2(0) == 1 && Pow2(1) == 2 && Pow2(2) == 0x4 && Pow2(3) == 0x8 && Pow2(6) == 0x40 && Pow2(11) == 0x800
    ensures Pow2(22) == 0x400000 && Pow2(23) == 0x800000 && Pow2(44) == 0x100000000000
      && Pow2(88) == 0x10000000000000000000000
  {
    hide *;
    Pow2Succ(0);
    Pow2Succ(1);
    Pow2Succ(2);
    Pow2Twice(3, 8);
    Pow2Twice(2, 4);
    Pow2Succ(4);
    Pow2Twice(5, 32);
    Pow2Succ(10);
    Pow2Twice(11, 0x800);
    Pow2Succ(22);
    Pow2Twice(22, 0x400000);
    Pow2Twice(44, 0x100000000000);
  }

  lemma FirstPower(a: int)
    ensures Pow(a, 1) == a && Pow(a, 2) == a * a && Pow(a, 3) == a * a * a && Pow(a, 7) == (a * a * a) * (a * a * a) * a
  {
    var b := a * a * a;
    PowAdd(a, 3, 4);
    PowAdd(a, 3, 1);
    assert Pow(a, 1) == a * Pow(a, 0) && Pow(a, 0) == 1;
    assert Pow(a, 2) == a * Pow(a, 1) && Pow(a, 3) == a * Pow(a, 2);
    assert a * (a * a) == b;
    MulAssoc(b, b, a);
    assert a * b == b * a;
  }

  /** The exponents 2^6 - 1, 2^9 - 1, 2^11 - 1 and 2^22 - 1. */
  method LowBlocks(x2: array<int>, x3: array<int>, ghost a: int) returns (x22: array<int>)
    requires x2.Length == x3.Length == 5 && x2 != x3 && IsPow(x2, a, 3) && IsPow(x3, a, 7)
    ensures fresh(x22) && x22.Length == 5 && IsPow(x22, a, 0x3fffff)
  {
    hide Cong, Pow, MulInput, MulOutput, Value, Pow2, IsPow;
    BlockShifts();
    var x6 := new int[5];
    Block(x6, x3, x3, 3, a, 0x7, 0x7, 0x3f);
    var x9 := new int[5];
    Block(x9, x6, x3, 3, a, 0x3f, 0x7, 0x1ff);
    var x11 := new int[5];
    Block(x11, x9, x2, 2, a, 0x1ff, 0x3, 0x7ff);
    x22 := new int[5];
    Block(x22, x11, x11, 11, a, 0x7ff, 0x7ff, 0x3fffff);
  }

  /** The exponents 2^44 - 1, 2^88 - 1, 2^176 - 1, 2^220 - 1 and 2^223 - 1. */
  method HighBlocks(x22: array<int>, x3: array<int>, ghost a: int) returns (x223: array<int>)
    requires x22.Length == x3.Length == 5 && x22 != x3 && IsPow(x22, a, 0x3fffff) && IsPow(x3, a, 7)
    ensures fresh(x223) && x223.Length == 5
      && IsPow(x223, a, 0x7fffffffffffffffffffffffffffffffffffffffffffffffffffffff)
  {
    hide Cong, Pow, MulInput, MulOutput, Value, Pow2, IsPow;
    BlockShifts();
    var x44 := new int[5];
    Block(x44, x22, x22, 22, a, 0x3fffff, 0x3fffff, 0xfffffffffff);
    var x88 := new int[5];
    Block(x88, x44, x44, 44, a, 0xfffffffffff, 0xfffffffffff, 0xffffffffffffffffffffff);
    var x176 := new int[5];
    Block(x176, x88, x88, 88, a, 0xffffffffffffffffffffff, 0xffffffffffffffffffffff,
        0xffffffffffffffffffffffffffffffffffffffffffff);
    var x220 := new int[5];
    Block(x220, x176, x44, 44, a, 0xffffffffffffffffffffffffffffffffffffffffffff, 0xfffffffffff,
        0xfffffffffffffffffffffffffffffffffffffffffffffffffffffff);
    x223 := new int[5];
    Block(x223, x220, x3, 3, a, 0xfffffffffffffffffffffffffffffffffffffffffffffffffffffff, 0x7,
        0x7fffffffffffffffffffffffffffffffffffffffffffffffffffffff);
  }

  /** The chain: afterwards r holds a to the power (P+1)/4. a may have magnitude up to 8. */
  method RootChain(r: array<int>, a: array<int>)
    requires r.Length == a.Length == 5 && r != a && Magnitude(a[..], 8)
    modifies r
    ensures IsPow(r, Value(a[..]), (P + 1) / 4)
  {
    hide Cong, Pow, MulInput, MulOutput, Value, Magnitude, Pow2, IsPow;
    ghost var v := Value(a[..]);
    BlockShifts();
    MagnitudeEight(a[..]);
    var x2, x3 := new int[5], new int[5];
    StartChain(x2, x3, a);
    var x22 := LowBlocks(x2, x3, v);
    var x223 := HighBlocks(x22, x3, v);
    var t1 := new int[5];
    Block(t1, x223, x22, 23, v, 0x7fffffffffffffffffffffffffffffffffffffffffffffffffffffff, 0x3fffff,
        0x3fffffffffffffffffffffffffffffffffffffffffffffffffffffffbfffff);
    SquareTimes(t1, 6, v, 0x3fffffffffffffffffffffffffffffffffffffffffffffffffffffffbfffff);
    Times(t1, x2, v, 0xfffffffffffffffffffffffffffffffffffffffffffffffffffffffefffffc0, 3);
    SquareTimes(t1, 1, v, 0xfffffffffffffffffffffffffffffffffffffffffffffffffffffffefffffc3);
    Copy(r, t1);
    CopyPow(r, t1, v, 0x1fffffffffffffffffffffffffffffffffffffffffffffffffffffffdfffff86);
    SquareTimes(r, 1, v, 0x1fffffffffffffffffffffffffffffffffffffffffffffffffffffffdfffff86);
    assert 0x1fffffffffffffffffffffffffffffffffffffffffffffffffffffffdfffff86 * 2 == (P + 1) / 4;
  }

  lemma CopyPow(r: array<int>, t: array<int>, a: int, e: nat)
    requires r[..] == t[..] && IsPow(t, a, e)
    ensures IsPow(r, a, e)
  {
  }

  /** x2 = a^3 and x3 = a^7. */
  method StartChain(x2: array<int>, x3: array<int>, a: array<int>)
    requires x2.Length == x3.Length == a.Length == 5 && a != x2 && a != x3 && x2 != x3 && MulInput(a[..])
    modifies x2, x3
    ensures IsPow(x2, Value(a[..]), 3) && IsPow(x3, Value(a[..]), 7)
  {
    hide Cong, Pow, MulInput, MulOutput, Value;
    ghost var v := Value(a[..]);
    FirstPower(v);
    SqrInner(x2, a);
    ghost var s := Value(x2[..]);
    OutputIsInput(x2[..]);
    MulInner(x2, x2, a);
    ghost var c := Value(x2[..]);
    CongItself(v);
    ProductPow(s, v, v, v, 1, 1);
    ProductPow(c, s, v, v, 2, 1);
    OutputIsInput(x2[..]);
    SqrInner(x3, x2);
    ghost var d := Value(x3[..]);
    OutputIsInput(x3[..]);
    MulInner(x3, x3, a);
    ProductPow(d, c, c, v, 3, 3);
    ProductPow(Value(x3[..]), d, v, v, 6, 1);
  }

  lemma CongItself(v: int)
    ensures Cong(v, Pow(v, 1), P)
  {
    FirstPower(v);
  }

  // ----- what the chain's result means -----

  /** The result is always a square, and its own square is a up to the factor a^((P-1)/2). */
  lemma RootIsSquare(r: int, a: int)
    requires Cong(r, Pow(a, (P + 1) / 4), P)
    ensures Cong(r, Pow(a, (P + 1) / 8) * Pow(a, (P + 1) / 8), P)
    ensures Cong(r * r, a * Pow(a, (P - 1) / 2), P)
  {
    hide Pow;
    PowTwice(a, (P + 1) / 8);
    PowTwice(a, (P + 1) / 4);
    CongMul(r, Pow(a, (P + 1) / 4), r, Pow(a, (P + 1) / 4), P);
    PowAdd(a, 1, (P - 1) / 2);
    FirstPower(a);
  }

  ghost predicate IsSquare(a: int) {
    exists s :: Cong(s * s, a, P)
  }

  /** For a prime modulus the squared result is a or -a, and it is a exactly when a has a root. */
  lemma RootOrOpposite(r: int, a: int)
    requires Prime(P) && Cong(r, Pow(a, (P + 1) / 4), P)
    ensures Cong(r * r, a, P) || Cong(r * r, -a, P)
    ensures Cong(r * r, a, P) <==> IsSquare(a)
  {
    hide Pow, Cong, Prime;
    RootIsSquare(r, a);
    var h := Pow(a, (P - 1) / 2);
    if Divides(P, a) {
      CongBy(a, 0, P, a / P);
      CongScale(a, 0, h, P);
      CongChain(r * r, a * h, 0);
      CongChain(r * r, 0, a);
    } else {
      Euler(a, P);
      if Cong(h, 1, P) {
        TimesSign(a, h, 1);
        CongChain(r * r, a * h, a);
      } else {
        TimesSign(a, h, -1);
        CongChain(r * r, a * h, -a);
      }
      if s :| Cong(s * s, a, P) {
        EulerSquare(a, s, P);
        TimesSign(a, h, 1);
        CongChain(r * r, a * h, a);
      }
    }
  }

  lemma CongChain(x: int, y: int, z: int)
    requires Cong(x, y, P) && (Cong(y, z, P) || Cong(z, y, P))
    ensures Cong(x, z, P)
  {
  }

  lemma TimesSign(a: int, h: int, s: int)
    requires Cong(h, s, P)
    ensures Cong(a * h, a * s, P)
  {
    CongScale(h, s, a, P);
    assert h * a == a * h && s * a == a * s;
  }

  /** Computes a square root of a and says whether there is one. Where there is none, the
      result squared is -a. The reading as existence of a root takes P to be prime. */
  method Sqrt(r: array<int>, a: array<int>) returns (ret: bool)
    requires r.Length == a.Length == 5 && r != a && Magnitude(a[..], 8)
    modifies r
    ensures IsPow(r, Value(a[..]), (P + 1) / 4)
    ensures ret <==> Cong(Value(r[..]) * Value(r[..]), Value(a[..]), P)
    ensures Prime(P) ==> (ret <==> IsSquare(Value(a[..])))
    ensures Prime(P) && !ret ==> Cong(Value(r[..]) * Value(r[..]), -Value(a[..]), P)
  {
    hide Cong, Pow, MulInput, MulOutput, Value, Prime, Magnitude, IsSquare;
    RootChain(r, a);
    ghost var x, v := Value(r[..]), Value(a[..]);
    OutputIsInput(r[..]);
    var t1 := new int[5];
    SqrInner(t1, r);
    OutputIsInput(t1[..]);
    MagnitudeUp(a[..]);
    ret := Equal(t1, a);
    SquareCong(Value(t1[..]), x * x, v);
    if Prime(P) {
      RootOrOpposite(x, v);
    }
  }

  lemma MagnitudeUp(n: seq<int>)
    requires Magnitude(n, 8)
    ensures Magnitude(n, 31)
  {
  }

  lemma SquareCong(t: int, s: int, a: int)
    requires Cong(t, s, P)
    ensures Cong(t, a, P) <==> Cong(s, a, P)
  {
  }
}
