/** The curve as the multipliers see it: a group killed by N, a generator, and the cheap
    endomorphism that multiplies by LAMBDA. */
module Curves {
  import opened Arith
  import opened Groups
  import opened Scalars

  datatype Curve<!P(!new)> = Curve(g: Group<P>, gen: P, mulLambda: P -> P)
  {
    ghost predicate Lawful() {
      && g.Lawful()
      && g.HasExponent(N)
      && (forall p {:trigger mulLambda(p)} :: mulLambda(p) == g.Mul(LAMBDA, p))
    }

    /** The endomorphism commutes with integer multiples. */
    lemma LambdaOfMul(k: int, p: P)
      requires Lawful()
      ensures mulLambda(g.Mul(k, p)) == g.Mul(k, mulLambda(p))
    {
      hide Group.Mul, Group.Lawful, Group.HasExponent;
      g.MulMul(LAMBDA, k, p);
      g.MulMul(k, LAMBDA, p);
      assert LAMBDA * k == k * LAMBDA;
    }

    /** Two halves of a scalar, one along the endomorphism. */
    lemma Recombine(k: int, s1: int, s2: int, p: P)
      requires Lawful() && Cong(s1 + s2 * LAMBDA, k, N)
      ensures g.add(g.Mul(s1, p), g.Mul(s2, mulLambda(p))) == g.Mul(k, p)
    {
      hide Group.Mul, Group.Lawful, Group.HasExponent, Cong;
      g.MulMul(s2, LAMBDA, p);
      g.MulAdd(s1, s2 * LAMBDA, p);
      g.MulCong(s1 + s2 * LAMBDA, k, N, p);
    }

    lemma NegateMul(k: int, r: int, p: P)
      requires Lawful() && Cong(r, -k, N)
      ensures g.Mul(r, g.neg(p)) == g.Mul(k, p)
    {
      hide Group.Mul, Group.Lawful, Group.HasExponent, Cong;
      g.MulCong(r, -k, N, g.neg(p));
      g.MulOfNeg(-k, p);
      g.MulNeg(-k, p);
    }
  }

  // ----- tables of odd multiples -----

  ghost predicate OddMultiples<P(!new)>(g: Group<P>, pre: seq<P>, a: P) {
    forall i {:trigger pre[i]} :: 0 <= i < |pre| ==> pre[i] == g.Mul(2 * i + 1, a)
  }

  /** [1*a, 3*a, ..., (2n-1)*a] */
  method OddMultiplesTable<P(!new)>(g: Group<P>, n: nat, a: P) returns (pre: seq<P>)
    requires g.Lawful() && n >= 1
    ensures |pre| == n && OddMultiples(g, pre, a)
  {
    hide Group.Mul, Group.Lawful;
    g.MulOne(a);
    g.DoubleIs(a);
    var d := g.add(a, a);
    pre := [a];
    for i := 1 to n
      invariant |pre| == i && OddMultiples(g, pre, a)
    {
      g.MulAdd(2 * (i - 1) + 1, 2, a);
      pre := pre + [g.add(pre[i - 1], d)];
    }
  }

  /** The table entry for a signed odd digit. */
  function TableGet<P(!new)>(g: Group<P>, pre: seq<P>, n: int): P
    requires n % 2 == 1 && -2 * |pre| < n < 2 * |pre|
  {
    if n > 0 then pre[(n - 1) / 2] else g.neg(pre[(-n - 1) / 2])
  }

  lemma TableGetIs<P(!new)>(g: Group<P>, pre: seq<P>, n: int, a: P)
    requires g.Lawful() && OddMultiples(g, pre, a)
    requires n % 2 == 1 && -2 * |pre| < n < 2 * |pre|
    ensures TableGet(g, pre, n) == g.Mul(n, a)
  {
    hide Group.Mul, Group.Lawful;
    if n < 0 {
      g.MulNeg(-n, a);
    }
  }

  lemma LambdaTable<P(!new)>(c: Curve<P>, pre: seq<P>, lam: seq<P>, a: P)
    requires c.Lawful() && OddMultiples(c.g, pre, a) && |lam| == |pre|
    requires forall i :: 0 <= i < |pre| ==> lam[i] == c.mulLambda(pre[i])
    ensures OddMultiples(c.g, lam, c.mulLambda(a))
  {
    hide Group.Mul, Group.Lawful, Curve.Lawful;
    forall i {:trigger lam[i]} | 0 <= i < |lam| ensures lam[i] == c.g.Mul(2 * i + 1, c.mulLambda(a)) {
      c.LambdaOfMul(2 * i + 1, a);
    }
  }
}
