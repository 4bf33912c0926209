/** The additive group the curve points live in, with its laws as a hypothesis,
    integer multiples and linear combinations. The theorems of this project hold for every
    such group; nothing about coordinates is used except where a module says so. */
module Groups {
  import opened Arith

  datatype Group<!P(!new)> = Group(zero: P, add: (P, P) -> P, neg: P -> P)
  {
    // The laws are triggered only by these names, so that a proof decides where to use them.
    ghost predicate Ask1(a: P) { true }
    ghost predicate Ask2(a: P, b: P) { true }
    ghost predicate Ask3(a: P, b: P, c: P) { true }

    ghost predicate Lawful() {
      && (forall a, b, c {:trigger Ask3(a, b, c)} :: add(add(a, b), c) == add(a, add(b, c)))
      && (forall a, b {:trigger Ask2(a, b)} :: add(a, b) == add(b, a))
      && (forall a {:trigger Ask1(a)} :: add(a, zero) == a && add(a, neg(a)) == zero)
    }

    lemma Assoc(a: P, b: P, c: P)
      requires Lawful()
      ensures add(add(a, b), c) == add(a, add(b, c))
    {
      assert Ask3(a, b, c);
    }

    lemma Comm(a: P, b: P)
      requires Lawful()
      ensures add(a, b) == add(b, a)
    {
      assert Ask2(a, b);
    }

    lemma Unit(a: P)
      requires Lawful()
      ensures add(a, zero) == a && add(zero, a) == a
    {
      assert Ask1(a) && Ask2(a, zero);
    }

    lemma Inverse(a: P)
      requires Lawful()
      ensures add(a, neg(a)) == zero && add(neg(a), a) == zero
    {
      assert Ask1(a) && Ask2(a, neg(a));
    }

    /** b + (a + c) and (a + b) + c. */
    lemma Swap(a: P, b: P, c: P)
      requires Lawful()
      ensures add(add(a, b), c) == add(add(a, c), b)
    {
      Assoc(a, b, c);
      Comm(b, c);
      Assoc(a, c, b);
    }

    lemma Interchange(a: P, b: P, c: P, d: P)
      requires Lawful()
      ensures add(add(a, b), add(c, d)) == add(add(a, c), add(b, d))
    {
      Assoc(add(a, b), c, d);
      Swap(a, b, c);
      Assoc(add(a, c), b, d);
    }

    /** An inverse is unique. */
    lemma NegIs(a: P, b: P)
      requires Lawful() && add(a, b) == zero
      ensures b == neg(a)
    {
      Unit(b);
      Inverse(a);
      Assoc(neg(a), a, b);
      Unit(neg(a));
    }

    lemma NegAdd(a: P, b: P)
      requires Lawful()
      ensures neg(add(a, b)) == add(neg(a), neg(b))
    {
      Interchange(a, b, neg(a), neg(b));
      Inverse(a);
      Inverse(b);
      Unit(zero);
      NegIs(add(a, b), add(neg(a), neg(b)));
    }

    lemma NegNeg(a: P)
      requires Lawful()
      ensures neg(neg(a)) == a
    {
      Inverse(a);
      NegIs(neg(a), a);
    }

    lemma NegZero()
      requires Lawful()
      ensures neg(zero) == zero
    {
      Unit(zero);
      NegIs(zero, zero);
    }

    // ----- integer multiples -----

    ghost function Mul(k: int, p: P): P
      decreases if k < 0 then 1 else 0, if k < 0 then -k else k, k, p
    {
      if k == 0 then zero
      else if k > 0 then add(Mul(k - 1, p), p)
      else neg(Mul(-k, p))
    }

    lemma MulOne(p: P)
      requires Lawful()
      ensures Mul(1, p) == p && Mul(0, p) == zero
    {
      Unit(p);
    }

    lemma MulNeg(k: int, p: P)
      requires Lawful()
      ensures Mul(-k, p) == neg(Mul(k, p))
    {
      NegZero();
      NegNeg(Mul(-k, p));
    }

    lemma MulSucc(k: int, p: P)
      requires Lawful()
      ensures Mul(k + 1, p) == add(Mul(k, p), p)
    {
      if k < 0 {
        // Mul(-k) == Mul(-k - 1) + p, and both are negated
        MulNeg(-k - 1, p);
        MulNeg(-k, p);
        NegAdd(Mul(-k - 1, p), p);
        Assoc(neg(Mul(-k - 1, p)), neg(p), p);
        Inverse(p);
        Unit(neg(Mul(-k - 1, p)));
      }
    }

    lemma {:induction false} MulAdd(j: int, k: int, p: P)
      requires Lawful()
      ensures Mul(j + k, p) == add(Mul(j, p), Mul(k, p))
      decreases if k < 0 then -k else k
    {
      if k == 0 {
        Unit(Mul(j, p));
      } else if k > 0 {
        MulAdd(j, k - 1, p);
        MulSucc(j + k - 1, p);
        Assoc(Mul(j, p), Mul(k - 1, p), p);
      } else {
        // (j + k) + 1 == j + (k + 1), and p cancels
        MulAdd(j, k + 1, p);
        MulSucc(j + k, p);
        MulSucc(k, p);
        Assoc(Mul(j, p), Mul(k, p), p);
        CancelRight(Mul(j + k, p), add(Mul(j, p), Mul(k, p)), p);
      }
    }

    lemma CancelRight(a: P, b: P, c: P)
      requires Lawful() && add(a, c) == add(b, c)
      ensures a == b
    {
      Assoc(a, c, neg(c));
      Assoc(b, c, neg(c));
      Inverse(c);
      Unit(a);
      Unit(b);
    }

    lemma {:induction false} MulDistrib(k: int, p: P, q: P)
      requires Lawful()
      ensures Mul(k, add(p, q)) == add(Mul(k, p), Mul(k, q))
      decreases if k < 0 then 1 else 0, if k < 0 then -k else k
    {
      if k == 0 {
        Unit(zero);
      } else if k > 0 {
        MulDistrib(k - 1, p, q);
        Interchange(Mul(k - 1, p), Mul(k - 1, q), p, q);
      } else {
        MulDistrib(-k, p, q);
        NegAdd(Mul(-k, p), Mul(-k, q));
      }
    }

    lemma {:induction false} MulMul(j: int, k: int, p: P)
      requires Lawful()
      ensures Mul(j * k, p) == Mul(j, Mul(k, p))
      decreases if j < 0 then 1 else 0, if j < 0 then -j else j
    {
      if j == 0 {
      } else if j > 0 {
        MulMul(j - 1, k, p);
        assert j * k == (j - 1) * k + k;
        MulAdd((j - 1) * k, k, p);
      } else {
        MulMul(-j, k, p);
        assert (-j) * k == -(j * k);
        MulNeg(j * k, p);
        NegNeg(Mul(j * k, p));
      }
    }

    lemma {:induction false} MulZero(k: int)
      requires Lawful()
      ensures Mul(k, zero) == zero
      decreases if k < 0 then 1 else 0, if k < 0 then -k else k
    {
      Unit(zero);
      NegZero();
      if k > 0 {
        MulZero(k - 1);
      } else if k < 0 {
        MulZero(-k);
      }
    }

    lemma MulOfNeg(k: int, p: P)
      requires Lawful()
      ensures Mul(k, neg(p)) == neg(Mul(k, p))
    {
      MulDistrib(k, p, neg(p));
      Inverse(p);
      MulZero(k);
      NegIs(Mul(k, p), Mul(k, neg(p)));
    }

    lemma Double(k: int, p: P)
      requires Lawful()
      ensures add(Mul(k, p), Mul(k, p)) == Mul(2 * k, p)
    {
      MulAdd(k, k, p);
    }

    lemma DoubleIs(p: P)
      requires Lawful()
      ensures add(p, p) == Mul(2, p)
    {
      MulOne(p);
      Double(1, p);
    }

    /** Every element is killed by n. */
    ghost predicate HasExponent(n: int) {
      n > 0 && forall p {:trigger Ask1(p)} :: Mul(n, p) == zero
    }

    lemma MulCong(j: int, k: int, n: int, p: P)
      requires Lawful() && HasExponent(n) && Cong(j, k, n)
      ensures Mul(j, p) == Mul(k, p)
    {
      var q := CongGap(j, k, n);
      MulAdd(k, q * n, p);
      MulMul(q, n, p);
      assert Ask1(p);
      MulZero(q);
      Unit(Mul(k, p));
    }

    // ----- linear combinations -----

    /** k[0]*p[0] + ... + k[n-1]*p[n-1] */
    ghost function Dot(n: nat, k: seq<int>, p: seq<P>): P
      requires n <= |k| && n <= |p|
    {
      if n == 0 then zero else add(Dot(n - 1, k, p), Mul(k[n - 1], p[n - 1]))
    }

    lemma DotStep(n: nat, k: seq<int>, p: seq<P>)
      requires n < |k| && n < |p|
      ensures Dot(n + 1, k, p) == add(Dot(n, k, p), Mul(k[n], p[n]))
    {
    }

    lemma NoTerms(k: seq<int>, p: seq<P>)
      ensures Dot(0, k, p) == zero
    {
    }

    lemma {:induction false} DotSame(n: nat, k: seq<int>, l: seq<int>, p: seq<P>, q: seq<P>)
      requires n <= |k| && n <= |p| && n <= |l| && n <= |q|
      requires forall j :: 0 <= j < n ==> Mul(k[j], p[j]) == Mul(l[j], q[j])
      ensures Dot(n, k, p) == Dot(n, l, q)
    {
      if n > 0 {
        DotSame(n - 1, k, l, p, q);
      }
    }

    /** Adding coefficients adds combinations. */
    lemma {:induction false} DotAdd(n: nat, k: seq<int>, l: seq<int>, m: seq<int>, p: seq<P>)
      requires Lawful()
      requires n <= |k| && n <= |p| && n <= |l| && n <= |m|
      requires forall j :: 0 <= j < n ==> m[j] == k[j] + l[j]
      ensures Dot(n, m, p) == add(Dot(n, k, p), Dot(n, l, p))
    {
      if n == 0 {
        Unit(zero);
      } else {
        DotAdd(n - 1, k, l, m, p);
        MulAdd(k[n - 1], l[n - 1], p[n - 1]);
        Interchange(Dot(n - 1, k, p), Dot(n - 1, l, p), Mul(k[n - 1], p[n - 1]), Mul(l[n - 1], p[n - 1]));
      }
    }

    /** Scaling the coefficients scales the combination. */
    lemma {:induction false} DotScale(c: int, n: nat, k: seq<int>, m: seq<int>, p: seq<P>)
      requires Lawful()
      requires n <= |k| && n <= |p| && n <= |m|
      requires forall j :: 0 <= j < n ==> m[j] == c * k[j]
      ensures Dot(n, m, p) == Mul(c, Dot(n, k, p))
    {
      if n == 0 {
        MulZero(c);
      } else {
        DotScale(c, n - 1, k, m, p);
        MulMul(c, k[n - 1], p[n - 1]);
        MulDistrib(c, Dot(n - 1, k, p), Mul(k[n - 1], p[n - 1]));
      }
    }

    /** A combination whose terms all vanish. */
    lemma {:induction false} DotVanish(n: nat, k: seq<int>, p: seq<P>)
      requires Lawful()
      requires n <= |k| && n <= |p|
      requires forall j :: 0 <= j < n ==> Mul(k[j], p[j]) == zero
      ensures Dot(n, k, p) == zero
    {
      if n > 0 {
        DotVanish(n - 1, k, p);
        Unit(zero);
      }
    }
  }
}
