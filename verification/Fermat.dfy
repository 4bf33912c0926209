/** Powers modulo a prime: Fermat's theorem and square roots of one. */
module Fermat {
  import opened Arith

  ghost function Pow(a: int, e: nat): int
    decreases e, a
  {
    if e == 0 then 1 else a * Pow(a, e - 1)
  }

  lemma {:induction false} PowAdd(a: int, e: nat, f: nat)
    ensures Pow(a, e + f) == Pow(a, e) * Pow(a, f)
    decreases e
  {
    if e > 0 {
      PowAdd(a, e - 1, f);
      MulAssoc(a, Pow(a, e - 1), Pow(a, f));
      assert Pow(a, f) * Pow(a, e - 1) == Pow(a, e - 1) * Pow(a, f);
    }
  }

  lemma {:induction false} PowCong(a: int, b: int, e: nat, p: int)
    requires p > 0 && Cong(a, b, p)
    ensures Cong(Pow(a, e), Pow(b, e), p)
    decreases e
  {
    if e > 0 {
      PowCong(a, b, e - 1, p);
      CongMul(a, b, Pow(a, e - 1), Pow(b, e - 1), p);
    }
  }

  lemma PowTwice(a: int, e: nat)
    ensures Pow(a, 2 * e) == Pow(a, e) * Pow(a, e)
  {
    PowAdd(a, e, e);
  }

  lemma {:induction false} PowSquare(s: int, e: nat)
    ensures Pow(s * s, e) == Pow(s, 2 * e)
    decreases e
  {
    if e > 0 {
      PowSquare(s, e - 1);
      PowAdd(s, 2, 2 * e - 2);
      assert Pow(s, 1) == s * Pow(s, 0) && Pow(s, 2) == s * Pow(s, 1);
    }
  }

  // ----- primes -----

  predicate Divides(p: int, x: int)
    requires p > 0
  {
    x % p == 0
  }

  predicate DividesProduct(p: int, x: int, y: int)
    requires p > 0
  {
    Divides(p, x * y)
  }

  /** p divides a product only when it divides a factor. */
  ghost predicate Prime(p: int) {
    p > 1 && forall x, y :: DividesProduct(p, x, y) ==> Divides(p, x) || Divides(p, y)
  }

  lemma PrimeFactor(p: int, x: int, y: int)
    requires Prime(p) && Divides(p, x * y)
    ensures Divides(p, x) || Divides(p, y)
  {
    assert DividesProduct(p, x, y);
  }

  lemma DistributeMinus(a: int, x: int, y: int)
    ensures a * (x - y) == a * x - a * y
  {
  }

  /** A factor prime to p can be cancelled. */
  lemma Cancel(a: int, x: int, y: int, p: int)
    requires Prime(p) && !Divides(p, a) && Cong(a * x, a * y, p)
    ensures Cong(x, y, p)
  {
    hide Cong;
    var q := CongGap(a * x, a * y, p);
    DistributeMinus(a, x, y);
    DivIs(a * (x - y), p, q, 0);
    PrimeFactor(p, a, x - y);
    CongBy(x, y, p, (x - y) / p);
  }

  lemma NonEmpty(s: set<int>)
    requires |s| > 0
    ensures exists x :: x in s
  {
    if forall x :: x !in s {
      assert false;
    }
  }

  ghost function Product(s: set<int>): int {
    if |s| == 0 then 1 else
      NonEmpty(s);
      var x :| x in s;
      x * Product(s - {x})
  }

  lemma SwapFactors(x: int, y: int, rest: int)
    ensures y * (x * rest) == x * (y * rest)
  {
  }

  /** Any member may be taken out first. */
  lemma {:induction false} ProductTake(s: set<int>, x: int)
    requires x in s
    ensures Product(s) == x * Product(s - {x})
    decreases s
  {
    var y :| y in s && Product(s) == y * Product(s - {y});
    if y != x {
      ProductTake(s - {y}, x);
      ProductTake(s - {x}, y);
      assert s - {y} - {x} == s - {x} - {y};
      hide Product;
      SwapFactors(x, y, Product(s - {x} - {y}));
    }
  }

  function TimesMod(a: int, x: int, p: int): int
    requires p > 0
  {
    (a * x) % p
  }

  /** The residues a*x of the members of s. */
  ghost function Scaled(a: int, s: set<int>, p: int): set<int>
    requires p > 0
  {
    set x | x in s :: TimesMod(a, x, p)
  }

  ghost predicate Residues(s: set<int>, p: int) {
    forall x :: x in s ==> 0 < x < p
  }

  /** Two members with the same scaled residue are equal. */
  lemma ScaledInjective(a: int, x: int, z: int, p: int)
    requires Prime(p) && !Divides(p, a) && 0 < x < p && 0 < z < p && TimesMod(a, x, p) == TimesMod(a, z, p)
    ensures x == z
  {
    Cancel(a, x, z, p);
    CongSmall(x, z, p);
  }

  /** One more member gives one more residue. */
  lemma ScaledStep(a: int, s: set<int>, x: int, p: int)
    requires Prime(p) && !Divides(p, a) && Residues(s, p) && x in s
    ensures var image := Scaled(a, s - {x}, p);
      var y := TimesMod(a, x, p);
      y !in image && Scaled(a, s, p) == image + {y} && Scaled(a, s, p) - {y} == image
  {
    hide TimesMod, Prime, Divides;
    var image := Scaled(a, s - {x}, p);
    var y := TimesMod(a, x, p);
    if y in image {
      var z :| z in s - {x} && TimesMod(a, z, p) == y;
      ScaledInjective(a, x, z, p);
    }
    assert Scaled(a, s, p) == image + {y};
  }

  lemma {:induction false} ScaledProduct(a: int, s: set<int>, p: int)
    requires Prime(p) && !Divides(p, a) && Residues(s, p)
    ensures |Scaled(a, s, p)| == |s|
    ensures Cong(Product(Scaled(a, s, p)), Pow(a, |s|) * Product(s), p)
    decreases s
  {
    if |s| == 0 {
      assert Scaled(a, s, p) == {};
      assert Pow(a, 0) == 1;
    } else {
      hide Cong, Prime, Divides, Product;
      NonEmpty(s);
      var x :| x in s;
      var rest := s - {x};
      var y := TimesMod(a, x, p);
      ScaledProduct(a, rest, p);
      ScaledStep(a, s, x, p);
      hide Scaled;
      ProductTake(Scaled(a, s, p), y);
      ProductTake(s, x);
      ModCong(a * x, p);
      StepProduct(y, a, x, Product(Scaled(a, rest, p)), Pow(a, |rest|), Product(rest), p);
      assert |s| == |rest| + 1;
    }
  }

  lemma StepProduct(y: int, a: int, x: int, image: int, power: int, rest: int, p: int)
    requires p > 0 && Cong(y, a * x, p) && Cong(image, power * rest, p)
    ensures Cong(y * image, (a * power) * (x * rest), p)
  {
    CongMul(y, a * x, image, power * rest, p);
    assert (a * x) * (power * rest) == (a * power) * (x * rest);
  }

  lemma NotDivides(x: int, p: int)
    requires 0 < x < p
    ensures !Divides(p, x)
  {
    DivIs(x, p, 0, x);
  }

  lemma {:induction false} ProductPrime(s: set<int>, p: int)
    requires Prime(p) && Residues(s, p)
    ensures !Divides(p, Product(s))
    decreases s
  {
    if |s| == 0 {
      NotDivides(1, p);
    } else {
      NonEmpty(s);
      var x :| x in s;
      ProductTake(s, x);
      ProductPrime(s - {x}, p);
      NotDivides(x, p);
      hide Prime, Divides, Product;
      if Divides(p, Product(s)) {
        PrimeFactor(p, x, Product(s - {x}));
      }
    }
  }

  ghost function UpTo(n: nat): (s: set<int>)
    ensures forall x :: x in s <==> 0 < x <= n
    ensures |s| == n
  {
    if n == 0 then {} else UpTo(n - 1) + {n}
  }

  lemma {:induction false} SameSize(s: set<int>, t: set<int>)
    requires s <= t && |s| == |t|
    ensures s == t
    decreases s
  {
    if |s| == 0 {
    } else {
      NonEmpty(s);
      var x :| x in s;
      SameSize(s - {x}, t - {x});
    }
  }

  /** Multiplication by a permutes the nonzero residues. */
  lemma ScaledAll(a: int, p: int)
    requires Prime(p) && !Divides(p, a)
    ensures Scaled(a, UpTo(p - 1), p) == UpTo(p - 1)
  {
    var all := UpTo(p - 1);
    var image := Scaled(a, all, p);
    ScaledProduct(a, all, p);
    forall y | y in image
      ensures y in all
    {
      var x :| x in all && TimesMod(a, x, p) == y;
      NotDivides(x, p);
      if Divides(p, a * x) {
        PrimeFactor(p, a, x);
      }
    }
    SameSize(image, all);
  }

  /** Fermat's little theorem. */
  lemma FermatLittle(a: int, p: int)
    requires Prime(p) && !Divides(p, a)
    ensures Cong(Pow(a, p - 1), 1, p)
  {
    hide Pow, Product, Scaled, Prime;
    PrimePositive(p);
    var all := UpTo(p - 1);
    var q := Product(all);
    ScaledAll(a, p);
    ScaledProduct(a, all, p);
    ProductPrime(all, p);
    assert Cong(q * Pow(a, p - 1), q * 1, p) by {
      assert Pow(a, p - 1) * q == q * Pow(a, p - 1);
    }
    Cancel(q, Pow(a, p - 1), 1, p);
  }

  lemma PrimePositive(p: int)
    requires Prime(p)
    ensures p > 1
  {
  }

  /** The only square roots of one modulo a prime. */
  lemma RootsOfOne(x: int, p: int)
    requires Prime(p) && Cong(x * x, 1, p)
    ensures Cong(x, 1, p) || Cong(x, -1, p)
  {
    hide Cong;
    var q := CongGap(x * x, 1, p);
    assert x * x - 1 == (x - 1) * (x + 1);
    DivIs((x - 1) * (x + 1), p, q, 0);
    PrimeFactor(p, x - 1, x + 1);
    if Divides(p, x - 1) {
      CongBy(x, 1, p, (x - 1) / p);
    } else {
      CongBy(x, -1, p, (x + 1) / p);
    }
  }

  /** Euler's criterion, first half: the power (p-1)/2 of a residue is 1 or -1. */
  lemma Euler(a: int, p: int)
    requires Prime(p) && p % 2 == 1 && !Divides(p, a)
    ensures Cong(Pow(a, (p - 1) / 2), 1, p) || Cong(Pow(a, (p - 1) / 2), -1, p)
  {
    FermatLittle(a, p);
    PowTwice(a, (p - 1) / 2);
    RootsOfOne(Pow(a, (p - 1) / 2), p);
  }

  /** Euler's criterion, second half: for a square it is 1. */
  lemma EulerSquare(a: int, s: int, p: int)
    requires Prime(p) && p % 2 == 1 && !Divides(p, a) && Cong(s * s, a, p)
    ensures Cong(Pow(a, (p - 1) / 2), 1, p)
  {
    if Divides(p, s) {
      CongBy(s, 0, p, s / p);
      CongMul(s, 0, s, 0, p);
      assert false;
    }
    FermatLittle(s, p);
    PowSquare(s, (p - 1) / 2);
    PowCong(s * s, a, (p - 1) / 2, p);
  }
}
