/** ECDSA signing and verification over the multipliers of this project. */
module Ecdsa {
  import opened Arith
  import opened BitLogic
  import opened Groups
  import opened Scalars
  import opened Curves
  import opened EcmultGen
  import opened EcmultGenTable
  import opened Wrappers
  import S = Strauss
  import F = Field5x52Mul

  /** The field prime minus the group order. */
  const P_MINUS_N: int := 0x14551231950B75FC4402DA1722FC9BAEE

  /** A curve with the coordinates and the scalar inverse that signatures use. */
  datatype Signing<!P(!new)> = Signing(curve: Curve<P>, xOf: P -> int, yOdd: P -> bool, inverse: int -> int)
  {
    ghost predicate Lawful() {
      && curve.Lawful()
      && curve.gen != curve.g.zero
      && (forall p {:trigger xOf(p)} :: p != curve.g.zero ==> 0 <= xOf(p) < F.P && xOf(curve.g.neg(p)) == xOf(p))
      && (forall p {:trigger yOdd(p)} :: p != curve.g.zero ==> yOdd(curve.g.neg(p)) == !yOdd(p))
      && (forall k {:trigger inverse(k)} :: IsScalar(inverse(k)) && (k % N != 0 ==> Cong(k * inverse(k), 1, N)))
    }

    lemma Laws()
      requires Lawful()
      ensures curve.Lawful() && curve.g.Lawful() && curve.g.HasExponent(N)
    {
    }

    lemma CoordinatesOf(p: P)
      requires Lawful() && p != curve.g.zero
      ensures 0 <= xOf(p) < F.P && xOf(curve.g.neg(p)) == xOf(p) && yOdd(curve.g.neg(p)) == !yOdd(p)
    {
      assert xOf(p) == xOf(p) && yOdd(p) == yOdd(p);
    }

    lemma InverseOf(k: int)
      requires Lawful()
      ensures IsScalar(inverse(k)) && (k % N != 0 ==> Cong(k * inverse(k), 1, N))
    {
    }

    /** The point the verifier reconstructs: (m/s)*G + (r/s)*Q. */
    ghost function Reconstructed(r: int, s: int, key: P, m: int): P {
      curve.g.add(curve.g.Mul(m * inverse(s), curve.gen), curve.g.Mul(r * inverse(s), key))
    }

    /** Section 4.1.4 of SEC 1: both parts in range and the reconstructed point's x coordinate,
        reduced modulo N, equal to r. */
    ghost predicate Accepts(r: int, s: int, key: P, m: int) {
      && 0 < r < N && 0 < s < N
      && var v := Reconstructed(r, s, key, m);
        v != curve.g.zero && xOf(v) % N == r
    }

    /** Only multiples of N kill the generator. */
    lemma GeneratorOrder(k: int)
      requires Lawful() && k % N != 0
      ensures curve.g.Mul(k, curve.gen) != curve.g.zero
    {
      hide Group.Mul, Group.Lawful, Group.HasExponent, Cong;
      Laws();
      InverseOf(k);
      var i := inverse(k);
      if curve.g.Mul(k, curve.gen) == curve.g.zero {
        curve.g.MulMul(i, k, curve.gen);
        curve.g.MulZero(i);
        assert i * k == k * i;
        curve.g.MulCong(k * i, 1, N, curve.gen);
        curve.g.MulOne(curve.gen);
      }
    }

    /** For a key d*G the reconstructed point is ((m + r*d)/s)*G. */
    lemma ReconstructedIs(r: int, s: int, d: int, m: int)
      requires Lawful()
      ensures Reconstructed(r, s, curve.g.Mul(d, curve.gen), m) == curve.g.Mul((m + r * d) * inverse(s), curve.gen)
    {
      hide Group.Mul, Group.Lawful, Group.HasExponent;
      Laws();
      var i := inverse(s);
      curve.g.MulMul(r * i, d, curve.gen);
      curve.g.MulAdd(m * i, (r * i) * d, curve.gen);
      assert (m + r * d) * i == m * i + (r * i) * d by {
        MulSplit(1, m, r * d, i);
        MulAssoc(r, d, i);
        MulAssoc(r, i, d);
      }
    }

    /** Negating s negates the reconstructed point. */
    lemma NegatedReconstructed(r: int, s: int, key: P, m: int)
      requires Lawful() && 0 < s < N
      ensures Reconstructed(r, N - s, key, m) == curve.g.neg(Reconstructed(r, s, key, m))
    {
      hide Group.Mul, Group.Lawful, Group.HasExponent, Cong;
      Laws();
      var i, j := inverse(s), inverse(N - s);
      InverseOf(s);
      InverseOf(N - s);
      NonzeroScalar(s);
      NonzeroScalar(N - s);
      NegatedInverse(s, i, j);
      NegatedMultiple(curve.g, m, i, j, curve.gen);
      NegatedMultiple(curve.g, r, i, j, key);
      curve.g.NegAdd(curve.g.Mul(m * i, curve.gen), curve.g.Mul(r * i, key));
    }

    /** A signature and its negated twin are accepted together. */
    lemma NegationAccepted(r: int, s: int, key: P, m: int)
      requires Lawful()
      ensures Accepts(r, s, key, m) <==> Accepts(r, N - s, key, m)
    {
      hide Group.Lawful, Signing.Lawful, Signing.Reconstructed;
      if 0 < s < N {
        Laws();
        NegatedReconstructed(r, s, key, m);
        NegatedReconstructed(r, N - s, key, m);
        var v := Reconstructed(r, s, key, m);
        curve.g.NegZero();
        curve.g.NegNeg(v);
        if v != curve.g.zero {
          CoordinatesOf(v);
        }
      }
    }
  }

  lemma NonzeroScalar(s: int)
    requires 0 < s < N
    ensures s % N != 0
  {
    DivIs(s, N, 0, s);
  }

  lemma NegatedInverse(s: int, i: int, j: int)
    requires Cong(s * i, 1, N) && Cong((N - s) * j, 1, N)
    ensures Cong(j, -i, N)
  {
    hide Cong;
    // i = i*(N - s)*j = N*i*j - (s*i)*j, and s*i is 1
    var q := CongGap(s * i, 1, N);
    var t := CongGap((N - s) * j, 1, N);
    NegatedInverseBy(s, i, j, q, t);
    CongBy(j, -i, N, i * j - q * j - t * i);
  }

  lemma NegatedInverseBy(s: int, i: int, j: int, q: int, t: int)
    requires s * i == 1 + q * N && (N - s) * j == 1 + t * N
    ensures j == -i + (i * j - q * j - t * i) * N
  {
    var n := N;
    assert (s * i) * j == (1 + q * n) * j;
    assert ((n - s) * j) * i == (1 + t * n) * i;
    assert ((n - s) * j) * i == n * (i * j) - (s * i) * j by {
      assert (n - s) * j == n * j - s * j;
      assert (n * j - s * j) * i == (n * j) * i - (s * j) * i;
      assert (n * j) * i == n * (i * j);
      assert (s * j) * i == (s * i) * j;
    }
    assert (1 + q * n) * j == j + (q * j) * n;
    assert (1 + t * n) * i == i + (t * i) * n;
    assert (i * j - q * j - t * i) * n == n * (i * j) - (q * j) * n - (t * i) * n;
  }

  lemma NegatedMultiple<P(!new)>(g: Group<P>, m: int, i: int, j: int, p: P)
    requires g.Lawful() && g.HasExponent(N) && Cong(j, -i, N)
    ensures g.Mul(m * j, p) == g.neg(g.Mul(m * i, p))
  {
    hide Group.Mul, Group.Lawful, Group.HasExponent, Cong;
    CongScale(j, -i, m, N);
    assert j * m == m * j && (-i) * m == -(m * i);
    g.MulCong(m * j, -(m * i), N, p);
    g.MulNeg(m * i, p);
  }

  // ----- verification -----

  /** A coordinate below the field prime is r modulo N in at most two ways, because the prime
      is below 2*N. */
  lemma TwoCases(r: int, x: int)
    requires 0 < r < N && 0 <= x < F.P
    ensures x % N == r <==> x == r || (r < P_MINUS_N && x == r + N)
  {
    if x < N {
      DivIs(x, N, 0, x);
    } else {
      DivIs(x, N, 1, x - N);
    }
  }

  /** Whether a point has the x coordinate that the number xr stands for. */
  predicate EqualX<P(!new)>(e: Signing<P>, xr: int, p: P) {
    xr % F.P == e.xOf(p)
  }

  /** Checks a signature without inverting modulo the field prime. */
  method Verify<P(==,!new)>(e: Signing<P>, sigr: int, sigs: int, key: P, message: int,
      preG: seq<P>, preG128: seq<P>, windowG: nat) returns (ok: bool)
    requires e.Lawful() && IsScalar(sigr) && IsScalar(sigs) && IsScalar(message)
    requires S.GeneratorTables(e.curve, preG, preG128, windowG)
    ensures ok <==> e.Accepts(sigr, sigs, key, message)
  {
    hide Group.Mul, Group.Lawful, Group.HasExponent, Signing.Lawful, Signing.Reconstructed, Curve.Lawful,
        S.GeneratorTables;
    e.Laws();
    if sigr == 0 || sigs == 0 {
      return false;
    }
    var sn := e.inverse(sigs);
    var u1 := Mul(sn, message);
    var u2 := Mul(sn, sigr);
    var pr := S.StraussWnaf(e.curve, [key], [u2], Some(u1), preG, preG128, windowG);
    StraussIsReconstructed(e, sigr, sigs, key, message, pr);
    if pr == e.curve.g.zero {
      return false;
    }
    e.CoordinatesOf(pr);
    TwoCases(sigr, e.xOf(pr));
    DivIs(sigr, F.P, 0, sigr);
    var xr := sigr;
    if EqualX(e, xr, pr) {
      return true;
    }
    if xr >= P_MINUS_N {
      return false;
    }
    xr := xr + N;
    DivIs(xr, F.P, 0, xr);
    ok := EqualX(e, xr, pr);
  }

  lemma StraussIsReconstructed<P(!new)>(e: Signing<P>, r: int, s: int, key: P, m: int, pr: P)
    requires e.Lawful()
    requires var sn := e.inverse(s);
      pr == e.curve.g.add(e.curve.g.Dot(1, [Mul(sn, r)], [key]), e.curve.g.Mul(Mul(sn, m), e.curve.gen))
    ensures pr == e.Reconstructed(r, s, key, m)
  {
    hide Group.Mul, Group.Lawful, Group.HasExponent, Signing.Lawful, Group.Dot, Mul;
    e.Laws();
    var g, sn := e.curve.g, e.inverse(s);
    g.NoTerms([Mul(sn, r)], [key]);
    g.DotStep(0, [Mul(sn, r)], [key]);
    g.Unit(g.Mul(Mul(sn, r), key));
    ScalarMultiple(g, sn, r, key);
    ScalarMultiple(g, sn, m, e.curve.gen);
    g.Comm(g.Mul(r * sn, key), g.Mul(m * sn, e.curve.gen));
  }

  lemma ScalarMultiple<P(!new)>(g: Group<P>, a: int, b: int, p: P)
    requires g.Lawful() && g.HasExponent(N)
    ensures g.Mul(Mul(a, b), p) == g.Mul(b * a, p)
  {
    hide Group.Mul, Group.Lawful, Group.HasExponent;
    ModCong(a * b, N);
    assert a * b == b * a;
    g.MulCong(Mul(a, b), b * a, N, p);
  }

  // ----- signing -----

  /** A recovery id and r together give the x coordinate of a point and the parity of its y coordinate. */
  ghost predicate Recovers<P(!new)>(e: Signing<P>, recid: int, r: int, v: P) {
    0 <= recid < 4 && e.xOf(v) == r + (recid / 2) * N && (e.yOdd(v) <==> recid % 2 == 1)
  }

  /** Signs with a nonzero nonce. The second part comes out in the lower half of the range. */
  method Sign<P(==,!new)>(e: Signing<P>, ctx: Context<P>, table: seq<P>, seckey: int, message: int, nonce: int)
      returns (sigr: int, sigs: int, recid: int, ok: bool)
    requires e.Lawful() && ctx.Valid() && ctx.g == e.curve.g && ctx.gen == e.curve.gen
    requires TableOK(ctx.g, ctx.c, table, ctx.g.Mul(Half(1), ctx.gen))
    requires IsScalar(seckey) && IsScalar(message) && 0 < nonce < N
    ensures IsScalar(sigr) && IsScalar(sigs) && 2 * sigs <= N
    ensures sigr == e.xOf(e.curve.g.Mul(nonce, e.curve.gen)) % N
    ensures Cong(sigs * nonce, message + sigr * seckey, N) || Cong(sigs * nonce, -(message + sigr * seckey), N)
    ensures ok <==> sigr != 0 && sigs != 0
    ensures ok ==> e.Accepts(sigr, sigs, e.curve.g.Mul(seckey, e.curve.gen), message)
    ensures ok ==> Recovers(e, recid, sigr, e.Reconstructed(sigr, sigs, e.curve.g.Mul(seckey, e.curve.gen), message))
  {
    hide Group.Mul, Group.Lawful, Group.HasExponent, Signing.Lawful, Signing.Reconstructed, Signing.Accepts, TableOK,
        Xor, Cong;
    e.Laws();
    var rp := ctx.Multiply(table, nonce);
    NonzeroScalar(nonce);
    e.GeneratorOrder(nonce);
    e.CoordinatesOf(rp);
    var x := e.xOf(rp);
    sigr := x % N;
    var overflow := if x >= N then 1 else 0;
    recid := overflow * 2 + (if e.yOdd(rp) then 1 else 0);
    WholeX(x);
    var n := Mul(sigr, seckey);
    n := Add(n, message);
    e.InverseOf(nonce);
    sigs := e.inverse(nonce);
    sigs := Mul(sigs, n);
    ghost var s0 := sigs;
    SignEquation(nonce, e.inverse(nonce), sigr, seckey, message);
    var high := IsHigh(sigs);
    if high {
      sigs := Negate(sigs);
    }
    LowForm(s0, nonce, message + sigr * seckey);
    FlipParity(recid);
    recid := Xor(recid, if high then 1 else 0);
    ok := sigr != 0 && sigs != 0;
    if ok {
      SignedAccepted(e, sigr, s0, seckey, message, nonce);
      if high {
        e.NegationAccepted(sigr, s0, e.curve.g.Mul(seckey, e.curve.gen), message);
        e.NegatedReconstructed(sigr, s0, e.curve.g.Mul(seckey, e.curve.gen), message);
      }
    }
  }

  /** An x coordinate is its residue, or N more. */
  lemma WholeX(x: int)
    requires 0 <= x < F.P
    ensures x == x % N + (if x >= N then N else 0)
  {
    DivIs(x, N, if x >= N then 1 else 0, if x >= N then x - N else x);
  }

  /** Exclusive or with one flips the lowest bit of a two-bit number. */
  lemma FlipParity(r: int)
    requires 0 <= r < 4
    ensures Xor(r, 0) == r
    ensures Xor(r, 1) == if r % 2 == 1 then r - 1 else r + 1
  {
    assert Xor(0, 0) == 0 && Xor(1, 0) == 1;
  }

  /** The equation of section 4.1.3 of SEC 1: s*k = m + r*d. */
  lemma SignEquation(k: int, i: int, r: int, d: int, m: int)
    requires Cong(k * i, 1, N)
    ensures Cong(Mul(i, Add(Mul(r, d), m)) * k, m + r * d, N)
  {
    hide Cong;
    var t := m + r * d;
    var n := Add(Mul(r, d), m);
    ModCong(r * d, N);
    ModCong(Mul(r, d) + m, N);
    var q := CongGap(Mul(r, d), r * d, N);
    var u := CongGap(n, Mul(r, d) + m, N);
    CongBy(n, t, N, q + u);
    ModCong(i * n, N);
    CongScale(Mul(i, n), i * n, k, N);
    assert (i * n) * k == (k * i) * n by {
      MulAssoc(i, n, k);
      MulAssoc(i, k, n);
    }
    CongMul(k * i, 1, n, t, N);
    CongTrans(Mul(i, n) * k, (i * n) * k, t, N);
  }

  /** Negating a high scalar makes it low, and negates what it stands for. */
  lemma LowForm(s: int, k: int, t: int)
    requires IsScalar(s) && Cong(s * k, t, N)
    ensures !IsHigh(s) ==> 2 * s <= N
    ensures IsHigh(s) ==> Negate(s) == N - s && 2 * Negate(s) <= N && Cong(Negate(s) * k, -t, N)
  {
    HighIs(s);
    if IsHigh(s) {
      DivIs(-s, N, -1, N - s);
      var q := CongGap(s * k, t, N);
      assert (N - s) * k == N * k - s * k;
      assert (k - q) * N == N * k - q * N;
      CongBy((N - s) * k, -t, N, k - q);
    }
  }

  /** A signature that satisfies the signing equation reconstructs k*G and is accepted. */
  lemma SignedAccepted<P(!new)>(e: Signing<P>, r: int, s: int, d: int, m: int, k: int)
    requires e.Lawful() && 0 < s < N && 0 < r < N && 0 < k < N
    requires Cong(s * k, m + r * d, N)
    requires r == e.xOf(e.curve.g.Mul(k, e.curve.gen)) % N
    ensures e.Reconstructed(r, s, e.curve.g.Mul(d, e.curve.gen), m) == e.curve.g.Mul(k, e.curve.gen)
    ensures e.Accepts(r, s, e.curve.g.Mul(d, e.curve.gen), m)
  {
    hide Group.Mul, Group.Lawful, Group.HasExponent, Signing.Lawful, Signing.Reconstructed, Cong;
    e.Laws();
    NonzeroScalar(s);
    NonzeroScalar(k);
    e.InverseOf(s);
    e.ReconstructedIs(r, s, d, m);
    Unscale(s, e.inverse(s), k, m + r * d);
    e.curve.g.MulCong((m + r * d) * e.inverse(s), k, N, e.curve.gen);
    e.GeneratorOrder(k);
  }

  lemma Unscale(s: int, i: int, k: int, t: int)
    requires Cong(s * i, 1, N) && Cong(s * k, t, N)
    ensures Cong(t * i, k, N)
  {
    hide Cong;
    var q := CongGap(s * i, 1, N);
    var u := CongGap(s * k, t, N);
    assert (s * k) * i == (s * i) * k by {
      MulAssoc(s, k, i);
      MulAssoc(s, i, k);
    }
    MulSplit(u, N, t, i);
    MulSplit(q, N, 1, k);
    MulAssoc(u, N, i);
    MulAssoc(q, N, k);
    MulAssoc(u, i, N);
    MulAssoc(q, k, N);
    CongBy(t * i, k, N, q * k - u * i);
  }
}
