/** Multi-point multiplication by interleaved doublings: sum of na[i]*a[i], plus ng*G. */
module Strauss {
  import opened Arith
  import opened Bytes
  import opened Groups
  import opened Scalars
  import opened Curves
  import opened Wnaf
  import opened Windows
  import opened Wrappers

  const WINDOW_A: nat := 5
  const DIGITS: nat := 129

  /** The number of odd multiples a window of w bits can ask for. */
  function TableSize(w: nat): nat
    requires w >= 2
  {
    Pow2(w - 2)
  }

  datatype PointState<P> =
    PointState(wnafNa1: seq<int>, wnafNaLam: seq<int>, bitsNa1: nat, bitsNaLam: nat, preA: seq<P>, aux: seq<P>)

  // ----- recoding -----

  /** d writes v in window-w digits, all below position used. */
  ghost predicate Digits(d: seq<int>, used: nat, w: nat, v: int) {
    && w >= 2 && |d| == DIGITS && used <= DIGITS
    && (forall i :: used <= i < DIGITS ==> d[i] == 0)
    && (forall i :: 0 <= i < DIGITS ==> WindowDigit(w, d[i]))
    && Radix(1, d, DIGITS) == v
  }

  method Recode(a: int, w: nat) returns (d: seq<int>, used: nat)
    requires IsScalar(a) && 2 <= w <= 31 && -TWO_128 < Signed(a) < TWO_128
    ensures Digits(d, used, w, Signed(a))
  {
    hide WindowValue, CarryBacked, Radix, Signed, WindowDigit, Sparse, Pow2;
    Pow2Values();
    var wnaf := new int[DIGITS];
    ghost var carry;
    used, carry := EcmultWnaf(wnaf, DIGITS, a, w);
    d := wnaf[..];
  }

  lemma DigitFits(d: seq<int>, used: nat, w: nat, v: int, i: nat)
    requires Digits(d, used, w, v) && i < DIGITS && d[i] != 0
    ensures i < used && d[i] % 2 == 1 && -2 * TableSize(w) < d[i] < 2 * TableSize(w)
  {
    Pow2Succ(w - 2);
  }

  /** The two halves of a scalar, recoded, with their tables, for the point a. */
  ghost predicate Ready<P(!new)>(c: Curve<P>, s: PointState<P>, d1: seq<int>, d2: seq<int>, q1: P, q2: P) {
    && d1 == s.wnafNa1 && d2 == s.wnafNaLam
    && Lane(c.g, d1, s.bitsNa1, s.preA, WINDOW_A, q1)
    && Lane(c.g, d2, s.bitsNaLam, s.aux, WINDOW_A, q2)
  }

  /** A digit row together with the table it indexes. */
  ghost predicate Lane<P(!new)>(g: Group<P>, d: seq<int>, used: nat, pre: seq<P>, w: nat, q: P) {
    && w >= 2 && |pre| == TableSize(w)
    && Digits(d, used, w, Radix(1, d, |d|))
    && OddMultiples(g, pre, q)
  }

  ghost predicate Rows(ds: seq<seq<int>>, bits: nat) {
    && bits <= DIGITS
    && (forall j :: 0 <= j < |ds| ==> |ds[j]| == DIGITS)
    && (forall j, i :: 0 <= j < |ds| && bits <= i < DIGITS ==> ds[j][i] == 0)
  }

  ghost function Values(ds: seq<seq<int>>): (v: seq<int>)
    ensures |v| == |ds|
  {
    seq(|ds|, j requires 0 <= j < |ds| => Radix(1, ds[j], |ds[j]|))
  }

  lemma TwoRows<P(!new)>(g: Group<P>, ds: seq<seq<int>>, bits: nat, qs: seq<P>,
      d1: seq<int>, u1: nat, v1: int, w1: nat, q1: P, d2: seq<int>, u2: nat, v2: int, w2: nat, q2: P, total: P,
          top: nat)
    requires g.Lawful() && Rows(ds, bits) && |qs| == |ds|
    requires Digits(d1, u1, w1, v1) && Digits(d2, u2, w2, v2)
    requires g.add(g.Mul(v1, q1), g.Mul(v2, q2)) == total
    requires bits <= top <= DIGITS && u1 <= top && u2 <= top
    ensures Rows(ds + [d1, d2], top)
    ensures g.Dot(|qs| + 2, Values(ds + [d1, d2]), qs + [q1, q2]) == g.add(g.Dot(|qs|, Values(ds), qs), total)
  {
    hide Group.Lawful, Group.Mul;
    var es, ps := ds + [d1, d2], qs + [q1, q2];
    g.DotSame(|qs|, Values(ds), Values(es), qs, ps);
    assert Values(es)[|qs|] == v1 && Values(es)[|qs| + 1] == v2;
    assert g.Dot(|qs| + 2, Values(es), ps) == g.add(g.Dot(|qs| + 1, Values(es), ps), g.Mul(v2, q2));
    g.Assoc(g.Dot(|qs|, Values(ds), qs), g.Mul(v1, q1), g.Mul(v2, q2));
  }

  // ----- preparing the points -----

  ghost predicate AllReady<P(!new)>(c: Curve<P>, ps: seq<PointState<P>>, ds: seq<seq<int>>, qs: seq<P>) {
    && |ds| == |qs| == 2 * |ps|
    && (forall j :: 0 <= j < |ps| ==> Ready(c, ps[j], ds[2 * j], ds[2 * j + 1], qs[2 * j], qs[2 * j + 1]))
  }

  lemma ReadySnoc<P(!new)>(c: Curve<P>, ps: seq<PointState<P>>, ds: seq<seq<int>>, qs: seq<P>,
      s: PointState<P>, d1: seq<int>, d2: seq<int>, q1: P, q2: P)
    requires AllReady(c, ps, ds, qs) && Ready(c, s, d1, d2, q1, q2)
    ensures AllReady(c, ps + [s], ds + [d1, d2], qs + [q1, q2])
  {
    hide Ready;
  }

  /** Splits one scalar, recodes both halves and builds both tables. */
  method PreparePoint<P(!new)>(c: Curve<P>, a: P, na: int) returns (s: PointState<P>, ghost v1: int, ghost v2: int)
    requires c.Lawful() && IsScalar(na)
    ensures Ready(c, s, s.wnafNa1, s.wnafNaLam, a, c.mulLambda(a))
    ensures Digits(s.wnafNa1, s.bitsNa1, WINDOW_A, v1) && Digits(s.wnafNaLam, s.bitsNaLam, WINDOW_A, v2)
    ensures c.g.add(c.g.Mul(v1, a), c.g.Mul(v2, c.mulLambda(a))) == c.g.Mul(na, a)
  {
    hide Group.Lawful, Group.Mul, Group.HasExponent, SplitLambda, Short1, Short2, Cong, Signed, Digits, OddMultiples;
    var (na1, naLam) := SplitLambda(na);
    ShortBounds(na);
    FirstHalf(na);
    SecondHalf(na);
    SignedOfShort(na1, Short1(na));
    SignedOfShort(naLam, Short2(na));
    v1, v2 := Signed(na1), Signed(naLam);
    ShortsRecombine(na);
    c.Recombine(na, v1, v2, a);
    var d1, bits1 := Recode(na1, WINDOW_A);
    var d2, bits2 := Recode(naLam, WINDOW_A);
    var pre := OddMultiplesTable(c.g, TableSize(WINDOW_A), a);
    var aux := [];
    for i := 0 to |pre|
      invariant |aux| == i && (forall k :: 0 <= k < i ==> aux[k] == c.mulLambda(pre[k]))
    {
      aux := aux + [c.mulLambda(pre[i])];
    }
    LambdaTable(c, pre, aux, a);
    DigitsValue(d1, bits1, WINDOW_A, v1);
    DigitsValue(d2, bits2, WINDOW_A, v2);
    s := PointState(d1, d2, bits1, bits2, pre, aux);
  }

  lemma DigitsValue(d: seq<int>, used: nat, w: nat, v: int)
    requires Digits(d, used, w, v)
    ensures Digits(d, used, w, Radix(1, d, |d|))
  {
  }

  method Prepare<P(==,!new)>(c: Curve<P>, a: seq<P>, na: seq<int>)
      returns (ps: seq<PointState<P>>, bits: nat, ghost ds: seq<seq<int>>, ghost qs: seq<P>)
    requires c.Lawful() && |a| == |na| && (forall i :: 0 <= i < |na| ==> IsScalar(na[i]))
    ensures AllReady(c, ps, ds, qs) && Rows(ds, bits)
    ensures c.g.Dot(|qs|, Values(ds), qs) == c.g.Dot(|a|, na, a)
  {
    hide *;
    ps, bits, ds, qs := [], 0, [], [];
    PrepareStart(c, a, na);
    for np := 0 to |a|
      invariant AllReady(c, ps, ds, qs) && Rows(ds, bits) && |qs| == |ds| && bits <= DIGITS
      invariant c.g.Dot(|qs|, Values(ds), qs) == c.g.Dot(np, na, a)
    {
      LawfulGroup(c);
      c.g.DotStep(np, na, a);
      if na[np] == 0 || a[np] == c.g.zero {
        c.g.MulZero(na[np]);
        c.g.MulOne(a[np]);
        c.g.Unit(c.g.Dot(np, na, a));
        continue;
      }
      var s;
      ghost var v1, v2;
      s, v1, v2 := PreparePoint(c, a[np], na[np]);
      ReadySnoc(c, ps, ds, qs, s, s.wnafNa1, s.wnafNaLam, a[np], c.mulLambda(a[np]));
      ghost var before := bits;
      DigitsUsed(s.wnafNa1, s.bitsNa1, WINDOW_A, v1);
      DigitsUsed(s.wnafNaLam, s.bitsNaLam, WINDOW_A, v2);
      if s.bitsNa1 > bits {
        bits := s.bitsNa1;
      }
      if s.bitsNaLam > bits {
        bits := s.bitsNaLam;
      }
      TwoRows(c.g, ds, before, qs, s.wnafNa1, s.bitsNa1, v1, WINDOW_A, a[np],
        s.wnafNaLam, s.bitsNaLam, v2, WINDOW_A, c.mulLambda(a[np]), c.g.Mul(na[np], a[np]), bits);
      ds, qs, ps := ds + [s.wnafNa1, s.wnafNaLam], qs + [a[np], c.mulLambda(a[np])], ps + [s];
    }
  }

  lemma PrepareStart<P(!new)>(c: Curve<P>, a: seq<P>, na: seq<int>)
    requires |a| == |na|
    ensures AllReady(c, [], [], []) && Rows([], 0)
    ensures c.g.Dot(0, Values([]), []) == c.g.Dot(0, na, a)
  {
  }

  lemma DigitsUsed(d: seq<int>, used: nat, w: nat, v: int)
    requires Digits(d, used, w, v)
    ensures used <= DIGITS
  {
  }

  lemma LawfulGroup<P(!new)>(c: Curve<P>)
    requires c.Lawful()
    ensures c.g.Lawful()
  {
  }

  // ----- the interleaved loop -----

  /** Adds the table entry for digit i, if there is one. */
  method AddDigit<P(!new)>(g: Group<P>, r0: P, d: seq<int>, used: nat, pre: seq<P>, w: nat, i: nat, ghost q: P)
      returns (r: P)
    requires g.Lawful() && Lane(g, d, used, pre, w, q) && i < DIGITS
    ensures r == g.add(r0, g.Mul(d[i], q))
  {
    hide Group.Lawful, Group.Mul, Radix, WindowDigit, TableSize;
    g.MulOne(q);
    g.Unit(r0);
    r := r0;
    if i < used {
      var n := d[i];
      if n != 0 {
        DigitFits(d, used, w, Radix(1, d, |d|), i);
        TableGetIs(g, pre, n, q);
        r := g.add(r, TableGet(g, pre, n));
      }
    }
  }

  /** The combination of all digits at positions i and above. */
  ghost function Partial<P(!new)>(g: Group<P>, ds: seq<seq<int>>, qs: seq<P>, i: nat): P
    requires |ds| == |qs| && (forall j :: 0 <= j < |ds| ==> |ds[j]| == DIGITS) && i <= DIGITS
  {
    g.Dot(|qs|, Above(1, ds, Zeros(|ds|), i), qs)
  }

  lemma PartialStep<P(!new)>(g: Group<P>, ds: seq<seq<int>>, qs: seq<P>, i: nat)
    requires g.Lawful() && |ds| == |qs| && (forall j :: 0 <= j < |ds| ==> |ds[j]| == DIGITS) && i < DIGITS
    ensures Partial(g, ds, qs, i)
         == g.add(g.Mul(2, Partial(g, ds, qs, i + 1)), g.Dot(|qs|, Share(ds, Zeros(|ds|), i), qs))
  {
    WindowJoins(g, 1, ds, Zeros(|ds|), i, qs);
    assert Pow2(1) == 2;
  }

  lemma PartialTop<P(!new)>(g: Group<P>, ds: seq<seq<int>>, qs: seq<P>, bits: nat)
    requires g.Lawful() && |ds| == |qs| && Rows(ds, bits)
    ensures Partial(g, ds, qs, bits) == g.zero
  {
    forall j | 0 <= j < |ds| ensures Horner(1, ds[j], bits) == 0 {
      HornerZeros(1, ds[j], bits);
    }
    g.DotVanish(|qs|, Above(1, ds, Zeros(|ds|), bits), qs);
  }

  lemma PartialAll<P(!new)>(g: Group<P>, ds: seq<seq<int>>, qs: seq<P>, bits: nat)
    requires |ds| == |qs| && Rows(ds, bits)
    ensures Partial(g, ds, qs, 0) == g.Dot(|qs|, Values(ds), qs)
  {
    forall j | 0 <= j < |ds| ensures Above(1, ds, Zeros(|ds|), 0)[j] == Values(ds)[j] {
      HornerIsRadix(1, ds[j]);
    }
    assert Above(1, ds, Zeros(|ds|), 0) == Values(ds);
  }

  /** Adds digit i of both halves of every point. */
  method AddPoints<P(!new)>(c: Curve<P>, r0: P, ps: seq<PointState<P>>, i: nat, ghost ds: seq<seq<int>>,
        ghost qs: seq<P>)
      returns (r: P)
    requires c.Lawful() && i < DIGITS && |ds| == |qs| >= 2 * |ps|
    requires AllReady(c, ps, ds[..2 * |ps|], qs[..2 * |ps|])
    requires forall j :: 0 <= j < |ds| ==> |ds[j]| == DIGITS
    ensures r == c.g.add(r0, c.g.Dot(2 * |ps|, Share(ds, Zeros(|ds|), i), qs))
  {
    hide Group.Lawful, Group.Mul, Group.HasExponent, Lane, Share;
    ghost var digits := Share(ds, Zeros(|ds|), i);
    assert forall j :: 0 <= j < |ds| ==> digits[j] == ds[j][i] by { ShareIs(ds, i); }
    r := r0;
    c.g.Unit(r0);
    for np := 0 to |ps|
      invariant r == c.g.add(r0, c.g.Dot(2 * np, digits, qs))
    {
      ghost var k := 2 * np;
      assert Ready(c, ps[np], ds[..2 * |ps|][k], ds[..2 * |ps|][k + 1], qs[..2 * |ps|][k], qs[..2 * |ps|][k + 1]);
      r := AddDigit(c.g, r, ps[np].wnafNa1, ps[np].bitsNa1, ps[np].preA, WINDOW_A, i, qs[k]);
      c.g.Assoc(r0, c.g.Dot(k, digits, qs), c.g.Mul(digits[k], qs[k]));
      r := AddDigit(c.g, r, ps[np].wnafNaLam, ps[np].bitsNaLam, ps[np].aux, WINDOW_A, i, qs[k + 1]);
      c.g.Assoc(r0, c.g.Dot(k + 1, digits, qs), c.g.Mul(digits[k + 1], qs[k + 1]));
      c.g.DotStep(k, digits, qs);
      c.g.DotStep(k + 1, digits, qs);
    }
  }

  lemma ShareIs(ds: seq<seq<int>>, i: nat)
    requires forall j :: 0 <= j < |ds| ==> i < |ds[j]|
    ensures forall j :: 0 <= j < |ds| ==> Share(ds, Zeros(|ds|), i)[j] == ds[j][i]
  {
  }

  /** The two halves of the generator's scalar: ng == low + high * 2^128. */
  function Split128(k: int): (r: (int, int))
    requires IsScalar(k)
    ensures k == r.0 + r.1 * TWO_128 && 0 <= r.0 < TWO_128 && 0 <= r.1 < TWO_128
  {
    (k % TWO_128, k / TWO_128)
  }

  lemma ShortSigned(k: int)
    requires 0 <= k < TWO_128
    ensures Signed(k) == k && IsScalar(k)
  {
    SignedOfShort(k, k);
  }

  /** The fixed tables: odd multiples of the generator and of 2^128 times the generator. */
  ghost predicate GeneratorTables<P(!new)>(c: Curve<P>, preG: seq<P>, preG128: seq<P>, windowG: nat) {
    && 2 <= windowG <= 24 && |preG| == |preG128| == TableSize(windowG)
    && OddMultiples(c.g, preG, c.gen)
    && OddMultiples(c.g, preG128, c.g.Mul(TWO_128, c.gen))
  }

  method StraussWnaf<P(==,!new)>(c: Curve<P>, a: seq<P>, na: seq<int>, ng: Option<int>,
      preG: seq<P>, preG128: seq<P>, windowG: nat) returns (r: P)
    requires c.Lawful() && |a| == |na| && (forall i :: 0 <= i < |na| ==> IsScalar(na[i]))
    requires ng.Some? ==> IsScalar(ng.value)
    requires GeneratorTables(c, preG, preG128, windowG)
    ensures r == c.g.add(c.g.Dot(|a|, na, a), if ng.Some? then c.g.Mul(ng.value, c.gen) else c.g.zero)
  {
    hide *;
    LawfulGroup(c);
    var ps, bits, dNg1, dNg128, bitsNg1, bitsNg128;
    ghost var ds, qs, es, rs;
    ps, bits, ds, qs := Prepare(c, a, na);
    ghost var m := 2 * |ps|;
    PreparedSizes(c, ps, ds, qs);
    dNg1, dNg128, bitsNg1, bitsNg128 := [], [], 0, 0;
    es, rs := ds, qs;
    ghost var total := c.g.Dot(|a|, na, a);
    if ng.Some? {
      ghost var pointsBits := bits;
      dNg1, dNg128, bitsNg1, bitsNg128, bits, es, rs := AddGenerator(c, ng.value, preG, preG128, windowG, bits, ds, qs);
    } else {
      c.g.Unit(total);
    }
    r := c.g.zero;
    PartialTop(c.g, es, rs, bits);
    RowLengths(es, bits);
    var i := (bits as int) - 1;
    while i >= 0
      invariant -1 <= i < bits
      invariant r == Partial(c.g, es, rs, i + 1)
    {
      c.g.DoubleIs(r);
      PartialStep(c.g, es, rs, i);
      r := c.g.add(r, r);
      ghost var doubled := r;
      r := AddPoints(c, r, ps, i, es, rs);
      if ng.Some? {
        r := AddDigit(c.g, r, dNg1, bitsNg1, preG, windowG, i, rs[m]);
        r := AddDigit(c.g, r, dNg128, bitsNg128, preG128, windowG, i, rs[m + 1]);
        TwoMore(c.g, es, rs, m, i, doubled);
      }
      i := i - 1;
    }
    PartialAll(c.g, es, rs, bits);
  }

  lemma PreparedSizes<P(!new)>(c: Curve<P>, ps: seq<PointState<P>>, ds: seq<seq<int>>, qs: seq<P>)
    requires AllReady(c, ps, ds, qs)
    ensures |ds| == |qs| == 2 * |ps| && ds == ds[..2 * |ps|] && qs == qs[..2 * |ps|]
  {
  }

  lemma RowLengths(ds: seq<seq<int>>, bits: nat)
    requires Rows(ds, bits)
    ensures bits <= DIGITS == 129 && (forall j :: 0 <= j < |ds| ==> |ds[j]| == DIGITS)
  {
  }

  lemma TwoMore<P(!new)>(g: Group<P>, ds: seq<seq<int>>, qs: seq<P>, m: nat, i: nat, r: P)
    requires g.Lawful() && |ds| == |qs| == m + 2 && (forall j :: 0 <= j < |ds| ==> |ds[j]| == DIGITS) && i < DIGITS
    ensures var s := Share(ds, Zeros(|ds|), i);
      g.add(g.add(g.add(r, g.Dot(m, s, qs)), g.Mul(ds[m][i], qs[m])), g.Mul(ds[m + 1][i], qs[m + 1]))
      == g.add(r, g.Dot(m + 2, s, qs))
  {
    hide Group.Lawful, Group.Mul;
    var s := Share(ds, Zeros(|ds|), i);
    assert s[m] == ds[m][i] && s[m + 1] == ds[m + 1][i];
    g.DotStep(m, s, qs);
    g.DotStep(m + 1, s, qs);
    g.Assoc(r, g.Dot(m, s, qs), g.Mul(s[m], qs[m]));
    g.Assoc(r, g.Dot(m + 1, s, qs), g.Mul(s[m + 1], qs[m + 1]));
  }

  /** Adds the generator's two rows. */
  method AddGenerator<P(!new)>(c: Curve<P>, ng: int, preG: seq<P>, preG128: seq<P>, windowG: nat, bits0: nat,
      ghost ds: seq<seq<int>>, ghost qs: seq<P>)
      returns (d1: seq<int>, d128: seq<int>, bits1: nat, bits128: nat, bits: nat, ghost es: seq<seq<int>>,
          ghost rs: seq<P>)
    requires c.Lawful() && IsScalar(ng) && GeneratorTables(c, preG, preG128, windowG)
    requires Rows(ds, bits0) && |ds| == |qs|
    ensures |es| == |rs| == |ds| + 2 && es[..|ds|] == ds && rs[..|ds|] == qs && es[|ds|] == d1 && es[|ds| + 1] == d128
    ensures Lane(c.g, d1, bits1, preG, windowG, rs[|ds|]) && Lane(c.g, d128, bits128, preG128, windowG, rs[|ds| + 1])
    ensures Rows(es, bits)
    ensures c.g.Dot(|rs|, Values(es), rs) == c.g.add(c.g.Dot(|qs|, Values(ds), qs), c.g.Mul(ng, c.gen))
  {
    hide Group.Lawful, Group.Mul, Group.HasExponent, Group.Dot, Signed, Rows, OddMultiples, Values, Radix, TableSize,
        WindowDigit;
    var (ng1, ng128) := Split128(ng);
    ShortSigned(ng1);
    ShortSigned(ng128);
    d1, bits1 := Recode(ng1, windowG);
    d128, bits128 := Recode(ng128, windowG);
    bits := bits0;
    assert bits0 <= DIGITS by { RowLengths(ds, bits0); }
    if bits1 > bits {
      bits := bits1;
    }
    if bits128 > bits {
      bits := bits128;
    }
    ghost var high := c.g.Mul(TWO_128, c.gen);
    es, rs := ds + [d1, d128], qs + [c.gen, high];
    c.g.MulMul(ng128, TWO_128, c.gen);
    c.g.MulAdd(ng1, ng128 * TWO_128, c.gen);
    TwoRows(c.g, ds, bits0, qs, d1, bits1, ng1, windowG, c.gen, d128, bits128, ng128, windowG, high,
      c.g.Mul(ng, c.gen), bits);
  }
}
