/** Building the comb tables of a generator by repeated doubling. */
module EcmultGenTable {
  import opened Arith
  import opened Groups
  import opened Scalars
  import opened SignedBits
  import opened Comb

  /** Entry i of block b is the signed sum selected by the bits of i, times h. */
  ghost predicate EntryOK<P(!new)>(g: Group<P>, c: Params, v: seq<P>, points: nat, b: nat, i: nat, h: P) {
    && 0 <= b * points + i < |v|
    && v[b * points + i] == g.Mul(ToothSum(c, b, i, c.teeth), h)
  }

  ghost predicate BlocksOK<P(!new)>(g: Group<P>, c: Params, v: seq<P>, points: nat, n: nat, h: P) {
    && |v| == n * points
    && (forall b: nat, i: nat :: b < n && i < points ==> EntryOK(g, c, v, points, b, i, h))
  }

  ghost predicate TableOK<P(!new)>(g: Group<P>, c: Params, table: seq<P>, h: P)
    requires c.teeth >= 1
  {
    BlocksOK(g, c, table, c.Points(), c.blocks, h)
  }

  /** The bits of i + 2^t for i below 2^t. */
  lemma BitAbove(i: nat, t: nat, k: nat)
    requires i < Pow2(t)
    ensures Bit(i + Pow2(t), k) == if k == t then 1 else Bit(i, k)
    ensures k >= t ==> Bit(i, k) == 0
  {
    if k >= t {
      Pow2Monotone(t, k);
      DivIs(i, Pow2(k), 0, i);
    }
    if k <= t {
      AddHighBit(i, 1, t, k);
      if k == t {
        DivIs(i, Pow2(t), 0, i);
      }
    } else {
      Pow2Monotone(t + 1, k);
      Pow2Succ(t);
      DivIs(i + Pow2(t), Pow2(k), 0, i + Pow2(t));
    }
  }

  /** Setting tooth t turns its weight from negative to positive. */
  lemma {:induction false} SetTooth(c: Params, b: nat, i: nat, t: nat, n: nat)
    requires i < Pow2(t)
    ensures ToothSum(c, b, i + Pow2(t), n) == ToothSum(c, b, i, n)
      + (if n > t then 2 * Weight(c, b * c.teeth + t) else 0)
  {
    hide Pow2, Bit, Weight;
    if n > 0 {
      SetTooth(c, b, i, t, n - 1);
      BitAbove(i, t, n - 1);
    }
  }

  ghost function AllWeights(c: Params, b: nat, n: nat): int {
    if n == 0 then 0 else AllWeights(c, b, n - 1) + Weight(c, b * c.teeth + (n - 1))
  }

  lemma {:induction false} NoTooth(c: Params, b: nat, n: nat)
    ensures ToothSum(c, b, 0, n) == -AllWeights(c, b, n)
  {
    if n > 0 {
      NoTooth(c, b, n - 1);
      DivIs(0, Pow2(n - 1), 0, 0);
    }
  }

  lemma NextWeight(c: Params, p: nat)
    ensures Weight(c, p + 1) == Weight(c, p) * Pow2(c.spacing)
  {
    Pow2Add(p * c.spacing, c.spacing);
    assert (p + 1) * c.spacing == p * c.spacing + c.spacing;
  }

  /** Fills block b: the first entry has every sign negative; each tooth doubles the range. */
  method FillBlock<P(!new)>(g: Group<P>, c: Params, b: nat, vs: array<P>, base: nat, sum: P, ds: seq<P>, ghost h: P)
      returns (vsPos: nat)
    requires g.Lawful() && c.teeth >= 1 && base + c.Points() <= vs.Length && |ds| == c.teeth
    requires sum == g.Mul(AllWeights(c, b, c.teeth), h)
    requires forall t :: 0 <= t < c.teeth ==> ds[t] == g.Mul(2 * Weight(c, b * c.teeth + t), h)
    modifies vs
    ensures vsPos == base + c.Points()
    ensures forall k :: base <= k < vsPos ==> vs[k] == g.Mul(ToothSum(c, b, k - base, c.teeth), h)
    ensures vs[..base] == old(vs[..base])
  {
    hide Group.Lawful, Group.Mul, ToothSum, Weight, AllWeights, Pow2;
    NoTooth(c, b, c.teeth);
    g.MulNeg(AllWeights(c, b, c.teeth), h);
    vsPos := base;
    Pow2Succ(0);
    vs[vsPos] := g.neg(sum);
    vsPos := vsPos + 1;
    Pow2Monotone(0, c.teeth - 1);
    for tooth := 0 to c.teeth - 1
      invariant vsPos == base + Pow2(tooth) <= base + c.Points()
      invariant forall k :: base <= k < vsPos ==> vs[k] == g.Mul(ToothSum(c, b, k - base, c.teeth), h)
      invariant vs[..base] == old(vs[..base])
    {
      var stride := Pow2(tooth);
      Pow2Succ(tooth);
      Pow2Monotone(tooth + 1, c.teeth - 1);
      for index := 0 to stride
        invariant vsPos == base + stride + index
        invariant forall k :: base <= k < vsPos ==> vs[k] == g.Mul(ToothSum(c, b, k - base, c.teeth), h)
        invariant vs[..base] == old(vs[..base])
      {
        SetTooth(c, b, index, tooth, c.teeth);
        g.MulAdd(ToothSum(c, b, index, c.teeth), 2 * Weight(c, b * c.teeth + tooth), h);
        assert vs[vsPos - stride] == g.Mul(ToothSum(c, b, index, c.teeth), h);
        vs[vsPos] := g.add(vs[vsPos - stride], ds[tooth]);
        vsPos := vsPos + 1;
      }
    }
  }

  /** Half of the generator, by a plain double-and-add ladder. */
  method HalfOf<P(!new)>(g: Group<P>, gen: P) returns (u: P)
    requires g.Lawful()
    ensures u == g.Mul(Half(1), gen)
  {
    hide Group.Lawful, Group.Mul, Pow2, Bits;
    var half := Half(1);
    u := g.zero;
    g.MulOne(gen);
    Pow2Values();
    DivIs(half, Pow2(256), 0, half);
    var i := 255;
    while i >= 0
      invariant -1 <= i <= 255
      invariant u == g.Mul(half / Pow2(i + 1), gen)
    {
      LadderBit(half, i);
      g.Double(half / Pow2(i + 1), gen);
      u := g.add(u, u);
      g.MulSucc(2 * (half / Pow2(i + 1)), gen);
      if Bits(half, i, 1) == 1 {
        u := g.add(u, gen);
      }
      i := i - 1;
    }
    assert half / Pow2(0) == half;
  }

  lemma LadderBit(x: nat, i: nat)
    ensures x / Pow2(i) == 2 * (x / Pow2(i + 1)) + Bits(x, i, 1)
    ensures Bits(x, i, 1) == 0 || Bits(x, i, 1) == 1
  {
    Pow2Add(i, 1);
    assert Pow2(1) == 2;
    DivDiv(x, Pow2(i), 2);
  }

  /** Twice the half is the generator. */
  lemma HalfDoubled<P(!new)>(g: Group<P>, gen: P)
    requires g.Lawful() && g.HasExponent(N)
    ensures g.Mul(2, g.Mul(Half(1), gen)) == gen
  {
    hide Group.Lawful, Group.Mul, Group.HasExponent;
    g.MulMul(2, Half(1), gen);
    HalfDoubles(1);
    g.MulCong(2 * Half(1), 1, N, gen);
    g.MulOne(gen);
  }

  /** The doubled teeth of block b and their sum; u moves on to the next block. */
  method BlockTeeth<P(!new)>(g: Group<P>, c: Params, b: nat, u0: P, ghost h: P) returns (u: P, sum: P, ds: seq<P>)
    requires g.Lawful() && c.Valid() && b < c.blocks
    requires u0 == g.Mul(Weight(c, b * c.teeth), h)
    ensures sum == g.Mul(AllWeights(c, b, c.teeth), h) && |ds| == c.teeth
    ensures forall t :: 0 <= t < c.teeth ==> ds[t] == g.Mul(2 * Weight(c, b * c.teeth + t), h)
    ensures b + 1 < c.blocks ==> u == g.Mul(Weight(c, (b + 1) * c.teeth), h)
  {
    hide Group.Lawful, Group.Mul, Weight, Pow2;
    u := u0;
    sum := g.zero;
    ds := [];
    g.MulOne(h);
    for tooth := 0 to c.teeth
      invariant sum == g.Mul(AllWeights(c, b, tooth), h) && |ds| == tooth
      invariant forall t :: 0 <= t < tooth ==> ds[t] == g.Mul(2 * Weight(c, b * c.teeth + t), h)
      invariant b + tooth != c.blocks + c.teeth - 1 ==> u == g.Mul(Weight(c, b * c.teeth + tooth), h)
    {
      ghost var w := Weight(c, b * c.teeth + tooth);
      g.MulAdd(AllWeights(c, b, tooth), w, h);
      sum := g.add(sum, u);
      g.Double(w, h);
      u := g.add(u, u);
      ds := ds + [u];
      if b + tooth != c.blocks + c.teeth - 2 {
        Pow2Succ(0);
        ghost var f := Pow2(1);
        for bitOff := 1 to c.spacing
          invariant f == Pow2(bitOff)
          invariant u == g.Mul(f * w, h)
        {
          g.Double(f * w, h);
          Pow2Succ(bitOff);
          assert 2 * (f * w) == (2 * f) * w;
          f := 2 * f;
          u := g.add(u, u);
        }
        NextWeight(c, b * c.teeth + tooth);
        assert f * w == w * f;
      }
    }
    assert (b + 1) * c.teeth == b * c.teeth + c.teeth;
  }

  /** The tables of all blocks, one after another. */
  method ComputeTable<P(!new)>(g: Group<P>, gen: P, c: Params) returns (table: array<P>)
    requires g.Lawful() && c.Valid()
    ensures fresh(table) && TableOK(g, c, table[..], g.Mul(Half(1), gen))
  {
    hide Group.Lawful, Group.Mul, Weight, Pow2, ToothSum, AllWeights, Half, EntryOK;
    var points := c.Points();
    var pointsTotal := points * c.blocks;
    var z := g.zero;
    var vs := new P[pointsTotal](_ => z);
    var u := HalfOf(g, gen);
    ghost var h := u;
    FirstWeight(c);
    g.MulOne(h);
    var vsPos := 0;
    for block := 0 to c.blocks
      invariant vsPos == block * points
      invariant block < c.blocks ==> u == g.Mul(Weight(c, block * c.teeth), h)
      invariant block * points <= pointsTotal
      invariant BlocksOK(g, c, vs[..block * points], points, block, h)
    {
      MulMono(block + 1, c.blocks, points);
      assert (block + 1) * points == block * points + points;
      var sum, ds;
      u, sum, ds := BlockTeeth(g, c, block, u, h);
      ghost var before := vs[..vsPos];
      vsPos := FillBlock(g, c, block, vs, vsPos, sum, ds, h);
      BlocksSnoc(g, c, before, vs[..vsPos], points, block, h);
    }
    assert vs[..c.blocks * points] == vs[..];
    table := vs;
  }

  lemma FirstWeight(c: Params)
    ensures Weight(c, 0 * c.teeth) == 1
  {
    Pow2Succ(0);
  }

  lemma BlocksSnoc<P(!new)>(g: Group<P>, c: Params, v: seq<P>, w: seq<P>, points: nat, n: nat, h: P)
    requires BlocksOK(g, c, v, points, n, h) && |w| == |v| + points && w[..|v|] == v
    requires forall k :: |v| <= k < |w| ==> w[k] == g.Mul(ToothSum(c, n, k - |v|, c.teeth), h)
    ensures BlocksOK(g, c, w, points, n + 1, h)
  {
    hide Group.Mul, ToothSum;
    assert (n + 1) * points == n * points + points;
    forall b: nat, i: nat | b < n + 1 && i < points
      ensures EntryOK(g, c, w, points, b, i, h)
    {
      if b < n {
        assert EntryOK(g, c, v, points, b, i, h);
        EntryKept(g, c, v, w, points, b, i, h);
      } else {
        EntryNew(g, c, w, points, n, i, h);
      }
    }
  }

  lemma EntryKept<P(!new)>(g: Group<P>, c: Params, v: seq<P>, w: seq<P>, points: nat, b: nat, i: nat, h: P)
    requires EntryOK(g, c, v, points, b, i, h) && |v| <= |w| && w[..|v|] == v
    ensures EntryOK(g, c, w, points, b, i, h)
  {
    assert w[..|v|][b * points + i] == w[b * points + i];
  }

  lemma EntryNew<P(!new)>(g: Group<P>, c: Params, w: seq<P>, points: nat, n: nat, i: nat, h: P)
    requires i < points && |w| == n * points + points && n * points >= 0
    requires w[n * points + i] == g.Mul(ToothSum(c, n, i, c.teeth), h)
    ensures EntryOK(g, c, w, points, n, i, h)
  {
  }
}
