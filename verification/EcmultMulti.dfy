/** Multi-point multiplication over a callback, cut into batches for Strauss or Pippenger. The batches
    take their buffers from a scratch space, give them back on every way out, and never ask for more
    than there is. */
module EcmultMulti {
  import opened Arith
  import opened Groups
  import opened Scalars
  import opened Curves
  import opened Wnaf
  import opened Strauss
  import opened Wrappers
  import opened Pippenger
  import opened ScratchSpace
  import opened EcmultScratch

  type Callback<!P> = nat -> Option<(int, P)>

  /** The fixed tables of the generator. */
  datatype Tables<P> = Tables(preG: seq<P>, preG128: seq<P>, windowG: nat)

  ghost predicate Setting<P(!new)>(c: Curve<P>, t: Tables<P>, gSc: Option<int>, cb: Callback<P>) {
    && c.Lawful() && GeneratorTables(c, t.preG, t.preG128, t.windowG)
    && (gSc.Some? ==> IsScalar(gSc.value))
    && (forall i {:trigger cb(i)} :: cb(i).Some? ==> IsScalar(cb(i).value.0))
  }

  ghost predicate Supplied<P(!new)>(cb: Callback<P>, lo: nat, n: nat) {
    forall i: nat {:trigger cb(i)} :: lo <= i < lo + n ==> cb(i).Some?
  }

  /** The sum of scalar*point over callback indices lo to lo + n - 1. */
  ghost function SumOver<P(!new)>(c: Curve<P>, cb: Callback<P>, lo: nat, n: nat): P
    requires Supplied(cb, lo, n)
  {
    if n == 0 then c.g.zero
    else
      assert cb(lo + n - 1).Some?;
      c.g.add(SumOver(c, cb, lo, n - 1), c.g.Mul(cb(lo + n - 1).value.0, cb(lo + n - 1).value.1))
  }

  ghost function GPart<P(!new)>(c: Curve<P>, gSc: Option<int>): P {
    if gSc.Some? then c.g.Mul(gSc.value, c.gen) else c.g.zero
  }

  lemma {:induction false} SumJoins<P(!new)>(c: Curve<P>, cb: Callback<P>, lo: nat, m: nat, n: nat)
    requires c.g.Lawful() && Supplied(cb, lo, m + n)
    ensures SumOver(c, cb, lo, m + n) == c.g.add(SumOver(c, cb, lo, m), SumOver(c, cb, lo + m, n))
  {
    hide Group.Lawful, Group.Mul;
    if n == 0 {
      c.g.Unit(SumOver(c, cb, lo, m));
    } else {
      SumJoins(c, cb, lo, m, n - 1);
      assert cb(lo + m + n - 1).Some?;
      var (k, p) := cb(lo + m + n - 1).value;
      c.g.Assoc(SumOver(c, cb, lo, m), SumOver(c, cb, lo + m, n - 1), c.g.Mul(k, p));
    }
  }

  // ----- splitting a term along the endomorphism -----

  /** Replaces s1*p1 by s1'*p1' + s2'*p2' with both scalars below 2^128. */
  method EndoSplit<P(!new)>(c: Curve<P>, s: int, p: P) returns (s1: int, s2: int, p1: P, p2: P)
    requires c.Lawful() && IsScalar(s)
    ensures 0 <= s1 < TWO_128 && 0 <= s2 < TWO_128
    ensures c.g.add(c.g.Mul(s1, p1), c.g.Mul(s2, p2)) == c.g.Mul(s, p)
  {
    hide Group.Lawful, Group.Mul, Group.HasExponent, SplitLambda, Short1, Short2;
    var halves := SplitLambda(s);
    s1, s2 := halves.0, halves.1;
    FirstHalf(s);
    SecondHalf(s);
    ShortBounds(s);
    p1, p2 := p, c.mulLambda(p);
    ghost var v1, v2 := Short1(s), Short2(s);
    ShortsRecombine(s);
    c.Recombine(s, v1, v2, p);
    UnsignShort(s1, v1);
    UnsignShort(s2, v2);
    c.g.MulCong(s1, v1, N, p1);
    c.g.MulCong(s2, v2, N, p2);
    if IsHigh(s1) {
      s1 := Negate(s1);
      c.NegateMul(v1, s1, p1);
      p1 := c.g.neg(p1);
    }
    if IsHigh(s2) {
      s2 := Negate(s2);
      c.NegateMul(v2, s2, p2);
      p2 := c.g.neg(p2);
    }
  }

  /** A scalar congruent to a short number is high exactly when that number is negative. */
  lemma UnsignShort(r: int, v: int)
    requires IsScalar(r) && Cong(r, v, N) && -TWO_128 < v < TWO_128
    ensures IsHigh(r) <==> v < 0
    ensures v >= 0 ==> r == v
    ensures v < 0 ==> Negate(r) == -v && Cong(Negate(r), -v, N)
  {
    if v >= 0 {
      CongSmall(r, v, N);
    } else {
      CongBy(v + N, v, N, 1);
      CongSmall(r, v + N, N);
      DivIs(-r, N, -1, -v);
    }
  }

  // ----- one batch -----

  /** Short scalars and points whose combination is sum. */
  ghost predicate Gathered<P(!new)>(c: Curve<P>, scalars: seq<int>, points: seq<P>, sum: P) {
    && |scalars| == |points|
    && (forall i :: 0 <= i < |scalars| ==> 0 <= scalars[i] < TWO_128)
    && c.g.Dot(|points|, scalars, points) == sum
  }

  lemma GatherTwo<P(!new)>(c: Curve<P>, scalars: seq<int>, points: seq<P>, sum: P,
      s1: int, s2: int, p1: P, p2: P, term: P)
    requires c.g.Lawful() && Gathered(c, scalars, points, sum)
    requires 0 <= s1 < TWO_128 && 0 <= s2 < TWO_128 && c.g.add(c.g.Mul(s1, p1), c.g.Mul(s2, p2)) == term
    ensures Gathered(c, scalars + [s1, s2], points + [p1, p2], c.g.add(sum, term))
  {
    hide Group.Lawful, Group.Mul;
    var n := |points|;
    var ss, ps := scalars + [s1, s2], points + [p1, p2];
    c.g.DotSame(n, scalars, ss, points, ps);
    c.g.DotStep(n, ss, ps);
    c.g.DotStep(n + 1, ss, ps);
    c.g.Assoc(sum, c.g.Mul(s1, p1), c.g.Mul(s2, p2));
  }

  /** The buffers of a bucket batch of n points can be had. */
  predicate PippengerRoom(l: Layout, scratch: Scratch, n: nat)
    requires l.Sensible() && scratch.Valid()
    reads scratch
  {
    PippengerNeeds(l, n, scratch.alignment) <= scratch.Free()
  }

  /** The bucket algorithm on one batch. It fails exactly when there is no room or the callback
      fails, and leaves the scratch space as it was. */
  method PippengerBatch<P(==,!new)>(c: Curve<P>, ghost t: Tables<P>, l: Layout, scratch: Scratch, gSc: Option<int>,
        cb: Callback<P>,
      nPoints: nat, cbOffset: nat) returns (ok: bool, r: P)
    requires Setting(c, t, gSc, cb) && l.Sensible() && scratch.Valid() && PippengerCounts(l, nPoints)
    modifies scratch
    ensures scratch.Valid() && scratch.allocSize == old(scratch.allocSize)
    ensures ok <==>
      (gSc.None? && nPoints == 0) || (old(PippengerRoom(l, scratch, nPoints)) && Supplied(cb, cbOffset, nPoints))
    ensures ok ==> r == c.g.add(GPart(c, gSc), SumOver(c, cb, cbOffset, nPoints))
  {
    hide Group.Lawful, Group.Mul, Group.HasExponent, Group.Dot, GeneratorTables, Gathered, PippengerNeeds,
        PippengerCounts,
         Layout.Sensible;
    var checkpoint := scratch.Checkpoint();
    r := c.g.zero;
    c.g.Unit(c.g.zero);
    if gSc.None? && nPoints == 0 {
      return true, r;
    }
    var bucketWindow := BucketWindow(nPoints);
    var room := PippengerBuffers(l, scratch, nPoints);
    if !room {
      scratch.ApplyCheckpoint(checkpoint);
      return false, r;
    }
    var scalars, points := [], [];
    NothingGathered(c);
    ghost var sum := c.g.zero;
    if gSc.Some? {
      var s1, s2, p1, p2 := EndoSplit(c, gSc.value, c.gen);
      GatherTwo(c, scalars, points, sum, s1, s2, p1, p2, c.g.Mul(gSc.value, c.gen));
      scalars, points := scalars + [s1, s2], points + [p1, p2];
      sum := c.g.add(sum, GPart(c, gSc));
      c.g.Unit(GPart(c, gSc));
    }
    c.g.Unit(sum);
    var pointIdx := 0;
    while pointIdx < nPoints
      invariant 0 <= pointIdx <= nPoints
      invariant Supplied(cb, cbOffset, pointIdx)
      invariant Gathered(c, scalars, points, c.g.add(sum, SumOver(c, cb, cbOffset, pointIdx)))
      invariant |points| <= 2 * pointIdx + 2
      invariant scratch.Valid() && checkpoint == old(scratch.allocSize) <= scratch.allocSize
    {
      var term := cb(pointIdx + cbOffset);
      if term.None? {
        assert !Supplied(cb, cbOffset, nPoints);
        scratch.ApplyCheckpoint(checkpoint);
        return false, r;
      }
      var s1, s2, p1, p2 := EndoSplit(c, term.value.0, term.value.1);
      ghost var done := SumOver(c, cb, cbOffset, pointIdx);
      GatherTwo(c, scalars, points, c.g.add(sum, done), s1, s2, p1, p2, c.g.Mul(term.value.0, term.value.1));
      c.g.Assoc(sum, done, c.g.Mul(term.value.0, term.value.1));
      scalars, points := scalars + [s1, s2], points + [p1, p2];
      pointIdx := pointIdx + 1;
    }
    r := RunPippenger(c, bucketWindow, 2 * nPoints + 2, scalars, points,
        c.g.add(sum, SumOver(c, cb, cbOffset, nPoints)));
    scratch.ApplyCheckpoint(checkpoint);
    ok := true;
  }

  lemma NothingGathered<P(!new)>(c: Curve<P>)
    ensures Gathered(c, [], [], c.g.zero)
  {
  }

  /** The bucket algorithm in buffers for a number of entries. */
  method RunPippenger<P(==,!new)>(c: Curve<P>, bucketWindow: nat, entries: nat, scalars: seq<int>, points: seq<P>,
        ghost sum: P)
      returns (r: P)
    requires c.g.Lawful() && 1 <= bucketWindow <= 12 && Gathered(c, scalars, points, sum) && |points| <= entries
    ensures r == sum
  {
    hide Group.Lawful, Group.Mul, Group.Dot, Pow2;
    Pow2Values();
    var z := c.g.zero;
    MulMono(|points|, entries, WnafSize(bucketWindow + 1));
    var buckets := new P[Pow2(bucketWindow)](_ => z);
    var wnafNa := new int[entries * WnafSize(bucketWindow + 1)];
    var skewNa := new int[entries];
    var inputPos := new nat[entries];
    r := PippengerWnaf(c.g, buckets, bucketWindow, wnafNa, skewNa, inputPos, scalars, points, |points|);
  }

  /** The buffers of an interleaved batch of n points can be had. */
  predicate StraussRoom(l: Layout, scratch: Scratch, n: nat)
    requires l.Sensible() && scratch.Valid()
    reads scratch
  {
    StraussNeeds(l, n, scratch.alignment) <= scratch.Free()
  }

  /** The interleaved algorithm on one batch; it fails in the same two ways. */
  method StraussBatch<P(==,!new)>(c: Curve<P>, t: Tables<P>, l: Layout, scratch: Scratch, gSc: Option<int>,
        cb: Callback<P>,
      nPoints: nat, cbOffset: nat) returns (ok: bool, r: P)
    requires Setting(c, t, gSc, cb) && l.Sensible() && scratch.Valid() && StraussCounts(l, nPoints)
    modifies scratch
    ensures scratch.Valid() && scratch.allocSize == old(scratch.allocSize)
    ensures ok <==>
      (gSc.None? && nPoints == 0) || (old(StraussRoom(l, scratch, nPoints)) && Supplied(cb, cbOffset, nPoints))
    ensures ok ==> r == c.g.add(GPart(c, gSc), SumOver(c, cb, cbOffset, nPoints))
  {
    hide Group.Lawful, Group.Mul, Group.HasExponent, GeneratorTables, StraussNeeds, StraussCounts, Layout.Sensible;
    var checkpoint := scratch.Checkpoint();
    r := c.g.zero;
    c.g.Unit(c.g.zero);
    if gSc.None? && nPoints == 0 {
      return true, r;
    }
    var room := StraussBuffers(l, scratch, nPoints);
    if !room {
      scratch.ApplyCheckpoint(checkpoint);
      return false, r;
    }
    var scalars, points := [], [];
    for i := 0 to nPoints
      invariant scratch.Valid() && checkpoint == old(scratch.allocSize) <= scratch.allocSize
      invariant Supplied(cb, cbOffset, i)
      invariant |scalars| == |points| == i && (forall k :: 0 <= k < i ==> IsScalar(scalars[k]))
      invariant c.g.Dot(i, scalars, points) == SumOver(c, cb, cbOffset, i)
    {
      var term := cb(i + cbOffset);
      if term.None? {
        assert !Supplied(cb, cbOffset, nPoints);
        scratch.ApplyCheckpoint(checkpoint);
        return false, r;
      }
      DotSnoc(c.g, scalars, points, term.value.0, term.value.1);
      scalars, points := scalars + [term.value.0], points + [term.value.1];
    }
    r := StraussWnaf(c, points, scalars, gSc, t.preG, t.preG128, t.windowG);
    c.g.Comm(GPart(c, gSc), SumOver(c, cb, cbOffset, nPoints));
    scratch.ApplyCheckpoint(checkpoint);
    ok := true;
  }

  // ----- cutting into batches -----

  const ECMULT_PIPPENGER_THRESHOLD: nat := 88

  /** Division rounding up, for x > 0. */
  function CeilDiv(x: nat, y: nat): (q: nat)
    requires x > 0 && y > 0
  {
    1 + (x - 1) / y
  }

  lemma CeilDivIs(x: nat, y: nat)
    requires x > 0 && y > 0
    ensures var q := CeilDiv(x, y); q * y >= x && (q - 1) * y < x && 1 <= q <= x
  {
    var d := (x - 1) / y;
    DivMod(x - 1, y);
    assert (d + 1) * y == d * y + y;
    MulMono(1, y, d);
    assert y * d == d * y;
  }

  /** How many batches, and how many points in each; fails when no point fits. */
  method BatchSize(max0: nat, n: nat) returns (ok: bool, nBatches: nat, nBatchPoints: nat)
    ensures ok <==> max0 > 0
    ensures ok ==> nBatchPoints <= max0 && nBatchPoints <= 5000000 && nBatches * nBatchPoints >= n
    ensures n == 0 ==> nBatches == 0 && nBatchPoints == 0
    ensures ok && n > 0 ==> nBatches > 0 && nBatchPoints > 0 && (nBatches - 1) * nBatchPoints < n
    ensures ok && n > 0 ==>
      && (nBatches - 1) * (if max0 < 5000000 then max0 else 5000000) < n
      && nBatches * (nBatchPoints - 1) < n
  {
    var max := max0;
    if max == 0 {
      return false, 0, 0;
    }
    if max > ECMULT_MAX_POINTS_PER_BATCH {
      max := ECMULT_MAX_POINTS_PER_BATCH;
    }
    if n == 0 {
      return true, 0, 0;
    }
    hide CeilDiv;
    CeilDivIs(n, max);
    nBatches := CeilDiv(n, max);
    CeilDivIs(n, nBatches);
    nBatchPoints := CeilDiv(n, nBatches);
    BatchFits(n, max, nBatches, nBatchPoints);
    assert nBatches * (nBatchPoints - 1) == (nBatchPoints - 1) * nBatches;
    ok := true;
  }

  /** No batch is over-full, together they hold every point, and none is left empty. */
  lemma BatchFits(n: nat, max: nat, b: nat, p: nat)
    requires n > 0 && b > 0 && p > 0 && b * max >= n && (b - 1) * max < n && p * b >= n && (p - 1) * b < n
    ensures p <= max && b * p >= n && (b - 1) * p < n
  {
    if p > max {
      MulMono(max, p - 1, b);
    }
    MulMono(p, max, b - 1);
  }

  // ----- the whole sum -----

  /** One point at a time, without scratch space. */
  method MultiSimple<P(==,!new)>(c: Curve<P>, t: Tables<P>, gSc: Option<int>, cb: Callback<P>, nPoints: nat)
      returns (ok: bool, r: P)
    requires Setting(c, t, gSc, cb)
    ensures ok <==> Supplied(cb, 0, nPoints)
    ensures ok ==> r == c.g.add(GPart(c, gSc), SumOver(c, cb, 0, nPoints))
  {
    hide Group.Lawful, Group.Mul, Group.HasExponent, GeneratorTables;
    r := StraussWnaf(c, [c.g.zero], [0], gSc, t.preG, t.preG128, t.windowG);
    SinglePoint(c, 0, c.g.zero);
    c.g.MulZero(0);
    c.g.Unit(GPart(c, gSc));
    for pointIdx := 0 to nPoints
      invariant Supplied(cb, 0, pointIdx)
      invariant r == c.g.add(GPart(c, gSc), SumOver(c, cb, 0, pointIdx))
    {
      var term := cb(pointIdx);
      if term.None? {
        assert !Supplied(cb, 0, nPoints);
        return false, r;
      }
      var tmp := StraussWnaf(c, [term.value.1], [term.value.0], None, t.preG, t.preG128, t.windowG);
      SinglePoint(c, term.value.0, term.value.1);
      c.g.Unit(tmp);
      c.g.Unit(c.g.Mul(term.value.0, term.value.1));
      c.g.Assoc(GPart(c, gSc), SumOver(c, cb, 0, pointIdx), tmp);
      r := c.g.add(r, tmp);
    }
    ok := true;
  }

  lemma SinglePoint<P(!new)>(c: Curve<P>, k: int, p: P)
    requires c.g.Lawful()
    ensures c.g.Dot(1, [k], [p]) == c.g.Mul(k, p)
  {
    c.g.NoTerms([k], [p]);
    c.g.DotStep(0, [k], [p]);
    c.g.Unit(c.g.Mul(k, p));
  }

  /** gSc*G plus the sum over all callback points, however the points are cut into batches;
      it fails exactly when the callback does, whatever the scratch space. */
  method EcmultMultiVar<P(==,!new)>(c: Curve<P>, t: Tables<P>, l: Layout, scratch: Scratch?, gSc: Option<int>,
      cb: Callback<P>, n0: nat) returns (ok: bool, r: P)
    requires Setting(c, t, gSc, cb) && l.Sensible() && (scratch != null ==> scratch.Valid())
    modifies scratch
    ensures scratch != null ==> scratch.Valid() && scratch.allocSize == old(scratch.allocSize)
    ensures ok <==> Supplied(cb, 0, n0)
    ensures ok ==> r == c.g.add(GPart(c, gSc), SumOver(c, cb, 0, n0))
  {
    hide Group.Lawful, Group.Mul, Group.HasExponent, GeneratorTables;
    var n := n0;
    r := c.g.zero;
    c.g.Unit(c.g.zero);
    c.g.Unit(GPart(c, gSc));
    if gSc.None? && n == 0 {
      return true, r;
    } else if n == 0 {
      r := StraussWnaf(c, [r], [0], gSc, t.preG, t.preG128, t.windowG);
      SinglePoint(c, 0, c.g.zero);
      c.g.MulZero(0);
      return true, r;
    }
    if scratch == null {
      ok, r := MultiSimple(c, t, gSc, cb, n);
      return;
    }
    var maxPoints := PippengerMaxPoints(l, scratch);
    var fits, nBatches, nBatchPoints := BatchSize(maxPoints, n);
    if !fits {
      ok, r := MultiSimple(c, t, gSc, cb, n);
      return;
    }
    var usePippenger := nBatchPoints >= ECMULT_PIPPENGER_THRESHOLD;
    if !usePippenger {
      maxPoints := StraussMaxPoints(l, scratch);
      fits, nBatches, nBatchPoints := BatchSize(maxPoints, n);
      if !fits {
        ok, r := MultiSimple(c, t, gSc, cb, n);
        return;
      }
      StraussRooms(l, scratch, maxPoints);
    } else {
      PippengerRooms(l, scratch, maxPoints);
    }
    ok, r := RunBatches(c, t, l, scratch, usePippenger, gSc, cb, n, nBatches, nBatchPoints);
  }

  lemma StraussRooms(l: Layout, scratch: Scratch, most: nat)
    requires l.Sensible() && scratch.Valid()
    requires forall k: nat :: k <= most <==>
      StraussScratchSize(l, k) <= Allowance(scratch.Free(), STRAUSS_SCRATCH_OBJECTS, scratch.alignment)
    ensures forall k: nat :: 1 <= k <= most ==> StraussRoom(l, scratch, k)
  {
    hide StraussNeeds, StraussScratchSize, Allowance, Scratch.Free, Layout.Sensible;
    forall k: nat | 1 <= k <= most
      ensures StraussRoom(l, scratch, k)
    {
      StraussFits(l, k, scratch.Free(), scratch.alignment);
    }
  }

  lemma PippengerRooms(l: Layout, scratch: Scratch, most: nat)
    requires l.Sensible() && scratch.Valid()
    requires MostPoints(l, Allowance(scratch.Free(), PIPPENGER_SCRATCH_OBJECTS, scratch.alignment), most)
    ensures forall k: nat :: 1 <= k <= most ==> PippengerRoom(l, scratch, k)
  {
    hide PippengerNeeds, Fits, Allowance, Scratch.Free, Layout.Sensible;
    forall k: nat | 1 <= k <= most
      ensures PippengerRoom(l, scratch, k)
    {
      PippengerFits(l, k, scratch.Free(), scratch.alignment);
    }
  }

  /** The points of the first i batches. */
  ghost function Done(i: nat, size: nat, n: nat): nat {
    if i * size < n then i * size else n
  }

  lemma NoBatches<P(!new)>(c: Curve<P>, cb: Callback<P>, size: nat, n: nat)
    ensures Done(0, size, n) == 0 && Supplied(cb, 0, 0) && SumOver(c, cb, 0, 0) == c.g.zero
  {
  }

  lemma AllBatches(nBatches: nat, size: nat, n: nat)
    requires nBatches * size >= n
    ensures Done(nBatches, size, n) == n
  {
  }

  /** Every batch starts where the earlier ones stop and is not empty. */
  lemma NextBatch(i: nat, nBatches: nat, size: nat, n: nat)
    requires i < nBatches && nBatches * size >= n && (nBatches - 1) * size < n
    ensures Done(i, size, n) == size * i < n
    ensures Done(i + 1, size, n) == size * i + (if n - size * i < size then n - size * i else size)
  {
    assert (i + 1) * size == i * size + size;
    assert i * size == size * i;
    MulMono(i, nBatches - 1, size);
  }

  /** Batch after batch of one of the two algorithms, in a scratch space with room for each. */
  method RunBatches<P(==,!new)>(c: Curve<P>, t: Tables<P>, l: Layout, scratch: Scratch, usePippenger: bool,
        gSc: Option<int>,
      cb: Callback<P>, n0: nat, nBatches: nat, nBatchPoints: nat) returns (ok: bool, r: P)
    requires Setting(c, t, gSc, cb) && l.Sensible() && scratch.Valid() && nBatchPoints <= ECMULT_MAX_POINTS_PER_BATCH
    requires forall k: nat :: 1 <= k <= nBatchPoints ==>
      if usePippenger then PippengerRoom(l, scratch, k) else StraussRoom(l, scratch, k)
    requires nBatches > 0 && nBatches * nBatchPoints >= n0 && (nBatches - 1) * nBatchPoints < n0
    modifies scratch
    ensures scratch.Valid() && scratch.allocSize == old(scratch.allocSize)
    ensures ok <==> Supplied(cb, 0, n0)
    ensures ok ==> r == c.g.add(GPart(c, gSc), SumOver(c, cb, 0, n0))
  {
    hide Group.Lawful, Group.Mul, Group.HasExponent, GeneratorTables, Done, SumOver, Supplied, PippengerNeeds,
        StraussNeeds,
         PippengerCounts, StraussCounts, Layout.Sensible;
    var n := n0;
    r := c.g.zero;
    c.g.Unit(c.g.zero);
    NoBatches(c, cb, nBatchPoints, n0);
    AllBatches(nBatches, nBatchPoints, n0);
    for i := 0 to nBatches
      invariant scratch.Valid() && scratch.allocSize == old(scratch.allocSize)
      invariant 0 <= n <= n0 && n0 - n == Done(i, nBatchPoints, n0)
      invariant Supplied(cb, 0, n0 - n)
      invariant r == c.g.add(if i == 0 then c.g.zero else GPart(c, gSc), SumOver(c, cb, 0, n0 - n))
    {
      var nbp := if n < nBatchPoints then n else nBatchPoints;
      var offset := nBatchPoints * i;
      NextBatch(i, nBatches, nBatchPoints, n0);
      var sc := if i == 0 then gSc else None;
      var good, tmp;
      assert 1 <= nbp <= nBatchPoints;
      CappedCounts(l, nbp);
      assert if usePippenger then old(PippengerRoom(l, scratch, nbp)) else old(StraussRoom(l, scratch, nbp));
      if usePippenger {
        good, tmp := PippengerBatch(c, t, l, scratch, sc, cb, nbp, offset);
      } else {
        good, tmp := StraussBatch(c, t, l, scratch, sc, cb, nbp, offset);
      }
      if !good {
        SuppliedPart(cb, n0, offset, nbp);
        return false, r;
      }
      SuppliedJoins(cb, offset, nbp);
      SumJoins(c, cb, 0, offset, nbp);
      ghost var first := if i == 0 then c.g.zero else GPart(c, gSc);
      c.g.Interchange(first, SumOver(c, cb, 0, offset), GPart(c, sc), SumOver(c, cb, offset, nbp));
      c.g.Unit(GPart(c, gSc));
      r := c.g.add(r, tmp);
      n := n - nbp;
    }
    ok := true;
  }

  lemma SuppliedPart<P(!new)>(cb: Callback<P>, n: nat, lo: nat, m: nat)
    requires lo + m <= n && !Supplied(cb, lo, m)
    ensures !Supplied(cb, 0, n)
  {
  }

  lemma SuppliedJoins<P(!new)>(cb: Callback<P>, m: nat, n: nat)
    requires Supplied(cb, 0, m) && Supplied(cb, m, n)
    ensures Supplied(cb, 0, m + n)
  {
  }
}
