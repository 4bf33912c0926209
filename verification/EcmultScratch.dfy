/** How many points the two multi-point algorithms can take into a scratch space, and why every
    buffer of a batch of that size can then be had. */
module EcmultScratch {
  import opened Arith
  import opened Words
  import opened Wnaf
  import opened ScratchSpace
  import opened Strauss

  const PIPPENGER_SCRATCH_OBJECTS: nat := 6
  const STRAUSS_SCRATCH_OBJECTS: nat := 5
  const PIPPENGER_MAX_BUCKET_WINDOW: nat := 12
  const ECMULT_MAX_POINTS_PER_BATCH: nat := 5000000

  /** The odd multiples in a point's table. */
  const TABLE_SIZE: nat := TableSize(WINDOW_A)

  lemma TableEntries()
    ensures TABLE_SIZE == 8
  {
  }

  /** The sizes of the structures that go into the buffers, whatever the platform makes of them. */
  datatype Layout = Layout(ge: int, fe: int, gej: int, scalar: int, word: int,
    straussPoint: int, pippengerPoint: int, pippengerState: int)
  {
    predicate Sensible() {
      && 1 <= ge <= 0x10000 && 1 <= fe <= 0x10000 && 1 <= gej <= 0x10000 && 1 <= scalar <= 0x10000
        && 1 <= word <= 0x10000
      && 1 <= straussPoint <= 0x10000 && 1 <= pippengerPoint <= 0x10000 && 1 <= pippengerState <= 0x10000
    }
  }

  lemma WholeParts(k: nat, m: nat, p: int)
    requires p >= 1
    ensures k <= m / p <==> k * p <= m
    ensures m / p <= m
  {
    var q := m / p;
    DivMod(m, p);
    QuotientBound(k, m, p, q);
  }

  lemma QuotientBound(k: nat, m: nat, p: int, q: nat)
    requires p >= 1 && q * p <= m < q * p + p
    ensures k <= q <==> k * p <= m
    ensures q <= m
  {
    if k <= q {
      MulMono(k, q, p);
    } else {
      MulMono(q + 1, k, p);
      assert (q + 1) * p == q * p + p;
    }
    assert q * (p - 1) >= 0;
    assert q * p == q * (p - 1) + q;
  }

  // ----- Strauss -----

  function StraussPointSize(l: Layout): (s: int)
    requires l.Sensible()
    ensures 1 <= s < 0x200000
  {
    TableEntries();
    (l.ge + l.fe) * TABLE_SIZE + l.straussPoint + l.gej + l.scalar
  }

  /** The octets asked for a batch of n points, before rounding. */
  function StraussScratchSize(l: Layout, n: nat): int
    requires l.Sensible()
  {
    n * StraussPointSize(l)
  }

  method StraussMaxPoints(l: Layout, scratch: Scratch) returns (n: u64)
    requires l.Sensible() && scratch.Valid()
    ensures forall k: nat :: k <= n <==>
      StraussScratchSize(l, k) <= Allowance(scratch.Free(), STRAUSS_SCRATCH_OBJECTS, scratch.alignment)
  {
    hide StraussPointSize, Allowance, Scratch.Free, Scratch.Valid, Layout.Sensible;
    var m := scratch.MaxAllocation(STRAUSS_SCRATCH_OBJECTS);
    forall k: nat
      ensures k <= m / StraussPointSize(l) <==> StraussScratchSize(l, k) <= m
    {
      WholeParts(k, m, StraussPointSize(l));
    }
    WholeParts(0, m, StraussPointSize(l));
    n := m / StraussPointSize(l);
  }

  // ----- Pippenger -----

  /** The bucket window chosen for n points. */
  function BucketWindow(n: nat): (w: nat)
    ensures 1 <= w <= PIPPENGER_MAX_BUCKET_WINDOW
  {
    if n <= 1 then 1
    else if n <= 4 then 2
    else if n <= 20 then 3
    else if n <= 57 then 4
    else if n <= 136 then 5
    else if n <= 235 then 6
    else if n <= 1260 then 7
    else if n <= 4420 then 9
    else if n <= 7880 then 10
    else if n <= 16050 then 11
    else PIPPENGER_MAX_BUCKET_WINDOW
  }

  /** The most points for which a bucket window is chosen; window 8 is never chosen. */
  function BucketWindowInv(w: nat): u64 {
    match w
    case 1 => 1
    case 2 => 4
    case 3 => 20
    case 4 => 57
    case 5 => 136
    case 6 => 235
    case 7 => 1260
    case 8 => 1260
    case 9 => 4420
    case 10 => 7880
    case 11 => 16050
    case 12 => TWO_64 - 1
    case _ => 0
  }

  /** The twelve limits. */
  lemma WindowLimits()
    ensures seq(12, i requires i >= 0 => BucketWindowInv(i + 1))
      == [1, 4, 20, 57, 136, 235, 1260, 1260, 4420, 7880, 16050, 0xFFFFFFFF_FFFFFFFF]
  {
  }

  /** The window of n points is the lowest whose points n does not exceed. */
  lemma WindowInverse(n: nat, w: nat)
    requires 1 <= w <= PIPPENGER_MAX_BUCKET_WINDOW && n < TWO_64
    ensures n <= BucketWindowInv(w) <==> BucketWindow(n) <= w
    ensures BucketWindow(n) != 8
  {
  }

  function EntrySize(l: Layout, w: nat): (s: int)
    requires l.Sensible() && w <= PIPPENGER_MAX_BUCKET_WINDOW
    ensures 3 <= s < 0x1000000
  {
    WnafWords(w + 1);
    WordsBound(WnafSize(w + 1) + 1, l.word);
    l.ge + l.scalar + l.pippengerPoint + (WnafSize(w + 1) + 1) * l.word
  }

  lemma WnafWords(w: nat)
    requires w > 0
    ensures 1 <= WnafSize(w) <= 128
  {
    DivMod(WNAF_BITS - 1, w);
    MulMono(1, w, (WNAF_BITS - 1) / w);
    assert w * ((WNAF_BITS - 1) / w) == ((WNAF_BITS - 1) / w) * w;
  }

  lemma WordsBound(n: nat, word: int)
    requires n <= 129 && 1 <= word <= 0x10000
    ensures 0 <= n * word <= 129 * 0x10000
  {
    MulMono(n, 129, word);
  }

  lemma BucketsBound(l: Layout, w: nat)
    requires l.Sensible() && w <= PIPPENGER_MAX_BUCKET_WINDOW
    ensures 1 <= l.gej * Pow2(w) <= 0x10000000
  {
    Pow2Monotone(w, 12);
    assert Pow2(12) == 0x1000;
    MulMono(1, l.gej, Pow2(w));
    MulMono(l.gej, 0x10000, Pow2(w));
  }

  function Overhead(l: Layout, w: nat): (s: int)
    requires l.Sensible() && 1 <= w <= PIPPENGER_MAX_BUCKET_WINDOW
    ensures 1 <= s < 0x100000000
  {
    BucketsBound(l, w);
    l.gej * Pow2(w) + 2 * EntrySize(l, w) + l.pippengerState
  }

  /** The octets asked for a batch of n points and the generator, before rounding. */
  function PippengerScratchSize(l: Layout, n: nat, w: nat): int
    requires l.Sensible() && 1 <= w <= PIPPENGER_MAX_BUCKET_WINDOW
  {
    l.gej * Pow2(w) + l.pippengerState + (2 * n + 2) * EntrySize(l, w)
  }

  lemma SizeIs(l: Layout, n: nat, w: nat)
    requires l.Sensible() && 1 <= w <= PIPPENGER_MAX_BUCKET_WINDOW
    ensures PippengerScratchSize(l, n, w) == Overhead(l, w) + n * (2 * EntrySize(l, w))
  {
    assert (2 * n + 2) * EntrySize(l, w) == n * (2 * EntrySize(l, w)) + 2 * EntrySize(l, w);
  }

  /** n points fit window w exactly when they do not exceed its share of the space. */
  lemma PointsFit(l: Layout, m: nat, w: nat, k: nat)
    requires l.Sensible() && 1 <= w <= PIPPENGER_MAX_BUCKET_WINDOW
    ensures Overhead(l, w) > m ==> PippengerScratchSize(l, k, w) > m
    ensures Overhead(l, w) <= m ==>
      (k <= (m - Overhead(l, w)) / (2 * EntrySize(l, w)) <==> PippengerScratchSize(l, k, w) <= m)
  {
    SizeIs(l, k, w);
    hide EntrySize, Overhead, PippengerScratchSize;
    MulMono(0, k, 2 * EntrySize(l, w));
    if Overhead(l, w) <= m {
      WholeParts(k, m - Overhead(l, w), 2 * EntrySize(l, w));
    }
  }

  /** The points fit in the window that is chosen for them. */
  ghost predicate Fits(l: Layout, m: nat, k: nat)
    requires l.Sensible()
  {
    PippengerScratchSize(l, k, BucketWindow(k)) <= m
  }

  /** What the windows tried so far allow: the points of all windows below w. */
  ghost predicate Tried(l: Layout, m: nat, w: nat, res: nat)
    requires l.Sensible() && w >= 1
  {
    && res == BucketWindowInv(w - 1)
    && forall k: nat :: 1 <= k <= res ==> Fits(l, m, k)
  }

  /** Every number of points up to res fits, and one more does not. At 1260 the search can also have
      ended because these points do not fit window 8, which is tried and never chosen. */
  ghost predicate MostPoints(l: Layout, m: nat, res: nat)
    requires l.Sensible()
  {
    && (forall k: nat :: 1 <= k <= res ==> Fits(l, m, k))
    && (res < TWO_64 - 1 ==> !Fits(l, m, res + 1) || (res == 1260 && PippengerScratchSize(l, res, 8) > m))
  }

  /** The points that window w adds to those below it. */
  lemma WindowAdds(l: Layout, m: nat, w: nat, res: nat, points: nat)
    requires l.Sensible() && 1 <= w <= PIPPENGER_MAX_BUCKET_WINDOW && Tried(l, m, w, res)
    requires Overhead(l, w) <= m
    requires points <= (m - Overhead(l, w)) / (2 * EntrySize(l, w)) && points <= BucketWindowInv(w)
    ensures forall k: nat :: 1 <= k <= points ==> Fits(l, m, k)
  {
    hide EntrySize, Overhead, PippengerScratchSize, BucketWindow, BucketWindowInv;
    forall k: nat | 1 <= k <= points
      ensures Fits(l, m, k)
    {
      WindowInverse(k, w);
      InverseBelow(k, w);
      PointsFit(l, m, w, k);
    }
  }

  lemma InverseBelow(k: nat, w: nat)
    requires 1 <= w <= PIPPENGER_MAX_BUCKET_WINDOW && 1 <= k < TWO_64 && BucketWindow(k) <= w
    ensures k <= BucketWindowInv(w - 1) || BucketWindow(k) == w
  {
  }

  /** One more point than the windows below w allow needs window w, which may be the one after 8. */
  lemma OneMore(w: nat, res: nat)
    requires 1 <= w <= PIPPENGER_MAX_BUCKET_WINDOW && BucketWindowInv(w - 1) <= res < TWO_64 - 1
    requires res < BucketWindowInv(w) || res == BucketWindowInv(w - 1)
    ensures BucketWindow(res + 1) == w || (w == 8 && res == 1260)
  {
  }

  lemma NothingTried(l: Layout, m: nat)
    requires l.Sensible()
    ensures Tried(l, m, 1, 0)
  {
  }

  lemma WindowSizes(l: Layout, w: nat)
    requires l.Sensible() && 1 <= w <= PIPPENGER_MAX_BUCKET_WINDOW
    ensures EntrySize(l, w) == l.ge + l.scalar + l.pippengerPoint + (WnafSize(w + 1) + 1) * l.word
    ensures Overhead(l, w) == l.gej * Pow2(w) + 2 * EntrySize(l, w) + l.pippengerState
  {
    hide WnafSize, Pow2;
  }

  lemma NoRoom(l: Layout, m: nat, w: nat, res: nat)
    requires l.Sensible() && 1 <= w <= PIPPENGER_MAX_BUCKET_WINDOW && Tried(l, m, w, res) && Overhead(l, w) > m
    ensures MostPoints(l, m, res)
  {
    hide EntrySize, Overhead, PippengerScratchSize, BucketWindow, BucketWindowInv;
    if res < TWO_64 - 1 {
      OneMore(w, res);
      PointsFit(l, m, w, res + 1);
      PointsFit(l, m, w, res);
    }
  }

  lemma LimitsRise(w: nat)
    requires 1 <= w <= PIPPENGER_MAX_BUCKET_WINDOW
    ensures BucketWindowInv(w - 1) <= BucketWindowInv(w) && BucketWindowInv(8) == BucketWindowInv(7) == 1260
  {
  }

  function Larger(x: nat, y: nat): nat {
    if x > y then x else y
  }

  lemma RoomForSome(l: Layout, m: nat, w: nat, res: nat, points: nat)
    requires l.Sensible() && 1 <= w <= PIPPENGER_MAX_BUCKET_WINDOW && Tried(l, m, w, res) && Overhead(l, w) <= m
    requires points == (m - Overhead(l, w)) / (2 * EntrySize(l, w)) < BucketWindowInv(w)
    ensures MostPoints(l, m, Larger(points, res))
  {
    hide EntrySize, Overhead, PippengerScratchSize, BucketWindow, BucketWindowInv, Fits;
    WindowAdds(l, m, w, res, points);
    var most := Larger(points, res);
    if most < TWO_64 - 1 {
      OneMore(w, most);
      PointsFit(l, m, w, most + 1);
      PointsFit(l, m, w, most);
      FitsIs(l, m, most + 1);
      LimitsRise(w);
    }
  }

  lemma FitsIs(l: Layout, m: nat, k: nat)
    requires l.Sensible()
    ensures Fits(l, m, k) <==> PippengerScratchSize(l, k, BucketWindow(k)) <= m
  {
  }

  lemma RoomForAll(l: Layout, m: nat, w: nat, res: nat)
    requires l.Sensible() && 1 <= w <= PIPPENGER_MAX_BUCKET_WINDOW && Tried(l, m, w, res) && Overhead(l, w) <= m
    requires BucketWindowInv(w) <= (m - Overhead(l, w)) / (2 * EntrySize(l, w))
    ensures Tried(l, m, w + 1, Larger(BucketWindowInv(w), res))
  {
    WindowAdds(l, m, w, res, BucketWindowInv(w));
    hide EntrySize, Overhead, PippengerScratchSize, BucketWindow, Fits;
  }

  lemma AllTried(l: Layout, m: nat, res: nat)
    requires l.Sensible() && Tried(l, m, PIPPENGER_MAX_BUCKET_WINDOW + 1, res)
    ensures MostPoints(l, m, res)
  {
    hide Fits;
  }

  /** Tries one bucket window after the other, and stops at the first that the space limits: fewer
      points than the result must be usable as well. */
  method PippengerMaxPoints(l: Layout, scratch: Scratch) returns (res: u64)
    requires l.Sensible() && scratch.Valid()
    ensures MostPoints(l, Allowance(scratch.Free(), PIPPENGER_SCRATCH_OBJECTS, scratch.alignment), res)
  {
    hide Fits, Tried, MostPoints, EntrySize, Overhead, BucketWindow, BucketWindowInv, PippengerScratchSize, Larger,
        WnafSize, Pow2,
         Allowance, Scratch.Free, Scratch.Valid, Layout.Sensible;
    var maxAlloc := scratch.MaxAllocation(PIPPENGER_SCRATCH_OBJECTS);
    res := 0;
    var bucketWindow := 1;
    NothingTried(l, maxAlloc);
    while bucketWindow <= PIPPENGER_MAX_BUCKET_WINDOW
      invariant 1 <= bucketWindow <= PIPPENGER_MAX_BUCKET_WINDOW + 1
      invariant Tried(l, maxAlloc, bucketWindow, res)
    {
      var maxPoints := BucketWindowInv(bucketWindow);
      WindowSizes(l, bucketWindow);
      var entrySize: u64 := l.ge + l.scalar + l.pippengerPoint + (WnafSize(bucketWindow + 1) + 1) * l.word;
      entrySize := 2 * entrySize;
      var spaceOverhead: u64 := l.gej * Pow2(bucketWindow) + entrySize + l.pippengerState;
      if spaceOverhead > maxAlloc {
        NoRoom(l, maxAlloc, bucketWindow, res);
        return;
      }
      var spaceForPoints := maxAlloc - spaceOverhead;
      WholeParts(0, spaceForPoints, entrySize);
      var nPoints: u64 := spaceForPoints / entrySize;
      nPoints := if nPoints > maxPoints then maxPoints else nPoints;
      ghost var before := res;
      if nPoints > res {
        res := nPoints;
      }
      LargerIs(nPoints, before);
      if nPoints < maxPoints {
        RoomForSome(l, maxAlloc, bucketWindow, before, nPoints);
        return;
      }
      RoomForAll(l, maxAlloc, bucketWindow, before);
      bucketWindow := bucketWindow + 1;
    }
    AllTried(l, maxAlloc, res);
  }

  lemma LargerIs(x: nat, y: nat)
    ensures Larger(x, y) == if x > y then x else y
  {
  }

  // ----- the buffers of a batch -----

  /** No size of a batch of n points wraps around in a 64-bit word. */
  predicate StraussCounts(l: Layout, n: nat)
    requires l.Sensible()
  {
    StraussScratchSize(l, n) < TWO_64
  }

  predicate PippengerCounts(l: Layout, n: nat)
    requires l.Sensible()
  {
    PippengerScratchSize(l, n, BucketWindow(n)) < TWO_64
  }

  /** Batches under the cap are far below that. */
  lemma CappedCounts(l: Layout, n: nat)
    requires l.Sensible() && n <= ECMULT_MAX_POINTS_PER_BATCH
    ensures StraussCounts(l, n) && PippengerCounts(l, n)
  {
    var w := BucketWindow(n);
    SizeIs(l, n, w);
    var p, e, o := StraussPointSize(l), 2 * EntrySize(l, w), Overhead(l, w);
    hide StraussPointSize, EntrySize, Overhead, PippengerScratchSize, BucketWindow;
    MulMono(n, ECMULT_MAX_POINTS_PER_BATCH, p);
    MulMono(n, ECMULT_MAX_POINTS_PER_BATCH, e);
  }

  /** What the five buffers of an interleaved batch take. */
  function StraussNeeds(l: Layout, n: nat, a: int): nat
    requires l.Sensible() && a >= 1
  {
    Rounded(n * l.gej, a) + Rounded(n * l.scalar, a) + Rounded(n * TABLE_SIZE * l.fe, a)
        + Rounded(n * TABLE_SIZE * l.ge, a)
    + Rounded(n * l.straussPoint, a)
  }

  lemma StraussNeedsIs(l: Layout, n: nat, a: int)
    requires l.Sensible() && a >= 1
    ensures n * l.gej >= 0 && n * l.scalar >= 0 && n * TABLE_SIZE * l.fe >= 0 && n * TABLE_SIZE * l.ge >= 0
      && n * l.straussPoint >= 0
    ensures StraussNeeds(l, n, a) == Rounded(n * l.gej, a) + Rounded(n * l.scalar, a)
      + Rounded(n * TABLE_SIZE * l.fe, a)
      + Rounded(n * TABLE_SIZE * l.ge, a) + Rounded(n * l.straussPoint, a)
  {
    hide Rounded;
  }

  lemma StraussSum(l: Layout, n: nat)
    requires l.Sensible()
    ensures StraussScratchSize(l, n) == n * l.gej + n * l.scalar + n * TABLE_SIZE * l.fe + n * TABLE_SIZE * l.ge
      + n * l.straussPoint
  {
  }

  /** Five sizes that fit the allowance fit the space when each is rounded up. */
  lemma FiveRounded(x1: nat, x2: nat, x3: nat, x4: nat, x5: nat, free: nat, a: int)
    requires a >= 1 && 0 < x1 + x2 + x3 + x4 + x5 <= Allowance(free, STRAUSS_SCRATCH_OBJECTS, a)
    ensures Rounded(x1, a) + Rounded(x2, a) + Rounded(x3, a) + Rounded(x4, a) + Rounded(x5, a) <= free
  {
    RoundedIs(x1, a);
    RoundedIs(x2, a);
    RoundedIs(x3, a);
    RoundedIs(x4, a);
    RoundedIs(x5, a);
    hide Rounded;
  }

  lemma SizesAre(l: Layout)
    requires l.Sensible()
    ensures 1 <= l.ge <= 0x10000 && 1 <= l.fe <= 0x10000 && 1 <= l.gej <= 0x10000 && 1 <= l.scalar <= 0x10000
      && 1 <= l.word <= 0x10000
    ensures 1 <= l.straussPoint <= 0x10000 && 1 <= l.pippengerPoint <= 0x10000 && 1 <= l.pippengerState <= 0x10000
  {
  }

  /** Up to the largest number of points all five can be had. */
  lemma StraussFits(l: Layout, n: nat, free: nat, a: int)
    requires l.Sensible() && a >= 1 && n > 0
    requires StraussScratchSize(l, n) <= Allowance(free, STRAUSS_SCRATCH_OBJECTS, a)
    ensures StraussNeeds(l, n, a) <= free
  {
    SizesAre(l);
    StraussSum(l, n);
    hide *;
    FiveRounded(n * l.gej, n * l.scalar, n * TABLE_SIZE * l.fe, n * TABLE_SIZE * l.ge, n * l.straussPoint, free, a);
    StraussNeedsIs(l, n, a);
  }

  /** Takes the five buffers one after the other. */
  method StraussBuffers(l: Layout, scratch: Scratch, n: nat) returns (ok: bool)
    requires l.Sensible() && scratch.Valid() && StraussCounts(l, n)
    modifies scratch
    ensures scratch.Valid() && scratch.allocSize >= old(scratch.allocSize)
    ensures ok <==> StraussNeeds(l, n, scratch.alignment) <= old(scratch.Free())
  {
    hide Rounded, Layout.Sensible, StraussNeeds;
    SizesAre(l);
    StraussNeedsIs(l, n, scratch.alignment);
    StraussSum(l, n);
    hide StraussScratchSize;
    var points := scratch.Alloc(n * l.gej);
    var scalars := scratch.Alloc(n * l.scalar);
    var aux := scratch.Alloc(n * TABLE_SIZE * l.fe);
    var preA := scratch.Alloc(n * TABLE_SIZE * l.ge);
    var ps := scratch.Alloc(n * l.straussPoint);
    ok := points && scalars && aux && preA && ps;
  }

  lemma BuffersArePositive(l: Layout, n: nat)
    requires l.Sensible()
    ensures var entries, w := 2 * n + 2, BucketWindow(n);
      && entries * l.ge >= 0 && entries * l.scalar >= 0 && l.pippengerState >= 0 && entries * l.pippengerPoint >= 0
      && entries * WnafSize(w + 1) * l.word >= 0 && Pow2(w) * l.gej >= 1
  {
    var entries, w := 2 * n + 2, BucketWindow(n);
    SizesAre(l);
    BucketsBound(l, w);
    WnafWords(w + 1);
    hide *;
    MulMono(0, entries, l.ge);
    MulMono(0, entries, l.scalar);
    MulMono(0, entries, l.pippengerPoint);
    MulMono(0, entries, WnafSize(w + 1));
    MulMono(0, entries * WnafSize(w + 1), l.word);
    assert l.gej * Pow2(w) == Pow2(w) * l.gej;
  }

  /** What the six buffers of a bucket batch take. */
  function PippengerNeeds(l: Layout, n: nat, a: int): nat
    requires l.Sensible() && a >= 1
  {
    BuffersArePositive(l, n);
    var entries, w := 2 * n + 2, BucketWindow(n);
    Rounded(entries * l.ge, a) + Rounded(entries * l.scalar, a) + Rounded(l.pippengerState, a)
    + Rounded(entries * l.pippengerPoint, a) + Rounded(entries * WnafSize(w + 1) * l.word, a)
      + Rounded(Pow2(w) * l.gej, a)
  }

  lemma PippengerNeedsIs(l: Layout, n: nat, a: int)
    requires l.Sensible() && a >= 1
    ensures var entries, w := 2 * n + 2, BucketWindow(n);
      && entries * l.ge >= 0 && entries * l.scalar >= 0 && entries * l.pippengerPoint >= 0
      && entries * WnafSize(w + 1) * l.word >= 0 && Pow2(w) * l.gej >= 1
      && PippengerNeeds(l, n, a) == Rounded(entries * l.ge, a) + Rounded(entries * l.scalar, a)
        + Rounded(l.pippengerState, a)
        + Rounded(entries * l.pippengerPoint, a) + Rounded(entries * WnafSize(w + 1) * l.word, a)
          + Rounded(Pow2(w) * l.gej, a)
  {
    BuffersArePositive(l, n);
    hide Rounded, Pow2, BucketWindow, WnafSize, Layout.Sensible;
  }

  /** The size that is counted on is what the buffers ask for, and one word more for each entry. */
  lemma PippengerSum(l: Layout, n: nat)
    requires l.Sensible()
    ensures var entries, w := 2 * n + 2, BucketWindow(n);
      && entries * l.ge + entries * l.scalar + l.pippengerState + entries * l.pippengerPoint
        + entries * WnafSize(w + 1) * l.word + Pow2(w) * l.gej + entries * l.word == PippengerScratchSize(l, n, w)
      && entries * l.word >= 0
  {
    var entries, w := 2 * n + 2, BucketWindow(n);
    WindowSizes(l, w);
    EntryTerms(entries, l.ge, l.scalar, l.pippengerPoint, WnafSize(w + 1), l.word);
    hide BucketWindow, WnafSize, Pow2, EntrySize;
    assert Pow2(w) * l.gej == l.gej * Pow2(w);
  }

  lemma EntryTerms(entries: nat, ge: int, scalar: int, point: int, words: nat, word: int)
    requires word >= 1
    ensures entries * ge + entries * scalar + entries * point + entries * words * word + entries * word
         == entries * (ge + scalar + point + (words + 1) * word)
    ensures entries * word >= 0
  {
    assert (words + 1) * word == words * word + word;
    assert entries * (words * word) == entries * words * word;
    MulMono(0, entries, word);
    assert entries * (ge + scalar + point + (words * word + word))
        == entries * ge + entries * scalar + entries * point + entries * (words * word) + entries * word;
  }

  /** Six sizes that fit the allowance fit the space when each is rounded up. */
  lemma SixRounded(x1: nat, x2: nat, x3: nat, x4: nat, x5: nat, x6: nat, free: nat, a: int)
    requires a >= 1 && 0 < x6 && x1 + x2 + x3 + x4 + x5 + x6 <= Allowance(free, PIPPENGER_SCRATCH_OBJECTS, a)
    ensures Rounded(x1, a) + Rounded(x2, a) + Rounded(x3, a) + Rounded(x4, a) + Rounded(x5, a) + Rounded(x6, a) <= free
  {
    RoundedIs(x1, a);
    RoundedIs(x2, a);
    RoundedIs(x3, a);
    RoundedIs(x4, a);
    RoundedIs(x5, a);
    RoundedIs(x6, a);
    hide Rounded;
  }

  /** Whenever the points fit, all six can be had. */
  lemma PippengerFits(l: Layout, n: nat, free: nat, a: int)
    requires l.Sensible() && a >= 1 && Fits(l, Allowance(free, PIPPENGER_SCRATCH_OBJECTS, a), n)
    ensures PippengerNeeds(l, n, a) <= free
  {
    SizesAre(l);
    var entries, w := 2 * n + 2, BucketWindow(n);
    PippengerSum(l, n);
    FitsIs(l, Allowance(free, PIPPENGER_SCRATCH_OBJECTS, a), n);
    PippengerNeedsIs(l, n, a);
    hide *;
    SixRounded(entries * l.ge, entries * l.scalar, l.pippengerState, entries * l.pippengerPoint,
        entries * WnafSize(w + 1) * l.word,
      Pow2(w) * l.gej, free, a);
  }

  /** Takes the six buffers, giving up after the third or the sixth. */
  method PippengerBuffers(l: Layout, scratch: Scratch, n: nat) returns (ok: bool)
    requires l.Sensible() && scratch.Valid() && PippengerCounts(l, n)
    modifies scratch
    ensures scratch.Valid() && scratch.allocSize >= old(scratch.allocSize)
    ensures ok <==> PippengerNeeds(l, n, scratch.alignment) <= old(scratch.Free())
  {
    hide Rounded, Layout.Sensible, WnafSize, BucketWindow, Pow2, PippengerNeeds;
    SizesAre(l);
    PippengerNeedsIs(l, n, scratch.alignment);
    var entries := 2 * n + 2;
    var bucketWindow := BucketWindow(n);
    PippengerSum(l, n);
    hide PippengerScratchSize;
    var points := scratch.Alloc(entries * l.ge);
    var scalars := scratch.Alloc(entries * l.scalar);
    var state := scratch.Alloc(l.pippengerState);
    if !(points && scalars && state) {
      return false;
    }
    var ps := scratch.Alloc(entries * l.pippengerPoint);
    var wnafNa := scratch.Alloc(entries * WnafSize(bucketWindow + 1) * l.word);
    var buckets := scratch.Alloc(Pow2(bucketWindow) * l.gej);
    ok := ps && wnafNa && buckets;
  }
}
