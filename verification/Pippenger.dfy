/** Multi-point multiplication with buckets: sum of sc[i]*pt[i]. */
module Pippenger {
  import opened Arith
  import opened Groups
  import opened Scalars
  import opened Wnaf
  import opened Windows

  // ----- sums over the buckets -----

  /** 1*b[0] + 3*b[1] + 5*b[2] + ... from bucket k on. */
  ghost function Weighted<P(!new)>(g: Group<P>, b: seq<P>, k: nat): P
    requires k <= |b|
    decreases |b| - k
  {
    if k == |b| then g.zero else g.add(g.Mul(2 * k + 1, b[k]), Weighted(g, b, k + 1))
  }

  ghost function Tail<P(!new)>(g: Group<P>, b: seq<P>, k: nat): P
    requires k <= |b|
    decreases |b| - k
  {
    if k == |b| then g.zero else g.add(Tail(g, b, k + 1), b[k])
  }

  /** The sum of all tails from k on. */
  ghost function Ramp<P(!new)>(g: Group<P>, b: seq<P>, k: nat): P
    requires k <= |b|
    decreases |b| - k
  {
    if k == |b| then g.zero else g.add(Ramp(g, b, k + 1), Tail(g, b, k))
  }

  lemma {:induction false} WeightedByTails<P(!new)>(g: Group<P>, b: seq<P>, k: nat)
    requires g.Lawful() && k < |b|
    ensures Weighted(g, b, k) == g.add(g.Mul(2, Ramp(g, b, k + 1)), g.Mul(2 * k + 1, Tail(g, b, k)))
    decreases |b| - k
  {
    hide Group.Lawful, Group.Mul;
    var c, t := 2 * k + 1, Tail(g, b, k + 1);
    g.MulDistrib(c, t, b[k]);
    g.Comm(g.Mul(c, b[k]), Weighted(g, b, k + 1));
    if k + 1 == |b| {
      g.MulZero(2);
      g.MulZero(c);
      g.Unit(g.Mul(c, b[k]));
    } else {
      WeightedByTails(g, b, k + 1);
      g.MulAdd(2, c, t);
      g.MulDistrib(2, Ramp(g, b, k + 2), t);
      g.Assoc(g.Mul(2, Ramp(g, b, k + 2)), g.Mul(2, t), g.Mul(c, t));
      g.Assoc(g.add(g.Mul(2, Ramp(g, b, k + 2)), g.Mul(2, t)), g.Mul(c, t), g.Mul(c, b[k]));
    }
  }

  /** Adding q to bucket i adds (2i+1)*q. */
  lemma {:induction false} WeightedUpdate<P(!new)>(g: Group<P>, b: seq<P>, k: nat, i: nat, q: P)
    requires g.Lawful() && k <= i < |b|
    ensures Weighted(g, b[i := g.add(b[i], q)], k) == g.add(Weighted(g, b, k), g.Mul(2 * i + 1, q))
    decreases i - k
  {
    hide Group.Lawful, Group.Mul;
    var e := b[i := g.add(b[i], q)];
    if k == i {
      WeightedFrame(g, b, e, k + 1);
      g.MulDistrib(2 * i + 1, b[i], q);
      g.Swap(g.Mul(2 * i + 1, b[i]), g.Mul(2 * i + 1, q), Weighted(g, b, k + 1));
    } else {
      WeightedUpdate(g, b, k + 1, i, q);
      g.Assoc(g.Mul(2 * k + 1, b[k]), Weighted(g, b, k + 1), g.Mul(2 * i + 1, q));
    }
  }

  lemma {:induction false} WeightedFrame<P(!new)>(g: Group<P>, b: seq<P>, e: seq<P>, k: nat)
    requires |b| == |e| && k <= |b| && b[k..] == e[k..]
    ensures Weighted(g, b, k) == Weighted(g, e, k)
    decreases |b| - k
  {
    if k < |b| {
      assert b[k] == b[k..][0] && e[k] == e[k..][0];
      assert b[k + 1..] == b[k..][1..] && e[k + 1..] == e[k..][1..];
      WeightedFrame(g, b, e, k + 1);
    }
  }

  lemma {:induction false} WeightedEmpty<P(!new)>(g: Group<P>, b: seq<P>, k: nat)
    requires g.Lawful() && k <= |b| && (forall j :: 0 <= j < |b| ==> b[j] == g.zero)
    ensures Weighted(g, b, k) == g.zero
    decreases |b| - k
  {
    hide Group.Lawful, Group.Mul;
    g.Unit(g.zero);
    if k < |b| {
      g.MulZero(2 * k + 1);
      WeightedEmpty(g, b, k + 1);
    }
  }

  /** Filing q under digit v adds v*q. */
  lemma FileDigit<P(!new)>(g: Group<P>, b: seq<P>, v: int, q: P)
    requires g.Lawful() && v % 2 == 1 && Abs(v) < 2 * |b|
    ensures var i := if v > 0 then (v - 1) / 2 else (-v - 1) / 2;
      var x := if v > 0 then q else g.neg(q);
      && i < |b|
      && Weighted(g, b[i := g.add(b[i], x)], 0) == g.add(Weighted(g, b, 0), g.Mul(v, q))
  {
    hide Group.Lawful, Group.Mul, Weighted;
    if v > 0 {
      WeightedUpdate(g, b, 0, (v - 1) / 2, q);
    } else {
      WeightedUpdate(g, b, 0, (-v - 1) / 2, g.neg(q));
      g.MulOfNeg(-v, q);
      g.MulNeg(-v, q);
    }
  }

  /** Filing the skew: one negated q goes to bucket 0. */
  lemma FileSkew<P(!new)>(g: Group<P>, b: seq<P>, q: P)
    requires g.Lawful() && |b| > 0
    ensures Weighted(g, b[0 := g.add(b[0], g.neg(q))], 0) == g.add(Weighted(g, b, 0), g.Mul(-1, q))
  {
    FileDigit(g, b, -1, q);
  }

  /** The recoded scalars: digits ds[j] and skews[j] stand for scalar ks[j]. */
  ghost predicate Recoded(w: nat, n: nat, ds: seq<seq<int>>, skews: seq<int>, ks: seq<int>) {
    && |ds| == |skews| == |ks|
    && (forall j :: 0 <= j < |ds| ==>
      && |ds[j]| == n
      && Radix(w, ds[j], n) - skews[j] == ks[j]
      && IsBit(skews[j])
      && (forall i :: 0 <= i < n ==> FixedDigit(w, ds[j][i])))
  }

  lemma AllWindows<P(!new)>(g: Group<P>, w: nat, n: nat, ds: seq<seq<int>>, skews: seq<int>, ks: seq<int>, qs: seq<P>)
    requires Recoded(w, n, ds, skews, ks) && |qs| == |ks| && n > 0
    ensures g.Dot(|qs|, Above(w, ds, skews, 0), qs) == g.Dot(|qs|, ks, qs)
  {
    forall j | 0 <= j < |ds| ensures Above(w, ds, skews, 0)[j] == ks[j] {
      HornerIsRadix(w, ds[j]);
    }
    assert Above(w, ds, skews, 0) == ks;
  }

  lemma NoWindows<P(!new)>(g: Group<P>, w: nat, n: nat, ds: seq<seq<int>>, skews: seq<int>, ks: seq<int>, qs: seq<P>)
    requires g.Lawful() && Recoded(w, n, ds, skews, ks) && |qs| == |ks| && n > 0
    ensures g.Dot(|qs|, Above(w, ds, skews, n), qs) == g.zero
  {
    g.DotVanish(|qs|, Above(w, ds, skews, n), qs);
  }

  // ----- the algorithm -----

  /** Files one point: in the lowest window the skew is paid back first. */
  method FilePoint<P(!new)>(g: Group<P>, buckets: array<P>, bucketWindow: nat, i: nat, skew: int, n: int, point: P)
    requires g.Lawful() && buckets.Length == Pow2(bucketWindow) && FixedDigit(bucketWindow + 1, n)
    modifies buckets
    ensures Weighted(g, buckets[..], 0)
      == g.add(old(Weighted(g, buckets[..], 0)), g.Mul((if i == 0 && skew != 0 then -1 else 0) + n, point))
  {
    hide Group.Lawful, Group.Mul, Weighted;
    assert Pow2(bucketWindow + 1) == 2 * Pow2(bucketWindow);
    ghost var before := buckets[..];
    ghost var owed := 0;
    g.Unit(Weighted(g, before, 0));
    if i == 0 {
      if skew != 0 {
        FileSkew(g, before, point);
        buckets[0] := g.add(buckets[0], g.neg(point));
        assert buckets[..] == before[0 := g.add(before[0], g.neg(point))];
        owed := -1;
      }
    }
    ghost var mid := buckets[..];
    assert Weighted(g, mid, 0) == g.add(Weighted(g, before, 0), g.Mul(owed, point)) by { g.MulOne(point); }
    if n > 0 {
      FileDigit(g, mid, n, point);
      var idx := (n - 1) / 2;
      buckets[idx] := g.add(buckets[idx], point);
      assert buckets[..] == mid[idx := g.add(mid[idx], point)];
    } else if n < 0 {
      FileDigit(g, mid, n, point);
      var idx := (-(n + 1)) / 2;
      buckets[idx] := g.add(buckets[idx], g.neg(point));
      assert buckets[..] == mid[idx := g.add(mid[idx], g.neg(point))];
    }
    assert Weighted(g, buckets[..], 0) == g.add(Weighted(g, mid, 0), g.Mul(n, point)) by {
      if n == 0 { g.MulOne(point); g.Unit(Weighted(g, mid, 0)); }
    }
    g.Assoc(Weighted(g, before, 0), g.Mul(owed, point), g.Mul(n, point));
    g.MulAdd(owed, n, point);
  }

  /** Files every point under its digit of window i. */
  method FillBuckets<P(!new)>(g: Group<P>, buckets: array<P>, bucketWindow: nat, wnafNa: array<int>, nWnaf: nat,
      skewNa: array<int>, inputPos: array<nat>, no: nat, pt: seq<P>, i: nat,
      ghost ds: seq<seq<int>>, ghost skews: seq<int>, ghost ks: seq<int>, ghost qs: seq<P>)
    requires g.Lawful() && buckets.Length == Pow2(bucketWindow)
    requires Recoded(bucketWindow + 1, nWnaf, ds, skews, ks) && |qs| == |ks| == no && i < nWnaf
    requires Stored(wnafNa[..], nWnaf, ds) && no <= skewNa.Length && skewNa[..no] == skews
    requires no <= inputPos.Length && (forall j :: 0 <= j < no ==> inputPos[j] < |pt| && pt[inputPos[j]] == qs[j])
    requires forall j :: 0 <= j < buckets.Length ==> buckets[j] == g.zero
    requires buckets as object !in {wnafNa as object, skewNa as object, inputPos as object}
    modifies buckets
    ensures Weighted(g, buckets[..], 0) == g.Dot(no, Share(ds, skews, i), qs)
  {
    hide Group.Lawful, Group.Mul, Weighted, Radix, Stored;
    WeightedEmpty(g, buckets[..], 0);
    for np := 0 to no
      invariant Weighted(g, buckets[..], 0) == g.Dot(np, Share(ds, skews, i), qs)
    {
      StoredAt(wnafNa[..], nWnaf, ds, np, i);
      var n := wnafNa[np * nWnaf + i];
      assert FixedDigit(bucketWindow + 1, ds[np][i]);
      var skew := skewNa[np];
      assert skew == skewNa[..no][np];
      FilePoint(g, buckets, bucketWindow, i, skew, n, pt[inputPos[np]]);
      assert Share(ds, skews, i)[np] == (if i == 0 && skew != 0 then -1 else 0) + n;
    }
  }

  /** The digit array holds the words of point j at j*n. */
  ghost predicate Stored(a: seq<int>, n: nat, ds: seq<seq<int>>) {
    forall j :: 0 <= j < |ds| ==> |ds[j]| == n && j * n >= 0 && j * n + n <= |a| && a[j * n..j * n + n] == ds[j]
  }

  lemma StoredAt(a: seq<int>, n: nat, ds: seq<seq<int>>, j: nat, i: nat)
    requires Stored(a, n, ds) && j < |ds| && i < n
    ensures 0 <= j * n && j * n + i < |a| && a[j * n + i] == ds[j][i]
  {
    assert a[j * n..j * n + n][i] == ds[j][i];
  }

  /** Rounds up the buckets: the ramp of tails is doubled together with the result. */
  method SumBuckets<P(!new)>(g: Group<P>, buckets: array<P>, bucketWindow: nat, r0: P) returns (r: P)
    requires g.Lawful() && buckets.Length == Pow2(bucketWindow)
    ensures r == g.add(g.Mul(Pow2(bucketWindow + 1), r0), Weighted(g, buckets[..], 0))
  {
    hide Group.Lawful, Group.Mul, Weighted, Pow2;
    r := r0;
    g.MulOne(r0);
    Pow2Succ(0);
    for j := 0 to bucketWindow
      invariant r == g.Mul(Pow2(j), r0)
    {
      Pow2Succ(j);
      g.Double(Pow2(j), r0);
      r := g.add(r, r);
    }
    ghost var base := r;
    var runningSum := g.zero;
    g.Unit(base);
    var j := buckets.Length - 1;
    assert buckets.Length > 0;
    while j > 0
      invariant 0 <= j < buckets.Length
      invariant runningSum == Tail(g, buckets[..], j + 1)
      invariant r == g.add(base, Ramp(g, buckets[..], j + 1))
    {
      runningSum := g.add(runningSum, buckets[j]);
      g.Assoc(base, Ramp(g, buckets[..], j + 1), runningSum);
      r := g.add(r, runningSum);
      j := j - 1;
    }
    ghost var ramp := Ramp(g, buckets[..], 1);
    runningSum := g.add(runningSum, buckets[0]);
    g.DoubleIs(r);
    r := g.add(r, r);
    g.MulDistrib(2, base, ramp);
    g.MulMul(2, Pow2(bucketWindow), r0);
    Pow2Succ(bucketWindow);
    g.Assoc(g.Mul(2, base), g.Mul(2, ramp), runningSum);
    WeightedByTails(g, buckets[..], 0);
    g.MulOne(runningSum);
    r := g.add(r, runningSum);
  }

  /** Appending the words of one more point. */
  lemma StoredSnoc(a: seq<int>, b: seq<int>, n: nat, ds: seq<seq<int>>, d: seq<int>)
    requires Stored(a, n, ds) && |a| == |b| && |d| == n
    requires |ds| * n >= 0 && |ds| * n + n <= |b| && b[..|ds| * n] == a[..|ds| * n]
    requires b[|ds| * n..|ds| * n + n] == d
    ensures Stored(b, n, ds + [d])
  {
    var es := ds + [d];
    forall j | 0 <= j < |es|
      ensures |es[j]| == n && j * n >= 0 && j * n + n <= |b| && b[j * n..j * n + n] == es[j]
    {
      if j < |ds| {
        MulMono(j + 1, |ds|, n);
        assert (j + 1) * n == j * n + n;
        assert b[j * n..j * n + n] == b[..|ds| * n][j * n..j * n + n] == a[j * n..j * n + n];
      }
    }
  }

  lemma RecodedSnoc(w: nat, n: nat, ds: seq<seq<int>>, skews: seq<int>, ks: seq<int>, d: seq<int>, skew: int, k: int)
    requires Recoded(w, n, ds, skews, ks)
    requires |d| == n && FixedForm(w, d, k, skew) && (skew == 0 || skew == 1) && 0 <= k < Pow2(WNAF_BITS)
    ensures Recoded(w, n, ds + [d], skews + [skew], ks + [k])
  {
    ModSmall(k, Pow2(WNAF_BITS));
    hide Radix, FixedDigit, Pow2;
  }

  /** The words of one more scalar fit behind those of no others. */
  lemma RoomForNext(no: nat, num: nat, n: nat, length: nat)
    requires no < num && num * n <= length
    ensures 0 <= no * n && no * n + n <= length
  {
    MulMono(no + 1, num, n);
    assert (no + 1) * n == no * n + n;
  }

  lemma DotSnoc<P(!new)>(g: Group<P>, ks: seq<int>, qs: seq<P>, k: int, q: P)
    requires |ks| == |qs|
    ensures g.Dot(|qs| + 1, ks + [k], qs + [q]) == g.add(g.Dot(|qs|, ks, qs), g.Mul(k, q))
  {
    g.DotSame(|qs|, ks, ks + [k], qs, qs + [q]);
  }

  lemma ModSmall(x: int, m: int)
    requires 0 <= x < m
    ensures x % m == x
  {
  }

  /** Recodes the scalars of the points that can contribute. */
  method RecodeAll<P(==,!new)>(g: Group<P>, w: nat, wnafNa: array<int>, skewNa: array<int>, inputPos: array<nat>,
      sc: seq<int>, pt: seq<P>, num: nat)
      returns (no: nat, ghost ds: seq<seq<int>>, ghost skews: seq<int>, ghost ks: seq<int>, ghost qs: seq<P>)
    requires g.Lawful() && 1 <= w <= 30 && num == |sc| == |pt|
    requires forall i :: 0 <= i < num ==> 0 <= sc[i] < Pow2(WNAF_BITS)
    requires skewNa.Length >= num && inputPos.Length >= num && wnafNa.Length >= num * WnafSize(w)
    requires wnafNa as object !in {skewNa as object, inputPos as object} && skewNa as object != inputPos as object
    modifies wnafNa, skewNa, inputPos
    ensures no <= num && Recoded(w, WnafSize(w), ds, skews, ks) && |qs| == |ks| == no
    ensures Stored(wnafNa[..], WnafSize(w), ds) && skewNa[..no] == skews
    ensures forall j :: 0 <= j < no ==> inputPos[j] < num && pt[inputPos[j]] == qs[j]
    ensures g.Dot(no, ks, qs) == g.Dot(num, sc, pt)
  {
    hide *;
    var n := WnafSize(w);
    no, ds, skews, ks, qs := 0, [], [], [], [];
    NothingYet(wnafNa[..], w, n);
    g.NoTerms(ks, qs);
    g.NoTerms(sc, pt);
    for np := 0 to num
      invariant no <= np && Recoded(w, n, ds, skews, ks) && |ds| == |skews| == |qs| == |ks| == no
      invariant Stored(wnafNa[..], n, ds) && skewNa[..no] == skews
      invariant forall j :: 0 <= j < no ==> inputPos[j] < num && pt[inputPos[j]] == qs[j]
      invariant g.Dot(no, ks, qs) == g.Dot(np, sc, pt)
    {
      g.DotStep(np, sc, pt);
      if sc[np] == 0 || pt[np] == g.zero {
        g.MulZero(sc[np]);
        g.MulOne(pt[np]);
        g.Unit(g.Dot(np, sc, pt));
        continue;
      }
      RoomForNext(no, num, n, wnafNa.Length);
      ghost var before := wnafNa[..];
      inputPos[no] := np;
      assert wnafNa[..] == before;
      SmallScalar(sc[np]);
      var skew := WnafFixed(wnafNa, no * n, sc[np], w);
      skewNa[no] := skew;
      ghost var d := wnafNa[no * n..no * n + n];
      OutsidePrefix(wnafNa[..], before, no * n, n);
      StoredSnoc(before, wnafNa[..], n, ds, d);
      RecodedSnoc(w, n, ds, skews, ks, d, skew, sc[np]);
      DotSnoc(g, ks, qs, sc[np], pt[np]);
      ds, skews, ks, qs := ds + [d], skews + [skew], ks + [sc[np]], qs + [pt[np]];
      no := no + 1;
    }
  }

  lemma NothingYet(a: seq<int>, w: nat, n: nat)
    ensures Stored(a, n, []) && Recoded(w, n, [], [], [])
  {
  }

  lemma SmallScalar(s: int)
    requires 0 <= s < Pow2(WNAF_BITS)
    ensures 0 <= s < N
  {
    Pow2Values();
  }

  lemma OutsidePrefix(a: seq<int>, b: seq<int>, base: nat, n: nat)
    requires base + n <= |a| == |b| && Outside(a, b, base, n)
    ensures a[..base] == b[..base]
  {
  }

  /** r = sum of sc[i]*pt[i] over all points, for scalars below 2^128. Points that cannot
      contribute are left out of the windows. */
  method PippengerWnaf<P(==,!new)>(g: Group<P>, buckets: array<P>, bucketWindow: nat, wnafNa: array<int>,
      skewNa: array<int>, inputPos: array<nat>, sc: seq<int>, pt: seq<P>, num: nat) returns (r: P)
    requires g.Lawful() && 1 <= bucketWindow <= 12 && num == |sc| == |pt|
    requires forall i :: 0 <= i < num ==> 0 <= sc[i] < Pow2(WNAF_BITS)
    requires buckets.Length == Pow2(bucketWindow)
    requires skewNa.Length >= num && inputPos.Length >= num && wnafNa.Length >= num * WnafSize(bucketWindow + 1)
    requires buckets as object !in {wnafNa as object, skewNa as object, inputPos as object}
    requires wnafNa as object !in {skewNa as object, inputPos as object} && skewNa as object != inputPos as object
    modifies buckets, wnafNa, skewNa, inputPos
    ensures r == g.Dot(num, sc, pt)
  {
    hide Group.Lawful, Group.Mul, Radix, Horner, FixedDigit, Stored, Pow2, Above, WnafSize;
    SizeCovers(bucketWindow + 1);
    var no;
    ghost var ds, skews, ks, qs;
    no, ds, skews, ks, qs := RecodeAll(g, bucketWindow + 1, wnafNa, skewNa, inputPos, sc, pt, num);
    r := g.zero;
    if no == 0 {
      return;
    }
    var n := WnafSize(bucketWindow + 1);
    NoWindows(g, bucketWindow + 1, n, ds, skews, ks, qs);
    ghost var words := wnafNa[..];
    var i: int := n - 1;
    while i >= 0
      invariant -1 <= i < n
      invariant r == g.Dot(|qs|, Above(bucketWindow + 1, ds, skews, i + 1), qs)
      modifies buckets
    {
      for j := 0 to buckets.Length
        invariant forall k :: 0 <= k < j ==> buckets[k] == g.zero
      {
        buckets[j] := g.zero;
      }
      assert wnafNa[..] == words;
      FillBuckets(g, buckets, bucketWindow, wnafNa, n, skewNa, inputPos, no, pt, i, ds, skews, ks, qs);
      WindowJoins(g, bucketWindow + 1, ds, skews, i, qs);
      r := SumBuckets(g, buckets, bucketWindow, r);
      i := i - 1;
    }
    AllWindows(g, bucketWindow + 1, n, ds, skews, ks, qs);
  }
}
