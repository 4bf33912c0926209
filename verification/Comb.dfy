/** The signed-digit multi-comb: which bits a table entry covers, and why the rows add up. */
module Comb {
  import opened Arith
  import opened SignedBits
  import opened Wnaf

  /** blocks tables, each over teeth bits that lie spacing apart. */
  datatype Params = Params(blocks: nat, teeth: nat, spacing: nat)
  {
    predicate Valid() {
      1 <= blocks <= 256 && 1 <= teeth <= 8 && spacing >= 1 && Positions() * spacing >= 256
    }

    function Positions(): nat { blocks * teeth }

    function Bits(): nat { Positions() * spacing }

    /** The number of entries per table. */
    function Points(): (n: nat)
      requires teeth >= 1
      ensures n >= 1
    {
      Pow2(teeth - 1)
    }
  }

  /** The weight of comb position p. */
  ghost function Weight(c: Params, p: nat): (w: int)
    ensures w > 0
  {
    Pow2(p * c.spacing)
  }

  /** The bit that tooth t of block b reads in row off. */
  function Position(c: Params, b: nat, t: nat, off: nat): nat { (b * c.teeth + t) * c.spacing + off }

  function SignOf(b: int): int { 2 * b - 1 }

  /** The signed sum the low n bits of m select in block b. */
  ghost function ToothSum(c: Params, b: nat, m: int, n: nat): int {
    if n == 0 then 0 else ToothSum(c, b, m, n - 1) + SignOf(Bit(m, n - 1)) * Weight(c, b * c.teeth + (n - 1))
  }

  /** The same sum for the bits of d that block b reads in row off. */
  ghost function BlockSum(c: Params, b: nat, d: int, off: nat, n: nat): int {
    if n == 0 then 0 else
      BlockSum(c, b, d, off, n - 1) + SignOf(Bit(d, Position(c, b, n - 1, off))) * Weight(c, b * c.teeth + (n - 1))
  }

  /** The first n positions of row off. */
  ghost function RowSum(c: Params, d: int, off: nat, n: nat): int {
    if n == 0 then 0 else RowSum(c, d, off, n - 1) + SignOf(Bit(d, (n - 1) * c.spacing + off)) * Weight(c, n - 1)
  }

  lemma RowStep(c: Params, d: int, off: nat, p: nat)
    ensures RowSum(c, d, off, p + 1) == RowSum(c, d, off, p) + SignOf(Bit(d, p * c.spacing + off)) * Weight(c, p)
  {
    hide Weight, Bit, SignOf;
  }

  lemma BlockStep(c: Params, b: nat, d: int, off: nat, n: nat, base: nat)
    requires n > 0 && base == b * c.teeth
    ensures BlockSum(c, b, d, off, n)
      == BlockSum(c, b, d, off, n - 1) + SignOf(Bit(d, (base + (n - 1)) * c.spacing + off)) * Weight(c, base + (n - 1))
  {
    hide Weight, Bit, SignOf;
  }

  /** A row up to position n of a block is the row up to the block and the block's part. */
  lemma {:induction false} RowByBlocks(c: Params, b: nat, d: int, off: nat, n: nat, base: nat)
    requires base == b * c.teeth
    ensures RowSum(c, d, off, base + n) == RowSum(c, d, off, base) + BlockSum(c, b, d, off, n)
  {
    if n > 0 {
      hide *;
      RowByBlocks(c, b, d, off, n - 1, base);
      RowStep(c, d, off, base + (n - 1));
      BlockStep(c, b, d, off, n, base);
    }
  }

  /** The low n bits of m are the bits block b reads in row off, inverted when sign is set. */
  ghost predicate Reads(c: Params, m: int, b: nat, d: int, off: nat, sign: int, n: nat) {
    forall t :: 0 <= t < n ==> Bit(m, t) == (Bit(d, Position(c, b, t, off)) + sign) % 2
  }

  /** Inverting all bits negates the sum. */
  lemma {:induction false} FlippedSum(c: Params, b: nat, d: int, off: nat, m: int, sign: int, n: nat)
    requires IsBit(sign) && Reads(c, m, b, d, off, sign, n)
    ensures BlockSum(c, b, d, off, n) == (if sign == 1 then -ToothSum(c, b, m, n) else ToothSum(c, b, m, n))
  {
    hide Position, Weight;
    if n > 0 {
      FlippedSum(c, b, d, off, m, sign, n - 1);
      FlippedTerm(Bit(d, Position(c, b, n - 1, off)), Bit(m, n - 1), sign, Weight(c, b * c.teeth + (n - 1)));
      hide Bit, Reads;
    }
  }

  /** An inverted bit counts the other way. */
  lemma FlippedTerm(x: int, y: int, sign: int, w: int)
    requires IsBit(x) && IsBit(sign) && y == (x + sign) % 2
    ensures SignOf(x) * w == (if sign == 1 then -(SignOf(y) * w) else SignOf(y) * w)
  {
    if sign == 1 {
      assert SignOf(x) == -SignOf(y);
    }
  }

  // ----- all rows together -----

  ghost function Rows(c: Params, d: int, n: nat): (r: seq<int>)
    ensures |r| == c.spacing
  {
    seq(c.spacing, off requires 0 <= off < c.spacing => RowSum(c, d, off, n))
  }

  /** The signs of the spacing bits that start at position n. */
  ghost function Signs(c: Params, d: int, n: nat): (r: seq<int>)
    ensures |r| == c.spacing
  {
    seq(c.spacing, off requires 0 <= off < c.spacing => SignOf(Bit(d, n * c.spacing + off)))
  }

  lemma {:induction false} RadixLinear(x: seq<int>, y: seq<int>, z: seq<int>, w: int, n: nat)
    requires n <= |x| && n <= |y| && n <= |z|
    requires forall i :: 0 <= i < n ==> z[i] == x[i] + y[i] * w
    ensures Radix(1, z, n) == Radix(1, x, n) + Radix(1, y, n) * w
  {
    if n > 0 {
      RadixLinear(x, y, z, w, n - 1);
      LinearTerm(x[n - 1], y[n - 1], w, Pow2(1 * (n - 1)), Radix(1, y, n - 1));
    }
  }

  lemma LinearTerm(x: int, y: int, w: int, p: int, r: int)
    ensures (x + y * w) * p == x * p + (y * p) * w
    ensures (r + y * p) * w == r * w + (y * p) * w
  {
    assert (y * w) * p == (y * p) * w;
  }

  lemma {:induction false} ChunkSigns(c: Params, d: int, n: nat, j: nat)
    requires j <= c.spacing
    ensures SignSum(n * c.spacing + j, d) == SignSum(n * c.spacing, d) + Radix(1, Signs(c, d, n), j) * Weight(c, n)
  {
    hide Pow2, Bit, SignSum;
    if j > 0 {
      ChunkSigns(c, d, n, j - 1);
      ChunkStep(n * c.spacing, d, j - 1, Weight(c, n), Radix(1, Signs(c, d, n), j - 1), Signs(c, d, n)[j - 1]);
    }
  }

  lemma ChunkStep(base: nat, d: int, i: nat, w: int, r: int, x: int)
    requires w == Pow2(base) && x == SignOf(Bit(d, base + i))
    requires SignSum(base + i, d) == SignSum(base, d) + r * w
    ensures SignSum(base + i + 1, d) == SignSum(base, d) + (r + x * Pow2(1 * i)) * w
  {
    hide Pow2, Bit;
    Pow2Add(base, i);
    ChunkTerm(x, w, Pow2(i));
    MulSplit(1, r, x * Pow2(i), w);
  }

  lemma ChunkTerm(x: int, w: int, p: int)
    ensures x * (w * p) == (x * p) * w
  {
    assert w * p == p * w;
    assert x * (p * w) == (x * p) * w;
  }

  /** Row off counts 2^off times: together the rows are the signed sum of all bits. */
  lemma {:induction false} RowsAddUp(c: Params, d: int, n: nat)
    ensures Radix(1, Rows(c, d, n), c.spacing) == SignSum(n * c.spacing, d)
  {
    if n == 0 {
      NoRows(c, d);
    } else {
      hide *;
      RowsAddUp(c, d, n - 1);
      ChunkSigns(c, d, n - 1, c.spacing);
      OneMore(n, c.spacing);
      RowsStep(c, d, n);
      RadixLinear(Rows(c, d, n - 1), Signs(c, d, n - 1), Rows(c, d, n), Weight(c, n - 1), c.spacing);
    }
  }

  lemma NoRows(c: Params, d: int)
    ensures Radix(1, Rows(c, d, 0), c.spacing) == 0 && SignSum(0 * c.spacing, d) == 0
  {
    assert forall i :: 0 <= i < c.spacing ==> Rows(c, d, 0)[i] == 0;
    assert 0 * c.spacing == 0;
    hide Rows;
    RadixZeros(1, Rows(c, d, 0), 0, c.spacing);
  }

  lemma OneMore(n: int, s: int)
    ensures (n - 1) * s + s == n * s
  {
  }

  /** One more position in every row. */
  lemma RowsStep(c: Params, d: int, n: nat)
    requires n > 0
    ensures forall i :: 0 <= i < c.spacing ==>
      Rows(c, d, n)[i] == Rows(c, d, n - 1)[i] + Signs(c, d, n - 1)[i] * Weight(c, n - 1)
  {
    hide SignOf, Bit, Weight;
  }
}
