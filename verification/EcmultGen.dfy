/** Multiples of the generator from the comb tables, with a blinded scalar. */
module EcmultGen {
  import opened Arith
  import opened Groups
  import opened Scalars
  import opened BitLogic
  import opened SignedBits
  import opened Comb
  import opened EcmultGenTable
  import W = Wnaf

  // ----- gathering bits -----

  /** The words of d, padded with zeros up to the comb's width. */
  ghost predicate WordsOf(d: nat, recoded: seq<nat>) {
    forall j :: 0 <= j < |recoded| ==> recoded[j] == if j < 8 then Bits(d, 32 * j, 32) else 0
  }

  lemma WordBit(d: nat, recoded: seq<nat>, pos: nat)
    requires d < Pow2(256) && WordsOf(d, recoded) && pos / 32 < |recoded|
    ensures Bit(recoded[pos / 32], pos % 32) == Bit(d, pos)
  {
    var j, k := pos / 32, pos % 32;
    assert pos == 32 * j + k;
    if j < 8 {
      ModBit(d / Pow2(32 * j), 32, k);
      Pow2Add(32 * j, k);
      DivDiv(d, Pow2(32 * j), Pow2(k));
    } else {
      Pow2Monotone(256, pos);
      DivIs(d, Pow2(pos), 0, d);
      DivIs(0, Pow2(k), 0, 0);
    }
  }

  method Recode(d: nat, c: Params) returns (recoded: seq<nat>)
    ensures |recoded| == (c.Bits() + 31) / 32 && WordsOf(d, recoded)
  {
    var n := (c.Bits() + 31) / 32;
    recoded := seq(n, j => 0);
    var i := 0;
    while i < 8 && i < n
      invariant 0 <= i <= n && i <= 8 && |recoded| == n
      invariant forall j :: 0 <= j < n ==> recoded[j] == if j < i then Bits(d, 32 * j, 32) else 0
    {
      recoded := recoded[i := Bits(d, 32 * i, 32)];
      i := i + 1;
    }
  }

  /** bits with tooth's bit replaced by the low bit of bitdata, and junk above it. */
  lemma OneMoreBit(bits: nat, bitdata: nat, tooth: nat, k: nat)
    requires k <= tooth < 32
    ensures ClearBit(bits, tooth) >= 0
    ensures Bit(Xor(ClearBit(bits, tooth), ShiftLeft32(bitdata, tooth)), k)
         == if k == tooth then bitdata % 2 else Bit(bits, k)
  {
    ClearIsNat(bits, tooth);
    ClearBitBits(bits, tooth, k);
    ShiftLeftBits(bitdata, tooth, k);
    XorBit(ClearBit(bits, tooth), ShiftLeft32(bitdata, tooth), k);
  }

  lemma ClearIsNat(x: nat, t: nat)
    ensures ClearBit(x, t) >= 0
  {
    var m := Pow2(t);
    if x / m >= 1 {
      MulMono(1, x / m, m);
    } else {
      DivIs(x, m, 0, x);
    }
  }

  /** Packs the bits of d that block reads in row off: bit tooth is the one for that tooth;
      the bits above the teeth are junk. */
  method GatherBits(recoded: seq<nat>, c: Params, block: nat, off: nat, ghost d: nat) returns (bits: nat)
    requires c.Valid() && block < c.blocks && off < c.spacing
    requires d < Pow2(256) && |recoded| == (c.Bits() + 31) / 32 && WordsOf(d, recoded)
    ensures Reads(c, bits, block, d, off, 0, c.teeth)
  {
    hide Xor, ClearBit, ShiftLeft32, RotateRight32, WordsOf, Pow2, Reads, Position, Params.Bits;
    bits := 0;
    var bitPos := FirstPosition(c, block, off);
    ReadsNone(c, bits, block, d, off);
    for tooth := 0 to c.teeth
      invariant bitPos == Position(c, block, tooth, off)
      invariant Reads(c, bits, block, d, off, 0, tooth)
    {
      PositionInRange(c, block, tooth, off);
      var bitdata := RotateRight32(recoded[bitPos / 32], bitPos % 32);
      GatherStep(recoded, c, block, off, d, bits, tooth, bitPos);
      bits := Xor(ClearBit(bits, tooth), ShiftLeft32(bitdata, tooth));
      NextPosition(c, block, tooth, off);
      bitPos := bitPos + c.spacing;
    }
  }

  function FirstPosition(c: Params, block: nat, off: nat): (p: nat)
    ensures p == Position(c, block, 0, off)
  {
    off + block * c.teeth * c.spacing
  }

  lemma NextPosition(c: Params, block: nat, tooth: nat, off: nat)
    ensures Position(c, block, tooth + 1, off) == Position(c, block, tooth, off) + c.spacing
  {
    assert (block * c.teeth + tooth + 1) * c.spacing == (block * c.teeth + tooth) * c.spacing + c.spacing;
  }

  lemma ReadsNone(c: Params, bits: nat, block: nat, d: nat, off: nat)
    ensures Reads(c, bits, block, d, off, 0, 0)
  {
  }

  /** One rotated word, cleared and xored in, makes one more bit correct. */
  lemma GatherStep(recoded: seq<nat>, c: Params, block: nat, off: nat, d: nat, bits: nat, tooth: nat, pos: nat)
    requires tooth < 32 && pos == Position(c, block, tooth, off)
    requires d < Pow2(256) && WordsOf(d, recoded) && pos / 32 < |recoded|
    requires Reads(c, bits, block, d, off, 0, tooth)
    ensures ClearBit(bits, tooth) >= 0
    ensures var bitdata := RotateRight32(recoded[pos / 32], pos % 32);
      Reads(c, Xor(ClearBit(bits, tooth), ShiftLeft32(bitdata, tooth)), block, d, off, 0, tooth + 1)
  {
    hide Bit, Xor, ClearBit, ShiftLeft32, RotateRight32, WordsOf, Pow2, Position;
    var word := recoded[pos / 32];
    var bitdata := RotateRight32(word, pos % 32);
    WordBit(d, recoded, pos);
    RotateLowBit(word, pos % 32);
    OneMoreBit(bits, bitdata, tooth, tooth);
    var next := Xor(ClearBit(bits, tooth), ShiftLeft32(bitdata, tooth));
    forall t | 0 <= t < tooth + 1
      ensures Bit(next, t) == (Bit(d, Position(c, block, t, off)) + 0) % 2
    {
      OneMoreBit(bits, bitdata, tooth, t);
      BitIs(d, Position(c, block, t, off));
    }
  }

  lemma BitIs(x: int, i: nat)
    ensures IsBit(Bit(x, i))
  {
  }

  lemma PositionInRange(c: Params, block: nat, tooth: nat, off: nat)
    requires block < c.blocks && tooth < c.teeth && off < c.spacing
    ensures var pos := Position(c, block, tooth, off);
      0 <= pos < c.Bits() && pos / 32 < (c.Bits() + 31) / 32
  {
    MulMono(block + 1, c.blocks, c.teeth);
    assert (block + 1) * c.teeth == block * c.teeth + c.teeth;
    var p := block * c.teeth + tooth;
    MulMono(p + 1, c.Positions(), c.spacing);
    assert (p + 1) * c.spacing == p * c.spacing + c.spacing;
    MulMono(0, block, c.teeth);
    MulMono(0, p, c.spacing);
  }

  // ----- looking up -----

  const ALL_ONES: nat := 0xFFFFFFFF

  lemma OnesBit(k: nat)
    requires k < 32
    ensures Bit(ALL_ONES, k) == 1
  {
    Pow2Values();
    Pow2Add(k, 32 - k);
    Pow2Succ(31 - k);
    OnesQuotient(Pow2(k), Pow2(31 - k));
  }

  lemma OnesQuotient(a: nat, h: nat)
    requires a > 0 && a * (2 * h) == WORD
    ensures (ALL_ONES / a) % 2 == 1
  {
    assert (2 * h - 1) * a == a * (2 * h) - a;
    DivIs(ALL_ONES, a, 2 * h - 1, a - 1);
  }

  /** The stored index: the gathered bits, inverted when the top tooth is set. */
  lemma StoredIndex(bits: nat, teeth: nat, sign: nat, k: nat)
    requires 1 <= teeth <= 8 && k < teeth && sign == Bit(bits, teeth - 1)
    ensures var index := Xor(bits, if sign == 1 then ALL_ONES else 0) % Pow2(teeth - 1);
      Bit(index, k) == (Bit(bits, k) + sign) % 2
  {
    hide Xor, Bit, Pow2;
    var m := if sign == 1 then ALL_ONES else 0;
    var x := Xor(bits, m);
    if k < teeth - 1 {
      ModBit(x, teeth - 1, k);
      XorBit(bits, m, k);
      if sign == 1 {
        OnesBit(k);
      } else {
        BitBeyond(0, k);
      }
    } else {
      BitBeyond(x, k);
    }
  }

  /** A number has no bit at its own width. */
  lemma BitBeyond(x: nat, k: nat)
    ensures Bit(x % Pow2(k), k) == 0 && Bit(0, k) == 0
  {
    DivIs(x % Pow2(k), Pow2(k), 0, x % Pow2(k));
    DivIs(0, Pow2(k), 0, 0);
  }

  lemma IndexReads(c: Params, bits: nat, sign: nat, block: nat, d: nat, off: nat)
    requires 1 <= c.teeth <= 8 && sign == Bit(bits, c.teeth - 1) && Reads(c, bits, block, d, off, 0, c.teeth)
    ensures IsBit(sign)
    ensures Reads(c, Xor(bits, if sign == 1 then ALL_ONES else 0) % Pow2(c.teeth - 1), block, d, off, sign, c.teeth)
  {
    hide Bit, Xor, Pow2, Position;
    BitIs(bits, c.teeth - 1);
    forall t | 0 <= t < c.teeth
      ensures Bit(Xor(bits, if sign == 1 then ALL_ONES else 0) % Pow2(c.teeth - 1), t)
           == (Bit(d, Position(c, block, t, off)) + sign) % 2
    {
      StoredIndex(bits, c.teeth, sign, t);
      BitIs(d, Position(c, block, t, off));
    }
  }

  /** The signed sum of block's bits in this row, times h. */
  method LookUp<P(!new)>(g: Group<P>, c: Params, table: seq<P>, block: nat, bits: nat, ghost d: nat, ghost off: nat,
        ghost h: P)
      returns (add: P)
    requires g.Lawful() && c.Valid() && block < c.blocks && TableOK(g, c, table, h)
    requires Reads(c, bits, block, d, off, 0, c.teeth)
    ensures add == g.Mul(BlockSum(c, block, d, off, c.teeth), h)
  {
    hide Group.Lawful, Group.Mul, Bit, Xor, ToothSum, BlockSum, Pow2, Reads;
    var sign := Bit(bits, c.teeth - 1);
    var points := c.Points();
    var abs := Xor(bits, if sign == 1 then ALL_ONES else 0) % points;
    IndexReads(c, bits, sign, block, d, off);
    FlippedSum(c, block, d, off, abs, sign, c.teeth);
    var adds := g.zero;
    for index := 0 to points
      invariant index > abs ==> adds == g.Mul(ToothSum(c, block, abs, c.teeth), h)
    {
      assert EntryOK(g, c, table, points, block, index, h);
      if index == abs {
        adds := table[block * points + index];
      }
    }
    add := adds;
    if sign == 1 {
      g.MulNeg(ToothSum(c, block, abs, c.teeth), h);
      add := g.neg(adds);
    }
  }

  // ----- the scalar offset -----

  /** (2^bits - 1) / 2 modulo N. */
  method ScalarDiff(c: Params) returns (diff: int)
    requires c.Bits() >= 1
    ensures IsScalar(diff) && Cong(2 * diff, Pow2(c.Bits()) - 1, N)
  {
    hide Pow2, Half, Negate, Cong, Params.Bits;
    var neghalf := Negate(Half(1));
    diff := 1;
    Pow2Succ(0);
    CongRefl(1, N);
    for i := 0 to c.Bits() - 1
      invariant IsScalar(diff) && Cong(diff, Pow2(i), N)
    {
      CongAdd(diff, Pow2(i), diff, Pow2(i), N);
      Pow2Succ(i);
      ModCong(diff + diff, N);
      CongTrans(Add(diff, diff), diff + diff, Pow2(i + 1), N);
      diff := Add(diff, diff);
    }
    Pow2Succ(c.Bits() - 1);
    DiffDoubles(diff, Pow2(c.Bits() - 1));
    diff := Add(diff, neghalf);
  }

  lemma DiffDoubles(x: int, p: int)
    requires Cong(x, p, N)
    ensures Cong(2 * Add(x, Negate(Half(1))), 2 * p - 1, N)
  {
    var q := CongGap(x, p, N);
    HalfDoubles(1);
    var h := CongGap(2 * Half(1), 1, N);
    ModCong(-Half(1), N);
    var n := CongGap(Negate(Half(1)), -Half(1), N);
    ModCong(x + Negate(Half(1)), N);
    var a := CongGap(Add(x, Negate(Half(1))), x + Negate(Half(1)), N);
    CongBy(2 * Add(x, Negate(Half(1))), 2 * p - 1, N, 2 * a + 2 * q + 2 * n - h);
  }

  /** (2d + 1 - 2^bits)/2 of the generator, plus the blinding point, is gn of it. */
  lemma Unblind<P(!new)>(g: Group<P>, gen: P, gn: int, offset: int, diff: int, blind: int, top: int)
    requires g.Lawful() && g.HasExponent(N)
    requires Cong(2 * diff, top - 1, N) && Cong(offset, diff - blind, N)
    ensures g.add(g.Mul(2 * Add(offset, gn) + 1 - top, g.Mul(Half(1), gen)), g.Mul(blind, gen)) == g.Mul(gn, gen)
  {
    hide Group.Lawful, Group.Mul, Group.HasExponent;
    var h := g.Mul(Half(1), gen);
    var d := Add(offset, gn);
    ModCong(offset + gn, N);
    var q := CongGap(d, offset + gn, N);
    var o := CongGap(offset, diff - blind, N);
    var t := CongGap(2 * diff, top - 1, N);
    CongBy(2 * d + 1 - top, (gn - blind) * 2, N, 2 * q + 2 * o + t);
    g.MulCong(2 * d + 1 - top, (gn - blind) * 2, N, h);
    g.MulMul(gn - blind, 2, h);
    HalfDoubled(g, gen);
    g.MulAdd(gn - blind, blind, gen);
  }

  // ----- the context -----

  class Context<P(==,!new)> {
    const g: Group<P>
    const gen: P
    const c: Params
    var built: bool
    var scalarOffset: int
    var geOffset: P
    ghost var blind: int

    /** scalar_offset = (2^COMB_BITS - 1)/2 - b and ge_offset = b*G, for a b that is not zero. */
    ghost predicate Valid()
      reads this
    {
      && g.Lawful() && g.HasExponent(N) && c.Valid()
      && IsScalar(scalarOffset)
      && Cong(2 * scalarOffset, Pow2(c.Bits()) - 1 - 2 * blind, N)
      && geOffset == g.Mul(blind, gen)
      && blind % N != 0
    }

    /** A context built for the generator, with blinding value -1. */
    constructor (g: Group<P>, gen: P, c: Params)
      requires g.Lawful() && g.HasExponent(N) && c.Valid()
      ensures Valid() && built && this.g == g && this.gen == gen && this.c == c && blind == -1
    {
      this.g := g;
      this.gen := gen;
      this.c := c;
      built := false;
      scalarOffset := 0;
      geOffset := g.zero;
      blind := 0;
      new;
      Unseeded();
      built := true;
    }

    /** The part of blinding without a seed: back to b = -1. */
    method Unseeded()
      requires g.Lawful() && g.HasExponent(N) && c.Valid()
      modifies this`scalarOffset, this`geOffset, this`blind
      ensures Valid() && blind == -1
    {
      hide Group.Mul, Group.Lawful, Group.HasExponent, Pow2;
      var diff := ScalarDiff(c);
      g.MulNeg(1, gen);
      g.MulOne(gen);
      geOffset := g.neg(gen);
      scalarOffset := Add(1, diff);
      blind := -1;
      OffsetOf(1, -1, diff, Pow2(c.Bits()));
      DivIs(-1, N, -1, N - 1);
    }

    /** Clears the context; it has to be built again before use. */
    method Clear()
      modifies this`built, this`scalarOffset, this`geOffset
      ensures !built && scalarOffset == 0
    {
      built := false;
      scalarOffset := 0;
      geOffset := g.zero;
    }

    /** Draws a new blinding value b from the seeded generator, or resets it without a seed.
        b*G is computed with the old blinding. */
    method Blind(seeded: bool, b0: int, table: seq<P>)
      requires Valid() && IsScalar(b0) && TableOK(g, c, table, g.Mul(Half(1), gen))
      modifies this`scalarOffset, this`geOffset, this`blind
      ensures Valid()
      ensures blind == if !seeded then -1 else if b0 == 0 then 1 else b0
    {
      hide Group.Mul, Group.Lawful, Group.HasExponent, Pow2, TableOK;
      if !seeded {
        Unseeded();
        return;
      }
      var diff := ScalarDiff(c);
      var b := b0;
      if b == 0 {
        b := 1;
      }
      var gb := Multiply(table, b);
      ModCong(-b, N);
      OffsetOf(Negate(b), b, diff, Pow2(c.Bits()));
      scalarOffset := Add(Negate(b), diff);
      geOffset := gb;
      blind := b;
      DivIs(b, N, 0, b);
    }

    /** gn*G, for every gn, whatever the blinding. */
    method Multiply(table: seq<P>, gn: int) returns (r: P)
      requires Valid() && IsScalar(gn) && TableOK(g, c, table, g.Mul(Half(1), gen))
      ensures r == g.Mul(gn, gen)
    {
      hide Group.Mul, Group.Lawful, Group.HasExponent, Pow2, TableOK, WordsOf, Reads, RowSum, BlockSum, Params.Bits,
          Params.Positions, W.Horner;
      ghost var h := g.Mul(Half(1), gen);
      var d := Add(scalarOffset, gn);
      ScalarBits(d);
      var recoded := Recode(d, c);
      ghost var rows := Rows(c, d, c.Positions());
      var first := true;
      r := g.zero;
      g.MulOne(h);
      var combOff := c.spacing - 1;
      NoRowsYet(rows);
      while true
        invariant 0 <= combOff < c.spacing && first == (combOff == c.spacing - 1)
        invariant !first ==> r == g.Mul(2 * W.Horner(1, rows, combOff + 1), h)
        decreases combOff
      {
        ghost var start := if first then 0 else 2 * W.Horner(1, rows, combOff + 1);
        ZeroBlocks(c, d, combOff);
        for block := 0 to c.blocks
          invariant first == (combOff == c.spacing - 1 && block == 0)
          invariant !first ==> r == g.Mul(start + RowSum(c, d, combOff, block * c.teeth), h)
        {
          var bits := GatherBits(recoded, c, block, combOff, d);
          var add := LookUp(g, c, table, block, bits, d, combOff, h);
          RowByBlocks(c, block, d, combOff, c.teeth, block * c.teeth);
          assert (block + 1) * c.teeth == block * c.teeth + c.teeth;
          g.MulAdd(start + RowSum(c, d, combOff, block * c.teeth), BlockSum(c, block, d, combOff, c.teeth), h);
          if first {
            r := add;
            first := false;
          } else {
            r := g.add(r, add);
          }
        }
        RowDone(c, d, rows, combOff, start);
        if combOff == 0 { break; }
        g.Double(W.Horner(1, rows, combOff), h);
        r := g.add(r, r);
        combOff := combOff - 1;
      }
      AllRows(c, d);
      CombUnblind(g, gen, gn, scalarOffset, blind, Pow2(c.Bits()));
      r := g.add(r, geOffset);
    }
  }

  lemma OffsetOf(minusB: int, b: int, diff: int, top: int)
    requires Cong(minusB, -b, N) && Cong(2 * diff, top - 1, N)
    ensures Cong(2 * Add(minusB, diff), top - 1 - 2 * b, N)
  {
    var q := CongGap(minusB, -b, N);
    var t := CongGap(2 * diff, top - 1, N);
    ModCong(minusB + diff, N);
    var a := CongGap(Add(minusB, diff), minusB + diff, N);
    CongBy(2 * Add(minusB, diff), top - 1 - 2 * b, N, 2 * a + 2 * q + t);
  }

  lemma ScalarBits(d: int)
    requires IsScalar(d)
    ensures 0 <= d < Pow2(256)
  {
    Pow2Values();
  }

  lemma NoRowsYet(rows: seq<int>)
    ensures W.Horner(1, rows, |rows|) == 0
  {
  }

  lemma ZeroBlocks(c: Params, d: int, off: nat)
    ensures RowSum(c, d, off, 0 * c.teeth) == 0
  {
  }

  /** The row just added is the next digit of the Horner sum. */
  lemma RowDone(c: Params, d: int, rows: seq<int>, off: nat, start: int)
    requires off < c.spacing && rows == Rows(c, d, c.Positions())
    requires start == if off == c.spacing - 1 then 0 else 2 * W.Horner(1, rows, off + 1)
    ensures start + RowSum(c, d, off, c.blocks * c.teeth) == W.Horner(1, rows, off)
  {
    assert Pow2(1) == 2;
  }

  /** All rows together are the signed sum of the bits of d. */
  lemma AllRows(c: Params, d: int)
    requires 0 <= d < Pow2(256) && c.Valid()
    ensures W.Horner(1, Rows(c, d, c.Positions()), 0) == 2 * d + 1 - Pow2(c.Bits())
  {
    W.HornerIsRadix(1, Rows(c, d, c.Positions()));
    RowsAddUp(c, d, c.Positions());
    SignSumIs(c.Bits(), d);
    Pow2Monotone(256, c.Bits());
    DivIs(d, Pow2(c.Bits()), 0, d);
  }

  lemma CombUnblind<P(!new)>(g: Group<P>, gen: P, gn: int, offset: int, blind: int, top: int)
    requires g.Lawful() && g.HasExponent(N) && Cong(2 * offset, top - 1 - 2 * blind, N)
    ensures g.add(g.Mul(2 * Add(offset, gn) + 1 - top, g.Mul(Half(1), gen)), g.Mul(blind, gen)) == g.Mul(gn, gen)
  {
    hide Group.Lawful, Group.Mul, Group.HasExponent;
    var t := CongGap(2 * offset, top - 1 - 2 * blind, N);
    CongBy(2 * (offset + blind), top - 1, N, t);
    CongRefl(offset, N);
    Unblind(g, gen, gn, offset, offset + blind, blind, top);
  }
}
