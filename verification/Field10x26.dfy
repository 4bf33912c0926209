/** Normalisation, negation, halving, sum and equality of field elements on ten 26-bit limbs. From
    magnitude 32 on the limbs fill their 32-bit words, and sums and carries can be lost; the contracts
    say when none is, and what is computed when one is. */
module Field10x26 {
  import opened Arith
  import opened BitLogic
  import opened Words
  import opened Field10x26Mul
  import F = Field5x52Mul

  /** The limbs are at most 2*m times their full width. */
  predicate Magnitude10(n: seq<int>, m: nat) {
    && |n| == 10
    && (forall i :: 0 <= i < 9 ==> 0 <= n[i] <= 0x3FFFFFF * 2 * m)
    && 0 <= n[9] <= 0x3FFFFF * 2 * m
  }

  /** The limbs of a number in [0, P). */
  predicate Normal10(n: seq<int>) {
    && |n| == 10
    && (forall i :: 0 <= i < 9 ==> 0 <= n[i] <= 0x3FFFFFF)
    && 0 <= n[9] <= 0x3FFFFF
    && Value10(n) < F.P
  }

  lemma MagnitudeIs(n: seq<int>, m: nat)
    requires Magnitude10(n, m)
    ensures |n| == 10
    ensures 0 <= n[0] <= 0x3FFFFFF * (2 * m)
    ensures 0 <= n[1] <= 0x3FFFFFF * (2 * m)
    ensures 0 <= n[2] <= 0x3FFFFFF * (2 * m)
    ensures 0 <= n[3] <= 0x3FFFFFF * (2 * m)
    ensures 0 <= n[4] <= 0x3FFFFFF * (2 * m)
    ensures 0 <= n[5] <= 0x3FFFFFF * (2 * m)
    ensures 0 <= n[6] <= 0x3FFFFFF * (2 * m)
    ensures 0 <= n[7] <= 0x3FFFFFF * (2 * m)
    ensures 0 <= n[8] <= 0x3FFFFFF * (2 * m)
    ensures 0 <= n[9] <= 0x3FFFFF * (2 * m)
  {
  }

  lemma MagnitudeOf(n0: int, n1: int, n2: int, n3: int, n4: int, n5: int, n6: int, n7: int, n8: int, n9: int, m: nat)
    requires 0 <= n0 <= 0x3FFFFFF * (2 * m)
    requires 0 <= n1 <= 0x3FFFFFF * (2 * m)
    requires 0 <= n2 <= 0x3FFFFFF * (2 * m)
    requires 0 <= n3 <= 0x3FFFFFF * (2 * m)
    requires 0 <= n4 <= 0x3FFFFFF * (2 * m)
    requires 0 <= n5 <= 0x3FFFFFF * (2 * m)
    requires 0 <= n6 <= 0x3FFFFFF * (2 * m)
    requires 0 <= n7 <= 0x3FFFFFF * (2 * m)
    requires 0 <= n8 <= 0x3FFFFFF * (2 * m)
    requires 0 <= n9 <= 0x3FFFFF * (2 * m)
    ensures Magnitude10([n0, n1, n2, n3, n4, n5, n6, n7, n8, n9], m)
  {
  }

  lemma MagnitudeFrom(n: seq<int>, m: nat)
    requires |n| == 10
    requires 0 <= n[0] <= 0x3FFFFFF * (2 * m)
    requires 0 <= n[1] <= 0x3FFFFFF * (2 * m)
    requires 0 <= n[2] <= 0x3FFFFFF * (2 * m)
    requires 0 <= n[3] <= 0x3FFFFFF * (2 * m)
    requires 0 <= n[4] <= 0x3FFFFFF * (2 * m)
    requires 0 <= n[5] <= 0x3FFFFFF * (2 * m)
    requires 0 <= n[6] <= 0x3FFFFFF * (2 * m)
    requires 0 <= n[7] <= 0x3FFFFFF * (2 * m)
    requires 0 <= n[8] <= 0x3FFFFFF * (2 * m)
    requires 0 <= n[9] <= 0x3FFFFF * (2 * m)
    ensures Magnitude10(n, m)
  {
  }

  lemma LimbsIs(t0: int, t1: int, t2: int, t3: int, t4: int, t5: int, t6: int, t7: int, t8: int, t9: int)
    ensures Value10([t0, t1, t2, t3, t4, t5, t6, t7, t8, t9]) == Limbs(t0, t1, t2, t3, t4, t5, t6, t7, t8, t9)
  {
  }

  /** Ten 32-bit words, whatever their magnitude. */
  predicate Words10(n: seq<int>) {
    |n| == 10 && forall i :: 0 <= i < 10 ==> 0 <= n[i] < 0x1_00000000
  }

  lemma WordsAre(n: seq<int>)
    requires Words10(n)
    ensures |n| == 10 && 0 <= n[0] < 0x1_00000000 && 0 <= n[1] < 0x1_00000000 && 0 <= n[2] < 0x1_00000000
      && 0 <= n[3] < 0x1_00000000 && 0 <= n[4] < 0x1_00000000 && 0 <= n[5] < 0x1_00000000 && 0 <= n[6] < 0x1_00000000
      && 0 <= n[7] < 0x1_00000000 && 0 <= n[8] < 0x1_00000000 && 0 <= n[9] < 0x1_00000000
  {
  }

  lemma WordsOf(n: seq<int>)
    requires |n| == 10 && 0 <= n[0] < 0x1_00000000 && 0 <= n[1] < 0x1_00000000 && 0 <= n[2] < 0x1_00000000
      && 0 <= n[3] < 0x1_00000000 && 0 <= n[4] < 0x1_00000000 && 0 <= n[5] < 0x1_00000000 && 0 <= n[6] < 0x1_00000000
      && 0 <= n[7] < 0x1_00000000 && 0 <= n[8] < 0x1_00000000 && 0 <= n[9] < 0x1_00000000
    ensures Words10(n)
  {
  }

  /** Every magnitude up to 32 fits the words. */
  lemma MagnitudeFits(n: seq<int>, m: nat)
    requires Magnitude10(n, m) && m <= 32
    ensures Words10(n)
  {
    MagnitudeIs(n, m);
    hide Magnitude10;
  }

  // ----- the carry pass -----

  /** What a 32-bit word keeps of a sum. */
  function Cut(sum: int): (word: int)
    ensures 0 <= word < 0x1_00000000
  {
    sum % 0x1_00000000
  }

  /** The sum formed in word i, before it is cut to 32 bits, of a carry pass that adds x times
      2^256 mod P at the bottom. */
  function PassSum(n: seq<int>, x: int, i: nat): int
    requires |n| == 10 && i <= 8
    decreases i, 0
  {
    if i == 0 then n[0] + x * 0x3D1
    else n[i] + (if i == 1 then x * 0x40 else 0) + PassWord(n, x, i - 1) / 0x4000000
  }

  /** What the 32-bit word keeps of it. */
  function PassWord(n: seq<int>, x: int, i: nat): (w: int)
    requires |n| == 10 && i <= 8
    ensures 0 <= w < 0x1_00000000
    decreases i, 1
  {
    Cut(PassSum(n, x, i))
  }

  /** What a 32-bit sum loses. */
  function Overflow(sum: int): (lost: nat)
    ensures lost <= 0x1_00000000
  {
    if sum < 0x1_00000000 then 0 else 0x1_00000000
  }

  function PassLost(n: seq<int>, x: int): (lost: nat)
    requires |n| == 10
    ensures lost < 0x2000000000000000000000000000000000000000000000000000000000000
  {
    NineBound(Overflow(PassSum(n, x, 0)), Overflow(PassSum(n, x, 1)), Overflow(PassSum(n, x, 2)),
        Overflow(PassSum(n, x, 3)), Overflow(PassSum(n, x, 4)), Overflow(PassSum(n, x, 5)), Overflow(PassSum(n, x, 6)),
        Overflow(PassSum(n, x, 7)), Overflow(PassSum(n, x, 8)));
    Nine(Overflow(PassSum(n, x, 0)), Overflow(PassSum(n, x, 1)), Overflow(PassSum(n, x, 2)), Overflow(PassSum(n, x, 3)),
        Overflow(PassSum(n, x, 4)), Overflow(PassSum(n, x, 5)), Overflow(PassSum(n, x, 6)), Overflow(PassSum(n, x, 7)),
        Overflow(PassSum(n, x, 8)))
  }

  /** No sum of the pass leaves its word. */
  predicate PassFits(n: seq<int>, x: int)
    requires |n| == 10
  {
    forall i: nat :: i <= 8 ==> PassSum(n, x, i) < 0x1_00000000
  }

  lemma LosesNothing(n: seq<int>, x: int)
    requires |n| == 10
    ensures PassLost(n, x) == 0 <==> PassFits(n, x)
  {
    hide PassLost, PassWord, Overflow;
    LosesNone(n, x);
    if PassFits(n, x) {
      assert PassSum(n, x, 0) < 0x1_00000000 && PassSum(n, x, 1) < 0x1_00000000 && PassSum(n, x, 2) < 0x1_00000000
          && PassSum(n, x, 3) < 0x1_00000000 && PassSum(n, x, 4) < 0x1_00000000 && PassSum(n, x, 5) < 0x1_00000000
          && PassSum(n, x, 6) < 0x1_00000000 && PassSum(n, x, 7) < 0x1_00000000 && PassSum(n, x, 8) < 0x1_00000000;
    }
  }

  lemma LosesNone(n: seq<int>, x: int)
    requires |n| == 10
    ensures PassLost(n, x) == 0 <==>
      PassSum(n, x, 0) < 0x1_00000000 && PassSum(n, x, 1) < 0x1_00000000 && PassSum(n, x, 2) < 0x1_00000000
      && PassSum(n, x, 3) < 0x1_00000000 && PassSum(n, x, 4) < 0x1_00000000 && PassSum(n, x, 5) < 0x1_00000000
      && PassSum(n, x, 6) < 0x1_00000000 && PassSum(n, x, 7) < 0x1_00000000 && PassSum(n, x, 8) < 0x1_00000000
  {
    hide *;
    PassLostIs(n, x);
    NoneLost(Overflow(PassSum(n, x, 0)), Overflow(PassSum(n, x, 1)), Overflow(PassSum(n, x, 2)),
        Overflow(PassSum(n, x, 3)), Overflow(PassSum(n, x, 4)), Overflow(PassSum(n, x, 5)), Overflow(PassSum(n, x, 6)),
        Overflow(PassSum(n, x, 7)), Overflow(PassSum(n, x, 8)));
    NothingOver(PassSum(n, x, 0));
    NothingOver(PassSum(n, x, 1));
    NothingOver(PassSum(n, x, 2));
    NothingOver(PassSum(n, x, 3));
    NothingOver(PassSum(n, x, 4));
    NothingOver(PassSum(n, x, 5));
    NothingOver(PassSum(n, x, 6));
    NothingOver(PassSum(n, x, 7));
    NothingOver(PassSum(n, x, 8));
  }

  lemma PassLostIs(n: seq<int>, x: int)
    requires |n| == 10
    ensures PassLost(n, x)
      == Nine(Overflow(PassSum(n, x, 0)), Overflow(PassSum(n, x, 1)), Overflow(PassSum(n, x, 2)),
      Overflow(PassSum(n, x, 3)), Overflow(PassSum(n, x, 4)), Overflow(PassSum(n, x, 5)), Overflow(PassSum(n, x, 6)),
      Overflow(PassSum(n, x, 7)), Overflow(PassSum(n, x, 8)))
  {
    hide PassSum, Overflow, Nine;
  }

  lemma NothingOver(sum: int)
    ensures Overflow(sum) == 0 <==> sum < 0x1_00000000
  {
  }

  lemma NoneLost(o0: nat, o1: nat, o2: nat, o3: nat, o4: nat, o5: nat, o6: nat, o7: nat, o8: nat)
    ensures Nine(o0, o1, o2, o3, o4, o5, o6, o7, o8) == 0
      <==> o0 == 0 && o1 == 0 && o2 == 0 && o3 == 0 && o4 == 0 && o5 == 0 && o6 == 0 && o7 == 0 && o8 == 0
  {
  }

  /** No carry leaves a 32-bit word in the first pass. */
  predicate NoWrap(n: seq<int>)
    requires |n| == 10
  {
    PassFits(n, n[9] / 0x400000)
  }

  lemma LostFits(n: seq<int>)
    requires |n| == 10
    ensures PassLost(n, n[9] / 0x400000) == 0 <==> NoWrap(n)
  {
    hide PassLost, PassFits;
    LosesNothing(n, n[9] / 0x400000);
  }

  /** What the first pass loses to wrapping. */
  function Lost(n: seq<int>): (lost: nat)
    requires |n| == 10
    ensures lost == 0 <==> NoWrap(n)
    ensures lost < 0x2000000000000000000000000000000000000000000000000000000000000
  {
    LostFits(n);
    PassLost(n, n[9] / 0x400000)
  }

  lemma PassStep(n: seq<int>, x: int, i: nat)
    requires |n| == 10 && 2 <= i <= 8
    ensures PassSum(n, x, i) == n[i] + PassWord(n, x, i - 1) / 0x4000000
    ensures PassWord(n, x, i) == Cut(n[i] + PassWord(n, x, i - 1) / 0x4000000)
  {
  }

  lemma PassStart(n: seq<int>, x: int)
    requires |n| == 10
    ensures PassSum(n, x, 0) == n[0] + x * 0x3D1 && PassWord(n, x, 0) == (n[0] + x * 0x3D1) % 0x1_00000000
    ensures PassSum(n, x, 1) == n[1] + x * 0x40 + PassWord(n, x, 0) / 0x4000000
    ensures PassWord(n, x, 1) == ((n[1] + x * 0x40) % 0x1_00000000 + PassWord(n, x, 0) / 0x4000000) % 0x1_00000000
  {
    WrapTwice(n[1] + x * 0x40, PassWord(n, x, 0) / 0x4000000);
  }

  lemma WrapTwice(a: int, b: int)
    ensures (a % 0x1_00000000 + b) % 0x1_00000000 == (a + b) % 0x1_00000000
  {
  }

  /** A word and what it lost make up the sum. */
  lemma WordAndLoss(n: seq<int>, x: int, i: nat)
    requires Words10(n) && 0 <= x <= 1023 && i <= 8
    ensures PassSum(n, x, i) == (PassWord(n, x, i) / 0x4000000) * 0x4000000 + PassWord(n, x, i) % 0x4000000
      + Overflow(PassSum(n, x, i))
  {
  }

  /** Above word 1 only a word beyond magnitude 32 can wrap. */
  lemma HighWordsFit(n: seq<int>, i: nat)
    requires Magnitude10(n, 32) && 2 <= i <= 8
    ensures PassSum(n, n[9] / 0x400000, i) < 0x1_00000000
  {
  }

  /** Up to magnitude 31 nothing is lost. */
  lemma NothingLost(n: seq<int>)
    requires Magnitude10(n, 31)
    ensures NoWrap(n)
  {
    MagnitudeIs(n, 31);
    forall i: nat | i <= 8
      ensures PassSum(n, n[9] / 0x400000, i) < 0x1_00000000
    {
    }
    hide PassSum, Magnitude10;
  }

  /** Limbs after one carry pass. */
  predicate Carried(t0: int, t1: int, t2: int, t3: int, t4: int, t5: int, t6: int, t7: int, t8: int, t9: int) {
    && 0 <= t0 <= 0x3FFFFFF && 0 <= t1 <= 0x3FFFFFF && 0 <= t2 <= 0x3FFFFFF && 0 <= t3 <= 0x3FFFFFF
      && 0 <= t4 <= 0x3FFFFFF && 0 <= t5 <= 0x3FFFFFF && 0 <= t6 <= 0x3FFFFFF && 0 <= t7 <= 0x3FFFFFF
      && 0 <= t8 <= 0x3FFFFFF
    && 0 <= t9 <= 0x40007F
  }

  /** The digits of a pass are the limbs it was given, with x folded in, less what wrapped. */
  lemma PassValue(n: seq<int>, x: int, s9: int, t0: int, t1: int, t2: int, t3: int, t4: int, t5: int, t6: int, t7: int,
        t8: int, t9: int)
    requires Words10(n) && 0 <= x <= 1023
    requires t0 == PassWord(n, x, 0) % 0x4000000 && t1 == PassWord(n, x, 1) % 0x4000000
      && t2 == PassWord(n, x, 2) % 0x4000000 && t3 == PassWord(n, x, 3) % 0x4000000
      && t4 == PassWord(n, x, 4) % 0x4000000 && t5 == PassWord(n, x, 5) % 0x4000000
      && t6 == PassWord(n, x, 6) % 0x4000000 && t7 == PassWord(n, x, 7) % 0x4000000
      && t8 == PassWord(n, x, 8) % 0x4000000
    requires t9 == s9 + PassWord(n, x, 8) / 0x4000000
    ensures Limbs(t0, t1, t2, t3, t4, t5, t6, t7, t8, t9) + PassLost(n, x)
      == Limbs(n[0], n[1], n[2], n[3], n[4], n[5], n[6], n[7], n[8], s9) + x * 0x1000003D1
  {
    PassStart(n, x);
    PassStep(n, x, 2);
    PassStep(n, x, 3);
    PassStep(n, x, 4);
    PassStep(n, x, 5);
    PassStep(n, x, 6);
    PassStep(n, x, 7);
    PassStep(n, x, 8);
    WordAndLoss(n, x, 0);
    WordAndLoss(n, x, 1);
    WordAndLoss(n, x, 2);
    WordAndLoss(n, x, 3);
    WordAndLoss(n, x, 4);
    WordAndLoss(n, x, 5);
    WordAndLoss(n, x, 6);
    WordAndLoss(n, x, 7);
    WordAndLoss(n, x, 8);
    hide PassSum, PassWord, Overflow, Words10;
  }

  /** Carries from limb 1 upwards; n and x name the pass that limb 1 has come from. */
  method CarryUp(ghost n: seq<int>, ghost x: int, s1: u32, s2: u32, s3: u32, s4: u32, s5: u32, s6: u32, s7: u32,
        s8: u32, s9: u32)
      returns (t1: u32, t2: u32, t3: u32, t4: u32, t5: u32, t6: u32, t7: u32, t8: u32, t9: u32)
    requires |n| == 10 && s9 <= 0x40007F && s1 == PassWord(n, x, 1)
    requires s2 == n[2] && s3 == n[3] && s4 == n[4] && s5 == n[5] && s6 == n[6] && s7 == n[7] && s8 == n[8]
    ensures t1 == PassWord(n, x, 1) % 0x4000000 && t2 == PassWord(n, x, 2) % 0x4000000
      && t3 == PassWord(n, x, 3) % 0x4000000 && t4 == PassWord(n, x, 4) % 0x4000000
      && t5 == PassWord(n, x, 5) % 0x4000000 && t6 == PassWord(n, x, 6) % 0x4000000
      && t7 == PassWord(n, x, 7) % 0x4000000 && t8 == PassWord(n, x, 8) % 0x4000000
    ensures t9 == s9 + PassWord(n, x, 8) / 0x4000000
  {
    hide *;
    t1, t2, t3, t4, t5, t6, t7, t8, t9 := s1, s2, s3, s4, s5, s6, s7, s8, s9;
    PassStep(n, x, 2);
    t2 := Cut(t2 + t1 / 0x4000000); t1 := t1 % 0x4000000;
    PassStep(n, x, 3);
    t3 := Cut(t3 + t2 / 0x4000000); t2 := t2 % 0x4000000;
    PassStep(n, x, 4);
    t4 := Cut(t4 + t3 / 0x4000000); t3 := t3 % 0x4000000;
    PassStep(n, x, 5);
    t5 := Cut(t5 + t4 / 0x4000000); t4 := t4 % 0x4000000;
    PassStep(n, x, 6);
    t6 := Cut(t6 + t5 / 0x4000000); t5 := t5 % 0x4000000;
    PassStep(n, x, 7);
    t7 := Cut(t7 + t6 / 0x4000000); t6 := t6 % 0x4000000;
    PassStep(n, x, 8);
    t8 := Cut(t8 + t7 / 0x4000000); t7 := t7 % 0x4000000;
    t9 := t9 + t8 / 0x4000000; t8 := t8 % 0x4000000;
  }

  /** The part above 2^256 is folded in and the carries are taken up. Any of the 32-bit sums can
      wrap around. */
  method FirstPass(n: array<int>) returns (t0: u32, t1: u32, t2: u32, t3: u32, t4: u32, t5: u32, t6: u32, t7: u32,
        t8: u32, t9: u32)
    requires Words10(n[..])
    ensures Carried(t0, t1, t2, t3, t4, t5, t6, t7, t8, t9)
    ensures Cong(Limbs(t0, t1, t2, t3, t4, t5, t6, t7, t8, t9), Value10(n[..]) - Lost(n[..]), F.P)
    ensures PassDigits(n[..], t0, t1, t2, t3, t4, t5, t6, t7, t8, t9)
  {
    hide *;
    ghost var v := n[..];
    WordsAre(v);
    assert n[0] == v[0] && n[1] == v[1] && n[2] == v[2] && n[3] == v[3] && n[4] == v[4] && n[5] == v[5] && n[6] == v[6]
        && n[7] == v[7] && n[8] == v[8] && n[9] == v[9];
    t0, t1, t2, t3, t4 := n[0], n[1], n[2], n[3], n[4];
    t5, t6, t7, t8, t9 := n[5], n[6], n[7], n[8], n[9];
    var x: u32 := t9 / 0x400000;
    t9 := t9 % 0x400000;
    ghost var s9: int := t9;
    PassStart(v, x);
    t0 := (t0 + x * 0x3D1) % 0x1_00000000;
    t1 := (t1 + x * 0x40) % 0x1_00000000;
    t1 := (t1 + t0 / 0x4000000) % 0x1_00000000;
    t0 := t0 % 0x4000000;
    t1, t2, t3, t4, t5, t6, t7, t8, t9 := CarryUp(v, x, t1, t2, t3, t4, t5, t6, t7, t8, t9);
    PassDigitsOf(v, t0, t1, t2, t3, t4, t5, t6, t7, t8, t9);
    FirstPassValue(v, t0, t1, t2, t3, t4, t5, t6, t7, t8, t9);
  }

  /** The limbs that the first pass makes of n. */
  predicate PassDigits(n: seq<int>, t0: int, t1: int, t2: int, t3: int, t4: int, t5: int, t6: int, t7: int, t8: int,
        t9: int)
    requires |n| == 10
  {
    var x := n[9] / 0x400000;
    t0 == PassWord(n, x, 0) % 0x4000000 && t1 == PassWord(n, x, 1) % 0x4000000 && t2 == PassWord(n, x, 2) % 0x4000000
        && t3 == PassWord(n, x, 3) % 0x4000000 && t4 == PassWord(n, x, 4) % 0x4000000
        && t5 == PassWord(n, x, 5) % 0x4000000 && t6 == PassWord(n, x, 6) % 0x4000000
        && t7 == PassWord(n, x, 7) % 0x4000000 && t8 == PassWord(n, x, 8) % 0x4000000
    && t9 == n[9] % 0x400000 + PassWord(n, x, 8) / 0x4000000
  }

  lemma PassDigitsOf(n: seq<int>, t0: int, t1: int, t2: int, t3: int, t4: int, t5: int, t6: int, t7: int, t8: int,
        t9: int)
    requires |n| == 10
    requires var x := n[9] / 0x400000;
      t0 == PassWord(n, x, 0) % 0x4000000 && t1 == PassWord(n, x, 1) % 0x4000000 && t2 == PassWord(n, x, 2) % 0x4000000
      && t3 == PassWord(n, x, 3) % 0x4000000 && t4 == PassWord(n, x, 4) % 0x4000000
      && t5 == PassWord(n, x, 5) % 0x4000000 && t6 == PassWord(n, x, 6) % 0x4000000
      && t7 == PassWord(n, x, 7) % 0x4000000 && t8 == PassWord(n, x, 8) % 0x4000000
    requires t9 == n[9] % 0x400000 + PassWord(n, n[9] / 0x400000, 8) / 0x4000000
    ensures PassDigits(n, t0, t1, t2, t3, t4, t5, t6, t7, t8, t9)
  {
  }

  lemma FirstPassValue(n: seq<int>, t0: int, t1: int, t2: int, t3: int, t4: int, t5: int, t6: int, t7: int, t8: int,
        t9: int)
    requires Words10(n) && PassDigits(n, t0, t1, t2, t3, t4, t5, t6, t7, t8, t9)
    ensures Carried(t0, t1, t2, t3, t4, t5, t6, t7, t8, t9)
    ensures Cong(Limbs(t0, t1, t2, t3, t4, t5, t6, t7, t8, t9), Value10(n) - Lost(n), F.P)
  {
    var x, s9 := n[9] / 0x400000, n[9] % 0x400000;
    PassValue(n, x, s9, t0, t1, t2, t3, t4, t5, t6, t7, t8, t9);
    CarriedOf(t0, t1, t2, t3, t4, t5, t6, t7, t8, t9);
    hide Lost, PassLost, PassWord, Cong, Carried;
    assert Value10(n) == Limbs(n[0], n[1], n[2], n[3], n[4], n[5], n[6], n[7], n[8], x * 0x400000 + s9);
    assert Limbs(t0, t1, t2, t3, t4, t5, t6, t7, t8, t9)
        == Value10(n) - PassLost(n, x) - x * 0xfffffffffffffffffffffffffffffffffffffffffffffffffffffffefffffc2f;
    LostIs(n);
    CongBy(Limbs(t0, t1, t2, t3, t4, t5, t6, t7, t8, t9), Value10(n) - Lost(n), F.P, -x);
  }

  lemma LostIs(n: seq<int>)
    requires |n| == 10
    ensures Lost(n) == PassLost(n, n[9] / 0x400000)
  {
  }

  lemma CarriedOf(t0: int, t1: int, t2: int, t3: int, t4: int, t5: int, t6: int, t7: int, t8: int, t9: int)
    requires 0 <= t0 <= 0x3FFFFFF && 0 <= t1 <= 0x3FFFFFF && 0 <= t2 <= 0x3FFFFFF && 0 <= t3 <= 0x3FFFFFF
      && 0 <= t4 <= 0x3FFFFFF && 0 <= t5 <= 0x3FFFFFF && 0 <= t6 <= 0x3FFFFFF && 0 <= t7 <= 0x3FFFFFF
      && 0 <= t8 <= 0x3FFFFFF && 0 <= t9 <= 0x40007F
    ensures Carried(t0, t1, t2, t3, t4, t5, t6, t7, t8, t9)
  {
  }

  lemma Ones26()
    ensures Pow2(26) == 0x4000000
  {
    Pow2Values();
    hide *;
    Pow2Succ(8);
    Pow2Succ(9);
    Pow2Succ(10);
    Pow2Succ(11);
    Pow2Succ(12);
    Pow2Twice(13, 0x2000);
  }

  lemma SixOnes(t2: nat, t3: nat, t4: nat, t5: nat, t6: nat, t7: nat, t8: nat)
    requires t2 <= 0x3FFFFFF && t3 <= 0x3FFFFFF && t4 <= 0x3FFFFFF && t5 <= 0x3FFFFFF && t6 <= 0x3FFFFFF
      && t7 <= 0x3FFFFFF && t8 <= 0x3FFFFFF
    ensures And(And(And(And(And(And(t2, t3), t4), t5), t6), t7), t8) == 0x3FFFFFF <==>
      t2 == 0x3FFFFFF && t3 == 0x3FFFFFF && t4 == 0x3FFFFFF && t5 == 0x3FFFFFF && t6 == 0x3FFFFFF && t7 == 0x3FFFFFF
      && t8 == 0x3FFFFFF
  {
    Ones26();
    hide *;
    AndOnes(t2, t3, 26);
    AndOnes(And(t2, t3), t4, 26);
    AndOnes(And(And(t2, t3), t4), t5, 26);
    AndOnes(And(And(And(t2, t3), t4), t5), t6, 26);
    AndOnes(And(And(And(And(t2, t3), t4), t5), t6), t7, 26);
    AndOnes(And(And(And(And(And(t2, t3), t4), t5), t6), t7), t8, 26);
  }

  /** What the comparison with P decides. */
  lemma AtLeastP(t0: int, t1: int, t2: int, t3: int, t4: int, t5: int, t6: int, t7: int, t8: int, t9: int)
    requires Carried(t0, t1, t2, t3, t4, t5, t6, t7, t8, t9)
    ensures 0 <= Limbs(t0, t1, t2, t3, t4, t5, t6, t7, t8, t9) < 2 * F.P && t9 / 0x400000 <= 1
    ensures Limbs(t0, t1, t2, t3, t4, t5, t6, t7, t8, t9) >= F.P <==>
      t9 / 0x400000 == 1
      || (t9 == 0x3FFFFF && t2 == 0x3FFFFFF && t3 == 0x3FFFFFF && t4 == 0x3FFFFFF && t5 == 0x3FFFFFF && t6 == 0x3FFFFFF
        && t7 == 0x3FFFFFF && t8 == 0x3FFFFFF && t1 + 0x40 + (t0 + 0x3D1) / 0x4000000 > 0x3FFFFFF)
  {
    var low := t0 + t1 * 0x4000000;
    LowLimbs(t0, t1);
    assert t9 / 0x400000 == 1 <==> t9 >= 0x400000;
  }

  /** The two low limbs hold at least those of P exactly when adding the complement carries. */
  lemma LowLimbs(t0: int, t1: int)
    requires 0 <= t0 <= 0x3FFFFFF && 0 <= t1 <= 0x3FFFFFF
    ensures t1 + 0x40 + (t0 + 0x3D1) / 0x4000000 > 0x3FFFFFF <==> t0 + t1 * 0x4000000 >= 0xFFFFEFFFFFC2F
  {
  }

  /** One if the limbs still hold P or more. */
  method ReductionNeeded(t0: u32, t1: u32, t2: u32, t3: u32, t4: u32, t5: u32, t6: u32, t7: u32, t8: u32,
        t9: u32) returns (x: u32)
    requires Carried(t0, t1, t2, t3, t4, t5, t6, t7, t8, t9)
    ensures x == if Limbs(t0, t1, t2, t3, t4, t5, t6, t7, t8, t9) >= F.P then 1 else 0
  {
    AtLeastP(t0, t1, t2, t3, t4, t5, t6, t7, t8, t9);
    SixOnes(t2, t3, t4, t5, t6, t7, t8);
    hide And, Limbs;
    var m := t2;
    m := And(m, t3);
    m := And(m, t4);
    m := And(m, t5);
    m := And(m, t6);
    m := And(m, t7);
    m := And(m, t8);
    x := if t9 / 0x400000 == 1
        || (t9 == 0x3FFFFF && m == 0x3FFFFFF && t1 + 0x40 + (t0 + 0x3D1) / 0x4000000 > 0x3FFFFFF) then 1 else 0;
  }

  /** The second pass takes P off exactly when it was there. */
  method LastPass(s0: u32, s1: u32, s2: u32, s3: u32, s4: u32, s5: u32, s6: u32, s7: u32, s8: u32, s9: u32,
        x: u32) returns (t0: u32, t1: u32, t2: u32, t3: u32, t4: u32, t5: u32, t6: u32, t7: u32, t8: u32, t9: u32)
    requires Carried(s0, s1, s2, s3, s4, s5, s6, s7, s8, s9)
    requires x == if Limbs(s0, s1, s2, s3, s4, s5, s6, s7, s8, s9) >= F.P then 1 else 0
    ensures Normal10([t0, t1, t2, t3, t4, t5, t6, t7, t8, t9])
    ensures Limbs(t0, t1, t2, t3, t4, t5, t6, t7, t8, t9) == Limbs(s0, s1, s2, s3, s4, s5, s6, s7, s8, s9) - x * F.P
  {
    hide *;
    ghost var n: seq<int> := [s0, s1, s2, s3, s4, s5, s6, s7, s8, s9];
    CarriedPass(s0, s1, s2, s3, s4, s5, s6, s7, s8, s9, x);
    PassStart(n, x);
    t0, t1, t2, t3, t4, t5, t6, t7, t8, t9 := s0, s1, s2, s3, s4, s5, s6, s7, s8, s9;
    t0 := (t0 + x * 0x3D1) % 0x1_00000000;
    t1 := (t1 + x * 0x40) % 0x1_00000000;
    t1 := (t1 + t0 / 0x4000000) % 0x1_00000000;
    t0 := t0 % 0x4000000;
    t1, t2, t3, t4, t5, t6, t7, t8, t9 := CarryUp(n, x, t1, t2, t3, t4, t5, t6, t7, t8, t9);
    PassValue(n, x, s9, t0, t1, t2, t3, t4, t5, t6, t7, t8, t9);
    LastValue(s0, s1, s2, s3, s4, s5, s6, s7, s8, s9, t0, t1, t2, t3, t4, t5, t6, t7, t8, t9, x);
    t9 := t9 % 0x400000;
  }

  lemma CarriedPass(s0: int, s1: int, s2: int, s3: int, s4: int, s5: int, s6: int, s7: int, s8: int, s9: int, x: int)
    requires Carried(s0, s1, s2, s3, s4, s5, s6, s7, s8, s9) && 0 <= x <= 1
    ensures Words10([s0, s1, s2, s3, s4, s5, s6, s7, s8, s9])
      && PassLost([s0, s1, s2, s3, s4, s5, s6, s7, s8, s9], x) == 0
    ensures s0 <= 0x3FFFFFF && s1 <= 0x3FFFFFF && s2 <= 0x3FFFFFF && s3 <= 0x3FFFFFF && s4 <= 0x3FFFFFF
      && s5 <= 0x3FFFFFF && s6 <= 0x3FFFFFF && s7 <= 0x3FFFFFF && s8 <= 0x3FFFFFF && s9 <= 0x40007F
  {
    var n := [s0, s1, s2, s3, s4, s5, s6, s7, s8, s9];
    hide PassLost, PassWord;
    SmallSums(n, x);
    LosesNothing(n, x);
  }

  lemma SmallSums(n: seq<int>, x: int)
    requires |n| == 10 && 0 <= x <= 1 && forall i :: 0 <= i <= 8 ==> 0 <= n[i] <= 0x3FFFFFF
    ensures PassFits(n, x)
  {
    hide PassLost;
    forall i: nat | i <= 8
      ensures PassSum(n, x, i) < 0x1_00000000
    {
    }
  }

  lemma LastValue(s0: int, s1: int, s2: int, s3: int, s4: int, s5: int, s6: int, s7: int, s8: int, s9: int, t0: int,
        t1: int, t2: int, t3: int, t4: int, t5: int, t6: int, t7: int, t8: int, t9: int, x: int)
    requires Carried(s0, s1, s2, s3, s4, s5, s6, s7, s8, s9)
      && x == if Limbs(s0, s1, s2, s3, s4, s5, s6, s7, s8, s9) >= F.P then 1 else 0
    requires 0 <= t0 <= 0x3FFFFFF && 0 <= t1 <= 0x3FFFFFF && 0 <= t2 <= 0x3FFFFFF && 0 <= t3 <= 0x3FFFFFF
      && 0 <= t4 <= 0x3FFFFFF && 0 <= t5 <= 0x3FFFFFF && 0 <= t6 <= 0x3FFFFFF && 0 <= t7 <= 0x3FFFFFF
      && 0 <= t8 <= 0x3FFFFFF && 0 <= t9 <= 0x4000FF
    requires Limbs(t0, t1, t2, t3, t4, t5, t6, t7, t8, t9)
      == Limbs(s0, s1, s2, s3, s4, s5, s6, s7, s8, s9) + x * 0x1000003D1
    ensures Normal10([t0, t1, t2, t3, t4, t5, t6, t7, t8, t9 % 0x400000])
    ensures Limbs(t0, t1, t2, t3, t4, t5, t6, t7, t8, t9 % 0x400000)
      == Limbs(s0, s1, s2, s3, s4, s5, s6, s7, s8, s9) - x * F.P
  {
    AtLeastP(s0, s1, s2, s3, s4, s5, s6, s7, s8, s9);
    CarriedOf(t0, t1, t2, t3, t4, t5, t6, t7, t8, 0);
    hide Limbs, Carried;
    BitAbove(t0, t1, t2, t3, t4, t5, t6, t7, t8, t9, x, Limbs(s0, s1, s2, s3, s4, s5, s6, s7, s8, s9));
    CarriedTop(t0, t1, t2, t3, t4, t5, t6, t7, t8, t9);
    TopCut(t0, t1, t2, t3, t4, t5, t6, t7, t8, t9 % 0x400000, x);
  }

  lemma CarriedTop(t0: int, t1: int, t2: int, t3: int, t4: int, t5: int, t6: int, t7: int, t8: int, t9: int)
    requires Carried(t0, t1, t2, t3, t4, t5, t6, t7, t8, 0)
    ensures Carried(t0, t1, t2, t3, t4, t5, t6, t7, t8, t9 % 0x400000)
  {
  }

  lemma BitAbove(t0: int, t1: int, t2: int, t3: int, t4: int, t5: int, t6: int, t7: int, t8: int, t9: int, x: int,
        w: int)
    requires Carried(t0, t1, t2, t3, t4, t5, t6, t7, t8, 0) && 0 <= t9 <= 0x4000FF
      && Limbs(t0, t1, t2, t3, t4, t5, t6, t7, t8, t9) == w + x * 0x1000003D1 && 0 <= w < 2 * F.P
      && x == if w >= F.P then 1 else 0
    ensures t9 / 0x400000 == x
    ensures Limbs(t0, t1, t2, t3, t4, t5, t6, t7, t8, t9 % 0x400000) == w - x * F.P
  {
  }

  lemma TopCut(t0: int, t1: int, t2: int, t3: int, t4: int, t5: int, t6: int, t7: int, t8: int, t9: int, x: int)
    requires Carried(t0, t1, t2, t3, t4, t5, t6, t7, t8, t9) && t9 <= 0x3FFFFF
      && 0 <= Limbs(t0, t1, t2, t3, t4, t5, t6, t7, t8, t9) < F.P
    ensures Normal10([t0, t1, t2, t3, t4, t5, t6, t7, t8, t9])
  {
  }

  // ----- normalisation -----

  /** A residue differs from what a lost carry leaves of it. */
  lemma LossShows(w: int, r: int, v: int, lost: nat)
    requires lost < 0x4000000000000000000000000000000000000000000000000000000000000 && Cong(w, v - lost, F.P)
      && Cong(r, w, F.P)
    ensures r % F.P == v % F.P <==> lost == 0
  {
    if r % F.P == v % F.P && lost != 0 {
      var q := CongGap(v - lost, v, F.P);
      SmallMultiple(q, F.P);
    }
  }

  /** Reduces r to the unique limbs of its residue, unless the first pass loses a carry; then the
      residue is wrong. The final pass always runs. Any words are accepted. */
  method Normalize(r: array<int>)
    requires Words10(r[..])
    modifies r
    ensures Normal10(r[..])
    ensures Value10(r[..]) % F.P == old(Value10(r[..])) % F.P <==> NoWrap(old(r[..]))
  {
    hide *;
    ghost var v := r[..];
    WordsAre(v);
    var t0, t1, t2, t3, t4, t5, t6, t7, t8, t9 := FirstPass(r);
    ghost var w := Limbs(t0, t1, t2, t3, t4, t5, t6, t7, t8, t9);
    var x := ReductionNeeded(t0, t1, t2, t3, t4, t5, t6, t7, t8, t9);
    t0, t1, t2, t3, t4, t5, t6, t7, t8, t9 := LastPass(t0, t1, t2, t3, t4, t5, t6, t7, t8, t9, x);
    ReducedCong(Limbs(t0, t1, t2, t3, t4, t5, t6, t7, t8, t9), w, x);
    LossShows(w, Limbs(t0, t1, t2, t3, t4, t5, t6, t7, t8, t9), Value10(v), Lost(v));
    LimbsIs(t0, t1, t2, t3, t4, t5, t6, t7, t8, t9);
    r[0], r[1], r[2], r[3], r[4], r[5], r[6], r[7], r[8], r[9] := t0, t1, t2, t3, t4, t5, t6, t7, t8, t9;
    assert r[..] == [t0, t1, t2, t3, t4, t5, t6, t7, t8, t9];
  }

  lemma ReducedCong(t: int, w: int, x: int)
    requires t == w - x * F.P
    ensures Cong(t, w, F.P)
  {
    CongBy(t, w, F.P, -x);
  }

  /** Like Normalize, but the final pass runs only when it is needed. */
  method NormalizeVar(r: array<int>)
    requires Words10(r[..])
    modifies r
    ensures Normal10(r[..])
    ensures Value10(r[..]) % F.P == old(Value10(r[..])) % F.P <==> NoWrap(old(r[..]))
  {
    hide *;
    ghost var v := r[..];
    WordsAre(v);
    var t0, t1, t2, t3, t4, t5, t6, t7, t8, t9 := FirstPass(r);
    ghost var w := Limbs(t0, t1, t2, t3, t4, t5, t6, t7, t8, t9);
    var x := ReductionNeeded(t0, t1, t2, t3, t4, t5, t6, t7, t8, t9);
    if x != 0 {
      t0, t1, t2, t3, t4, t5, t6, t7, t8, t9 := LastPass(t0, t1, t2, t3, t4, t5, t6, t7, t8, t9, 1);
    } else {
      BelowP(t0, t1, t2, t3, t4, t5, t6, t7, t8, t9);
    }
    ReducedCong(Limbs(t0, t1, t2, t3, t4, t5, t6, t7, t8, t9), w, x);
    LossShows(w, Limbs(t0, t1, t2, t3, t4, t5, t6, t7, t8, t9), Value10(v), Lost(v));
    LimbsIs(t0, t1, t2, t3, t4, t5, t6, t7, t8, t9);
    r[0], r[1], r[2], r[3], r[4], r[5], r[6], r[7], r[8], r[9] := t0, t1, t2, t3, t4, t5, t6, t7, t8, t9;
    assert r[..] == [t0, t1, t2, t3, t4, t5, t6, t7, t8, t9];
  }

  lemma BelowP(t0: int, t1: int, t2: int, t3: int, t4: int, t5: int, t6: int, t7: int, t8: int, t9: int)
    requires Carried(t0, t1, t2, t3, t4, t5, t6, t7, t8, t9) && !(Limbs(t0, t1, t2, t3, t4, t5, t6, t7, t8, t9) >= F.P)
    ensures Normal10([t0, t1, t2, t3, t4, t5, t6, t7, t8, t9])
  {
  }

  /** Brings the limbs down to magnitude 1 and keeps the residue unless a carry is lost. */
  method NormalizeWeak(r: array<int>)
    requires Words10(r[..])
    modifies r
    ensures Magnitude10(r[..], 1)
    ensures Value10(r[..]) % F.P == old(Value10(r[..])) % F.P <==> NoWrap(old(r[..]))
  {
    hide *;
    ghost var v := r[..];
    WordsAre(v);
    var t0, t1, t2, t3, t4, t5, t6, t7, t8, t9 := FirstPass(r);
    ReducedCong(Limbs(t0, t1, t2, t3, t4, t5, t6, t7, t8, t9), Limbs(t0, t1, t2, t3, t4, t5, t6, t7, t8, t9), 0);
    LossShows(Limbs(t0, t1, t2, t3, t4, t5, t6, t7, t8, t9), Limbs(t0, t1, t2, t3, t4, t5, t6, t7, t8, t9), Value10(v),
        Lost(v));
    LimbsIs(t0, t1, t2, t3, t4, t5, t6, t7, t8, t9);
    CarriedWeak(t0, t1, t2, t3, t4, t5, t6, t7, t8, t9);
    r[0], r[1], r[2], r[3], r[4], r[5], r[6], r[7], r[8], r[9] := t0, t1, t2, t3, t4, t5, t6, t7, t8, t9;
    assert r[..] == [t0, t1, t2, t3, t4, t5, t6, t7, t8, t9];
  }

  lemma CarriedWeak(t0: int, t1: int, t2: int, t3: int, t4: int, t5: int, t6: int, t7: int, t8: int, t9: int)
    requires Carried(t0, t1, t2, t3, t4, t5, t6, t7, t8, t9)
    ensures Magnitude10([t0, t1, t2, t3, t4, t5, t6, t7, t8, t9], 1)
  {
  }

  /** The largest limbs of magnitude 32 lose a carry. */
  lemma LargestLimbsWrap()
    ensures var n := [0xFFFFFFC0, 0xFFFFFFC0, 0xFFFFFFC0, 0xFFFFFFC0, 0xFFFFFFC0, 0xFFFFFFC0, 0xFFFFFFC0, 0xFFFFFFC0,
      0xFFFFFFC0, 0xFFFFFC0];
      Magnitude10(n, 32) && !NoWrap(n)
  {
    var n := [0xFFFFFFC0, 0xFFFFFFC0, 0xFFFFFFC0, 0xFFFFFFC0, 0xFFFFFFC0, 0xFFFFFFC0, 0xFFFFFFC0, 0xFFFFFFC0,
        0xFFFFFFC0, 0xFFFFFC0];
    assert n[9] / 0x400000 == 63 && PassSum(n, 63, 0) == 0x1_0000F02F;
  }

  // ----- zero test -----

  lemma MaskOnes(t0: nat, t1: nat, t2: nat, t3: nat, t4: nat, t5: nat, t6: nat, t7: nat, t8: nat, t9: nat)
    requires Carried(t0, t1, t2, t3, t4, t5, t6, t7, t8, t9)
    ensures Xor(t0, 0x3D0) == 0x3FFFFFF <==> t0 == 0x3fffc2f
    ensures And(And(And(And(And(And(And(And(And(Xor(t0, 0x3D0), Xor(t1, 0x40)), t2), t3), t4), t5), t6), t7), t8),
      Xor(t9, 0x3C00000)) == 0x3FFFFFF
      <==> t0 == 0x3fffc2f && t1 == 0x3ffffbf && t2 == 0x3ffffff && t3 == 0x3ffffff && t4 == 0x3ffffff
           && t5 == 0x3ffffff && t6 == 0x3ffffff && t7 == 0x3ffffff && t8 == 0x3ffffff && t9 == 0x3fffff
  {
    Ones26();
    CarriedIs(t0, t1, t2, t3, t4, t5, t6, t7, t8, t9);
    hide *;
    XorOnes(t0, 0x3D0, 26);
    XorOnes(t1, 0x40, 26);
    XorOnes(t9, 0x3C00000, 26);
    var y0, y1, y9 := Xor(t0, 0x3D0), Xor(t1, 0x40), Xor(t9, 0x3C00000);
    And26(y0, y1);
    var a1 := And(y0, y1);
    And26(a1, t2);
    var a2 := And(a1, t2);
    And26(a2, t3);
    var a3 := And(a2, t3);
    And26(a3, t4);
    var a4 := And(a3, t4);
    And26(a4, t5);
    var a5 := And(a4, t5);
    And26(a5, t6);
    var a6 := And(a5, t6);
    And26(a6, t7);
    var a7 := And(a6, t7);
    And26(a7, t8);
    var a8 := And(a7, t8);
    And26(a8, y9);
  }

  /** 26 ones in a conjunction. */
  lemma And26(x: nat, y: nat)
    requires x <= 0x3FFFFFF && y <= 0x3FFFFFF
    ensures And(x, y) <= 0x3FFFFFF
    ensures And(x, y) == 0x3FFFFFF <==> x == 0x3FFFFFF && y == 0x3FFFFFF
  {
    Ones26();
    hide *;
    AndOnes(x, y, 26);
  }

  lemma CarriedIs(t0: int, t1: int, t2: int, t3: int, t4: int, t5: int, t6: int, t7: int, t8: int, t9: int)
    requires Carried(t0, t1, t2, t3, t4, t5, t6, t7, t8, t9)
    ensures 0 <= t0 <= 0x3FFFFFF && 0 <= t1 <= 0x3FFFFFF && 0 <= t2 <= 0x3FFFFFF && 0 <= t3 <= 0x3FFFFFF
      && 0 <= t4 <= 0x3FFFFFF && 0 <= t5 <= 0x3FFFFFF && 0 <= t6 <= 0x3FFFFFF && 0 <= t7 <= 0x3FFFFFF
      && 0 <= t8 <= 0x3FFFFFF && 0 <= t9 <= 0x40007F
  {
  }

  lemma AllZero(t0: nat, t1: nat, t2: nat, t3: nat, t4: nat, t5: nat, t6: nat, t7: nat, t8: nat, t9: nat)
    ensures Or(Or(Or(Or(Or(Or(Or(Or(Or(t0, t1), t2), t3), t4), t5), t6), t7), t8), t9) == 0 <==>
      t0 == 0 && t1 == 0 && t2 == 0 && t3 == 0 && t4 == 0 && t5 == 0 && t6 == 0 && t7 == 0 && t8 == 0 && t9 == 0
  {
    hide *;
    OrZero(t0, t1);
    var o1 := Or(t0, t1);
    OrZero(o1, t2);
    var o2 := Or(o1, t2);
    OrZero(o2, t3);
    var o3 := Or(o2, t3);
    OrZero(o3, t4);
    var o4 := Or(o3, t4);
    OrZero(o4, t5);
    var o5 := Or(o4, t5);
    OrZero(o5, t6);
    var o6 := Or(o5, t6);
    OrZero(o6, t7);
    var o7 := Or(o6, t7);
    OrZero(o7, t8);
    var o8 := Or(o7, t8);
    OrZero(o8, t9);
  }

  /** Below 2*P only the limbs of 0 and of P have residue 0. */
  lemma ResidueZero(t0: int, t1: int, t2: int, t3: int, t4: int, t5: int, t6: int, t7: int, t8: int, t9: int, v: int)
    requires Carried(t0, t1, t2, t3, t4, t5, t6, t7, t8, t9)
      && Cong(Limbs(t0, t1, t2, t3, t4, t5, t6, t7, t8, t9), v, F.P)
    ensures v % F.P == 0 <==>
      || (t0 == 0 && t1 == 0 && t2 == 0 && t3 == 0 && t4 == 0 && t5 == 0 && t6 == 0 && t7 == 0 && t8 == 0 && t9 == 0)
      || (t0 == 0x3fffc2f && t1 == 0x3ffffbf && t2 == 0x3ffffff && t3 == 0x3ffffff && t4 == 0x3ffffff && t5 == 0x3ffffff
        && t6 == 0x3ffffff && t7 == 0x3ffffff && t8 == 0x3ffffff && t9 == 0x3fffff)
  {
    AtLeastP(t0, t1, t2, t3, t4, t5, t6, t7, t8, t9);
    var w := Limbs(t0, t1, t2, t3, t4, t5, t6, t7, t8, t9);
    var q := if w >= F.P then 1 else 0;
    DivIs(w, F.P, q, w - q * F.P);
    assert v % F.P == 0 <==> w == 0 || w == F.P;
    CarriedIs(t0, t1, t2, t3, t4, t5, t6, t7, t8, t9);
    hide Carried, Cong;
    if w == F.P {
      LimbsOfP(t0, t1, t2, t3, t4, t5, t6, t7, t8, t9);
    }
    assert Limbs(0x3fffc2f, 0x3ffffbf, 0x3ffffff, 0x3ffffff, 0x3ffffff, 0x3ffffff, 0x3ffffff, 0x3ffffff, 0x3ffffff,
        0x3fffff) == F.P;
    LimbsZero(t0, t1, t2, t3, t4, t5, t6, t7, t8, t9);
  }

  lemma LimbsZero(t0: int, t1: int, t2: int, t3: int, t4: int, t5: int, t6: int, t7: int, t8: int, t9: int)
    requires 0 <= t0 && 0 <= t1 && 0 <= t2 && 0 <= t3 && 0 <= t4 && 0 <= t5 && 0 <= t6 && 0 <= t7 && 0 <= t8 && 0 <= t9
    ensures Limbs(t0, t1, t2, t3, t4, t5, t6, t7, t8, t9) == 0 <==>
      t0 == 0 && t1 == 0 && t2 == 0 && t3 == 0 && t4 == 0 && t5 == 0 && t6 == 0 && t7 == 0 && t8 == 0 && t9 == 0
  {
  }

  lemma LimbsOfP(t0: int, t1: int, t2: int, t3: int, t4: int, t5: int, t6: int, t7: int, t8: int, t9: int)
    requires 0 <= t0 <= 0x3FFFFFF && 0 <= t1 <= 0x3FFFFFF && 0 <= t2 <= 0x3FFFFFF && 0 <= t3 <= 0x3FFFFFF
      && 0 <= t4 <= 0x3FFFFFF && 0 <= t5 <= 0x3FFFFFF && 0 <= t6 <= 0x3FFFFFF && 0 <= t7 <= 0x3FFFFFF
      && 0 <= t8 <= 0x3FFFFFF && 0 <= t9 && Limbs(t0, t1, t2, t3, t4, t5, t6, t7, t8, t9) == F.P
    ensures t0 == 0x3fffc2f && t1 == 0x3ffffbf && t2 == 0x3ffffff && t3 == 0x3ffffff && t4 == 0x3ffffff
      && t5 == 0x3ffffff && t6 == 0x3ffffff && t7 == 0x3ffffff && t8 == 0x3ffffff && t9 == 0x3fffff
  {
    assert t0 + Nine(t1, t2, t3, t4, t5, t6, t7, t8, t9) * 0x4000000
        == 0xfffffffffffffffffffffffffffffffffffffffffffffffffffffffefffffc2f;
    assert t0 == 0x3fffc2f && Nine(t1, t2, t3, t4, t5, t6, t7, t8, t9)
        == 0x3fffffffffffffffffffffffffffffffffffffffffffffffffffffffbf;
    assert t1 + (t2 + t3 * 0x4000000 + t4 * 0x10000000000000 + t5 * 0x40000000000000000000
        + t6 * 0x100000000000000000000000000 + t7 * 0x400000000000000000000000000000000
        + t8 * 0x1000000000000000000000000000000000000000 + t9 * 0x4000000000000000000000000000000000000000000000)
        * 0x4000000 == 0x3fffffffffffffffffffffffffffffffffffffffffffffffffffffffbf;
    assert t1 == 0x3ffffbf && t2 + t3 * 0x4000000 + t4 * 0x10000000000000 + t5 * 0x40000000000000000000
        + t6 * 0x100000000000000000000000000 + t7 * 0x400000000000000000000000000000000
        + t8 * 0x1000000000000000000000000000000000000000 + t9 * 0x4000000000000000000000000000000000000000000000
        == 0xfffffffffffffffffffffffffffffffffffffffffffffffffff;
    assert t2 + (t3 + t4 * 0x4000000 + t5 * 0x10000000000000 + t6 * 0x40000000000000000000
        + t7 * 0x100000000000000000000000000 + t8 * 0x400000000000000000000000000000000
        + t9 * 0x1000000000000000000000000000000000000000) * 0x4000000
        == 0xfffffffffffffffffffffffffffffffffffffffffffffffffff;
    assert t2 == 0x3ffffff && t3 + t4 * 0x4000000 + t5 * 0x10000000000000 + t6 * 0x40000000000000000000
        + t7 * 0x100000000000000000000000000 + t8 * 0x400000000000000000000000000000000
        + t9 * 0x1000000000000000000000000000000000000000 == 0x3ffffffffffffffffffffffffffffffffffffffffffff;
    assert t3 + (t4 + t5 * 0x4000000 + t6 * 0x10000000000000 + t7 * 0x40000000000000000000
        + t8 * 0x100000000000000000000000000 + t9 * 0x400000000000000000000000000000000) * 0x4000000
        == 0x3ffffffffffffffffffffffffffffffffffffffffffff;
    assert t3 == 0x3ffffff && t4 + t5 * 0x4000000 + t6 * 0x10000000000000 + t7 * 0x40000000000000000000
        + t8 * 0x100000000000000000000000000 + t9 * 0x400000000000000000000000000000000
        == 0xffffffffffffffffffffffffffffffffffffff;
    assert t4 + (t5 + t6 * 0x4000000 + t7 * 0x10000000000000 + t8 * 0x40000000000000000000
        + t9 * 0x100000000000000000000000000) * 0x4000000 == 0xffffffffffffffffffffffffffffffffffffff;
    assert t4 == 0x3ffffff && t5 + t6 * 0x4000000 + t7 * 0x10000000000000 + t8 * 0x40000000000000000000
        + t9 * 0x100000000000000000000000000 == 0x3fffffffffffffffffffffffffffffff;
    assert t5 + (t6 + t7 * 0x4000000 + t8 * 0x10000000000000 + t9 * 0x40000000000000000000) * 0x4000000
        == 0x3fffffffffffffffffffffffffffffff;
    assert t5 == 0x3ffffff && t6 + t7 * 0x4000000 + t8 * 0x10000000000000 + t9 * 0x40000000000000000000
        == 0xfffffffffffffffffffffffff;
    assert t6 + (t7 + t8 * 0x4000000 + t9 * 0x10000000000000) * 0x4000000 == 0xfffffffffffffffffffffffff;
    assert t6 == 0x3ffffff && t7 + t8 * 0x4000000 + t9 * 0x10000000000000 == 0x3ffffffffffffffffff;
    assert t7 + (t8 + t9 * 0x4000000) * 0x4000000 == 0x3ffffffffffffffffff;
    assert t7 == 0x3ffffff && t8 + t9 * 0x4000000 == 0xffffffffffff;
    assert t8 + (t9) * 0x4000000 == 0xffffffffffff;
    assert t8 == 0x3ffffff && t9 == 0x3fffff;
  }

  lemma ZeroMasks(t0: nat, t1: nat, t2: nat, t3: nat, t4: nat, t5: nat, t6: nat, t7: nat, t8: nat, t9: nat, v: int)
    requires Carried(t0, t1, t2, t3, t4, t5, t6, t7, t8, t9)
      && Cong(Limbs(t0, t1, t2, t3, t4, t5, t6, t7, t8, t9), v, F.P)
    ensures v % F.P == 0 <==>
      || Or(Or(Or(Or(Or(Or(Or(Or(Or(t0, t1), t2), t3), t4), t5), t6), t7), t8), t9) == 0
      || And(And(And(And(And(And(And(And(And(Xor(t0, 0x3D0), Xor(t1, 0x40)), t2), t3), t4), t5), t6), t7), t8),
        Xor(t9, 0x3C00000)) == 0x3FFFFFF
  {
    ResidueZero(t0, t1, t2, t3, t4, t5, t6, t7, t8, t9, v);
    AllZero(t0, t1, t2, t3, t4, t5, t6, t7, t8, t9);
    MaskOnes(t0, t1, t2, t3, t4, t5, t6, t7, t8, t9);
    hide *;
  }

  /** Whether the residue is zero, without normalising; a lost carry counts here too. */
  method NormalizesToZero(r: array<int>) returns (zero: bool)
    requires Words10(r[..])
    ensures zero <==> (Value10(r[..]) - Lost(r[..])) % F.P == 0
    ensures NoWrap(r[..]) ==> (zero <==> Value10(r[..]) % F.P == 0)
  {
    hide *;
    WordsAre(r[..]);
    var t0, t1, t2, t3, t4, t5, t6, t7, t8, t9 := FirstPass(r);
    ZeroMasks(t0, t1, t2, t3, t4, t5, t6, t7, t8, t9, Value10(r[..]) - Lost(r[..]));
    var z0, z1 := t0, Xor(t0, 0x3D0);
    z0 := Or(z0, t1); z1 := And(z1, Xor(t1, 0x40));
    z0 := Or(z0, t2); z1 := And(z1, t2);
    z0 := Or(z0, t3); z1 := And(z1, t3);
    z0 := Or(z0, t4); z1 := And(z1, t4);
    z0 := Or(z0, t5); z1 := And(z1, t5);
    z0 := Or(z0, t6); z1 := And(z1, t6);
    z0 := Or(z0, t7); z1 := And(z1, t7);
    z0 := Or(z0, t8); z1 := And(z1, t8);
    z0 := Or(z0, t9); z1 := And(z1, Xor(t9, 0x3C00000));
    zero := z0 == 0 || z1 == 0x3FFFFFF;
  }

  /** The same test, giving up as soon as the lowest limb rules out both 0 and P. */
  method NormalizesToZeroVar(r: array<int>) returns (zero: bool)
    requires Words10(r[..])
    ensures zero <==> (Value10(r[..]) - Lost(r[..])) % F.P == 0
    ensures NoWrap(r[..]) ==> (zero <==> Value10(r[..]) % F.P == 0)
  {
    hide *;
    ghost var v := r[..];
    WordsAre(v);
    assert r[0] == v[0] && r[1] == v[1] && r[2] == v[2] && r[3] == v[3] && r[4] == v[4] && r[5] == v[5] && r[6] == v[6]
        && r[7] == v[7] && r[8] == v[8] && r[9] == v[9];
    var t0: u32, t9: u32 := r[0], r[9];
    var x: u32 := t9 / 0x400000;
    t0 := (t0 + x * 0x3D1) % 0x1_00000000;
    PassStart(v, x);
    var z0 := t0 % 0x4000000;
    var z1 := Xor(z0, 0x3D0);
    if z0 != 0 && z1 != 0x3FFFFFF {
      LowLimb(v);
      return false;
    }
    var t1: u32, t2: u32, t3: u32, t4: u32 := r[1], r[2], r[3], r[4];
    var t5: u32, t6: u32, t7: u32, t8: u32 := r[5], r[6], r[7], r[8];
    t9 := t9 % 0x400000;
    t1 := (t1 + x * 0x40) % 0x1_00000000;
    t1 := (t1 + t0 / 0x4000000) % 0x1_00000000;
    ghost var e0: int := z0;
    t1, t2, t3, t4, t5, t6, t7, t8, t9 := CarryUp(v, x, t1, t2, t3, t4, t5, t6, t7, t8, t9);
    PassDigitsOf(v, e0, t1, t2, t3, t4, t5, t6, t7, t8, t9);
    FirstPassValue(v, e0, t1, t2, t3, t4, t5, t6, t7, t8, t9);
    ZeroMasks(e0, t1, t2, t3, t4, t5, t6, t7, t8, t9, Value10(v) - Lost(v));
    z0 := Or(z0, t1); z1 := And(z1, Xor(t1, 0x40));
    z0 := Or(z0, t2); z1 := And(z1, t2);
    z0 := Or(z0, t3); z1 := And(z1, t3);
    z0 := Or(z0, t4); z1 := And(z1, t4);
    z0 := Or(z0, t5); z1 := And(z1, t5);
    z0 := Or(z0, t6); z1 := And(z1, t6);
    z0 := Or(z0, t7); z1 := And(z1, t7);
    z0 := Or(z0, t8); z1 := And(z1, t8);
    z0 := Or(z0, t9); z1 := And(z1, Xor(t9, 0x3C00000));
    zero := z0 == 0 || z1 == 0x3FFFFFF;
  }

  /** The lowest limb alone rules out residue 0 unless it is that of 0 or of P. */
  lemma LowLimb(v: seq<int>)
    requires Words10(v)
    ensures var t := ((v[0] + (v[9] / 0x400000) * 0x3D1) % 0x1_00000000) % 0x4000000;
      (Value10(v) - Lost(v)) % F.P == 0 ==> t == 0 || Xor(t, 0x3D0) == 0x3FFFFFF
  {
    hide *;
    WordsAre(v);
    var x := v[9] / 0x400000;
    PassStart(v, x);
    var t0, t1, t2, t3, t4 := PassWord(v, x, 0) % 0x4000000, PassWord(v, x, 1) % 0x4000000,
        PassWord(v, x, 2) % 0x4000000, PassWord(v, x, 3) % 0x4000000, PassWord(v, x, 4) % 0x4000000;
    var t5, t6, t7, t8, t9 := PassWord(v, x, 5) % 0x4000000, PassWord(v, x, 6) % 0x4000000,
        PassWord(v, x, 7) % 0x4000000, PassWord(v, x, 8) % 0x4000000, v[9] % 0x400000 + PassWord(v, x, 8) / 0x4000000;
    PassDigitsOf(v, t0, t1, t2, t3, t4, t5, t6, t7, t8, t9);
    FirstPassValue(v, t0, t1, t2, t3, t4, t5, t6, t7, t8, t9);
    LowLimbOf(t0, t1, t2, t3, t4, t5, t6, t7, t8, t9, Value10(v) - Lost(v));
  }

  lemma LowLimbOf(t0: nat, t1: nat, t2: nat, t3: nat, t4: nat, t5: nat, t6: nat, t7: nat, t8: nat, t9: nat, v: int)
    requires Carried(t0, t1, t2, t3, t4, t5, t6, t7, t8, t9)
      && Cong(Limbs(t0, t1, t2, t3, t4, t5, t6, t7, t8, t9), v, F.P)
    ensures v % F.P == 0 ==> t0 == 0 || Xor(t0, 0x3D0) == 0x3FFFFFF
  {
    ResidueZero(t0, t1, t2, t3, t4, t5, t6, t7, t8, t9, v);
    MaskOnes(t0, t1, t2, t3, t4, t5, t6, t7, t8, t9);
    hide *;
  }

  // ----- negation and halving -----

  /** A multiple of P, limb by limb large enough, less v. */
  function Negated(v: seq<int>, m: nat): (r: seq<int>)
    requires |v| == 10
    ensures |r| == 10
  {
    [0x3fffc2f * 2 * (m + 1) - v[0], 0x3ffffbf * 2 * (m + 1) - v[1], 0x3ffffff * 2 * (m + 1) - v[2],
        0x3ffffff * 2 * (m + 1) - v[3], 0x3ffffff * 2 * (m + 1) - v[4], 0x3ffffff * 2 * (m + 1) - v[5],
        0x3ffffff * 2 * (m + 1) - v[6], 0x3ffffff * 2 * (m + 1) - v[7], 0x3ffffff * 2 * (m + 1) - v[8],
        0x3fffff * 2 * (m + 1) - v[9]]
  }

  lemma NegatedIs(v: seq<int>, m: nat)
    requires |v| == 10
    ensures Negated(v, m)
      == [0x3fffc2f * 2 * (m + 1) - v[0], 0x3ffffbf * 2 * (m + 1) - v[1], 0x3ffffff * 2 * (m + 1) - v[2],
      0x3ffffff * 2 * (m + 1) - v[3], 0x3ffffff * 2 * (m + 1) - v[4], 0x3ffffff * 2 * (m + 1) - v[5],
      0x3ffffff * 2 * (m + 1) - v[6], 0x3ffffff * 2 * (m + 1) - v[7], 0x3ffffff * 2 * (m + 1) - v[8],
      0x3fffff * 2 * (m + 1) - v[9]]
  {
  }

  /** r = -a for a of magnitude at most m; no limb underflows. r may be a. */
  method NegateUnchecked(r: array<int>, a: array<int>, m: nat)
    requires r.Length == a.Length == 10 && m <= 31 && Magnitude10(a[..], m)
    modifies r
    ensures r[..] == Negated(old(a[..]), m)
    ensures Magnitude10(r[..], m + 1)
    ensures Cong(Value10(r[..]), -old(Value10(a[..])), F.P)
  {
    hide *;
    ghost var v := a[..];
    MagnitudeIs(v, m);
    assert a[0] == v[0] && a[1] == v[1] && a[2] == v[2] && a[3] == v[3] && a[4] == v[4] && a[5] == v[5] && a[6] == v[6]
        && a[7] == v[7] && a[8] == v[8] && a[9] == v[9];
    var r0: u32 := 0x3fffc2f * 2 * (m + 1) - a[0];
    var r1: u32 := 0x3ffffbf * 2 * (m + 1) - a[1];
    var r2: u32 := 0x3ffffff * 2 * (m + 1) - a[2];
    var r3: u32 := 0x3ffffff * 2 * (m + 1) - a[3];
    var r4: u32 := 0x3ffffff * 2 * (m + 1) - a[4];
    var r5: u32 := 0x3ffffff * 2 * (m + 1) - a[5];
    var r6: u32 := 0x3ffffff * 2 * (m + 1) - a[6];
    var r7: u32 := 0x3ffffff * 2 * (m + 1) - a[7];
    var r8: u32 := 0x3ffffff * 2 * (m + 1) - a[8];
    var r9: u32 := 0x3fffff * 2 * (m + 1) - a[9];
    MagnitudeOf(r0, r1, r2, r3, r4, r5, r6, r7, r8, r9, m + 1);
    NegatedValue(v, m, r0, r1, r2, r3, r4, r5, r6, r7, r8, r9);
    NegatedIs(v, m);
    r[0], r[1], r[2], r[3], r[4], r[5], r[6], r[7], r[8], r[9] := r0, r1, r2, r3, r4, r5, r6, r7, r8, r9;
    assert r[..] == [r0, r1, r2, r3, r4, r5, r6, r7, r8, r9];
  }

  lemma NegatedValue(v: seq<int>, m: nat, r0: int, r1: int, r2: int, r3: int, r4: int, r5: int, r6: int, r7: int,
        r8: int, r9: int)
    requires |v| == 10
    requires r0 == 0x3fffc2f * 2 * (m + 1) - v[0]
    requires r1 == 0x3ffffbf * 2 * (m + 1) - v[1]
    requires r2 == 0x3ffffff * 2 * (m + 1) - v[2]
    requires r3 == 0x3ffffff * 2 * (m + 1) - v[3]
    requires r4 == 0x3ffffff * 2 * (m + 1) - v[4]
    requires r5 == 0x3ffffff * 2 * (m + 1) - v[5]
    requires r6 == 0x3ffffff * 2 * (m + 1) - v[6]
    requires r7 == 0x3ffffff * 2 * (m + 1) - v[7]
    requires r8 == 0x3ffffff * 2 * (m + 1) - v[8]
    requires r9 == 0x3fffff * 2 * (m + 1) - v[9]
    ensures Cong(Value10([r0, r1, r2, r3, r4, r5, r6, r7, r8, r9]), -Value10(v), F.P)
  {
    hide Cong;
    CongBy(Value10([r0, r1, r2, r3, r4, r5, r6, r7, r8, r9]), -Value10(v), F.P, 2 * (m + 1));
  }

  /** r = r/2: P is added first when r is odd. */
  method Half(r: array<int>, ghost m: nat)
    requires r.Length == 10 && m <= 31 && Magnitude10(r[..], m)
    modifies r
    ensures Magnitude10(r[..], m / 2 + 1)
    ensures Cong(2 * Value10(r[..]), old(Value10(r[..])), F.P)
  {
    hide *;
    ghost var v := r[..];
    MagnitudeIs(v, m);
    assert r[0] == v[0] && r[1] == v[1] && r[2] == v[2] && r[3] == v[3] && r[4] == v[4] && r[5] == v[5] && r[6] == v[6]
        && r[7] == v[7] && r[8] == v[8] && r[9] == v[9];
    var t0: u32, t1: u32, t2: u32, t3: u32, t4: u32 := r[0], r[1], r[2], r[3], r[4];
    var t5: u32, t6: u32, t7: u32, t8: u32, t9: u32 := r[5], r[6], r[7], r[8], r[9];
    var mask: u32 := ((0x1_00000000 - t0 % 2) % 0x1_00000000) / 0x40;
    assert mask == if t0 % 2 == 1 then 0x3FFFFFF else 0;
    MaskP(mask);
    t0 := t0 + And(0x3fffc2f, mask);
    t1 := t1 + And(0x3ffffbf, mask);
    t2 := t2 + mask;
    t3 := t3 + mask;
    t4 := t4 + mask;
    t5 := t5 + mask;
    t6 := t6 + mask;
    t7 := t7 + mask;
    t8 := t8 + mask;
    t9 := t9 + mask / 0x10;
    OddAdded(v, mask, t0, t1, t2, t3, t4, t5, t6, t7, t8, t9);
    var h := HalveLimbs(t0, t1, t2, t3, t4, t5, t6, t7, t8, t9, v, m);
    r[0], r[1], r[2], r[3], r[4], r[5], r[6], r[7], r[8], r[9] := h[0], h[1], h[2], h[3], h[4], h[5], h[6], h[7], h[8],
        h[9];
    assert r[..] == h;
  }

  /** Halves an even number limb by limb; each limb hands its lowest bit down. */
  method HalveLimbs(t0: u32, t1: u32, t2: u32, t3: u32, t4: u32, t5: u32, t6: u32, t7: u32, t8: u32, t9: u32,
      ghost v: seq<int>, ghost m: nat) returns (h: seq<u32>)
    requires t0 % 2 == 0 && m <= 31 && Magnitude10(v, m)
    requires t0 <= v[0] + 0x3FFFFFF && t1 <= v[1] + 0x3FFFFFF && t2 <= v[2] + 0x3FFFFFF && t3 <= v[3] + 0x3FFFFFF
      && t4 <= v[4] + 0x3FFFFFF
    requires t5 <= v[5] + 0x3FFFFFF && t6 <= v[6] + 0x3FFFFFF && t7 <= v[7] + 0x3FFFFFF && t8 <= v[8] + 0x3FFFFFF
      && t9 <= v[9] + 0x3FFFFF
    ensures |h| == 10 && Magnitude10(h, m / 2 + 1)
    ensures 2 * Value10(h) == Limbs(t0, t1, t2, t3, t4, t5, t6, t7, t8, t9)
  {
    hide *;
    MagnitudeIs(v, m);
    HalfLimb(v[0], m, t0, t1);
    HalfLimb(v[1], m, t1, t2);
    HalfLimb(v[2], m, t2, t3);
    HalfLimb(v[3], m, t3, t4);
    HalfLimb(v[4], m, t4, t5);
    HalfLimb(v[5], m, t5, t6);
    HalfLimb(v[6], m, t6, t7);
    HalfLimb(v[7], m, t7, t8);
    HalfLimb(v[8], m, t8, t9);
    HalfTop(v[9], m, t9);
    var r0: u32, r1: u32, r2: u32 := t0 / 2 + (t1 % 2) * 0x2000000, t1 / 2 + (t2 % 2) * 0x2000000,
        t2 / 2 + (t3 % 2) * 0x2000000;
    var r3: u32, r4: u32, r5: u32 := t3 / 2 + (t4 % 2) * 0x2000000, t4 / 2 + (t5 % 2) * 0x2000000,
        t5 / 2 + (t6 % 2) * 0x2000000;
    var r6: u32, r7: u32, r8: u32 := t6 / 2 + (t7 % 2) * 0x2000000, t7 / 2 + (t8 % 2) * 0x2000000,
        t8 / 2 + (t9 % 2) * 0x2000000;
    var r9: u32 := t9 / 2;
    MagnitudeOf(r0, r1, r2, r3, r4, r5, r6, r7, r8, r9, m / 2 + 1);
    HalvedLimbs(t0, t1, t2, t3, t4, t5, t6, t7, t8, t9, r0, r1, r2, r3, r4, r5, r6, r7, r8, r9);
    h := [r0, r1, r2, r3, r4, r5, r6, r7, r8, r9];
  }

  lemma MaskP(mask: nat)
    requires mask == 0 || mask == 0x3FFFFFF
    ensures And(0x3fffc2f, mask) == if mask == 0 then 0 else 0x3fffc2f
    ensures And(0x3ffffbf, mask) == if mask == 0 then 0 else 0x3ffffbf
  {
    Ones26();
    hide Pow2;
    if mask != 0 {
      AndFull(0x3fffc2f, 26);
      AndFull(0x3ffffbf, 26);
    }
  }

  lemma WithP(v0: int, v1: int, v2: int, v3: int, v4: int, v5: int, v6: int, v7: int, v8: int, v9: int)
    ensures Limbs(v0 + 0x3fffc2f, v1 + 0x3ffffbf, v2 + 0x3FFFFFF, v3 + 0x3FFFFFF, v4 + 0x3FFFFFF, v5 + 0x3FFFFFF,
        v6 + 0x3FFFFFF, v7 + 0x3FFFFFF, v8 + 0x3FFFFFF, v9 + 0x3FFFFF)
      == Limbs(v0, v1, v2, v3, v4, v5, v6, v7, v8, v9) + F.P
  {
  }

  lemma OddAdded(v: seq<int>, mask: int, t0: int, t1: int, t2: int, t3: int, t4: int, t5: int, t6: int, t7: int,
        t8: int, t9: int)
    requires |v| == 10 && (mask == if v[0] % 2 == 1 then 0x3FFFFFF else 0)
    requires t0 == v[0] + (if mask == 0 then 0 else 0x3fffc2f) && t1 == v[1] + (if mask == 0 then 0 else 0x3ffffbf)
    requires t2 == v[2] + mask && t3 == v[3] + mask && t4 == v[4] + mask && t5 == v[5] + mask && t6 == v[6] + mask
      && t7 == v[7] + mask && t8 == v[8] + mask && t9 == v[9] + mask / 0x10
    ensures Cong(Limbs(t0, t1, t2, t3, t4, t5, t6, t7, t8, t9), Value10(v), F.P) && t0 % 2 == 0
  {
    hide Limbs, Cong;
    ValueIs(v);
    if mask == 0 {
      CongRefl(Value10(v), F.P);
    } else {
      WithP(v[0], v[1], v[2], v[3], v[4], v[5], v[6], v[7], v[8], v[9]);
      CongBy(Limbs(t0, t1, t2, t3, t4, t5, t6, t7, t8, t9), Value10(v), F.P, 1);
      OddPlusOdd(v[0]);
    }
  }

  lemma OddPlusOdd(x: int)
    requires x % 2 == 1
    ensures (x + 0x3fffc2f) % 2 == 0
  {
  }

  lemma HalfLimb(v: int, m: nat, t: int, above: int)
    requires 0 <= v <= 0x3FFFFFF * (2 * m) && 0 <= t <= v + 0x3FFFFFF
    ensures 0 <= t / 2 + (above % 2) * 0x2000000 <= 0x3FFFFFF * (2 * (m / 2 + 1))
  {
  }

  lemma HalfTop(v: int, m: nat, t: int)
    requires 0 <= v <= 0x3FFFFF * (2 * m) && 0 <= t <= v + 0x3FFFFF
    ensures 0 <= t / 2 <= 0x3FFFFF * (2 * (m / 2 + 1))
  {
  }

  lemma HalvedLimbs(t0: int, t1: int, t2: int, t3: int, t4: int, t5: int, t6: int, t7: int, t8: int, t9: int, r0: int,
        r1: int, r2: int, r3: int, r4: int, r5: int, r6: int, r7: int, r8: int, r9: int)
    requires t0 % 2 == 0
    requires r0 == t0 / 2 + (t1 % 2) * 0x2000000
    requires r1 == t1 / 2 + (t2 % 2) * 0x2000000
    requires r2 == t2 / 2 + (t3 % 2) * 0x2000000
    requires r3 == t3 / 2 + (t4 % 2) * 0x2000000
    requires r4 == t4 / 2 + (t5 % 2) * 0x2000000
    requires r5 == t5 / 2 + (t6 % 2) * 0x2000000
    requires r6 == t6 / 2 + (t7 % 2) * 0x2000000
    requires r7 == t7 / 2 + (t8 % 2) * 0x2000000
    requires r8 == t8 / 2 + (t9 % 2) * 0x2000000
    requires r9 == t9 / 2
    ensures 2 * Value10([r0, r1, r2, r3, r4, r5, r6, r7, r8, r9]) == Limbs(t0, t1, t2, t3, t4, t5, t6, t7, t8, t9)
  {
  }

  // ----- sums and equality -----

  /** The sum, limb by limb, each cut to its 32-bit word. */
  function Sums(v: seq<int>, w: seq<int>): (s: seq<int>)
    requires |v| == |w| == 10
    ensures |s| == 10
  {
    [Cut(v[0] + w[0]), Cut(v[1] + w[1]), Cut(v[2] + w[2]), Cut(v[3] + w[3]), Cut(v[4] + w[4]), Cut(v[5] + w[5]),
        Cut(v[6] + w[6]), Cut(v[7] + w[7]), Cut(v[8] + w[8]), Cut(v[9] + w[9])]
  }

  /** What the words of a sum lose. */
  function SumsLost(v: seq<int>, w: seq<int>): nat
    requires |v| == |w| == 10
  {
    Limbs(Overflow(v[0] + w[0]), Overflow(v[1] + w[1]), Overflow(v[2] + w[2]), Overflow(v[3] + w[3]),
        Overflow(v[4] + w[4]), Overflow(v[5] + w[5]), Overflow(v[6] + w[6]), Overflow(v[7] + w[7]),
        Overflow(v[8] + w[8]), Overflow(v[9] + w[9]))
  }

  lemma WordSum(v: int, w: int)
    requires 0 <= v < 0x1_00000000 && 0 <= w < 0x1_00000000
    ensures 0 <= Cut(v + w) < 0x1_00000000 && Cut(v + w) + Overflow(v + w) == v + w
  {
  }

  lemma SumsValue(v: seq<int>, w: seq<int>)
    requires Words10(v) && Words10(w)
    ensures Words10(Sums(v, w))
    ensures Value10(Sums(v, w)) + SumsLost(v, w) == Value10(v) + Value10(w)
  {
    hide *;
    WordsAre(v);
    WordsAre(w);
    SumsAre(v, w);
    SumsLostIs(v, w);
    ValueIs(v);
    ValueIs(w);
    ValueIs(Sums(v, w));
    WordSum(v[0], w[0]);
    WordSum(v[1], w[1]);
    WordSum(v[2], w[2]);
    WordSum(v[3], w[3]);
    WordSum(v[4], w[4]);
    WordSum(v[5], w[5]);
    WordSum(v[6], w[6]);
    WordSum(v[7], w[7]);
    WordSum(v[8], w[8]);
    WordSum(v[9], w[9]);
    LimbSums(v[0], v[1], v[2], v[3], v[4], v[5], v[6], v[7], v[8], v[9],
      w[0], w[1], w[2], w[3], w[4], w[5], w[6], w[7], w[8], w[9],
      Cut(v[0] + w[0]), Cut(v[1] + w[1]), Cut(v[2] + w[2]), Cut(v[3] + w[3]), Cut(v[4] + w[4]), Cut(v[5] + w[5]),
          Cut(v[6] + w[6]), Cut(v[7] + w[7]), Cut(v[8] + w[8]), Cut(v[9] + w[9]),
      Overflow(v[0] + w[0]), Overflow(v[1] + w[1]), Overflow(v[2] + w[2]), Overflow(v[3] + w[3]), Overflow(v[4] + w[4]),
          Overflow(v[5] + w[5]), Overflow(v[6] + w[6]), Overflow(v[7] + w[7]), Overflow(v[8] + w[8]),
          Overflow(v[9] + w[9]));
    WordsOf(Sums(v, w));
  }

  lemma ValueIs(n: seq<int>)
    requires |n| == 10
    ensures Value10(n) == Limbs(n[0], n[1], n[2], n[3], n[4], n[5], n[6], n[7], n[8], n[9])
  {
  }

  lemma SumsLostIs(v: seq<int>, w: seq<int>)
    requires |v| == |w| == 10
    ensures SumsLost(v, w)
      == Limbs(Overflow(v[0] + w[0]), Overflow(v[1] + w[1]), Overflow(v[2] + w[2]), Overflow(v[3] + w[3]),
      Overflow(v[4] + w[4]), Overflow(v[5] + w[5]), Overflow(v[6] + w[6]), Overflow(v[7] + w[7]), Overflow(v[8] + w[8]),
      Overflow(v[9] + w[9]))
  {
  }

  lemma LimbSums(v0: int, v1: int, v2: int, v3: int, v4: int, v5: int, v6: int, v7: int, v8: int, v9: int,
      w0: int, w1: int, w2: int, w3: int, w4: int, w5: int, w6: int, w7: int, w8: int, w9: int,
      s0: int, s1: int, s2: int, s3: int, s4: int, s5: int, s6: int, s7: int, s8: int, s9: int,
      o0: int, o1: int, o2: int, o3: int, o4: int, o5: int, o6: int, o7: int, o8: int, o9: int)
    requires s0 + o0 == v0 + w0 && s1 + o1 == v1 + w1 && s2 + o2 == v2 + w2 && s3 + o3 == v3 + w3 && s4 + o4 == v4 + w4
      && s5 + o5 == v5 + w5 && s6 + o6 == v6 + w6 && s7 + o7 == v7 + w7 && s8 + o8 == v8 + w8 && s9 + o9 == v9 + w9
    ensures Limbs(s0, s1, s2, s3, s4, s5, s6, s7, s8, s9) + Limbs(o0, o1, o2, o3, o4, o5, o6, o7, o8, o9)
      == Limbs(v0, v1, v2, v3, v4, v5, v6, v7, v8, v9) + Limbs(w0, w1, w2, w3, w4, w5, w6, w7, w8, w9)
  {
  }

  /** Magnitudes that add up to at most 32 add without loss. */
  lemma SumsFit(v: seq<int>, w: seq<int>, m: nat, k: nat)
    requires Magnitude10(v, m) && Magnitude10(w, k) && m + k <= 32
    ensures Magnitude10(Sums(v, w), m + k) && SumsLost(v, w) == 0
  {
    hide *;
    MagnitudeIs(v, m);
    MagnitudeIs(w, k);
    SumsAre(v, w);
    SumsLostIs(v, w);
    FittingSum(v[0], w[0], m, k, 0x3FFFFFF);
    FittingSum(v[1], w[1], m, k, 0x3FFFFFF);
    FittingSum(v[2], w[2], m, k, 0x3FFFFFF);
    FittingSum(v[3], w[3], m, k, 0x3FFFFFF);
    FittingSum(v[4], w[4], m, k, 0x3FFFFFF);
    FittingSum(v[5], w[5], m, k, 0x3FFFFFF);
    FittingSum(v[6], w[6], m, k, 0x3FFFFFF);
    FittingSum(v[7], w[7], m, k, 0x3FFFFFF);
    FittingSum(v[8], w[8], m, k, 0x3FFFFFF);
    FittingSum(v[9], w[9], m, k, 0x3FFFFF);
    MagnitudeFrom(Sums(v, w), m + k);
    LimbsZero(0, 0, 0, 0, 0, 0, 0, 0, 0, 0);
  }

  lemma FittingSum(v: int, w: int, m: nat, k: nat, full: int)
    requires full == 0x3FFFFFF || full == 0x3FFFFF
    requires 0 <= v <= full * (2 * m) && 0 <= w <= full * (2 * k) && m + k <= 32
    ensures 0 <= v + w <= full * (2 * (m + k)) && Cut(v + w) == v + w && Overflow(v + w) == 0
  {
    assert full * (2 * (m + k)) == full * (2 * m) + full * (2 * k);
  }

  /** r += a. Nothing is lost while the magnitudes add up to at most 32. */
  method Add(r: array<int>, a: array<int>)
    requires Words10(r[..]) && Words10(a[..])
    modifies r
    ensures r[..] == Sums(old(r[..]), old(a[..])) && Words10(r[..])
    ensures Value10(r[..]) + SumsLost(old(r[..]), old(a[..])) == old(Value10(r[..])) + old(Value10(a[..]))
    ensures forall m: nat, k: nat :: m + k <= 32 && Magnitude10(old(r[..]), m) && Magnitude10(old(a[..]), k) ==>
      Magnitude10(r[..], m + k) && Value10(r[..]) == old(Value10(r[..])) + old(Value10(a[..]))
  {
    hide *;
    ghost var v, w := r[..], a[..];
    WordsAre(v);
    WordsAre(w);
    SumsAre(v, w);
    assert r[0] == v[0] && a[0] == w[0] && r[1] == v[1] && a[1] == w[1] && r[2] == v[2] && a[2] == w[2] && r[3] == v[3]
        && a[3] == w[3] && r[4] == v[4] && a[4] == w[4] && r[5] == v[5] && a[5] == w[5] && r[6] == v[6] && a[6] == w[6]
        && r[7] == v[7] && a[7] == w[7] && r[8] == v[8] && a[8] == w[8] && r[9] == v[9] && a[9] == w[9];
    SumsValue(v, w);
    forall m: nat, k: nat | m + k <= 32 && Magnitude10(v, m) && Magnitude10(w, k)
      ensures Magnitude10(Sums(v, w), m + k) && SumsLost(v, w) == 0
    {
      SumsFit(v, w, m, k);
    }
    var r0: u32, r1: u32, r2: u32, r3: u32, r4: u32 := Cut(r[0] + a[0]), Cut(r[1] + a[1]), Cut(r[2] + a[2]),
        Cut(r[3] + a[3]), Cut(r[4] + a[4]);
    var r5: u32, r6: u32, r7: u32, r8: u32, r9: u32 := Cut(r[5] + a[5]), Cut(r[6] + a[6]), Cut(r[7] + a[7]),
        Cut(r[8] + a[8]), Cut(r[9] + a[9]);
    r[0], r[1], r[2], r[3], r[4], r[5], r[6], r[7], r[8], r[9] := r0, r1, r2, r3, r4, r5, r6, r7, r8, r9;
    assert r[..] == [r0, r1, r2, r3, r4, r5, r6, r7, r8, r9];
  }

  lemma SumsAre(v: seq<int>, w: seq<int>)
    requires |v| == |w| == 10
    ensures Sums(v, w)[0] == Cut(v[0] + w[0]) && Sums(v, w)[1] == Cut(v[1] + w[1]) && Sums(v, w)[2] == Cut(v[2] + w[2])
      && Sums(v, w)[3] == Cut(v[3] + w[3]) && Sums(v, w)[4] == Cut(v[4] + w[4]) && Sums(v, w)[5] == Cut(v[5] + w[5])
      && Sums(v, w)[6] == Cut(v[6] + w[6]) && Sums(v, w)[7] == Cut(v[7] + w[7]) && Sums(v, w)[8] == Cut(v[8] + w[8])
      && Sums(v, w)[9] == Cut(v[9] + w[9])
  {
  }

  /** The words in which the difference of b and a is formed. */
  function Difference(a: seq<int>, b: seq<int>): (d: seq<int>)
    requires |a| == |b| == 10
    ensures |d| == 10
  {
    Sums(Negated(a, 1), b)
  }

  /** No word wraps in the sum or in the first pass over it. */
  predicate EqualFits(a: seq<int>, b: seq<int>)
    requires |a| == |b| == 10
  {
    && (forall i :: 0 <= i < 10 ==> Negated(a, 1)[i] + b[i] < 0x1_00000000)
    && NoWrap(Difference(a, b))
  }

  /** What the comparison loses to wrapping. */
  function EqualLost(a: seq<int>, b: seq<int>): nat
    requires |a| == |b| == 10
  {
    SumsLost(Negated(a, 1), b) + Lost(Difference(a, b))
  }

  lemma EqualLoss(a: seq<int>, b: seq<int>)
    requires Magnitude10(a, 1) && Magnitude10(b, 31)
    ensures EqualLost(a, b) < 0x4000000000000000000000000000000000000000000000000000000000000
    ensures EqualLost(a, b) == 0 <==> EqualFits(a, b)
  {
    var n := Negated(a, 1);
    TopSumFits(a, b);
    DifferenceIs(a, b);
    SumsLostZero(n, b);
    SumsLostBound(n, b);
    hide *;
  }

  /** The top words are far from wrapping. */
  lemma TopSumFits(a: seq<int>, b: seq<int>)
    requires Magnitude10(a, 1) && Magnitude10(b, 31)
    ensures Negated(a, 1)[9] + b[9] < 0x1_00000000
  {
    MagnitudeIs(a, 1);
    MagnitudeIs(b, 31);
    NegatedIs(a, 1);
    hide Magnitude10;
  }

  lemma SumsLostZero(v: seq<int>, w: seq<int>)
    requires |v| == |w| == 10
    ensures SumsLost(v, w) == 0 <==> forall i :: 0 <= i < 10 ==> v[i] + w[i] < 0x1_00000000
  {
    hide *;
    SumsLostIs(v, w);
    AllTenZero(Overflow(v[0] + w[0]), Overflow(v[1] + w[1]), Overflow(v[2] + w[2]), Overflow(v[3] + w[3]),
        Overflow(v[4] + w[4]), Overflow(v[5] + w[5]), Overflow(v[6] + w[6]), Overflow(v[7] + w[7]),
        Overflow(v[8] + w[8]), Overflow(v[9] + w[9]));
    NothingOver(v[0] + w[0]);
    NothingOver(v[1] + w[1]);
    NothingOver(v[2] + w[2]);
    NothingOver(v[3] + w[3]);
    NothingOver(v[4] + w[4]);
    NothingOver(v[5] + w[5]);
    NothingOver(v[6] + w[6]);
    NothingOver(v[7] + w[7]);
    NothingOver(v[8] + w[8]);
    NothingOver(v[9] + w[9]);
  }

  lemma SumsLostBound(v: seq<int>, w: seq<int>)
    requires |v| == |w| == 10 && v[9] + w[9] < 0x1_00000000
    ensures SumsLost(v, w) < 0x2000000000000000000000000000000000000000000000000000000000000
  {
    SumsLostIs(v, w);
    NineBound(Overflow(v[0] + w[0]), Overflow(v[1] + w[1]), Overflow(v[2] + w[2]), Overflow(v[3] + w[3]),
        Overflow(v[4] + w[4]), Overflow(v[5] + w[5]), Overflow(v[6] + w[6]), Overflow(v[7] + w[7]),
        Overflow(v[8] + w[8]));
    hide SumsLost, Nine;
  }

  lemma NineBound(o0: nat, o1: nat, o2: nat, o3: nat, o4: nat, o5: nat, o6: nat, o7: nat, o8: nat)
    requires o0 <= 0x1_00000000 && o1 <= 0x1_00000000 && o2 <= 0x1_00000000 && o3 <= 0x1_00000000 && o4 <= 0x1_00000000
      && o5 <= 0x1_00000000 && o6 <= 0x1_00000000 && o7 <= 0x1_00000000 && o8 <= 0x1_00000000
    ensures Nine(o0, o1, o2, o3, o4, o5, o6, o7, o8) < 0x2000000000000000000000000000000000000000000000000000000000000
  {
  }

  lemma AllTenZero(o0: nat, o1: nat, o2: nat, o3: nat, o4: nat, o5: nat, o6: nat, o7: nat, o8: nat, o9: nat)
    ensures Limbs(o0, o1, o2, o3, o4, o5, o6, o7, o8, o9) == 0
      <==> o0 == 0 && o1 == 0 && o2 == 0 && o3 == 0 && o4 == 0 && o5 == 0 && o6 == 0 && o7 == 0 && o8 == 0 && o9 == 0
  {
  }

  /** Equality of residues. Up to magnitude 30 of b the answer is always right; at 31 equal elements
      are recognised exactly when no word wraps. */
  method Equal(a: array<int>, b: array<int>) returns (same: bool)
    requires Magnitude10(a[..], 1) && Magnitude10(b[..], 31)
    ensures same <==> (Value10(b[..]) - Value10(a[..]) - EqualLost(a[..], b[..])) % F.P == 0
    ensures EqualFits(a[..], b[..]) || Magnitude10(b[..], 30) ==> (same <==> Cong(Value10(a[..]), Value10(b[..]), F.P))
    ensures Cong(Value10(a[..]), Value10(b[..]), F.P) ==> (same <==> EqualFits(a[..], b[..]))
  {
    hide *;
    ghost var v: seq<int>, w: seq<int> := a[..], b[..];
    MagnitudeIs(v, 1);
    MagnitudeIs(w, 31);
    var na := new int[10];
    NegateUnchecked(na, a, 1);
    MagnitudeFits(na[..], 2);
    MagnitudeFits(w, 31);
    DifferenceIs(v, w);
    Add(na, b);
    same := NormalizesToZero(na);
    ZeroIs(Value10(na[..]) - Lost(na[..]));
    ZeroIs(Value10(w) - Value10(v) - EqualLost(v, w));
    Decides(v, w, na[..], same);
  }

  predicate ZeroResidue(x: int) {
    x % F.P == 0
  }

  /** The answer of the zero test on the difference is the answer on equality, less what was lost. */
  lemma Decides(a: seq<int>, b: seq<int>, n: seq<int>, same: bool)
    requires Magnitude10(a, 1) && Magnitude10(b, 31) && n == Difference(a, b)
    requires same <==> ZeroResidue(Value10(n) - Lost(n))
    requires Value10(n) + SumsLost(Negated(a, 1), b) == Value10(Negated(a, 1)) + Value10(b)
    requires Cong(Value10(Negated(a, 1)), -Value10(a), F.P)
    ensures same <==> ZeroResidue(Value10(b) - Value10(a) - EqualLost(a, b))
    ensures EqualFits(a, b) || Magnitude10(b, 30) ==> (same <==> Cong(Value10(a), Value10(b), F.P))
    ensures Cong(Value10(a), Value10(b), F.P) ==> (same <==> EqualFits(a, b))
  {
    hide *;
    MagnitudeIs(a, 1);
    MagnitudeIs(b, 31);
    DifferenceIs(a, b);
    EqualLoss(a, b);
    var na, va, vb, lost := Value10(Negated(a, 1)), Value10(a), Value10(b), EqualLost(a, b);
    assert Value10(n) - Lost(n) == na + (vb - lost);
    Shifted(na, va, vb - lost);
    ZeroDifference(va, vb, lost);
    if Magnitude10(b, 30) && !EqualFits(a, b) {
      DifferenceWords(a, b, n);
      WrapShows(n);
      Shifted(na, va, vb);
    }
  }

  lemma ZeroIs(x: int)
    ensures ZeroResidue(x) <==> x % F.P == 0
  {
  }

  lemma Shifted(n: int, a: int, c: int)
    requires Cong(n, -a, F.P)
    ensures ZeroResidue(n + c) <==> ZeroResidue(c - a)
  {
    var q := CongGap(n, -a, F.P);
    CongBy(n + c, c - a, F.P, q);
  }

  lemma ZeroDifference(a: int, b: int, lost: nat)
    requires lost < 0x4000000000000000000000000000000000000000000000000000000000000
    ensures ZeroResidue(b - a) <==> Cong(a, b, F.P)
    ensures lost == 0 ==> ZeroResidue(b - lost - a) == ZeroResidue(b - a)
    ensures Cong(a, b, F.P) ==> (ZeroResidue(b - lost - a) <==> lost == 0)
    ensures b - lost - a == b - a - lost
  {
    if (b - a) % F.P == 0 {
      CongBy(b, a, F.P, (b - a) / F.P);
    }
    if Cong(a, b, F.P) {
      var q := CongGap(b, a, F.P);
      CongBy(b - a, 0, F.P, q);
      CongBy(b - a - lost, 0 - lost, F.P, q);
    }
  }

  lemma DifferenceIs(a: seq<int>, b: seq<int>)
    requires |a| == |b| == 10
    ensures Difference(a, b) == Sums(Negated(a, 1), b)
    ensures EqualLost(a, b) == SumsLost(Negated(a, 1), b) + Lost(Difference(a, b))
  {
  }

  lemma NegatedFits(v: seq<int>, m: nat)
    requires Magnitude10(v, m) && m <= 31
    ensures Magnitude10(Negated(v, m), m + 1)
    ensures Negated(v, m)[0] <= 0x3fffc2f * 2 * (m + 1) && Negated(v, m)[1] <= 0x3ffffbf * 2 * (m + 1)
  {
    hide *;
    MagnitudeIs(v, m);
    NegatedIs(v, m);
    MagnitudeFrom(Negated(v, m), m + 1);
  }

  lemma DifferenceWords(a: seq<int>, b: seq<int>, n: seq<int>)
    requires Magnitude10(a, 1) && Magnitude10(b, 30) && n == Difference(a, b)
    ensures Magnitude10(n, 32) && SumsLost(Negated(a, 1), b) == 0
    ensures n[0] <= 0xFFFFF080 && n[1] <= 0xFFFFFEC0 && n[8] >= 0x7FFFFFE
  {
    hide *;
    MagnitudeIs(a, 1);
    MagnitudeIs(b, 30);
    NegatedFits(a, 1);
    var v := Negated(a, 1);
    NegatedIs(a, 1);
    MagnitudeIs(v, 2);
    DifferenceIs(a, b);
    SumsFit(v, b, 2, 30);
    SumsAre(v, b);
    FittingSum(v[0], b[0], 2, 30, 0x3FFFFFF);
    FittingSum(v[1], b[1], 2, 30, 0x3FFFFFF);
    FittingSum(v[8], b[8], 2, 30, 0x3FFFFFF);
  }

  /** A word that wraps leaves a digit that neither 0 nor P has, so the answer does not change:
      neither the value nor what is left of it is a multiple of P. */
  lemma WrapShows(n: seq<int>)
    requires Magnitude10(n, 32) && n[0] <= 0xFFFFF080 && n[1] <= 0xFFFFFEC0 && n[8] >= 0x7FFFFFE && Lost(n) != 0
    ensures !ZeroResidue(Value10(n)) && !ZeroResidue(Value10(n) - Lost(n))
  {
    hide *;
    MagnitudeIs(n, 32);
    MagnitudeFits(n, 32);
    var x := n[9] / 0x400000;
    LostAtThirty(n, x);
    LowWords(n, x);
    TopDigit(n, x);
    var t0, t1, t2, t3, t4 := PassWord(n, x, 0) % 0x4000000, PassWord(n, x, 1) % 0x4000000,
        PassWord(n, x, 2) % 0x4000000, PassWord(n, x, 3) % 0x4000000, PassWord(n, x, 4) % 0x4000000;
    var t5, t6, t7, t8, t9 := PassWord(n, x, 5) % 0x4000000, PassWord(n, x, 6) % 0x4000000,
        PassWord(n, x, 7) % 0x4000000, PassWord(n, x, 8) % 0x4000000, n[9] % 0x400000 + PassWord(n, x, 8) / 0x4000000;
    PassDigitsOf(n, t0, t1, t2, t3, t4, t5, t6, t7, t8, t9);
    FirstPassValue(n, t0, t1, t2, t3, t4, t5, t6, t7, t8, t9);
    var low, high := Overflow(PassSum(n, x, 0)), if Overflow(PassSum(n, x, 1)) == 0 then 0 else 0x40;
    StrangeDigits(t0, t1, t2, t3, t4, t5, t6, t7, t8, t9, Value10(n), Lost(n), low, high);
  }

  /** At magnitude 32 only the two lowest words can lose anything. */
  lemma LostAtThirty(n: seq<int>, x: int)
    requires Magnitude10(n, 32) && x == n[9] / 0x400000
    ensures Lost(n) == Overflow(PassSum(n, x, 0)) + Overflow(PassSum(n, x, 1)) * 0x4000000
  {
    HighWordsFit(n, 2);
    HighWordsFit(n, 3);
    HighWordsFit(n, 4);
    HighWordsFit(n, 5);
    HighWordsFit(n, 6);
    HighWordsFit(n, 7);
    HighWordsFit(n, 8);
    hide PassSum, Magnitude10;
  }

  lemma LowWords(n: seq<int>, x: int)
    requires |n| == 10 && 0 <= x <= 63 && 0 <= n[0] <= 0xFFFFF080 && 0 <= n[1] <= 0xFFFFFEC0
    ensures Overflow(PassSum(n, x, 0)) == 0
      || (Overflow(PassSum(n, x, 0)) == 0x1_00000000 && PassWord(n, x, 0) % 0x4000000 <= 57583)
    ensures Overflow(PassSum(n, x, 1)) == 0
      || (Overflow(PassSum(n, x, 1)) == 0x1_00000000 && PassWord(n, x, 1) % 0x4000000 <= 3775)
  {
    hide *;
    PassStart(n, x);
    WrappedLittle(PassSum(n, x, 0), 57583);
    WrappedLittle(PassSum(n, x, 1), 3775);
    WrapTwice(n[1] + x * 0x40, PassWord(n, x, 0) / 0x4000000);
  }

  /** A sum that exceeds its word by little leaves that little in it. */
  lemma WrappedLittle(sum: int, little: nat)
    requires 0 <= sum <= 0x1_00000000 + little && little < 0x4000000
    ensures Overflow(sum) == 0 || (Overflow(sum) == 0x1_00000000 && (sum % 0x1_00000000) % 0x4000000 <= little)
  {
    if sum >= 0x1_00000000 {
      assert sum % 0x1_00000000 == sum - 0x1_00000000;
    }
  }

  lemma TopDigit(n: seq<int>, x: int)
    requires Magnitude10(n, 32) && n[8] >= 0x7FFFFFE && x == n[9] / 0x400000
    ensures PassWord(n, x, 8) / 0x4000000 >= 1
  {
    HighWordsFit(n, 8);
    PassStep(n, x, 8);
    hide PassSum, Magnitude10;
  }

  lemma StrangeDigits(t0: int, t1: int, t2: int, t3: int, t4: int, t5: int, t6: int, t7: int, t8: int, t9: int, v: int,
        lost: int, low: int, high: int)
    requires Carried(t0, t1, t2, t3, t4, t5, t6, t7, t8, t9) && t9 >= 1
      && Cong(Limbs(t0, t1, t2, t3, t4, t5, t6, t7, t8, t9), v - lost, F.P)
    requires lost == low + high * 0x10000000000000 && 0 <= high <= 0x40 && 0 < lost
    requires (low == 0x1_00000000 && t0 <= 57583) || (low == 0 && t1 <= 3775)
    ensures !ZeroResidue(v) && !ZeroResidue(v - lost)
  {
    hide *;
    ZeroIs(v);
    ZeroIs(v - lost);
    ResidueZero(t0, t1, t2, t3, t4, t5, t6, t7, t8, t9, v - lost);
    AtLeastP(t0, t1, t2, t3, t4, t5, t6, t7, t8, t9);
    CarriedIs(t0, t1, t2, t3, t4, t5, t6, t7, t8, t9);
    if ZeroResidue(v) {
      var w := Limbs(t0, t1, t2, t3, t4, t5, t6, t7, t8, t9);
      var k := ZeroLess(w, v, lost);
      LowLimbsOf(t0, t1, t2, t3, t4, t5, t6, t7, t8, t9);
      NoSuchLow(t0, t1, t2 + t3 * 0x4000000 + t4 * 0x10000000000000 + t5 * 0x40000000000000000000
          + t6 * 0x100000000000000000000000000 + t7 * 0x400000000000000000000000000000000
          + t8 * 0x1000000000000000000000000000000000000000 + t9 * 0x4000000000000000000000000000000000000000000000
          + high, low, k);
      assert false;
    }
  }

  lemma LowLimbsOf(t0: int, t1: int, t2: int, t3: int, t4: int, t5: int, t6: int, t7: int, t8: int, t9: int)
    ensures Limbs(t0, t1, t2, t3, t4, t5, t6, t7, t8, t9)
      == t0 + t1 * 0x4000000
      + (t2 + t3 * 0x4000000 + t4 * 0x10000000000000 + t5 * 0x40000000000000000000 + t6 * 0x100000000000000000000000000
      + t7 * 0x400000000000000000000000000000000 + t8 * 0x1000000000000000000000000000000000000000
      + t9 * 0x4000000000000000000000000000000000000000000000) * 0x10000000000000
  {
  }

  lemma ZeroLess(w: int, v: int, lost: int) returns (k: int)
    requires ZeroResidue(v) && Cong(w, v - lost, F.P) && 0 <= w < 2 * F.P && 0 < lost <= 0x50 * 0x10000000000000
    ensures w + lost == k * 0xfffffffffffffffffffffffffffffffffffffffffffffffffffffffefffffc2f && (k == 1 || k == 2)
  {
    var q := CongGap(w, v - lost, F.P);
    k := v / F.P + q;
    assert w + lost == k * F.P;
    hide Cong, ZeroResidue;
  }

  /** A multiple of P less what was lost does not have such low digits. */
  lemma NoSuchLow(t0: int, t1: int, rest: int, low: int, k: int)
    requires 0 <= t0 <= 0x3FFFFFF && 0 <= t1 <= 0x3FFFFFF && (k == 1 || k == 2) && (low == 0 || low == 0x1_00000000)
    requires t0 + t1 * 0x4000000 + low + rest * 0x10000000000000
      == k * 0xfffffffffffffffffffffffffffffffffffffffffffffffffffffffefffffc2f
    ensures low == 0x1_00000000 ==> t0 > 57583
    ensures low == 0 ==> t1 > 3775
  {
    var kLow, kHigh := if k == 1 then 0xffffefffffc2f else 0xffffdfffff85e,
        if k == 1 then 0xfffffffffffffffffffffffffffffffffffffffffffffffffff
        else 0x1fffffffffffffffffffffffffffffffffffffffffffffffffff;
    SameLow(t0 + t1 * 0x4000000 + low, rest, kLow, kHigh);
  }

  lemma SameLow(x: int, rest: int, kLow: int, kHigh: int)
    requires 0 <= x < 0x20000000000000 && 0 <= kLow < 0x10000000000000
    requires x + rest * 0x10000000000000 == kLow + kHigh * 0x10000000000000
    ensures x == kLow || x == kLow + 0x10000000000000
  {
  }

  /** Equal elements that the comparison calls different: the largest limbs of magnitude 31, and
      the limbs of their residue. */
  lemma EqualMissed()
    ensures var a := [0xEC60, 0xF80, 0, 0, 0, 0, 0, 0, 0, 0];
      var b := [0xf7ffffc2, 0xf7ffffc2, 0xf7ffffc2, 0xf7ffffc2, 0xf7ffffc2, 0xf7ffffc2, 0xf7ffffc2, 0xf7ffffc2,
          0xf7ffffc2, 0xf7fffc2];
      Magnitude10(a, 1) && Magnitude10(b, 31) && Cong(Value10(a), Value10(b), F.P) && !EqualFits(a, b)
  {
    var a := [0xEC60, 0xF80, 0, 0, 0, 0, 0, 0, 0, 0];
    var b := [0xf7ffffc2, 0xf7ffffc2, 0xf7ffffc2, 0xf7ffffc2, 0xf7ffffc2, 0xf7ffffc2, 0xf7ffffc2, 0xf7ffffc2,
        0xf7ffffc2, 0xf7fffc2];
    CongBy(Value10(a), Value10(b), F.P, -62);
    assert Negated(a, 1)[2] + b[2] == 0x107ffffbe;
  }

  /** Different elements that the comparison calls equal: everything but the words' overflow is zero. */
  lemma EqualConfused()
    ensures var a := [0, 0, 0, 0, 0, 0, 0, 0, 0, 0];
      var b := [0xF0000000, 0xF0000004, 0xF0000004, 0xF0000004, 0xF0000004, 0xF0000004, 0xF0000004, 0xF0000004,
          0xF0000004, 4];
      && Magnitude10(a, 1) && Magnitude10(b, 31) && !Cong(Value10(a), Value10(b), F.P)
      && (Value10(b) - Value10(a) - EqualLost(a, b)) % F.P == 0
  {
    var a := [0, 0, 0, 0, 0, 0, 0, 0, 0, 0];
    var b := [0xF0000000, 0xF0000004, 0xF0000004, 0xF0000004, 0xF0000004, 0xF0000004, 0xF0000004, 0xF0000004,
        0xF0000004, 4];
    hide *;
    ConfusedMagnitudes(a, b);
    ConfusedWords(a, b);
    ConfusedPass(Difference(a, b));
    ConfusedValues(b);
    DifferenceIs(a, b);
    ConfusedResidues(Value10(a), Value10(b), EqualLost(a, b));
  }

  lemma ConfusedMagnitudes(a: seq<int>, b: seq<int>)
    requires a == [0, 0, 0, 0, 0, 0, 0, 0, 0, 0] && b
      == [0xF0000000, 0xF0000004, 0xF0000004, 0xF0000004, 0xF0000004, 0xF0000004, 0xF0000004, 0xF0000004, 0xF0000004, 4]
    ensures Magnitude10(a, 1) && Magnitude10(b, 31)
  {
  }

  lemma ConfusedResidues(va: int, vb: int, lost: int)
    requires va == 0 && vb == lost == 0x1000000400000100000040000010000004000001000000400000100000000
    ensures !Cong(va, vb, F.P) && (vb - va - lost) % F.P == 0
  {
  }

  lemma ConfusedWords(a: seq<int>, b: seq<int>)
    requires a == [0, 0, 0, 0, 0, 0, 0, 0, 0, 0] && b
      == [0xF0000000, 0xF0000004, 0xF0000004, 0xF0000004, 0xF0000004, 0xF0000004, 0xF0000004, 0xF0000004, 0xF0000004, 4]
    ensures Difference(a, b) == [0xFFFFF0BC, 0xFFFFFF00, 0, 0, 0, 0, 0, 0, 0, 0x1000000]
    ensures SumsLost(Negated(a, 1), b) == 0x1000000400000100000040000010000004000001000000000000000000000
      && Value10(a) == 0
  {
  }

  lemma ConfusedValues(b: seq<int>)
    requires b == [0xF0000000, 0xF0000004, 0xF0000004, 0xF0000004, 0xF0000004, 0xF0000004, 0xF0000004, 0xF0000004,
      0xF0000004, 4]
    ensures Value10(b) == 0x1000000400000100000040000010000004000001000000400000100000000
  {
  }

  lemma ConfusedPass(n: seq<int>)
    requires n == [0xFFFFF0BC, 0xFFFFFF00, 0, 0, 0, 0, 0, 0, 0, 0x1000000]
    ensures Lost(n) == 0x400000100000000
  {
    var x := 4;
    assert n[9] / 0x400000 == x;
    assert PassSum(n, x, 0) == 0x1_00000000 && PassWord(n, x, 0) == 0;
    assert PassSum(n, x, 1) == 0x1_00000000 && PassWord(n, x, 1) == 0;
    assert PassSum(n, x, 2) == 0 && PassWord(n, x, 2) == 0;
    assert PassSum(n, x, 3) == 0 && PassWord(n, x, 3) == 0;
    assert PassSum(n, x, 4) == 0 && PassWord(n, x, 4) == 0;
    assert PassSum(n, x, 5) == 0 && PassWord(n, x, 5) == 0;
    assert PassSum(n, x, 6) == 0 && PassWord(n, x, 6) == 0;
    assert PassSum(n, x, 7) == 0 && PassWord(n, x, 7) == 0;
    assert PassSum(n, x, 8) == 0 && PassWord(n, x, 8) == 0;
  }
}
