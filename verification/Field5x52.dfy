/** Normalisation, negation and halving of field elements on five 52-bit limbs. */
module Field5x52 {
  import opened Arith
  import opened BitLogic
  import opened Field5x52Mul
  import opened Words

  /** The limbs are at most 2*m times their full width. */
  predicate Magnitude(n: seq<int>, m: nat) {
    && |n| == 5
    && (forall i :: 0 <= i < 4 ==> 0 <= n[i] <= 0xFFFFFFFFFFFFF * 2 * m)
    && 0 <= n[4] <= 0xFFFFFFFFFFFF * 2 * m
  }

  /** The limbs of a number in [0, P). */
  predicate Normal(n: seq<int>) {
    && |n| == 5
    && (forall i :: 0 <= i < 4 ==> 0 <= n[i] <= 0xFFFFFFFFFFFFF)
    && 0 <= n[4] <= 0xFFFFFFFFFFFF
    && Value(n) < P
  }

  /** A residue has only one normal form. */
  lemma NormalUnique(x: seq<int>, y: seq<int>)
    requires Normal(x) && Normal(y) && Value(x) % P == Value(y) % P
    ensures x == y
  {
    DivIs(Value(x), P, 0, Value(x));
    DivIs(Value(y), P, 0, Value(y));
    LimbsUnique(x[0], x[1], x[2], x[3], x[4], y[0], y[1], y[2], y[3], y[4]);
  }

  lemma LimbsUnique(x0: int, x1: int, x2: int, x3: int, x4: int, y0: int, y1: int, y2: int, y3: int, y4: int)
    requires 0 <= x0 < 0x10000000000000 && 0 <= x1 < 0x10000000000000 && 0 <= x2 < 0x10000000000000
      && 0 <= x3 < 0x10000000000000
    requires 0 <= y0 < 0x10000000000000 && 0 <= y1 < 0x10000000000000 && 0 <= y2 < 0x10000000000000
      && 0 <= y3 < 0x10000000000000
    requires Limbs(x0, x1, x2, x3, x4) == Limbs(y0, y1, y2, y3, y4)
    ensures x0 == y0 && x1 == y1 && x2 == y2 && x3 == y3 && x4 == y4
  {
    var u, v := x3 + x4 * 0x10000000000000, y3 + y4 * 0x10000000000000;
    var s, t := x2 + u * 0x10000000000000, y2 + v * 0x10000000000000;
    LowLimbUnique(x0, x1 + s * 0x10000000000000, y0, y1 + t * 0x10000000000000);
    LowLimbUnique(x1, s, y1, t);
    LowLimbUnique(x2, u, y2, v);
    LowLimbUnique(x3, x4, y3, y4);
  }

  /** The lowest limb and the rest are determined by the whole. */
  lemma LowLimbUnique(a: int, x: int, b: int, y: int)
    requires 0 <= a < 0x10000000000000 && 0 <= b < 0x10000000000000
    requires a + x * 0x10000000000000 == b + y * 0x10000000000000
    ensures a == b && x == y
  {
  }

  /** Adds x*C to the limbs and carries upwards; the top limb keeps what does not fit. */
  method CarryPass(s0: u64, s1: u64, s2: u64, s3: u64, s4: u64, x: u64)
      returns (t0: u64, t1: u64, t2: u64, t3: u64, t4: u64)
    requires s0 < 0x800000000000000 && s1 < 0x800000000000000 && s2 < 0x800000000000000 && s3 < 0x800000000000000
    requires s4 < 0x2000000000000 && x < 0x80
    ensures t0 <= 0xFFFFFFFFFFFFF && t1 <= 0xFFFFFFFFFFFFF && t2 <= 0xFFFFFFFFFFFFF && t3 <= 0xFFFFFFFFFFFFF
      && t4 <= s4 + 0x80
    ensures Limbs(t0, t1, t2, t3, t4)
         == Limbs(s0, s1, s2, s3, s4) + x * 0x1000003D1
  {
    t0, t1, t2, t3, t4 := s0, s1, s2, s3, s4;
    t0 := t0 + x * 0x1000003D1;
    t1 := t1 + t0 / 0x10000000000000; t0 := t0 % 0x10000000000000;
    t2 := t2 + t1 / 0x10000000000000; t1 := t1 % 0x10000000000000;
    t3 := t3 + t2 / 0x10000000000000; t2 := t2 % 0x10000000000000;
    t4 := t4 + t3 / 0x10000000000000; t3 := t3 % 0x10000000000000;
  }

  /** Limbs after one carry pass: 52 bits each and a top limb with at most a small carry. */
  predicate Carried(t0: int, t1: int, t2: int, t3: int, t4: int) {
    && 0 <= t0 <= 0xFFFFFFFFFFFFF && 0 <= t1 <= 0xFFFFFFFFFFFFF && 0 <= t2 <= 0xFFFFFFFFFFFFF
      && 0 <= t3 <= 0xFFFFFFFFFFFFF
    && 0 <= t4 <= 0x100000000007F
  }

  /** The first pass of every normalisation: the part above 2^256 is folded in, which keeps
      the residue and leaves limbs of magnitude 1 below 2*P. */
  method FirstPass(n: array<int>) returns (t0: u64, t1: u64, t2: u64, t3: u64, t4: u64)
    requires Magnitude(n[..], 33)
    ensures Carried(t0, t1, t2, t3, t4)
    ensures Cong(Limbs(t0, t1, t2, t3, t4), Value(n[..]), P)
  {
    hide Cong;
    var v := n[..];
    assert n[0] == v[0] && n[1] == v[1] && n[2] == v[2] && n[3] == v[3] && n[4] == v[4];
    t0, t1, t2, t3, t4 := n[0], n[1], n[2], n[3], n[4];
    var x := t4 / 0x1000000000000;
    t4 := t4 % 0x1000000000000;
    t0, t1, t2, t3, t4 := CarryPass(t0, t1, t2, t3, t4, x);
    CongBy(Limbs(t0, t1, t2, t3, t4), Value(v), P, -x);
  }

  /** What the comparison with P after the first pass decides. */
  lemma AtLeastP(t0: nat, t1: nat, t2: nat, t3: nat, t4: nat)
    requires Carried(t0, t1, t2, t3, t4)
    ensures 0 <= Limbs(t0, t1, t2, t3, t4) < 2 * P
    ensures t4 / 0x1000000000000 <= 1
    ensures Limbs(t0, t1, t2, t3, t4) >= P <==>
      t4 / 0x1000000000000 == 1
          || (t4 == 0xFFFFFFFFFFFF && And(And(t1, t2), t3) == 0xFFFFFFFFFFFFF && t0 >= 0xFFFFEFFFFFC2F)
  {
    Ones52();
    AndOnes(t1, t2, 52);
    AndOnes(And(t1, t2), t3, 52);
    hide And, Pow2;
    assert t4 / 0x1000000000000 == 1 <==> t4 >= 0x1000000000000;
  }

  lemma Ones52()
    ensures Pow2(52) == 0x10000000000000
  {
    Pow2Values();
    hide *;
    Pow2Succ(8);
    Pow2Succ(9);
    Pow2Succ(10);
    Pow2Succ(11);
    Pow2Succ(12);
    Pow2Twice(13, 0x2000);
    Pow2Twice(26, 0x4000000);
  }

  /** One if the limbs still hold P or more, computed by comparing limbs. */
  method ReductionNeeded(t0: u64, t1: u64, t2: u64, t3: u64, t4: u64) returns (x: u64)
    requires Carried(t0, t1, t2, t3, t4)
    ensures x == if Limbs(t0, t1, t2, t3, t4) >= P then 1 else 0
  {
    AtLeastP(t0, t1, t2, t3, t4);
    hide And, Limbs;
    var m := t1;
    m := And(m, t2);
    m := And(m, t3);
    x := if t4 / 0x1000000000000 == 1 || (t4 == 0xFFFFFFFFFFFF && m == 0xFFFFFFFFFFFFF && t0 >= 0xFFFFEFFFFFC2F) then 1
        else 0;
  }

  /** The second pass takes P off exactly when it was there; the bit above 2^256 is set exactly then. */
  method LastPass(s0: u64, s1: u64, s2: u64, s3: u64, s4: u64, x: u64)
      returns (t0: u64, t1: u64, t2: u64, t3: u64, t4: u64)
    requires Carried(s0, s1, s2, s3, s4)
    requires x == if Limbs(s0, s1, s2, s3, s4) >= P then 1 else 0
    ensures Normal([t0, t1, t2, t3, t4])
    ensures Limbs(t0, t1, t2, t3, t4) == Limbs(s0, s1, s2, s3, s4) - x * P
  {
    t0, t1, t2, t3, t4 := CarryPass(s0, s1, s2, s3, s4, x);
    assert t4 / 0x1000000000000 == x;
    t4 := t4 % 0x1000000000000;
  }

  /** Reduces r to the unique limbs of its residue, in constant time: the final pass always runs. */
  method Normalize(r: array<int>)
    requires Magnitude(r[..], 32)
    modifies r
    ensures Normal(r[..])
    ensures Value(r[..]) % P == old(Value(r[..])) % P
  {
    ghost var v := Value(r[..]);
    var t0, t1, t2, t3, t4 := FirstPass(r);
    ghost var w := Limbs(t0, t1, t2, t3, t4);
    var x := ReductionNeeded(t0, t1, t2, t3, t4);
    t0, t1, t2, t3, t4 := LastPass(t0, t1, t2, t3, t4, x);
    StoredNormal(t0, t1, t2, t3, t4, w, x, v);
    r[0], r[1], r[2], r[3], r[4] := t0, t1, t2, t3, t4;
    assert r[..] == [t0, t1, t2, t3, t4];
  }

  lemma StoredNormal(t0: int, t1: int, t2: int, t3: int, t4: int, w: int, x: int, v: int)
    requires Limbs(t0, t1, t2, t3, t4) == w - x * P && Cong(w, v, P)
    ensures Value([t0, t1, t2, t3, t4]) == Limbs(t0, t1, t2, t3, t4)
    ensures Value([t0, t1, t2, t3, t4]) % P == v % P
  {
    hide Cong;
    CongBy(w - x * P, w, P, -x);
    assert Value([t0, t1, t2, t3, t4]) == w - x * P;
    CongTrans(w - x * P, w, v, P);
  }

  /** Like Normalize, but the final pass runs only when it is needed. */
  method NormalizeVar(r: array<int>)
    requires Magnitude(r[..], 32)
    modifies r
    ensures Normal(r[..])
    ensures Value(r[..]) % P == old(Value(r[..])) % P
  {
    ghost var v := Value(r[..]);
    var t0, t1, t2, t3, t4 := FirstPass(r);
    ghost var w := Limbs(t0, t1, t2, t3, t4);
    var x := ReductionNeeded(t0, t1, t2, t3, t4);
    if x != 0 {
      t0, t1, t2, t3, t4 := LastPass(t0, t1, t2, t3, t4, 1);
    } else {
      AtLeastP(t0, t1, t2, t3, t4);
      BelowPNormal(t0, t1, t2, t3, t4);
    }
    StoredNormal(t0, t1, t2, t3, t4, w, x, v);
    r[0], r[1], r[2], r[3], r[4] := t0, t1, t2, t3, t4;
    assert r[..] == [t0, t1, t2, t3, t4];
  }

  lemma BelowPNormal(t0: int, t1: int, t2: int, t3: int, t4: int)
    requires Carried(t0, t1, t2, t3, t4) && Limbs(t0, t1, t2, t3, t4) < P
    ensures Normal([t0, t1, t2, t3, t4])
  {
  }

  /** Keeps the residue and brings the limbs down to magnitude 1. */
  method NormalizeWeak(r: array<int>)
    requires Magnitude(r[..], 32)
    modifies r
    ensures Magnitude(r[..], 1)
    ensures Value(r[..]) % P == old(Value(r[..])) % P
  {
    hide Limbs, Cong, Value;
    ghost var v := Value(r[..]);
    var t0, t1, t2, t3, t4 := FirstPass(r);
    StoredNormal(t0, t1, t2, t3, t4, Limbs(t0, t1, t2, t3, t4), 0, v);
    r[0], r[1], r[2], r[3], r[4] := t0, t1, t2, t3, t4;
    assert r[..] == [t0, t1, t2, t3, t4];
  }

  /** The two normalisations cannot be told apart by their results. */
  lemma NormalizationsAgree(x: seq<int>, fixed: seq<int>, variable: seq<int>)
    requires |x| == 5 && Normal(fixed) && Normal(variable)
    requires Value(fixed) % P == Value(x) % P && Value(variable) % P == Value(x) % P
    ensures fixed == variable
  {
    NormalUnique(fixed, variable);
  }

  // ----- zero tests -----

  /** Below 2*P only 0 and P have residue 0, and both masks recognise their number. */
  lemma ZeroMasks(t0: nat, t1: nat, t2: nat, t3: nat, t4: nat, v: int)
    requires Carried(t0, t1, t2, t3, t4) && Cong(Limbs(t0, t1, t2, t3, t4), v, P)
    ensures v % P == 0 <==>
      || Or(Or(Or(Or(t0, t1), t2), t3), t4) == 0
      || And(And(And(And(Xor(t0, 0x1000003D0), t1), t2), t3), Xor(t4, 0xF000000000000)) == 0xFFFFFFFFFFFFF
    ensures v % P == 0 ==> t0 == 0 || Xor(t0, 0x1000003D0) == 0xFFFFFFFFFFFFF
  {
    OrZero(t0, t1);
    OrZero(Or(t0, t1), t2);
    OrZero(Or(Or(t0, t1), t2), t3);
    OrZero(Or(Or(Or(t0, t1), t2), t3), t4);
    MaskOnes(t0, t1, t2, t3, t4);
    ResidueZero(t0, t1, t2, t3, t4, v);
  }

  lemma MaskOnes(t0: nat, t1: nat, t2: nat, t3: nat, t4: nat)
    requires Carried(t0, t1, t2, t3, t4)
    ensures Xor(t0, 0x1000003D0) == 0xFFFFFFFFFFFFF <==> t0 == 0xFFFFEFFFFFC2F
    ensures And(And(And(And(Xor(t0, 0x1000003D0), t1), t2), t3), Xor(t4, 0xF000000000000)) == 0xFFFFFFFFFFFFF
      <==> t0 == 0xFFFFEFFFFFC2F && t1 == 0xFFFFFFFFFFFFF && t2 == 0xFFFFFFFFFFFFF && t3 == 0xFFFFFFFFFFFFF
           && t4 == 0xFFFFFFFFFFFF
  {
    Ones52();
    hide *;
    CarriedIs(t0, t1, t2, t3, t4);
    XorOnes(t0, 0x1000003D0, 52);
    XorOnes(t4, 0xF000000000000, 52);
    var y := Xor(t0, 0x1000003D0);
    var z := Xor(t4, 0xF000000000000);
    AndOnes(y, t1, 52);
    AndOnes(And(y, t1), t2, 52);
    AndOnes(And(And(y, t1), t2), t3, 52);
    AndOnes(And(And(And(y, t1), t2), t3), z, 52);
  }

  lemma CarriedIs(t0: int, t1: int, t2: int, t3: int, t4: int)
    requires Carried(t0, t1, t2, t3, t4)
    ensures 0 <= t0 <= 0xFFFFFFFFFFFFF && 0 <= t1 <= 0xFFFFFFFFFFFFF && 0 <= t2 <= 0xFFFFFFFFFFFFF
      && 0 <= t3 <= 0xFFFFFFFFFFFFF
    ensures 0 <= t4 <= 0x100000000007F
  {
  }

  lemma ResidueZero(t0: int, t1: int, t2: int, t3: int, t4: int, v: int)
    requires Carried(t0, t1, t2, t3, t4) && Cong(Limbs(t0, t1, t2, t3, t4), v, P)
    ensures v % P == 0 <==>
      || (t0 == 0 && t1 == 0 && t2 == 0 && t3 == 0 && t4 == 0)
      || (t0 == 0xFFFFEFFFFFC2F && t1 == 0xFFFFFFFFFFFFF && t2 == 0xFFFFFFFFFFFFF && t3 == 0xFFFFFFFFFFFFF
        && t4 == 0xFFFFFFFFFFFF)
  {
    var w := Limbs(t0, t1, t2, t3, t4);
    BelowTwoP(t0, t1, t2, t3, t4);
    var q := if w >= P then 1 else 0;
    DivIs(w, P, q, w - q * P);
    assert v % P == 0 <==> w == 0 || w == P;
    if w == P {
      LimbsUnique(t0, t1, t2, t3, t4, 0xFFFFEFFFFFC2F, 0xFFFFFFFFFFFFF, 0xFFFFFFFFFFFFF, 0xFFFFFFFFFFFFF,
          0xFFFFFFFFFFFF);
    }
  }

  lemma BelowTwoP(t0: int, t1: int, t2: int, t3: int, t4: int)
    requires Carried(t0, t1, t2, t3, t4)
    ensures 0 <= Limbs(t0, t1, t2, t3, t4) < 2 * P
  {
  }

  /** Whether the residue is zero, without normalising. One unit of magnitude more than the
      documented bound is handled, which is what Equal needs. */
  method NormalizesToZero(r: array<int>) returns (zero: bool)
    requires Magnitude(r[..], 33)
    ensures zero <==> Value(r[..]) % P == 0
  {
    hide And, Or, Xor, Cong;
    var t0, t1, t2, t3, t4 := FirstPass(r);
    ZeroMasks(t0, t1, t2, t3, t4, Value(r[..]));
    var z0, z1 := t0, Xor(t0, 0x1000003D0);
    z0 := Or(z0, t1);
    z1 := And(z1, t1);
    z0 := Or(z0, t2);
    z1 := And(z1, t2);
    z0 := Or(z0, t3);
    z1 := And(z1, t3);
    z0 := Or(z0, t4);
    z1 := And(z1, Xor(t4, 0xF000000000000));
    zero := z0 == 0 || z1 == 0xFFFFFFFFFFFFF;
  }

  /** The same test, giving up as soon as the lowest limb rules out both 0 and P. */
  method NormalizesToZeroVar(r: array<int>) returns (zero: bool)
    requires Magnitude(r[..], 33)
    ensures zero <==> Value(r[..]) % P == 0
  {
    hide *;
    ghost var v := r[..];
    MagnitudeIs(v, 33);
    assert r[0] == v[0] && r[1] == v[1] && r[2] == v[2] && r[3] == v[3] && r[4] == v[4];
    var t0: u64, t4: u64 := r[0], r[4];
    var x: u64 := t4 / 0x1000000000000;
    t0 := t0 + x * 0x1000003D1;
    var z0 := t0 % 0x10000000000000;
    var z1 := Xor(z0, 0x1000003D0);
    if z0 != 0 && z1 != 0xFFFFFFFFFFFFF {
      LowLimb(v);
      return false;
    }
    var t1: u64, t2: u64, t3: u64 := r[1], r[2], r[3];
    t4 := t4 % 0x1000000000000;
    ghost var e0, c1, top: int := z0, t0 / 0x10000000000000, t4;
    t1 := t1 + t0 / 0x10000000000000;
    ghost var c2 := t1 / 0x10000000000000;
    t2 := t2 + t1 / 0x10000000000000; t1 := t1 % 0x10000000000000;
    z0 := Or(z0, t1);
    z1 := And(z1, t1);
    ghost var c3 := t2 / 0x10000000000000;
    t3 := t3 + t2 / 0x10000000000000; t2 := t2 % 0x10000000000000;
    z0 := Or(z0, t2);
    z1 := And(z1, t2);
    ghost var c4 := t3 / 0x10000000000000;
    t4 := t4 + t3 / 0x10000000000000; t3 := t3 % 0x10000000000000;
    z0 := Or(z0, t3);
    z1 := And(z1, t3);
    z0 := Or(z0, t4);
    z1 := And(z1, Xor(t4, 0xF000000000000));
    CarryChain(v, x, top, c1, c2, c3, c4, e0, t1, t2, t3, t4);
    ZeroMasks(e0, t1, t2, t3, t4, Value(v));
    zero := z0 == 0 || z1 == 0xFFFFFFFFFFFFF;
  }

  /** The carries of one pass, one equation for each limb. */
  lemma CarryChain(v: seq<int>, x: int, top: int, c1: int, c2: int, c3: int, c4: int, t0: int, t1: int, t2: int,
        t3: int, t4: int)
    requires Magnitude(v, 33) && v[4] == x * 0x1000000000000 + top && 0 <= top < 0x1000000000000
    requires v[0] + x * 0x1000003D1 == c1 * 0x10000000000000 + t0 && 0 <= t0 < 0x10000000000000
    requires v[1] + c1 == c2 * 0x10000000000000 + t1 && 0 <= t1 < 0x10000000000000
    requires v[2] + c2 == c3 * 0x10000000000000 + t2 && 0 <= t2 < 0x10000000000000
    requires v[3] + c3 == c4 * 0x10000000000000 + t3 && 0 <= t3 < 0x10000000000000
    requires t4 == top + c4
    ensures Carried(t0, t1, t2, t3, t4)
    ensures Cong(Limbs(t0, t1, t2, t3, t4), Value(v), P)
  {
    hide Cong;
    CongBy(Limbs(t0, t1, t2, t3, t4), Value(v), P, -x);
  }

  /** The lowest limb alone rules out residue 0 unless it is that of 0 or of P. */
  lemma LowLimb(v: seq<int>)
    requires Magnitude(v, 33)
    ensures var t := (v[0] + (v[4] / 0x1000000000000) * 0x1000003D1) % 0x10000000000000;
      Value(v) % P == 0 ==> t == 0 || Xor(t, 0x1000003D0) == 0xFFFFFFFFFFFFF
  {
    hide *;
    MagnitudeIs(v, 33);
    var x := v[4] / 0x1000000000000;
    var c1 := (v[0] + x * 0x1000003D1) / 0x10000000000000;
    var c2 := (v[1] + c1) / 0x10000000000000;
    var c3 := (v[2] + c2) / 0x10000000000000;
    var c4 := (v[3] + c3) / 0x10000000000000;
    var t0, t1, t2, t3 := (v[0] + x * 0x1000003D1) % 0x10000000000000, (v[1] + c1) % 0x10000000000000,
        (v[2] + c2) % 0x10000000000000, (v[3] + c3) % 0x10000000000000;
    var t4 := v[4] % 0x1000000000000 + c4;
    CarryChain(v, x, v[4] % 0x1000000000000, c1, c2, c3, c4, t0, t1, t2, t3, t4);
    ZeroMasks(t0, t1, t2, t3, t4, Value(v));
  }

  lemma MagnitudeIs(v: seq<int>, m: nat)
    requires Magnitude(v, m)
    ensures |v| == 5
    ensures 0 <= v[0] <= 0xFFFFFFFFFFFFF * (2 * m) && 0 <= v[1] <= 0xFFFFFFFFFFFFF * (2 * m)
      && 0 <= v[2] <= 0xFFFFFFFFFFFFF * (2 * m)
    ensures 0 <= v[3] <= 0xFFFFFFFFFFFFF * (2 * m) && 0 <= v[4] <= 0xFFFFFFFFFFFF * (2 * m)
  {
  }

  lemma MagnitudeOf(v0: int, v1: int, v2: int, v3: int, v4: int, m: nat)
    requires 0 <= v0 <= 0xFFFFFFFFFFFFF * (2 * m) && 0 <= v1 <= 0xFFFFFFFFFFFFF * (2 * m)
      && 0 <= v2 <= 0xFFFFFFFFFFFFF * (2 * m)
    requires 0 <= v3 <= 0xFFFFFFFFFFFFF * (2 * m) && 0 <= v4 <= 0xFFFFFFFFFFFF * (2 * m)
    ensures Magnitude([v0, v1, v2, v3, v4], m)
  {
  }

  // ----- negation, halving, sums -----

  /** r = -a for a of magnitude at most m; no limb underflows. r may be a. */
  method NegateUnchecked(r: array<int>, a: array<int>, m: nat)
    requires r.Length == a.Length == 5 && m <= 31 && Magnitude(a[..], m)
    modifies r
    ensures Magnitude(r[..], m + 1)
    ensures Cong(Value(r[..]), -old(Value(a[..])), P)
  {
    hide *;
    ghost var v := a[..];
    MagnitudeIs(v, m);
    assert a[0] == v[0] && a[1] == v[1] && a[2] == v[2] && a[3] == v[3] && a[4] == v[4];
    var r0: u64 := 0xFFFFEFFFFFC2F * 2 * (m + 1) - a[0];
    var r1: u64 := 0xFFFFFFFFFFFFF * 2 * (m + 1) - a[1];
    var r2: u64 := 0xFFFFFFFFFFFFF * 2 * (m + 1) - a[2];
    var r3: u64 := 0xFFFFFFFFFFFFF * 2 * (m + 1) - a[3];
    var r4: u64 := 0xFFFFFFFFFFFF * 2 * (m + 1) - a[4];
    MagnitudeOf(r0, r1, r2, r3, r4, m + 1);
    NegatedValue(v, m, [r0, r1, r2, r3, r4]);
    r[0], r[1], r[2], r[3], r[4] := r0, r1, r2, r3, r4;
    assert r[..] == [r0, r1, r2, r3, r4];
  }

  lemma NegatedValue(v: seq<int>, m: nat, r: seq<int>)
    requires |v| == |r| == 5
    requires r[0] == 0xFFFFEFFFFFC2F * 2 * (m + 1) - v[0] && r[1] == 0xFFFFFFFFFFFFF * 2 * (m + 1) - v[1]
      && r[2] == 0xFFFFFFFFFFFFF * 2 * (m + 1) - v[2]
    requires r[3] == 0xFFFFFFFFFFFFF * 2 * (m + 1) - v[3] && r[4] == 0xFFFFFFFFFFFF * 2 * (m + 1) - v[4]
    ensures Cong(Value(r), -Value(v), P)
  {
    hide Cong;
    CongBy(Value(r), -Value(v), P, 2 * (m + 1));
  }

  /** r = r/2: P is added first when r is odd. */
  method Half(r: array<int>, ghost m: nat)
    requires r.Length == 5 && m <= 31 && Magnitude(r[..], m)
    modifies r
    ensures Magnitude(r[..], m / 2 + 1)
    ensures Cong(2 * Value(r[..]), old(Value(r[..])), P)
  {
    hide *;
    ghost var v := r[..];
    MagnitudeIs(v, m);
    assert r[0] == v[0] && r[1] == v[1] && r[2] == v[2] && r[3] == v[3] && r[4] == v[4];
    var t0: u64, t1: u64, t2: u64, t3: u64, t4: u64 := r[0], r[1], r[2], r[3], r[4];
    var mask: u64 := ((0x1_00000000_00000000 - t0 % 2) % 0x1_00000000_00000000) / 0x1000;
    assert mask == if t0 % 2 == 1 then 0xFFFFFFFFFFFFF else 0;
    MaskP(mask);
    t0 := t0 + And(0xFFFFEFFFFFC2F, mask);
    t1 := t1 + mask;
    t2 := t2 + mask;
    t3 := t3 + mask;
    t4 := t4 + mask / 0x10;
    OddAdded(v, mask, t0, t1, t2, t3, t4);
    var h := HalveLimbs(t0, t1, t2, t3, t4, v, m);
    r[0], r[1], r[2], r[3], r[4] := h[0], h[1], h[2], h[3], h[4];
    assert r[..] == h;
  }

  lemma WithP(v0: int, v1: int, v2: int, v3: int, v4: int)
    ensures Limbs(v0 + 0xFFFFEFFFFFC2F, v1 + 0xFFFFFFFFFFFFF, v2 + 0xFFFFFFFFFFFFF, v3 + 0xFFFFFFFFFFFFF,
      v4 + 0xFFFFFFFFFFFF)
         == Limbs(v0, v1, v2, v3, v4) + P
  {
  }

  lemma OddAdded(v: seq<int>, mask: int, t0: int, t1: int, t2: int, t3: int, t4: int)
    requires |v| == 5 && (mask == if v[0] % 2 == 1 then 0xFFFFFFFFFFFFF else 0)
    requires t0 == v[0] + (if mask == 0 then 0 else 0xFFFFEFFFFFC2F) && t1 == v[1] + mask && t2 == v[2] + mask
      && t3 == v[3] + mask
    requires t4 == v[4] + mask / 0x10
    ensures Cong(Limbs(t0, t1, t2, t3, t4), Value(v), P) && t0 % 2 == 0
  {
    hide Limbs, Cong;
    if mask == 0 {
      CongRefl(Value(v), P);
    } else {
      WithP(v[0], v[1], v[2], v[3], v[4]);
      CongBy(Limbs(t0, t1, t2, t3, t4), Value(v), P, 1);
      OddPlusOdd(v[0]);
    }
  }

  lemma OddPlusOdd(x: int)
    requires x % 2 == 1
    ensures (x + 0xFFFFEFFFFFC2F) % 2 == 0
  {
  }

  /** Halves an even number limb by limb; each limb hands its lowest bit down. */
  method HalveLimbs(t0: u64, t1: u64, t2: u64, t3: u64, t4: u64, ghost v: seq<int>, ghost m: nat) returns (h: seq<u64>)
    requires t0 % 2 == 0 && m <= 31 && Magnitude(v, m)
    requires t0 <= v[0] + 0xFFFFFFFFFFFFF && t1 <= v[1] + 0xFFFFFFFFFFFFF && t2 <= v[2] + 0xFFFFFFFFFFFFF
    requires t3 <= v[3] + 0xFFFFFFFFFFFFF && t4 <= v[4] + 0xFFFFFFFFFFFF
    ensures |h| == 5 && Magnitude(h, m / 2 + 1)
    ensures 2 * Value(h) == Limbs(t0, t1, t2, t3, t4)
  {
    hide *;
    MagnitudeIs(v, m);
    HalfLimb(v[0], m, t0, t1);
    HalfLimb(v[1], m, t1, t2);
    HalfLimb(v[2], m, t2, t3);
    HalfLimb(v[3], m, t3, t4);
    HalfTop(v[4], m, t4);
    var r0: u64, r1: u64 := t0 / 2 + (t1 % 2) * 0x8000000000000, t1 / 2 + (t2 % 2) * 0x8000000000000;
    var r2: u64, r3: u64 := t2 / 2 + (t3 % 2) * 0x8000000000000, t3 / 2 + (t4 % 2) * 0x8000000000000;
    var r4: u64 := t4 / 2;
    MagnitudeOf(r0, r1, r2, r3, r4, m / 2 + 1);
    HalvedLimbs(t0, t1, t2, t3, t4, r0, r1, r2, r3, r4);
    h := [r0, r1, r2, r3, r4];
  }

  lemma MaskP(mask: nat)
    requires mask == 0 || mask == 0xFFFFFFFFFFFFF
    ensures And(0xFFFFEFFFFFC2F, mask) == if mask == 0 then 0 else 0xFFFFEFFFFFC2F
  {
    Ones52();
    hide Pow2;
    if mask != 0 {
      AndFull(0xFFFFEFFFFFC2F, 52);
    }
  }

  lemma HalvedLimbs(t0: int, t1: int, t2: int, t3: int, t4: int, r0: int, r1: int, r2: int, r3: int, r4: int)
    requires t0 % 2 == 0
    requires r0 == t0 / 2 + (t1 % 2) * 0x8000000000000 && r1 == t1 / 2 + (t2 % 2) * 0x8000000000000
    requires r2 == t2 / 2 + (t3 % 2) * 0x8000000000000 && r3 == t3 / 2 + (t4 % 2) * 0x8000000000000 && r4 == t4 / 2
    ensures 2 * Value([r0, r1, r2, r3, r4]) == Limbs(t0, t1, t2, t3, t4)
  {
  }

  lemma HalfLimb(v: int, m: nat, t: int, above: int)
    requires 0 <= v <= 0xFFFFFFFFFFFFF * (2 * m) && 0 <= t <= v + 0xFFFFFFFFFFFFF
    ensures 0 <= t / 2 + (above % 2) * 0x8000000000000 <= 0xFFFFFFFFFFFFF * (2 * (m / 2 + 1))
  {
  }

  lemma HalfTop(v: int, m: nat, t: int)
    requires 0 <= v <= 0xFFFFFFFFFFFF * (2 * m) && 0 <= t <= v + 0xFFFFFFFFFFFF
    ensures 0 <= t / 2 <= 0xFFFFFFFFFFFF * (2 * (m / 2 + 1))
  {
  }

  lemma SumValue(v: seq<int>, w: seq<int>, r: seq<int>)
    requires |v| == |w| == |r| == 5 && forall i :: 0 <= i < 5 ==> r[i] == v[i] + w[i]
    ensures Value(r) == Value(v) + Value(w)
  {
  }

  /** r = r + a; magnitudes add. */
  method Add(r: array<int>, a: array<int>, ghost m: nat, ghost k: nat)
    requires r.Length == a.Length == 5 && m + k <= 64 && Magnitude(r[..], m) && Magnitude(a[..], k)
    modifies r
    ensures Magnitude(r[..], m + k)
    ensures Value(r[..]) == old(Value(r[..])) + old(Value(a[..]))
  {
    hide *;
    ghost var v, w := r[..], a[..];
    MagnitudeIs(v, m);
    MagnitudeIs(w, k);
    assert r[0] == v[0] && r[1] == v[1] && r[2] == v[2] && r[3] == v[3] && r[4] == v[4];
    assert a[0] == w[0] && a[1] == w[1] && a[2] == w[2] && a[3] == w[3] && a[4] == w[4];
    var r0: u64, r1: u64, r2: u64, r3: u64, r4: u64 := r[0] + a[0], r[1] + a[1], r[2] + a[2], r[3] + a[3], r[4] + a[4];
    MagnitudeOf(r0, r1, r2, r3, r4, m + k);
    SumValue(v, w, [r0, r1, r2, r3, r4]);
    r[0], r[1], r[2], r[3], r[4] := r0, r1, r2, r3, r4;
    assert r[..] == [r0, r1, r2, r3, r4];
  }

  /** Compares two normal elements limb by limb from the top. */
  method CmpVar(a: array<int>, b: array<int>) returns (c: int)
    requires Normal(a[..]) && Normal(b[..])
    ensures c == if Value(a[..]) > Value(b[..]) then 1 else if Value(a[..]) < Value(b[..]) then -1 else 0
  {
    ghost var v, w := a[..], b[..];
    assert a[0] == v[0] && a[1] == v[1] && a[2] == v[2] && a[3] == v[3] && a[4] == v[4];
    assert b[0] == w[0] && b[1] == w[1] && b[2] == w[2] && b[3] == w[3] && b[4] == w[4];
    var i := 4;
    while i >= 0
      invariant -1 <= i <= 4
      invariant forall k :: i < k < 5 ==> a[k] == b[k]
    {
      if a[i] > b[i] {
        return 1;
      }
      if a[i] < b[i] {
        return -1;
      }
      i := i - 1;
    }
    c := 0;
  }

  /** Equality of residues, for a of magnitude 1 and b of magnitude at most 31. */
  method Equal(a: array<int>, b: array<int>) returns (same: bool)
    requires Magnitude(a[..], 1) && Magnitude(b[..], 31)
    ensures same <==> Cong(Value(a[..]), Value(b[..]), P)
  {
    hide Cong;
    var na := new int[5];
    NegateUnchecked(na, a, 1);
    ghost var n := Value(na[..]);
    Add(na, b, 2, 31);
    same := NormalizesToZero(na);
    DifferenceZero(Value(a[..]), Value(b[..]), n);
  }

  lemma DifferenceZero(a: int, b: int, n: int)
    requires Cong(n, -a, P)
    ensures (n + b) % P == 0 <==> Cong(a, b, P)
  {
    var q := CongGap(n, -a, P);
    if Cong(a, b, P) {
      var s := CongGap(b, a, P);
      CongBy(n + b, 0, P, q + s);
    }
    if (n + b) % P == 0 {
      CongBy(b, a, P, (n + b) / P - q);
    }
  }
}
