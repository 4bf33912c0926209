/** The two signed-digit recoders: windowed NAF for Strauss and fixed-window NAF for Pippenger. */
module Wnaf {
  import opened Arith
  import opened Scalars

  /** A scalar read as a signed number: the upper half of the range stands for negatives. */
  function Signed(a: int): int {
    if Bit(a, 255) == 1 then a - N else a
  }

  function Abs(a: int): nat { if a < 0 then -a else a }

  /** Scalars from 2^255 on are read as negative. */
  lemma SignedIs(a: int)
    requires IsScalar(a)
    ensures Signed(a) == if a >= Pow2(255) then a - N else a
  {
    Pow2Values();
    hide Pow2;
    DivIs(a, Pow2(255), if a >= Pow2(255) then 1 else 0, if a >= Pow2(255) then a - Pow2(255) else a);
  }

  /** A scalar congruent to a short signed number reads back as that number. */
  lemma SignedOfShort(r: int, v: int)
    requires IsScalar(r) && Cong(r, v, N) && -TWO_128 < v < TWO_128
    ensures Signed(r) == v
  {
    Pow2Values();
    hide Pow2;
    if v >= 0 {
      CongSmall(r, v, N);
      DivIs(r, Pow2(255), 0, r);
    } else {
      CongBy(v + N, v, N, 1);
      CongSmall(r, v + N, N);
      DivIs(r, Pow2(255), 1, r - Pow2(255));
    }
  }

  // ----- digit sequences -----

  /** d[0] + d[1]*2^w + ... + d[n-1]*2^(w*(n-1)) */
  ghost function Radix(w: nat, d: seq<int>, n: nat): int
    requires n <= |d|
  {
    if n == 0 then 0 else Radix(w, d, n - 1) + d[n - 1] * Pow2(w * (n - 1))
  }

  lemma {:induction false} RadixFrame(w: nat, d: seq<int>, e: seq<int>, n: nat)
    requires n <= |d| && n <= |e|
    requires forall i :: 0 <= i < n ==> d[i] == e[i]
    ensures Radix(w, d, n) == Radix(w, e, n)
  {
    if n > 0 {
      RadixFrame(w, d, e, n - 1);
    }
  }

  lemma {:induction false} RadixUpdate(w: nat, d: seq<int>, n: nat, i: nat, v: int)
    requires i < n <= |d|
    ensures Radix(w, d[i := v], n) == Radix(w, d, n) + (v - d[i]) * Pow2(w * i)
  {
    if i == n - 1 {
      RadixFrame(w, d, d[i := v], n - 1);
      assert (v - d[i]) * Pow2(w * i) == v * Pow2(w * i) - d[i] * Pow2(w * i);
    } else {
      RadixUpdate(w, d, n - 1, i, v);
    }
  }

  lemma {:induction false} RadixZeros(w: nat, d: seq<int>, m: nat, n: nat)
    requires m <= n <= |d|
    requires forall i :: m <= i < n ==> d[i] == 0
    ensures Radix(w, d, n) == Radix(w, d, m)
  {
    if m < n {
      RadixZeros(w, d, m, n - 1);
    }
  }

  /** The digits from position k upwards, read from the top as the multipliers do. */
  ghost function Horner(w: nat, d: seq<int>, k: nat): int
    requires k <= |d|
    decreases |d| - k
  {
    if k == |d| then 0 else d[k] + Pow2(w) * Horner(w, d, k + 1)
  }

  lemma Pow2Step(w: nat, i: nat)
    ensures w * (i + 1) == w * i + w && w * i >= 0
    ensures Pow2(w * (i + 1)) == Pow2(w * i) * Pow2(w)
  {
    assert w * (i + 1) == w * i + w;
    Pow2Add(w * i, w);
  }

  lemma {:induction false} RadixHorner(w: nat, d: seq<int>, n: nat)
    requires n <= |d|
    ensures w * n >= 0
    ensures Radix(w, d, |d|) == Radix(w, d, n) + Pow2(w * n) * Horner(w, d, n)
    decreases |d| - n
  {
    if n < |d| {
      RadixHorner(w, d, n + 1);
      Pow2Step(w, n);
      hide Pow2;
      HornerTerm(Pow2(w * n), Pow2(w), Horner(w, d, n + 1), d[n]);
    }
  }

  lemma HornerTerm(a: int, b: int, h: int, v: int)
    ensures a * (v + b * h) == v * a + (a * b) * h
  {
    assert a * (v + b * h) == a * v + a * (b * h);
  }

  lemma {:induction false} HornerZeros(w: nat, d: seq<int>, k: nat)
    requires k <= |d| && (forall i :: k <= i < |d| ==> d[i] == 0)
    ensures Horner(w, d, k) == 0
    decreases |d| - k
  {
    if k < |d| {
      HornerZeros(w, d, k + 1);
    }
  }

  /** Least significant first and most significant first agree. */
  lemma HornerIsRadix(w: nat, d: seq<int>)
    ensures Horner(w, d, 0) == Radix(w, d, |d|)
  {
    RadixHorner(w, d, 0);
  }

  // ----- fixed windows -----

  const WNAF_BITS: nat := 128

  /** The number of w-bit words covering 128 bits. */
  function WnafSize(w: nat): nat
    requires w > 0
  {
    1 + (WNAF_BITS - 1) / w
  }

  lemma SizeCovers(w: nat)
    requires 1 <= w <= 30
    ensures (WnafSize(w) - 1) * w < WNAF_BITS <= WnafSize(w) * w
    ensures WnafSize(w) >= 2
  {
    var q := (WNAF_BITS - 1) / w;
    DivMod(WNAF_BITS - 1, w);
    assert (q + 1) * w == q * w + w;
    if q <= 0 {
      MulMono(q, 0, w);
    }
  }

  predicate FixedDigit(w: nat, v: int) {
    v == 0 || (v % 2 == 1 && Abs(v) < Pow2(w))
  }

  /** What the first pos words, ending at bit cut, say, with the skew still owed. */
  ghost predicate FixedPrefix(w: nat, d: seq<int>, s: int, skew: int, pos: nat, cut: nat)
    requires 1 <= pos <= |d|
  {
    && Radix(w, d, pos) - skew == s % Pow2(cut)
    && d[pos - 1] % 2 == 1
    && (forall i :: 0 <= i < pos ==> FixedDigit(w, d[i]))
  }

  lemma EvenPow2(w: nat)
    requires w >= 1
    ensures Pow2(w) % 2 == 0 && Pow2(w) >= 2
  {
    Pow2Succ(w - 1);
    hide Pow2;
  }

  lemma FirstWord(w: nat, s: int, skew: int)
    requires w >= 1 && s >= 0
    requires skew == 1 - s % 2
    ensures (Bits(s, 0, w) + skew) % 2 == 1
    ensures 0 < Bits(s, 0, w) + skew < Pow2(w)
    ensures Bits(s, 0, w) == s % Pow2(w)
  {
    assert Pow2(w) == 2 * Pow2(w - 1);
    ModMul(s, 2, Pow2(w - 1));
  }

  /** Taking in word pos as it is. */
  lemma TakeOdd(w: nat, d: seq<int>, s: int, skew: int, pos: nat, cut: nat, b: nat, val: int)
    requires 1 <= pos < |d| && cut == w * pos && 1 <= b <= w
    requires FixedPrefix(w, d, s, skew, pos, cut)
    requires val == Bits(s, cut, b) && val % 2 == 1
    ensures FixedPrefix(w, d[pos := val], s, skew, pos + 1, cut + b)
  {
    Pow2Monotone(b, w);
    LowBitsSplit(s, cut, b);
    RadixFrame(w, d, d[pos := val], pos);
    RadixLast(w, d[pos := val], pos);
    hide Pow2, Bits, Radix;
    assert val * Pow2(w * pos) == Pow2(cut) * val;
  }

  lemma RadixLast(w: nat, d: seq<int>, n: nat)
    requires n < |d|
    ensures Radix(w, d, n + 1) == Radix(w, d, n) + d[n] * Pow2(w * n)
  {
  }

  lemma BorrowCancels(val: int, a: int, b: int)
    ensures (val + 1) * (a * b) + (-b) * a == (a * b) * val
  {
    assert (-b) * a == -(a * b);
    assert (val + 1) * (a * b) == val * (a * b) + a * b;
  }

  /** Taking in an even word: one unit is borrowed into the word below, making both odd. */
  lemma TakeEven(w: nat, d: seq<int>, s: int, skew: int, pos: nat, cut: nat, b: nat, val: int)
    requires 1 <= pos < |d| && cut == w * pos && 1 <= b <= w
    requires FixedPrefix(w, d, s, skew, pos, cut)
    requires val == Bits(s, cut, b) && val % 2 == 0
    requires d[pos - 1] > 0
    ensures FixedPrefix(w, d[pos - 1 := d[pos - 1] - Pow2(w)][pos := val + 1], s, skew, pos + 1, cut + b)
  {
    var c := d[pos - 1 := d[pos - 1] - Pow2(w)];
    var e := c[pos := val + 1];
    BorrowedRadix(w, d, s, skew, pos, cut, b, val);
    Pow2Monotone(b, w);
    BorrowedDigits(w, b, d[pos - 1], val);
    hide Pow2, Radix, Bits, FixedDigit;
  }

  /** Both words come out odd and in range. */
  lemma BorrowedDigits(w: nat, b: nat, v: int, val: int)
    requires 1 <= b && 1 <= w && Pow2(b) <= Pow2(w) && v > 0 && v % 2 == 1 && FixedDigit(w, v)
    requires 0 <= val < Pow2(b) && val % 2 == 0
    ensures FixedDigit(w, v - Pow2(w)) && (val + 1) % 2 == 1 && FixedDigit(w, val + 1)
  {
    EvenPow2(w);
    EvenPow2(b);
    hide Pow2;
  }

  lemma BorrowedRadix(w: nat, d: seq<int>, s: int, skew: int, pos: nat, cut: nat, b: nat, val: int)
    requires 1 <= pos < |d| && cut == w * pos && val == Bits(s, cut, b)
    requires Radix(w, d, pos) - skew == s % Pow2(cut)
    ensures var e := d[pos - 1 := d[pos - 1] - Pow2(w)][pos := val + 1];
      Radix(w, e, pos + 1) - skew == s % Pow2(cut + b)
  {
    var c := d[pos - 1 := d[pos - 1] - Pow2(w)];
    var e := c[pos := val + 1];
    LowBitsSplit(s, cut, b);
    Pow2Step(w, pos - 1);
    RadixUpdate(w, d, pos, pos - 1, d[pos - 1] - Pow2(w));
    RadixFrame(w, c, e, pos);
    RadixLast(w, e, pos);
    hide Pow2, Radix, Bits;
    BorrowCancels(val, Pow2(w * (pos - 1)), Pow2(w));
  }

  lemma MergeCancels(x: int, a: int, b: int)
    requires x == 1 || x == -1
    ensures (x * b) * a + (0 - x) * (a * b) == 0
  {
    assert (x * b) * a == x * (a * b) by { MulAssoc(x, b, a); }
  }

  lemma MergeRadix(w: nat, d: seq<int>, n: nat, j: nat, x: int)
    requires j + 1 < n <= |d| && (x == 1 || x == -1) && d[j + 1] == x
    ensures Radix(w, d[j := d[j] + x * Pow2(w)][j + 1 := 0], n) == Radix(w, d, n)
  {
    var c := d[j := d[j] + x * Pow2(w)];
    RadixUpdate(w, d, n, j, d[j] + x * Pow2(w));
    RadixUpdate(w, c, n, j + 1, 0);
    Pow2Step(w, j);
    MergeCancels(x, Pow2(w * j), Pow2(w));
  }

  lemma MergedDigit(w: nat, v: int, x: int)
    requires w >= 1 && FixedDigit(w, v)
    requires (x == 1 && v < 0) || (x == -1 && v > 0)
    ensures FixedDigit(w, v + x * Pow2(w))
  {
    EvenPow2(w);
    if x == 1 {
      assert x * Pow2(w) == Pow2(w);
    } else {
      assert x * Pow2(w) == 0 - Pow2(w);
    }
  }

  /** Folding a digit 1 or -1 into a neighbour of the opposite sign. */
  lemma Merge(w: nat, d: seq<int>, s: int, skew: int, pos: nat, cut: nat, x: int)
    requires w >= 1 && 3 <= pos <= |d|
    requires FixedPrefix(w, d, s, skew, pos, cut)
    requires d[pos - 2] == x
    requires (x == 1 && d[pos - 3] < 0) || (x == -1 && d[pos - 3] > 0)
    ensures FixedPrefix(w, d[pos - 3 := d[pos - 3] + x * Pow2(w)][pos - 2 := 0], s, skew, pos, cut)
  {
    MergeRadix(w, d, pos, pos - 3, x);
    MergedDigit(w, d[pos - 3], x);
  }

  /** Words above the highest nonzero one add nothing. */
  lemma SkipZeroWord(s: int, cut: nat, b: nat)
    requires Bits(s, cut, b) == 0
    ensures s % Pow2(cut + b) == s % Pow2(cut)
  {
    LowBitsSplit(s, cut, b);
  }

  predicate MergesAt(d: seq<int>, pos: nat)
    requires pos < |d|
  {
    pos >= 2 && ((d[pos - 1] == 1 && d[pos - 2] < 0) || (d[pos - 1] == -1 && d[pos - 2] > 0))
  }

  /** Word pos stored, with a unit borrowed from the word below when it is even. */
  ghost function Borrowed(w: nat, d: seq<int>, pos: nat, val: int): (e: seq<int>)
    requires 1 <= pos < |d|
    ensures |e| == |d|
  {
    if val % 2 == 0 then d[pos - 1 := d[pos - 1] - Pow2(w)][pos := val + 1] else d[pos := val]
  }

  /** One round of the recoding loop on the words. */
  ghost function Step(w: nat, d: seq<int>, pos: nat, val: int): (e: seq<int>)
    requires 1 <= pos < |d|
    ensures |e| == |d|
  {
    var t := Borrowed(w, d, pos, val);
    if MergesAt(t, pos) then t[pos - 2 := t[pos - 2] + t[pos - 1] * Pow2(w)][pos - 1 := 0] else t
  }

  lemma StepKeeps(w: nat, d: seq<int>, s: int, skew: int, pos: nat, cut: nat, b: nat)
    requires 1 <= pos < |d| && cut == w * pos && 1 <= b <= w
    requires FixedPrefix(w, d, s, skew, pos, cut) && d[pos - 1] > 0
    ensures var e := Step(w, d, pos, Bits(s, cut, b));
      && FixedPrefix(w, e, s, skew, pos + 1, cut + b) && e[pos] > 0
      && (forall i :: pos < i < |d| ==> e[i] == d[i])
  {
    var val := Bits(s, cut, b);
    var t := Borrowed(w, d, pos, val);
    assert FixedPrefix(w, t, s, skew, pos + 1, cut + b) by {
      if val % 2 == 0 {
        TakeEven(w, d, s, skew, pos, cut, b, val);
      } else {
        TakeOdd(w, d, s, skew, pos, cut, b, val);
      }
    }
    if MergesAt(t, pos) {
      Merge(w, t, s, skew, pos + 1, cut + b, t[pos - 1]);
    }
  }

  predicate Outside(w: seq<int>, v: seq<int>, base: nat, n: nat)
    requires base + n <= |w| == |v|
  {
    w[..base] == v[..base] && w[base + n..] == v[base + n..]
  }

  lemma OutsideSame(v: seq<int>, base: nat, n: nat)
    requires base + n <= |v|
    ensures Outside(v, v, base, n)
  {
  }

  lemma OutsideStays(u: seq<int>, v: seq<int>, w: seq<int>, base: nat, n: nat)
    requires base + n <= |u| == |v| == |w| && Outside(u, v, base, n) && Outside(v, w, base, n)
    ensures Outside(u, w, base, n)
  {
  }

  /** Changes one word of the recoded scalar at base. */
  method SetWord(wnaf: array<int>, base: nat, n: nat, i: nat, v: int)
    requires base + n <= wnaf.Length && i < n
    modifies wnaf
    ensures wnaf[base..base + n] == old(wnaf[base..base + n])[i := v]
    ensures Outside(wnaf[..], old(wnaf[..]), base, n)
  {
    wnaf[base + i] := v;
  }

  /** Only the chosen word changes. */
  lemma SliceSet(u: seq<int>, v: seq<int>, base: nat, n: nat, i: nat, x: int)
    requires base + n <= |u| == |v| && i < n
    requires u[base..base + n] == v[base..base + n][i := x]
    ensures u[base + i] == x && forall k :: base <= k < base + n && k != base + i ==> u[k] == v[k]
  {
    var s, t := u[base..base + n], v[base..base + n];
    assert forall k :: base <= k < base + n ==> u[k] == s[k - base] && v[k] == t[k - base];
  }

  /** The number of words and the width of the last one. */
  predicate Widths(w: nat, n: nat, lastW: int) {
    1 <= w <= 30 && n == WnafSize(w) && lastW == WNAF_BITS - (n - 1) * w
  }

  /** The bit at which word pos begins, or at which the last word ends. */
  ghost function Cut(w: nat, n: nat, pos: nat): nat {
    if pos == n then WNAF_BITS else w * pos
  }

  lemma WidthsIs(w: nat, n: nat, lastW: int)
    requires Widths(w, n, lastW)
    ensures 1 <= w && n >= 2 && 1 <= lastW <= w
    ensures Cut(w, n, 1) == w && Cut(w, n, n) == WNAF_BITS
  {
    SizeCovers(w);
    assert n * w == (n - 1) * w + w;
  }

  lemma NextCut(w: nat, pos: nat, n: nat, lastW: int)
    requires Widths(w, n, lastW) && pos < n
    ensures Cut(w, n, pos) == pos * w
    ensures Cut(w, n, pos + 1) == Cut(w, n, pos) + (if pos == n - 1 then lastW else w)
  {
  }

  /** Stores zeros down from the top word to the highest nonzero one, which is returned. */
  method SkipLeadingZeros(wnaf: array<int>, base: nat, s: int, w: nat, n: nat, lastW: int)
      returns (maxPos: nat)
    requires Widths(w, n, lastW) && 0 <= s
    requires base + n <= wnaf.Length
    modifies wnaf
    ensures maxPos < n
    ensures s % Pow2(Cut(w, n, maxPos + 1)) == s % Pow2(WNAF_BITS)
    ensures wnaf[base] == old(wnaf[base])
    ensures forall k :: base + maxPos < k < base + n ==> wnaf[k] == 0
    ensures Outside(wnaf[..], old(wnaf[..]), base, n)
  {
    hide *;
    WidthsIs(w, n, lastW);
    OutsideSame(wnaf[..], base, n);
    var pos := n - 1;
    while pos > 0
      invariant 0 <= pos <= n - 1
      invariant s % Pow2(Cut(w, n, pos + 1)) == s % Pow2(WNAF_BITS)
      invariant wnaf[base] == old(wnaf[base])
      invariant forall k :: base + pos < k < base + n ==> wnaf[k] == 0
      invariant Outside(wnaf[..], old(wnaf[..]), base, n)
    {
      var b := if pos == n - 1 then lastW else w;
      NextCut(w, pos, n, lastW);
      var val := Bits(s, pos * w, b);
      if val != 0 { break; }
      SkipZeroWord(s, Cut(w, n, pos), b);
      ghost var before := wnaf[..];
      SetWord(wnaf, base, n, pos, 0);
      OutsideStays(wnaf[..], before, old(wnaf[..]), base, n);
      SliceSet(wnaf[..], before, base, n, pos, 0);
      pos := pos - 1;
    }
    return pos;
  }

  /** What the words of s are once they are complete. */
  ghost predicate FixedForm(w: nat, d: seq<int>, s: int, skew: int) {
    && Radix(w, d, |d|) - skew == s % Pow2(WNAF_BITS)
    && (forall i :: 0 <= i < |d| ==> FixedDigit(w, d[i]))
  }

  /** All words of a zero scalar. */
  method ZeroWords(wnaf: array<int>, base: nat, w: nat, n: nat)
    requires base + n <= wnaf.Length
    modifies wnaf
    ensures FixedForm(w, wnaf[base..base + n], 0, 0)
    ensures Outside(wnaf[..], old(wnaf[..]), base, n)
  {
    hide *;
    var pos := 0;
    OutsideSame(wnaf[..], base, n);
    while pos < n
      invariant 0 <= pos <= n
      invariant forall k :: base <= k < base + pos ==> wnaf[k] == 0
      invariant Outside(wnaf[..], old(wnaf[..]), base, n)
    {
      ghost var before := wnaf[..];
      SetWord(wnaf, base, n, pos, 0);
      SliceSet(wnaf[..], before, base, n, pos, 0);
      OutsideStays(wnaf[..], before, old(wnaf[..]), base, n);
      pos := pos + 1;
    }
    ghost var d := wnaf[base..base + n];
    assert forall i :: 0 <= i < n ==> d[i] == wnaf[base + i];
    AllZeroWords(w, d);
  }

  lemma AllZeroWords(w: nat, d: seq<int>)
    requires forall i :: 0 <= i < |d| ==> d[i] == 0
    ensures FixedForm(w, d, 0, 0)
  {
    RadixZeros(w, d, 0, |d|);
    DivIs(0, Pow2(WNAF_BITS), 0, 0);
  }

  /** wnaf[base ..] receives the words of s; the result is the skew (0 or 1). */
  method WnafFixed(wnaf: array<int>, base: nat, s: int, w: nat) returns (skew: int)
    requires 1 <= w <= 30 && 0 <= s < N
    requires base + WnafSize(w) <= wnaf.Length
    modifies wnaf
    ensures skew == 0 || skew == 1
    ensures FixedForm(w, wnaf[base..base + WnafSize(w)], s, skew)
    ensures Outside(wnaf[..], old(wnaf[..]), base, WnafSize(w))
  {
    hide Pow2, Radix, FixedDigit, FixedForm, Bits, WnafSize, Outside, Cut;
    var n := WnafSize(w);
    SizeCovers(w);
    if s == 0 {
      ZeroWords(wnaf, base, w, n);
      return 0;
    }
    skew := 0;
    if s % 2 == 0 {
      skew := 1;
    }
    ghost var before := wnaf[..];
    SetWord(wnaf, base, n, 0, Bits(s, 0, w) + skew);
    SliceSet(wnaf[..], before, base, n, 0, Bits(s, 0, w) + skew);
    FirstWord(w, s, skew);
    var lastW := WNAF_BITS - (n - 1) * w;
    ghost var second := wnaf[..];
    var maxPos := SkipLeadingZeros(wnaf, base, s, w, n, lastW);
    OutsideStays(wnaf[..], second, before, base, n);
    ghost var third := wnaf[..];
    RecodeWords(wnaf, base, s, w, n, lastW, skew, maxPos);
    OutsideStays(wnaf[..], third, before, base, n);
  }

  /** The word itself, with a unit borrowed from the word below when it is even. */
  method BorrowWord(wnaf: array<int>, base: nat, n: nat, w: nat, pos: nat, val: int)
    requires base + n <= wnaf.Length && 1 <= pos < n
    modifies wnaf
    ensures wnaf[base..base + n] == Borrowed(w, old(wnaf[base..base + n]), pos, val)
    ensures Outside(wnaf[..], old(wnaf[..]), base, n)
  {
    hide Pow2, Outside;
    ghost var before, d := wnaf[..], wnaf[base..base + n];
    assert wnaf[base + pos - 1] == d[pos - 1];
    if val % 2 == 0 {
      SetWord(wnaf, base, n, pos - 1, wnaf[base + pos - 1] - Pow2(w));
      ghost var mid := wnaf[..];
      SetWord(wnaf, base, n, pos, val + 1);
      OutsideStays(wnaf[..], mid, before, base, n);
    } else {
      SetWord(wnaf, base, n, pos, val);
    }
  }

  /** Stores word pos, borrowing and merging as needed. */
  method StoreWord(wnaf: array<int>, base: nat, n: nat, w: nat, pos: nat, val: int)
    requires base + n <= wnaf.Length && 1 <= pos < n
    modifies wnaf
    ensures wnaf[base..base + n] == Step(w, old(wnaf[base..base + n]), pos, val)
    ensures Outside(wnaf[..], old(wnaf[..]), base, n)
  {
    hide Pow2, Outside, Borrowed;
    ghost var before := wnaf[..];
    BorrowWord(wnaf, base, n, w, pos, val);
    ghost var mid, t := wnaf[..], wnaf[base..base + n];
    assert wnaf[base + pos - 1] == t[pos - 1] && (pos >= 2 ==> wnaf[base + pos - 2] == t[pos - 2]);
    if pos >= 2 && ((wnaf[base + pos - 1] == 1 && wnaf[base + pos - 2] < 0)
                 || (wnaf[base + pos - 1] == -1 && wnaf[base + pos - 2] > 0)) {
      var unit := if wnaf[base + pos - 1] == 1 then Pow2(w) else 0 - Pow2(w);
      SetWord(wnaf, base, n, pos - 2, wnaf[base + pos - 2] + unit);
      ghost var last := wnaf[..];
      OutsideStays(last, mid, before, base, n);
      SetWord(wnaf, base, n, pos - 1, 0);
      OutsideStays(wnaf[..], last, before, base, n);
    }
  }

  lemma FirstPrefix(w: nat, d: seq<int>, s: int, skew: int)
    requires |d| >= 1 && d[0] == s % Pow2(w) + skew && d[0] % 2 == 1 && 0 < d[0] < Pow2(w)
    ensures FixedPrefix(w, d, s, skew, 1, w)
  {
    RadixLast(w, d, 0);
    assert w * 0 == 0 && Pow2(0) == 1;
  }

  lemma LastPrefix(w: nat, d: seq<int>, s: int, skew: int, pos: nat, cut: nat)
    requires 1 <= pos <= |d| && FixedPrefix(w, d, s, skew, pos, cut)
    requires s % Pow2(cut) == s % Pow2(WNAF_BITS)
    requires forall i :: pos <= i < |d| ==> d[i] == 0
    ensures FixedForm(w, d, s, skew)
  {
    RadixZeros(w, d, pos, |d|);
  }

  /** Takes in word pos on top of the words below. */
  method RecodeWord(wnaf: array<int>, base: nat, s: int, w: nat, n: nat, lastW: int, skew: int, pos: nat,
        ghost cut: nat)
    requires base + n <= wnaf.Length && Widths(w, n, lastW) && 1 <= pos < n && cut == Cut(w, n, pos)
    requires FixedPrefix(w, wnaf[base..base + n], s, skew, pos, cut) && wnaf[base + pos - 1] > 0
    modifies wnaf
    ensures FixedPrefix(w, wnaf[base..base + n], s, skew, pos + 1, Cut(w, n, pos + 1))
    ensures wnaf[base + pos] > 0
    ensures forall i :: base + pos < i < base + n ==> wnaf[i] == old(wnaf[i])
    ensures Outside(wnaf[..], old(wnaf[..]), base, n)
  {
    hide *;
    ghost var d := wnaf[base..base + n];
    assert d[pos - 1] == wnaf[base + pos - 1];
    var b := if pos == n - 1 then lastW else w;
    WidthsIs(w, n, lastW);
    NextCut(w, pos, n, lastW);
    assert pos * w == w * pos;
    var val := Bits(s, pos * w, b);
    StepKeeps(w, d, s, skew, pos, cut, b);
    StoreWord(wnaf, base, n, w, pos, val);
    ghost var e := wnaf[base..base + n];
    assert wnaf[base + pos] == e[pos];
    assert forall i :: pos < i < n ==> wnaf[base + i] == e[i] && old(wnaf[base + i]) == d[i];
    assert forall i :: base + pos < i < base + n ==> wnaf[i] == e[i - base] && old(wnaf[i]) == d[i - base];
  }

  /** Recodes words 1 to maxPos on top of an odd word 0. */
  method RecodeWords(wnaf: array<int>, base: nat, s: int, w: nat, n: nat, lastW: int, skew: int, maxPos: nat)
    requires Widths(w, n, lastW) && 0 <= s
    requires base + n <= wnaf.Length && maxPos < n
    requires wnaf[base] == s % Pow2(w) + skew && wnaf[base] % 2 == 1 && 0 < wnaf[base] < Pow2(w)
    requires forall k :: base + maxPos < k < base + n ==> wnaf[k] == 0
    requires s % Pow2(Cut(w, n, maxPos + 1)) == s % Pow2(WNAF_BITS)
    modifies wnaf
    ensures FixedForm(w, wnaf[base..base + n], s, skew)
    ensures Outside(wnaf[..], old(wnaf[..]), base, n)
  {
    hide *;
    WidthsIs(w, n, lastW);
    var pos := 1;
    FirstPrefix(w, wnaf[base..base + n], s, skew);
    OutsideSame(wnaf[..], base, n);
    while pos <= maxPos
      invariant 1 <= pos <= maxPos + 1
      invariant FixedPrefix(w, wnaf[base..base + n], s, skew, pos, Cut(w, n, pos)) && wnaf[base + pos - 1] > 0
      invariant forall k :: base + maxPos < k < base + n ==> wnaf[k] == 0
      invariant Outside(wnaf[..], old(wnaf[..]), base, n)
    {
      ghost var before := wnaf[..];
      RecodeWord(wnaf, base, s, w, n, lastW, skew, pos, Cut(w, n, pos));
      OutsideStays(wnaf[..], before, old(wnaf[..]), base, n);
      pos := pos + 1;
    }
    ghost var d := wnaf[base..base + n];
    assert forall i :: pos <= i < n ==> d[i] == wnaf[base + i];
    LastPrefix(w, d, s, skew, pos, Cut(w, n, pos));
  }

  // ----- sliding windows -----

  predicate WindowDigit(w: nat, v: int)
    requires w >= 1
  {
    v == 0 || (v % 2 == 1 && Abs(v) < Pow2(w - 1))
  }

  /** The digits below bit, with sign, plus a pending carry, make up low. */
  ghost predicate WindowValue(d: seq<int>, low: int, sign: int, bit: nat, carry: int)
    requires bit <= |d|
  {
    && (sign == 1 || sign == -1)
    && sign * Radix(1, d, bit) + carry * Pow2(bit) == low
  }

  /** A pending carry is backed by a set bit just below. */
  ghost predicate CarryBacked(s: int, bit: nat, carry: int) {
    IsBit(carry) && (carry == 1 ==> bit >= 1 && Bit(s, bit - 1) == 1)
  }

  ghost predicate WindowShape(d: seq<int>, w: nat, bit: nat)
    requires bit <= |d| && w >= 2
  {
    && (forall i :: 0 <= i < bit ==> WindowDigit(w, d[i]))
    && (forall i :: bit <= i < |d| ==> d[i] == 0)
    && (forall i :: 0 <= i < bit && d[i] != 0 ==> i + w <= bit || bit == |d|)
    && Sparse(d, w)
  }

  /** A nonzero digit is followed by at least w - 1 zeros, as far as the array goes. */
  ghost predicate Sparse(d: seq<int>, w: nat) {
    forall i, j :: 0 <= i < j < |d| && d[i] != 0 && d[j] != 0 ==> i + w <= j
  }

  lemma SkipBit(d: seq<int>, low: int, sign: int, bit: nat, carry: int)
    requires bit < |d| && d[bit] == 0
    requires WindowValue(d, low, sign, bit, carry)
    ensures WindowValue(d, low + Pow2(bit) * carry, sign, bit + 1, carry)
  {
    assert Radix(1, d, bit + 1) == Radix(1, d, bit);
    assert carry * Pow2(bit + 1) == carry * Pow2(bit) + Pow2(bit) * carry;
  }

  /** The low bit of a field is the bit it starts at; its high bit the one it ends with. */
  lemma FieldEnds(s: int, bit: nat, cnt: nat)
    requires cnt >= 1
    ensures Bits(s, bit, cnt) % 2 == Bit(s, bit)
    ensures Bits(s, bit, cnt) / Pow2(cnt - 1) == Bit(s, bit + cnt - 1)
  {
    Pow2Succ(cnt - 1);
    Pow2Add(bit, cnt - 1);
    DivDiv(s, Pow2(bit), Pow2(cnt - 1));
    hide Pow2;
    TopAndBottom(s / Pow2(bit), Pow2(cnt - 1));
  }

  lemma TopAndBottom(y: int, m: int)
    requires m > 0
    ensures (y % (2 * m)) % 2 == y % 2 && (y % (2 * m)) / m == (y / m) % 2
  {
    ModMul(y, 2, m);
    ModMul(y, m, 2);
    var h := (y / m) % 2;
    assert m * 2 == 2 * m && m * h == h * m;
    DivIs(y % (2 * m), m, h, y % m);
  }

  /** An odd number below twice an even half, brought into the range around zero. */
  lemma CentredDigit(word: int, carry: int, h: int)
    requires h >= 2 && h % 2 == 0 && word % 2 == 1 && 0 < word < 2 * h && carry == (word / h) % 2
    ensures carry == if word > h then 1 else 0
    ensures var v := word - carry * (2 * h); v % 2 == 1 && v != 0 && Abs(v) < h
  {
    if word < h {
      DivIs(word, h, 0, word);
    } else {
      DivIs(word, h, 1, word - h);
    }
    TimesBit(carry, 2 * h);
  }

  lemma TimesBit(c: int, b: int)
    requires IsBit(c)
    ensures c * b == if c == 1 then b else 0
  {
  }

  /** The digit, and the carry it leaves, for an odd window of now bits. */
  lemma WindowStep(word: int, carry: int, now: nat, w: nat)
    requires 1 <= now <= w && w >= 2
    requires word % 2 == 1 && 0 < word <= Pow2(now) && carry == (word / Pow2(w - 1)) % 2
    ensures IsBit(carry)
    ensures WindowDigit(w, word - carry * Pow2(w)) && word - carry * Pow2(w) != 0
    ensures now < w ==> carry == 0
    ensures carry == 1 ==> word > Pow2(now - 1)
  {
    Pow2Succ(w - 1);
    EvenPow2(w - 1);
    EvenPow2(now);
    if now < w {
      Pow2Monotone(now, w - 1);
    }
    hide Pow2;
    CentredDigit(word, carry, Pow2(w - 1));
  }

  lemma WindowFacts(s: int, bit: nat, carry: int, now: nat, w: nat, carry': int)
    requires 1 <= now <= w && w >= 2
    requires IsBit(carry) && Bit(s, bit) != carry
    requires carry' == ((Bits(s, bit, now) + carry) / Pow2(w - 1)) % 2
    ensures var v := Bits(s, bit, now) + carry - carry' * Pow2(w); WindowDigit(w, v) && v != 0
    ensures IsBit(carry') && (carry' == 1 ==> now == w && Bit(s, bit + now - 1) == 1)
  {
    hide Pow2, Bits, Bit, WindowDigit;
    FieldEnds(s, bit, now);
    WindowStep(Bits(s, bit, now) + carry, carry', now, w);
    if carry' == 1 {
      TopHalf(Bits(s, bit, now), now);
    }
  }

  lemma RadixAppend(d: seq<int>, bit: nat, now: nat, x: int)
    requires 1 <= now && bit + now <= |d|
    requires forall i :: bit <= i < |d| ==> d[i] == 0
    ensures Radix(1, d[bit := x], bit + now) == Radix(1, d, bit) + x * Pow2(bit)
  {
    var e := d[bit := x];
    RadixFrame(1, d, e, bit);
    RadixZeros(1, e, bit + 1, bit + now);
  }

  /** Writing sign * (f + carry - carry' * 2^w) at position bit and moving on by now bits. */
  lemma TakeWindow(d: seq<int>, low: int, sign: int, bit: nat, carry: int, now: nat, w: nat, carry': int, f: int)
    requires 1 <= now && bit + now <= |d|
    requires WindowValue(d, low, sign, bit, carry)
    requires forall i :: bit <= i < |d| ==> d[i] == 0
    requires IsBit(carry') && (carry' == 1 ==> now == w)
    ensures var v := f + carry - carry' * Pow2(w);
      WindowValue(d[bit := sign * v], low + Pow2(bit) * f, sign, bit + now, carry')
  {
    hide Pow2, Radix, Abs;
    var v := f + carry - carry' * Pow2(w);
    RadixAppend(d, bit, now, sign * v);
    Pow2Add(bit, w);
    CarryShift(carry', Pow2(bit), Pow2(w));
    WindowSum(sign, Radix(1, d, bit), carry, carry', Pow2(bit), f, Pow2(w), v, sign * v);
  }

  lemma TopHalf(x: int, now: nat)
    requires now >= 1 && Pow2(now - 1) <= x < Pow2(now)
    ensures x / Pow2(now - 1) == 1
  {
    DivIs(x, Pow2(now - 1), 1, x - Pow2(now - 1));
  }

  lemma CarryShift(c: int, a: int, b: int)
    ensures (c * b) * a == c * (a * b)
  {
    MulAssoc(c, b, a);
  }

  lemma WindowSum(sign: int, r: int, carry: int, carry': int, a: int, f: int, b: int, v: int, x: int)
    requires sign == 1 || sign == -1
    requires v == f + carry - carry' * b && x == sign * v
    ensures sign * (r + x * a) + (carry' * b) * a == sign * r + carry * a + a * f
  {
    assert (f + carry - carry' * b) * a == f * a + carry * a - (carry' * b) * a;
    if sign == 1 {
      assert x * a == v * a;
    } else {
      assert x * a == -(v * a);
    }
  }

  lemma ShapeStep(d: seq<int>, w: nat, bit: nat, now: nat, x: int)
    requires w >= 2 && 1 <= now <= w && bit + now <= |d|
    requires WindowShape(d, w, bit) && WindowDigit(w, x)
    requires now == w || bit + now == |d|
    ensures WindowShape(d[bit := x], w, bit + now)
  {
  }

  lemma SignedDigit(w: nat, v: int, sign: int)
    requires w >= 1 && WindowDigit(w, v) && (sign == 1 || sign == -1)
    ensures WindowDigit(w, sign * v) && (sign * v == 0 <==> v == 0)
  {
  }

  /** What the loop keeps: the digits written, the carry, and where the last nonzero digit is. That
      digit starts at a set bit of s, or one above. */
  ghost predicate WnafLoop(d: seq<int>, s: int, sign: int, w: nat, bit: nat, carry: int, last: int)
    requires bit <= |d| && w >= 2
  {
    && WindowValue(d, s % Pow2(bit), sign, bit, carry)
    && CarryBacked(s, bit, carry)
    && WindowShape(d, w, bit)
    && -1 <= last < bit
    && (last >= 0 ==> d[last] != 0)
    && (forall i :: last < i < |d| ==> d[i] == 0)
    && (last >= 1 ==> Pow2(last - 1) <= s)
  }

  lemma SetBit(s: int, i: nat)
    requires s >= 0 && Bit(s, i) == 1
    ensures Pow2(i) <= s
  {
    if s < Pow2(i) {
      DivIs(s, Pow2(i), 0, s);
    }
  }

  /** A window starts at a set bit, or just above the one that backs its carry. */
  lemma WindowStart(s: int, bit: nat, carry: int)
    requires s >= 0 && CarryBacked(s, bit, carry) && Bit(s, bit) != carry && bit >= 1
    ensures Pow2(bit - 1) <= s
  {
    if carry == 1 {
      SetBit(s, bit - 1);
    } else {
      SetBit(s, bit);
      Pow2Monotone(bit - 1, bit);
    }
  }

  lemma SkipKeeps(d: seq<int>, s: int, sign: int, w: nat, bit: nat, carry: int, last: int)
    requires bit < |d| && w >= 2 && WnafLoop(d, s, sign, w, bit, carry, last)
    requires Bits(s, bit, 1) == carry
    ensures WnafLoop(d, s, sign, w, bit + 1, carry, last)
  {
    BitIsField(s, bit);
    LowBitsSplit(s, bit, 1);
    SkipBit(d, s % Pow2(bit), sign, bit, carry);
  }

  lemma WindowKeeps(d: seq<int>, s: int, sign: int, w: nat, bit: nat, carry: int, last: int, now: nat, carry': int)
    requires s >= 0 && bit < |d| && w >= 2 && WnafLoop(d, s, sign, w, bit, carry, last)
    requires Bits(s, bit, 1) != carry
    requires now == if w > |d| - bit then |d| - bit else w
    requires carry' == ((Bits(s, bit, now) + carry) / Pow2(w - 1)) % 2
    ensures var v := Bits(s, bit, now) + carry - carry' * Pow2(w);
      WnafLoop(d[bit := sign * v], s, sign, w, bit + now, carry', bit)
  {
    var f := Bits(s, bit, now);
    var v := f + carry - carry' * Pow2(w);
    BitIsField(s, bit);
    WindowFacts(s, bit, carry, now, w, carry');
    LowBitsSplit(s, bit, now);
    TakeWindow(d, s % Pow2(bit), sign, bit, carry, now, w, carry', f);
    SignedDigit(w, v, sign);
    ShapeStep(d, w, bit, now, sign * v);
    if bit >= 1 {
      WindowStart(s, bit, carry);
    }
  }

  /** Writes the sliding-window digits of the signed value of a; the result is one past the
      last nonzero digit, and at most one more than the bits of the absolute value. The digits add up
      to that value cut to len bits, less the carry out; and there is no carry when bit len - 1 of the
      absolute value is clear. */
  method EcmultWnaf(wnaf: array<int>, len: nat, a: int, w: nat) returns (used: nat, ghost carryOut: int)
    requires len <= 256 && wnaf.Length == len && 0 <= a < N && 2 <= w <= 31
    modifies wnaf
    ensures used <= len && (used > 0 ==> wnaf[used - 1] != 0)
    ensures forall k: nat :: Abs(Signed(a)) < Pow2(k) ==> used <= k + 1
    ensures forall i :: used <= i < len ==> wnaf[i] == 0
    ensures forall i :: 0 <= i < len ==> WindowDigit(w, wnaf[i])
    ensures Sparse(wnaf[..], w)
    ensures WindowValue(wnaf[..], Abs(Signed(a)) % Pow2(len), Sign(Signed(a)), len, carryOut)
    ensures CarryBacked(Abs(Signed(a)), len, carryOut)
    ensures Signed(a) == 0 || (len > 0 && Abs(Signed(a)) < Pow2(len - 1)) ==>
      carryOut == 0 && Radix(1, wnaf[..], len) == Signed(a)
  {
    hide *;
    var lastSetBit := -1;
    var bit := 0;
    var sign := 1;
    var carry := 0;
    for i := 0 to len
      invariant forall k :: 0 <= k < i ==> wnaf[k] == 0
    {
      wnaf[i] := 0;
    }
    var s := a;
    if Bits(s, 255, 1) == 1 {
      s := N - s;
      sign := -1;
    }
    SignedRange(a);
    ghost var d := wnaf[..];
    WnafStart(d, s, sign, w);
    while bit < len
      invariant 0 <= bit <= len
      invariant d == wnaf[..]
      invariant WnafLoop(d, s, sign, w, bit, carry, lastSetBit)
    {
      if Bits(s, bit, 1) == carry {
        SkipKeeps(d, s, sign, w, bit, carry, lastSetBit);
        bit := bit + 1;
        continue;
      }
      var now := w;
      if now > len - bit {
        now := len - bit;
      }
      var word := Bits(s, bit, now) + carry;
      ghost var pending := carry;
      carry := (word / Pow2(w - 1)) % 2;
      WindowKeeps(d, s, sign, w, bit, pending, lastSetBit, now, carry);
      word := word - carry * Pow2(w);
      wnaf[bit] := sign * word;
      d := d[bit := sign * word];
      lastSetBit := bit;
      bit := bit + now;
    }
    WnafFinish(d, s, sign, w, carry, lastSetBit);
    WnafLength(d, s, sign, w, carry, lastSetBit);
    used := lastSetBit + 1;
    carryOut := carry;
  }

  lemma WnafStart(d: seq<int>, s: int, sign: int, w: nat)
    requires w >= 2 && (sign == 1 || sign == -1)
    requires forall i :: 0 <= i < |d| ==> d[i] == 0
    ensures WnafLoop(d, s, sign, w, 0, 0, -1)
  {
  }

  lemma WnafFinish(d: seq<int>, s: int, sign: int, w: nat, carry: int, last: int)
    requires s >= 0 && w >= 2 && WnafLoop(d, s, sign, w, |d|, carry, last)
    ensures -1 <= last < |d| && (last >= 0 ==> d[last] != 0) && (forall i :: last < i < |d| ==> d[i] == 0)
    ensures (forall i :: 0 <= i < |d| ==> WindowDigit(w, d[i])) && Sparse(d, w)
    ensures WindowValue(d, s % Pow2(|d|), sign, |d|, carry) && CarryBacked(s, |d|, carry)
    ensures s == 0 || (|d| > 0 && s < Pow2(|d| - 1)) ==> carry == 0 && Radix(1, d, |d|) == sign * s
  {
    if s == 0 || (|d| > 0 && s < Pow2(|d| - 1)) {
      FinalCarry(d, s, sign, carry);
    }
  }

  lemma WnafLength(d: seq<int>, s: int, sign: int, w: nat, carry: int, last: int)
    requires s >= 0 && w >= 2 && WnafLoop(d, s, sign, w, |d|, carry, last)
    ensures forall k: nat :: s < Pow2(k) ==> last <= k
  {
    hide WindowValue, CarryBacked, WindowShape, Pow2;
    forall k: nat | s < Pow2(k)
      ensures last <= k
    {
      if k < last {
        Pow2Monotone(k, last - 1);
      }
    }
  }

  function Sign(x: int): int { if x < 0 then -1 else 1 }

  lemma SignedRange(a: int)
    requires 0 <= a < N
    ensures var neg := Bits(a, 255, 1) == 1;
      && Abs(Signed(a)) == (if neg then N - a else a)
      && Sign(Signed(a)) == (if neg then -1 else 1)
      && Signed(a) == Sign(Signed(a)) * Abs(Signed(a))
  {
    BitIsField(a, 255);
  }

  /** With the top bit of s clear nothing is carried out, and the digits are all of s. */
  lemma FinalCarry(d: seq<int>, s: int, sign: int, carry: int)
    requires s >= 0 && WindowValue(d, s % Pow2(|d|), sign, |d|, carry) && CarryBacked(s, |d|, carry)
    requires s == 0 || (|d| > 0 && s < Pow2(|d| - 1))
    ensures carry == 0 && Radix(1, d, |d|) == sign * s
  {
    if |d| > 0 {
      DivIs(s, Pow2(|d| - 1), 0, s);
      Pow2Monotone(|d| - 1, |d|);
      DivIs(s, Pow2(|d|), 0, s);
    }
  }
}
