/** DER signatures: a sequence of two integers, read and written in distinguished encoding. */
module Der {
  import opened Arith
  import opened Bytes
  import opened Scalars

  // ----- big-endian numbers -----

  ghost function FromBE(s: seq<byte>): (v: nat) {
    if s == [] then 0 else FromBE(s[..|s| - 1]) * 0x100 + s[|s| - 1]
  }

  /** The shortest big-endian form; empty for 0. */
  ghost function ToBE(n: nat): (s: seq<byte>)
    ensures n > 0 ==> s != [] && s[0] != 0
  {
    if n == 0 then [] else ToBE(n / 0x100) + [n % 0x100]
  }

  /** The k low bytes of v, most significant first. */
  function Fixed(v: nat, k: nat): (s: seq<byte>)
    ensures |s| == k
  {
    if k == 0 then [] else Fixed(v / 0x100, k - 1) + [v % 0x100]
  }

  lemma {:induction false} FromToBE(n: nat)
    ensures FromBE(ToBE(n)) == n
  {
    if n > 0 {
      FromToBE(n / 0x100);
      assert ToBE(n)[..|ToBE(n)| - 1] == ToBE(n / 0x100);
    }
  }

  lemma ToBEStep(v: nat, b: byte)
    requires v > 0 || b > 0
    ensures ToBE(v * 0x100 + b) == ToBE(v) + [b]
  {
    DivIs(v * 0x100 + b, 0x100, v, b);
  }

  lemma {:induction false} ToFromBE(s: seq<byte>)
    requires s != [] ==> s[0] != 0
    ensures ToBE(FromBE(s)) == s
    ensures s != [] ==> FromBE(s) > 0
  {
    if s != [] {
      var t := s[..|s| - 1];
      ToFromBE(t);
      var v, b := FromBE(t), s[|s| - 1];
      assert FromBE(s) == v * 0x100 + b;
      ToBEStep(v, b);
      hide FromBE, ToBE;
      assert s == t + [b];
    }
  }

  lemma {:induction false} FromFixed(v: nat, k: nat)
    requires v < Pow2(8 * k)
    ensures FromBE(Fixed(v, k)) == v
    decreases k
  {
    if k == 0 {
      assert Pow2(0) == 1;
    } else {
      Pow2Add(8, 8 * (k - 1));
      Pow2Values();
      FromFixed(v / 0x100, k - 1);
      assert Fixed(v, k)[..k - 1] == Fixed(v / 0x100, k - 1);
    }
  }

  lemma BytePower(k: nat)
    ensures Pow2(8 * (k + 1)) == 0x100 * Pow2(8 * k)
  {
    Pow2Add(8, 8 * k);
    Pow2Values();
  }

  lemma UpperStep(v: int, b: byte, w: int)
    requires v < w
    ensures v * 0x100 + b < 0x100 * w
  {
  }

  lemma LowerStep(f: int, v: int, b: byte, w: int)
    requires f * w <= v
    ensures f * (0x100 * w) <= v * 0x100 + b
  {
    assert f * (0x100 * w) == 0x100 * (f * w);
  }

  /** k bytes hold a number below 256^k, and at least 256^(k-1) times the first byte. */
  lemma {:induction false} FromBEBounds(s: seq<byte>)
    ensures FromBE(s) < Pow2(8 * |s|)
    ensures s != [] ==> s[0] * Pow2(8 * (|s| - 1)) <= FromBE(s)
  {
    assert Pow2(0) == 1;
    if s != [] {
      var t, b := s[..|s| - 1], s[|s| - 1];
      var v := FromBE(t);
      assert FromBE(s) == v * 0x100 + b;
      FromBEBounds(t);
      BytePower(|t|);
      hide FromBE, Pow2;
      UpperStep(v, b, Pow2(8 * |t|));
      if t != [] {
        BytePower(|t| - 1);
        assert t[0] == s[0];
        LowerStep(s[0], v, b, Pow2(8 * (|t| - 1)));
      }
    }
  }

  /** A leading zero byte adds nothing. */
  lemma {:induction false} LeadingZero(s: seq<byte>)
    ensures FromBE([0] + s) == FromBE(s)
  {
    if s == [] {
      assert ([0] + s)[..0] == [];
    } else {
      LeadingZero(s[..|s| - 1]);
      assert ([0] + s)[..|s|] == [0] + s[..|s| - 1];
    }
  }

  lemma {:induction false} ZeroPadded(k: nat, s: seq<byte>)
    ensures FromBE(Zeros(k) + s) == FromBE(s)
  {
    if k == 0 {
      assert Zeros(0) + s == s;
    } else {
      ZeroPadded(k - 1, s);
      LeadingZero(Zeros(k - 1) + s);
      assert Zeros(k) + s == [0] + (Zeros(k - 1) + s);
    }
  }

  lemma {:induction false} ToBELength(n: nat, k: nat)
    requires n < Pow2(8 * k)
    ensures |ToBE(n)| <= k
    decreases k
  {
    if k == 0 {
      assert Pow2(0) == 1;
    } else if n > 0 {
      BytePower(k - 1);
      ToBELength(n / 0x100, k - 1);
    }
  }

  // ----- the encoding -----

  /** Length octets in the shortest form: sections 8.1.3 and 10.1 of X.690. */
  ghost function Length(n: nat): (s: seq<byte>)
    requires n < Pow2(64)
    ensures |s| >= 1
  {
    ToBELength(n, 8);
    if n < 128 then [n] else [0x80 + |ToBE(n)|] + ToBE(n)
  }

  /** Contents octets of an integer in the fewest octets: section 8.3.2 of X.690. */
  predicate Minimal(c: seq<byte>) {
    && |c| >= 1
    && (|c| > 1 && c[0] == 0x00 ==> c[1] >= 0x80)
    && (|c| > 1 && c[0] == 0xFF ==> c[1] < 0x80)
  }

  /** The two's complement value of contents octets. */
  ghost function IntValue(c: seq<byte>): int
    requires |c| >= 1
  {
    if c[0] < 0x80 then FromBE(c) else FromBE(c) - Pow2(8 * |c|)
  }

  /** One octet below 128; otherwise the number of octets that follow, with the high bit set, and the
      length in big-endian order without a leading zero. */
  lemma LengthIs(n: nat)
    requires n < Pow2(64)
    ensures n < 128 ==> Length(n) == [n]
    ensures n >= 128 ==> var s := Length(n);
      2 <= |s| <= 9 && s[0] == 0x80 + |s| - 1 && s[1] != 0 && FromBE(s[1..]) == n
  {
    ToBELength(n, 8);
    FromToBE(n);
    hide ToBE, FromBE, Pow2;
    if n >= 128 {
      assert Length(n)[1..] == ToBE(n);
    }
  }

  /** The first octet's share of a big-endian number. */
  lemma {:induction false} FromBESplit(s: seq<byte>)
    requires s != []
    ensures FromBE(s) == s[0] * Pow2(8 * (|s| - 1)) + FromBE(s[1..])
  {
    var t := s[..|s| - 1];
    assert FromBE(s) == FromBE(t) * 0x100 + s[|s| - 1];
    if t == [] {
      assert Pow2(0) == 1 && s[1..] == [];
    } else {
      FromBESplit(t);
      BytePower(|t| - 1);
      assert s[1..][..|s| - 2] == t[1..];
      assert FromBE(s[1..]) == FromBE(t[1..]) * 0x100 + s[|s| - 1];
      hide FromBE, Pow2;
      SplitStep(s[0], Pow2(8 * (|t| - 1)), FromBE(t[1..]), s[|s| - 1]);
    }
  }

  lemma SplitStep(x: int, w: int, v: int, b: int)
    ensures (x * w + v) * 0x100 + b == x * (0x100 * w) + (v * 0x100 + b)
  {
    assert x * (0x100 * w) == (x * w) * 0x100;
  }

  /** k octets hold the numbers from -2^(8k-1) up to 2^(8k-1), that itself excluded. */
  lemma IntRange(c: seq<byte>)
    requires |c| >= 1
    ensures -(0x80 * Pow2(8 * (|c| - 1))) <= IntValue(c) < 0x80 * Pow2(8 * (|c| - 1))
  {
    FromBESplit(c);
    FromBEBounds(c[1..]);
    BytePower(|c| - 1);
    hide FromBE, Pow2;
    var w := Pow2(8 * (|c| - 1));
    if c[0] < 0x80 {
      MulMono(c[0], 0x7F, w);
      MulMono(0, c[0], w);
    } else {
      MulMono(0x80, c[0], w);
      MulMono(c[0], 0xFF, w);
    }
  }

  /** A first octet that only repeats the sign can be left out. */
  lemma SignRepeated(c: seq<byte>)
    requires |c| > 1 && ((c[0] == 0x00 && c[1] < 0x80) || (c[0] == 0xFF && c[1] >= 0x80))
    ensures IntValue(c[1..]) == IntValue(c)
  {
    FromBESplit(c);
    BytePower(|c| - 1);
    hide FromBE, Pow2;
  }

  /** One that does not puts the number out of reach of fewer octets. */
  lemma OutOfReach(c: seq<byte>)
    requires Minimal(c) && |c| > 1
    ensures var w := Pow2(8 * (|c| - 2)); IntValue(c) >= 0x80 * w || IntValue(c) < -(0x80 * w)
  {
    FromBESplit(c);
    FromBESplit(c[1..]);
    FromBEBounds(c[1..]);
    FromBEBounds(c[2..]);
    BytePower(|c| - 1);
    BytePower(|c| - 2);
    assert c[1..][1..] == c[2..];
    hide FromBE, Pow2;
    ReachOf(c[0], c[1], Pow2(8 * (|c| - 2)), FromBE(c[2..]));
  }

  lemma ReachOf(x: byte, y: byte, w: nat, v: nat)
    requires w >= 1 && v < w && !(x == 0x00 && y < 0x80) && !(x == 0xFF && y >= 0x80)
    ensures var n := x * (0x100 * w) + (y * w + v);
      if x < 0x80 then n >= 0x80 * w else n - 0x10000 * w < -(0x80 * w)
  {
    var n := x * (0x100 * w) + (y * w + v);
    assert x * (0x100 * w) == (0x100 * x) * w;
    assert n == (0x100 * x + y) * w + v by {
      assert (0x100 * x + y) * w == (0x100 * x) * w + y * w;
    }
    if x < 0x80 {
      MulMono(0x80, 0x100 * x + y, w);
    } else {
      MulMono(0x100 * x + y, 0xFF7F, w);
    }
  }

  /** Section 8.3.2 of X.690 in terms of values: contents are minimal exactly when no shorter ones
      stand for the same integer. */
  lemma FewestOctets(c: seq<byte>)
    requires |c| >= 1
    ensures Minimal(c) <==> forall d: seq<byte> :: 1 <= |d| < |c| ==> IntValue(d) != IntValue(c)
  {
    if Minimal(c) {
      forall d: seq<byte> | 1 <= |d| < |c|
        ensures IntValue(d) != IntValue(c)
      {
        OutOfReach(c);
        IntRange(d);
        Pow2Monotone(8 * (|d| - 1), 8 * (|c| - 2));
        hide IntValue, Pow2;
      }
    } else {
      SignRepeated(c);
    }
  }

  ghost predicate ShortEnough(c: seq<byte>) {
    |c| < Pow2(64)
  }

  ghost function Tlv(tag: byte, c: seq<byte>): seq<byte>
    requires ShortEnough(c)
  {
    [tag] + Length(|c|) + c
  }

  ghost predicate Pair(cr: seq<byte>, cs: seq<byte>) {
    ShortEnough(cr) && ShortEnough(cs) && ShortEnough(Tlv(0x02, cr) + Tlv(0x02, cs))
  }

  ghost function Encoding(cr: seq<byte>, cs: seq<byte>): seq<byte>
    requires Pair(cr, cs)
  {
    Tlv(0x30, Tlv(0x02, cr) + Tlv(0x02, cs))
  }

  /** What an integer stands for as a scalar: itself, or 0 when it is out of range. */
  ghost function Clip(v: int): int {
    if 0 <= v < N then v else 0
  }

  /** sig is the encoding of two integers that stand for r and s. */
  ghost predicate Parses(sig: seq<byte>, r: int, s: int) {
    exists cr, cs :: Reads(sig, cr, cs) && r == Clip(IntValue(cr)) && s == Clip(IntValue(cs))
  }

  ghost predicate Reads(sig: seq<byte>, cr: seq<byte>, cs: seq<byte>) {
    Minimal(cr) && Minimal(cs) && Pair(cr, cs) && sig == Encoding(cr, cs)
  }

  // ----- reading -----

  /** The octets from pos up to e are the length octets of n. */
  ghost predicate LenAt(sig: seq<byte>, pos: nat, n: nat, e: nat) {
    pos <= e <= |sig| && n < Pow2(64) && sig[pos..e] == Length(n)
  }

  /** What length octets look like to the reader. */
  lemma LenShape(sig: seq<byte>, pos: nat, n: nat, e: nat)
    requires LenAt(sig, pos, n, e)
    ensures pos < |sig|
    ensures n < 128 ==> sig[pos] == n && e == pos + 1
    ensures n >= 128 ==> var k: int := (sig[pos] as int) - 0x80;
      1 <= k <= 8 && e == pos + 1 + k && sig[pos + 1] != 0 && FromBE(sig[pos + 1..e]) == n
  {
    var s := sig[pos..e];
    assert sig[pos] == s[0];
    if n >= 128 {
      ToBELength(n, 8);
      FromToBE(n);
      assert s[1..] == ToBE(n);
      assert sig[pos + 1..e] == s[1..];
      assert sig[pos + 1] == s[1];
    }
  }

  /** Accepts exactly the length octets in the shortest form. A length of two or more octets must
      also fit what is left; one of a single octet is left to the caller to check. */
  method ReadLen(sig: seq<byte>, pos: nat) returns (ok: bool, len: nat, next: nat)
    requires pos <= |sig| < Pow2(64)
    ensures ok ==> LenAt(sig, pos, len, next) && (len < 128 || len <= |sig| - next)
    ensures forall n: nat, e: nat :: LenAt(sig, pos, n, e) && (n < 128 || n <= |sig| - e) ==>
      ok && len == n && next == e
  {
    Pow2Values();
    hide FromBE, ToBE, Pow2, LenAt;
    forall n: nat, e: nat | LenAt(sig, pos, n, e)
      ensures pos < |sig|
      ensures n < 128 ==> sig[pos] == n && e == pos + 1
      ensures n >= 128 ==> var k: int := (sig[pos] as int) - 0x80;
        1 <= k <= 8 && e == pos + 1 + k && e <= |sig| && sig[pos + 1] != 0 && FromBE(sig[pos + 1..e]) == n
    {
      LenShape(sig, pos, n, e);
      LenInside(sig, pos, n, e);
    }
    len, next := 0, pos;
    if pos >= |sig| {
      return false, len, next;
    }
    var b1 := sig[next];
    next := next + 1;
    if b1 == 0xFF {
      return false, len, next;
    }
    if b1 < 0x80 {
      len := b1;
      ShortLength(sig, pos);
      return true, len, next;
    }
    if b1 == 0x80 {
      return false, len, next;
    }
    var lenleft := b1 - 0x80;
    if lenleft > |sig| - next {
      return false, len, next;
    }
    if sig[next] == 0 {
      return false, len, next;
    }
    if lenleft > 8 {
      return false, len, next;
    }
    ghost var k := lenleft;
    EmptyBE(sig, next);
    while lenleft > 0
      invariant 0 <= lenleft <= k && next == pos + 1 + (k - lenleft) <= |sig|
      invariant len == FromBE(sig[pos + 1..next])
    {
      NextByte(sig, pos + 1, next);
      // the old length has fewer than eight octets, so the shift loses nothing
      len := (len * 0x100) % 0x1_00000000_00000000 + sig[next];
      next := next + 1;
      lenleft := lenleft - 1;
    }
    if len > |sig| - next {
      return false, len, next;
    }
    if len < 128 {
      return false, len, next;
    }
    LongLength(sig, pos, next, len);
    ok := true;
  }

  lemma LenInside(sig: seq<byte>, pos: nat, n: nat, e: nat)
    requires LenAt(sig, pos, n, e)
    ensures e <= |sig|
  {
  }

  lemma EmptyBE(sig: seq<byte>, p: nat)
    requires p <= |sig|
    ensures FromBE(sig[p..p]) == 0
  {
  }

  lemma NextByte(sig: seq<byte>, from: nat, next: nat)
    requires from <= next < |sig| && next - from < 8
    ensures FromBE(sig[from..next + 1]) == FromBE(sig[from..next]) * 0x100 + sig[next]
    ensures FromBE(sig[from..next]) * 0x100 < 0x1_00000000_00000000
  {
    var t := sig[from..next];
    assert sig[from..next + 1][..|t|] == t;
    FromBEBounds(t);
    BytePower(|t|);
    Pow2Monotone(8 * (|t| + 1), 64);
    Pow2Values();
  }

  lemma ShortLength(sig: seq<byte>, pos: nat)
    requires pos < |sig| && sig[pos] < 0x80
    ensures LenAt(sig, pos, sig[pos], pos + 1)
  {
    Pow2Values();
    assert sig[pos..pos + 1] == [sig[pos]];
  }

  lemma LongLength(sig: seq<byte>, pos: nat, next: nat, len: nat)
    requires pos + 1 < next <= |sig| && sig[pos] == 0x80 + (next - pos - 1) && sig[pos + 1] != 0
    requires 128 <= len < Pow2(64) && len == FromBE(sig[pos + 1..next])
    ensures LenAt(sig, pos, len, next)
  {
    ToFromBE(sig[pos + 1..next]);
    assert sig[pos..next] == [sig[pos]] + sig[pos + 1..next];
  }

  /** The octets from pos up to e encode an integer with contents c. */
  ghost predicate IntAt(sig: seq<byte>, pos: nat, c: seq<byte>, e: nat) {
    Minimal(c) && ShortEnough(c) && pos <= e <= |sig| && sig[pos..e] == Tlv(0x02, c)
  }

  lemma SliceOfSlice(s: seq<byte>, from: nat, to: nat, i: nat, j: nat)
    requires from <= to <= |s| && i <= j <= to - from
    ensures s[from..to][i..j] == s[from + i..from + j]
  {
    var x, y := s[from..to][i..j], s[from + i..from + j];
    assert |x| == |y|;
    forall k | 0 <= k < |x|
      ensures x[k] == y[k]
    {
      assert x[k] == s[from..to][i + k];
      assert y[k] == s[from + i + k];
    }
  }

  lemma IntIs(sig: seq<byte>, pos: nat, c: seq<byte>, e: nat)
    requires IntAt(sig, pos, c, e)
    ensures |c| < Pow2(64) && pos <= e <= |sig| && sig[pos..e] == [0x02] + Length(|c|) + c
  {
    hide Length, Minimal;
  }

  lemma TlvSlices(sig: seq<byte>, pos: nat, e: nat, t: byte, l: seq<byte>, c: seq<byte>) returns (m: nat)
    requires pos <= e <= |sig| && sig[pos..e] == [t] + l + c
    ensures m == e - |c| && pos < m <= e && sig[pos] == t
    ensures sig[pos + 1..m] == l && sig[m..e] == c
  {
    var s := sig[pos..e];
    assert |s| == 1 + |l| + |c|;
    m := pos + 1 + |l|;
    assert s[0] == t && s[1..1 + |l|] == l && s[1 + |l|..1 + |l| + |c|] == c;
    SliceOfSlice(sig, pos, e, 1, 1 + |l|);
    SliceOfSlice(sig, pos, e, 1 + |l|, 1 + |l| + |c|);
  }

  lemma IntShape(sig: seq<byte>, pos: nat, c: seq<byte>, e: nat)
    requires IntAt(sig, pos, c, e)
    ensures pos < |sig| && sig[pos] == 0x02 && pos + 1 <= e - |c|
    ensures LenAt(sig, pos + 1, |c|, e - |c|) && sig[e - |c|..e] == c && e <= |sig|
  {
    hide *;
    IntIs(sig, pos, c, e);
    var m := TlvSlices(sig, pos, e, 0x02, Length(|c|), c);
    LenAtBy(sig, pos + 1, |c|, m);
  }

  lemma IntFrom(sig: seq<byte>, pos: nat, mid: nat, c: seq<byte>, e: nat)
    requires pos < mid <= e <= |sig| && sig[pos] == 0x02 && LenAt(sig, pos + 1, |c|, mid)
    requires sig[mid..e] == c && Minimal(c)
    ensures IntAt(sig, pos, c, e)
  {
    assert sig[pos..e] == [sig[pos]] + sig[pos + 1..mid] + sig[mid..e];
  }

  /** A 32-octet number reduced modulo N, and whether it had to be. */
  method SetB32(b: seq<byte>) returns (r: int, overflow: bool)
    requires |b| == 32
    ensures r == FromBE(b) % N && (overflow <==> FromBE(b) >= N)
  {
    var v := 0;
    EmptyBE(b, 0);
    for i := 0 to 32
      invariant v == FromBE(b[0..i])
    {
      assert b[0..i + 1][..i] == b[0..i];
      v := v * 0x100 + b[i];
    }
    assert b[0..32] == b;
    r, overflow := v % N, v >= N;
  }

  /** The value of non-negative contents, without their leading zero octet. */
  lemma SkippedZero(c: seq<byte>)
    requires Minimal(c) && c[0] < 0x80
    ensures var d := if c[0] == 0 then c[1..] else c;
      IntValue(c) == FromBE(d) && (|d| > 32 ==> FromBE(d) >= N)
  {
    var d := if c[0] == 0 then c[1..] else c;
    if c[0] == 0 {
      LeadingZero(d);
      assert [0] + d == c;
    }
    if |d| > 32 {
      FromBEBounds(d);
      Pow2Monotone(256, 8 * (|d| - 1));
      Pow2Values();
      MulMono(1, d[0], Pow2(8 * (|d| - 1)));
    }
  }

  lemma NegativeContents(c: seq<byte>)
    requires |c| >= 1 && c[0] >= 0x80
    ensures IntValue(c) < 0
  {
    FromBEBounds(c);
  }

  method ParseInteger(sig: seq<byte>, pos: nat) returns (ok: bool, r: int, next: nat, ghost c: seq<byte>)
    requires pos <= |sig| < Pow2(64)
    ensures ok ==> IntAt(sig, pos, c, next) && r == Clip(IntValue(c))
    ensures forall d: seq<byte>, e: nat :: IntAt(sig, pos, d, e) ==> ok && c == d && next == e
  {
    hide FromBE, ToBE, Pow2, LenAt, IntAt, Minimal, IntValue;
    forall d: seq<byte>, e: nat | IntAt(sig, pos, d, e)
      ensures pos < |sig| && sig[pos] == 0x02 && pos + 1 <= e - |d| && e <= |sig|
      ensures LenAt(sig, pos + 1, |d|, e - |d|) && sig[e - |d|..e] == d && Minimal(d)
    {
      IntShape(sig, pos, d, e);
      IntContents(sig, pos, d, e);
    }
    r, next, c := 0, pos, [];
    if pos == |sig| || sig[pos] != 0x02 {
      return false, r, next, c;
    }
    next := next + 1;
    var got, rlen;
    got, rlen, next := ReadLen(sig, next);
    if !got {
      return false, r, next, c;
    }
    LenInside(sig, pos + 1, rlen, next);
    LenStart(sig, pos + 1, rlen, next);
    if rlen == 0 || rlen > |sig| - next {
      NoContents();
      return false, r, next, c;
    }
    ghost var mid, stop := next, next + rlen;
    c := sig[mid..stop];
    MinimalIs(c);
    if sig[next] == 0x00 && rlen > 1 && sig[next + 1] < 0x80 {
      return false, r, next, c;
    }
    if sig[next] == 0xFF && rlen > 1 && sig[next + 1] >= 0x80 {
      return false, r, next, c;
    }
    var overflow := false;
    if sig[next] >= 0x80 {
      overflow := true;
      NegativeContents(c);
    } else {
      SkippedZero(c);
    }
    if rlen > 0 && sig[next] == 0 {
      rlen := rlen - 1;
      next := next + 1;
    }
    assert sig[next..stop] == if c[0] == 0 then c[1..] else c;
    if rlen > 32 {
      overflow := true;
    }
    if !overflow {
      ZeroPadded(32 - rlen, sig[next..next + rlen]);
      r, overflow := SetB32(Zeros(32 - rlen) + sig[next..next + rlen]);
      DivModSmall(IntValue(c));
    }
    if overflow {
      r := 0;
    }
    next := next + rlen;
    IntFrom(sig, pos, mid, c, stop);
    ok := true;
  }

  lemma IntContents(sig: seq<byte>, pos: nat, c: seq<byte>, e: nat)
    requires IntAt(sig, pos, c, e)
    ensures Minimal(c)
  {
  }

  lemma LenStart(sig: seq<byte>, pos: nat, n: nat, e: nat)
    requires LenAt(sig, pos, n, e)
    ensures pos <= e
  {
  }

  lemma NoContents()
    ensures !Minimal([])
  {
  }

  lemma MinimalIs(c: seq<byte>)
    ensures Minimal(c) <==>
      |c| >= 1 && !(c[0] == 0x00 && |c| > 1 && c[1] < 0x80) && !(c[0] == 0xFF && |c| > 1 && c[1] >= 0x80)
  {
  }

  lemma DivModSmall(v: int)
    ensures 0 <= v < N ==> v % N == v
  {
  }

  lemma EncodingIs(cr: seq<byte>, cs: seq<byte>)
    requires Pair(cr, cs)
    ensures Encoding(cr, cs) == [0x30] + Length(|Tlv(0x02, cr) + Tlv(0x02, cs)|) + (Tlv(0x02, cr) + Tlv(0x02, cs))
  {
  }

  /** The sequence header and both integers in their places. */
  lemma SignatureShape(sig: seq<byte>, cr: seq<byte>, cs: seq<byte>) returns (start: nat, mid: nat)
    requires |sig| < Pow2(64) && Reads(sig, cr, cs)
    ensures 1 <= start <= mid <= |sig| && sig[0] == 0x30
    ensures LenAt(sig, 1, |sig| - start, start)
    ensures IntAt(sig, start, cr, mid) && IntAt(sig, mid, cs, |sig|)
  {
    hide *;
    ReadsIs(sig, cr, cs);
    EncodingIs(cr, cs);
    var a, b := Tlv(0x02, cr), Tlv(0x02, cs);
    var l := Length(|a + b|);
    start, mid := FourParts(sig, 0x30, l, a, b);
    LenAtBy(sig, 1, |a + b|, start);
    IntAtBy(sig, start, cr, mid);
    IntAtBy(sig, mid, cs, |sig|);
  }

  lemma ReadsIs(sig: seq<byte>, cr: seq<byte>, cs: seq<byte>)
    requires Reads(sig, cr, cs)
    ensures Minimal(cr) && Minimal(cs) && Pair(cr, cs) && sig == Encoding(cr, cs)
    ensures ShortEnough(cr) && ShortEnough(cs) && |Tlv(0x02, cr) + Tlv(0x02, cs)| < Pow2(64)
  {
    hide Minimal, Encoding;
  }

  lemma LenAtBy(sig: seq<byte>, pos: nat, n: nat, e: nat)
    requires pos <= e <= |sig| && n < Pow2(64) && sig[pos..e] == Length(n)
    ensures LenAt(sig, pos, n, e)
  {
  }

  lemma IntAtBy(sig: seq<byte>, pos: nat, c: seq<byte>, e: nat)
    requires Minimal(c) && ShortEnough(c) && pos <= e <= |sig| && sig[pos..e] == Tlv(0x02, c)
    ensures IntAt(sig, pos, c, e)
  {
  }

  /** Where the parts of a concatenation are. */
  lemma FourParts(s: seq<byte>, t: byte, l: seq<byte>, a: seq<byte>, b: seq<byte>) returns (i: nat, j: nat)
    requires s == [t] + l + (a + b)
    ensures 1 <= i <= j <= |s| && i == |s| - |a + b| && s[0] == t
    ensures s[1..i] == l && s[i..j] == a && s[j..|s|] == b
  {
    i := 1 + |l|;
    j := i + |a|;
    assert s[1..i] == l && s[i..] == a + b;
    assert s[i..j] == s[i..][..|a|] && s[j..|s|] == s[i..][|a|..];
  }

  lemma PartsJoin(s: seq<byte>, t: nat, i: nat, j: nat)
    requires t <= i <= j <= |s|
    ensures s == s[..t] + s[t..i] + (s[i..j] + s[j..|s|])
  {
  }

  lemma SignatureFrom(sig: seq<byte>, start: nat, cr: seq<byte>, mid: nat, cs: seq<byte>)
    requires 1 <= start <= mid <= |sig| < Pow2(64) && sig[0] == 0x30
    requires LenAt(sig, 1, |sig| - start, start)
    requires IntAt(sig, start, cr, mid) && IntAt(sig, mid, cs, |sig|)
    ensures Reads(sig, cr, cs)
  {
    hide Length, Tlv, Minimal;
    IntContents(sig, start, cr, mid);
    IntContents(sig, mid, cs, |sig|);
    PartsJoin(sig, 1, start, mid);
    assert sig[..1] == [0x30];
    EncodingBy(sig, start, cr, cs, Tlv(0x02, cr), Tlv(0x02, cs));
  }

  lemma EncodingBy(sig: seq<byte>, start: nat, cr: seq<byte>, cs: seq<byte>, a: seq<byte>, b: seq<byte>)
    requires Minimal(cr) && Minimal(cs) && ShortEnough(cr) && ShortEnough(cs) && a == Tlv(0x02, cr)
      && b == Tlv(0x02, cs)
    requires 1 <= start <= |sig| < Pow2(64) && LenAt(sig, 1, |sig| - start, start)
    requires sig == [0x30] + sig[1..start] + (a + b)
    ensures Reads(sig, cr, cs)
  {
    hide Length, Tlv, Minimal;
    assert |sig| - start == |a + b|;
    EncodingIs(cr, cs);
  }

  /** Reads a signature. It is accepted exactly when it is the encoding of two integers, of
      whatever size; the scalars are those integers, or 0 for one that is out of range. */
  method Parse(sig: seq<byte>) returns (ok: bool, rr: int, rs: int)
    requires |sig| < Pow2(64)
    ensures ok ==> Parses(sig, rr, rs)
    ensures !ok ==> forall r, s :: !Parses(sig, r, s)
  {
    hide FromBE, Pow2, LenAt, IntAt, Minimal, IntValue, Clip, Reads, Parses;
    ghost var cr, cs;
    ok, rr, rs, cr, cs := ParseBoth(sig);
    if ok {
      ParsesBy(sig, cr, cs);
    } else {
      forall r, s
        ensures !Parses(sig, r, s)
      {
        ParsesNot(sig, r, s);
      }
    }
  }

  lemma ParsesBy(sig: seq<byte>, cr: seq<byte>, cs: seq<byte>)
    requires Reads(sig, cr, cs)
    ensures Parses(sig, Clip(IntValue(cr)), Clip(IntValue(cs)))
  {
    hide Clip, IntValue;
  }

  lemma ParsesNot(sig: seq<byte>, r: int, s: int)
    requires forall cr, cs :: !Reads(sig, cr, cs)
    ensures !Parses(sig, r, s)
  {
    hide Clip, IntValue, Reads;
  }

  method ParseBoth(sig: seq<byte>) returns (ok: bool, rr: int, rs: int, ghost cr: seq<byte>, ghost cs: seq<byte>)
    requires |sig| < Pow2(64)
    ensures ok ==> Reads(sig, cr, cs) && rr == Clip(IntValue(cr)) && rs == Clip(IntValue(cs))
    ensures !ok ==> forall c, d :: !Reads(sig, c, d)
  {
    hide FromBE, ToBE, Pow2, LenAt, IntAt, Minimal, IntValue, Reads, Clip;
    rr, rs, cr, cs := 0, 0, [], [];
    forall c, d | Reads(sig, c, d)
      ensures exists start: nat, mid: nat :: Placed(sig, start, c, mid, d)
    {
      ghost var start, mid := SignatureShape(sig, c, d);
      assert Placed(sig, start, c, mid, d);
    }
    if sig == [] || sig[0] != 0x30 {
      return false, rr, rs, cr, cs;
    }
    var pos := 1;
    var got, rlen;
    got, rlen, pos := ReadLen(sig, pos);
    if !got {
      return false, rr, rs, cr, cs;
    }
    LenInside(sig, 1, rlen, pos);
    LenStart(sig, 1, rlen, pos);
    if rlen != |sig| - pos {
      return false, rr, rs, cr, cs;
    }
    ghost var start := pos;
    got, rr, pos, cr := ParseInteger(sig, pos);
    if !got {
      return false, rr, rs, cr, cs;
    }
    IntInside(sig, start, cr, pos);
    ghost var mid := pos;
    got, rs, pos, cs := ParseInteger(sig, pos);
    if !got {
      return false, rr, rs, cr, cs;
    }
    IntInside(sig, mid, cs, pos);
    if pos != |sig| {
      return false, rr, rs, cr, cs;
    }
    SignatureFrom(sig, start, cr, mid, cs);
    ok := true;
  }

  ghost predicate Placed(sig: seq<byte>, start: nat, cr: seq<byte>, mid: nat, cs: seq<byte>) {
    && 1 <= start <= mid <= |sig| && sig[0] == 0x30 && LenAt(sig, 1, |sig| - start, start)
    && IntAt(sig, start, cr, mid) && IntAt(sig, mid, cs, |sig|)
  }

  lemma IntInside(sig: seq<byte>, pos: nat, c: seq<byte>, e: nat)
    requires IntAt(sig, pos, c, e)
    ensures pos <= e <= |sig|
  {
  }

  // ----- writing -----

  /** The contents octets of a number: its big-endian form, with a zero octet in front where the
      first bit would read as a sign. */
  ghost function Content(v: nat): (c: seq<byte>)
    ensures |c| >= 1
  {
    var b := ToBE(v);
    if b == [] || b[0] >= 0x80 then [0] + b else b
  }

  lemma ContentIs(v: nat)
    ensures Minimal(Content(v)) && Content(v)[0] < 0x80 && IntValue(Content(v)) == v
  {
    FromToBE(v);
    LeadingZero(ToBE(v));
  }

  /** The only minimal contents of a non-negative number. */
  lemma ContentOnly(c: seq<byte>)
    requires Minimal(c) && c[0] < 0x80
    ensures IntValue(c) >= 0 && c == Content(IntValue(c))
  {
    hide ToBE;
    if c[0] == 0 {
      LeadingZero(c[1..]);
      assert c == [0] + c[1..];
      ToFromBE(c[1..]);
    } else {
      ToFromBE(c);
    }
  }

  lemma ContentLength(v: int)
    requires IsScalar(v)
    ensures |Content(v)| <= 33
  {
    Pow2Values();
    ToBELength(v, 32);
  }

  lemma ShortLengthOctet(n: nat)
    requires n < 128
    ensures n < Pow2(64) && Length(n) == [n]
  {
    Pow2Values();
  }

  /** The encoding of two scalars, octet by octet. */
  lemma EncodingOf(r: int, s: int)
    requires IsScalar(r) && IsScalar(s)
    ensures var a, b := Content(r), Content(s);
      && |a| <= 33 && |b| <= 33 && Pair(a, b)
      && Encoding(a, b) == [0x30, 4 + |b| + |a|, 0x02, |a|] + a + [0x02, |b|] + b
  {
    hide Content, Length;
    ContentLength(r);
    ContentLength(s);
    var a, b := Content(r), Content(s);
    ShortLengthOctet(|a|);
    ShortLengthOctet(|b|);
    assert Tlv(0x02, a) + Tlv(0x02, b) == [0x02, |a|] + a + [0x02, |b|] + b;
    ShortLengthOctet(4 + |b| + |a|);
  }

  /** A 33-octet number without the zero octets a minimal integer leaves out. */
  method Trim(b: seq<byte>, ghost v: nat) returns (len: nat, at: nat)
    requires |b| == 33 && b[0] == 0 && FromBE(b) == v
    ensures 1 <= len <= 33 && at == 33 - len && b[at..] == Content(v)
  {
    hide FromBE, ToBE, Content;
    len, at := 33, 0;
    assert b[0..] == b;
    while len > 1 && b[at] == 0 && b[at + 1] < 0x80
      invariant 1 <= len <= 33 && at == 33 - len
      invariant b[at] < 0x80 && FromBE(b[at..]) == v
      decreases len
    {
      LeadingZero(b[at + 1..]);
      assert b[at..] == [0] + b[at + 1..];
      len := len - 1;
      at := at + 1;
    }
    ContentOnly(b[at..]);
    IntValueIs(b[at..]);
  }

  lemma IntValueIs(c: seq<byte>)
    requires |c| >= 1 && c[0] < 0x80
    ensures IntValue(c) == FromBE(c)
  {
  }

  lemma Padded(v: int)
    requires IsScalar(v)
    ensures FromBE([0] + Fixed(v, 32)) == v
  {
    Pow2Values();
    FromFixed(v, 32);
    LeadingZero(Fixed(v, 32));
  }

  /** Writes the encoding of (ar, as) when size octets are enough, and always reports the size
      that is needed. Octets behind the encoding are left alone. */
  method Serialize(sig: array<byte>, size: nat, ar: int, sa: int) returns (ok: bool, newSize: nat)
    requires size <= sig.Length && IsScalar(ar) && IsScalar(sa)
    modifies sig
    ensures Pair(Content(ar), Content(sa)) && newSize == |Encoding(Content(ar), Content(sa))|
    ensures ok <==> newSize <= size
    ensures ok ==> sig[..] == Encoding(Content(ar), Content(sa)) + old(sig[newSize..])
    ensures !ok ==> sig[..] == old(sig[..])
  {
    hide *;
    EncodingOf(ar, sa);
    Padded(ar);
    Padded(sa);
    var r := [0] + Fixed(ar, 32);
    var s := [0] + Fixed(sa, 32);
    var lenR, rp := Trim(r, ar);
    var lenS, sp := Trim(s, sa);
    if size < 6 + lenS + lenR {
      return false, 6 + lenS + lenR;
    }
    newSize := 6 + lenS + lenR;
    ghost var before := sig[..];
    sig[0] := 0x30;
    sig[1] := 4 + lenS + lenR;
    ghost var head: seq<byte> := [0x30, 4 + lenS + lenR];
    assert sig[..] == head + before[2..];
    WriteInteger(sig, 2, lenR, r[rp..], head, before);
    ghost var first := head + [0x02, lenR] + r[rp..];
    WriteInteger(sig, 4 + lenR, lenS, s[sp..], first, before);
    BothIntegers(4 + lenS + lenR, r[rp..], s[sp..]);
    ok := true;
  }

  lemma BothIntegers(n: byte, a: seq<byte>, b: seq<byte>)
    requires |a| < 0x80 && |b| < 0x80
    ensures ([0x30, n] + [0x02, |a|] + a) + [0x02, |b|] + b == [0x30, n, 0x02, |a|] + a + [0x02, |b|] + b
  {
  }

  /** Tag, length octet and contents of one integer, behind what has been written. */
  method WriteInteger(sig: array<byte>, at: nat, len: nat, c: seq<byte>, ghost written: seq<byte>,
        ghost before: seq<byte>)
    requires len == |c| < 0x80 && at + 2 + len <= sig.Length == |before|
    requires at == |written| && sig[..] == written + before[at..]
    modifies sig
    ensures sig[..] == (written + [0x02, len] + c) + before[at + 2 + len..]
  {
    hide *;
    ghost var was: seq<byte> := sig[..];
    WriteHeader(sig, at, len);
    ghost var longer: seq<byte> := written + [0x02, len];
    TwoOctets(was, before, written, 0x02, len);
    ghost var now: seq<byte> := sig[..];
    CopyInto(sig, at + 2, c);
    Extended(sig[..], before, longer, c);
  }

  method WriteHeader(sig: array<byte>, at: nat, len: nat)
    requires at + 2 <= sig.Length && len < 0x80
    modifies sig
    ensures var was: seq<byte> := old(sig[..]); sig[..] == was[at := 0x02][at + 1 := len]
  {
    sig[at] := 0x02;
    sig[at + 1] := len;
  }

  lemma TwoOctets(was: seq<byte>, before: seq<byte>, written: seq<byte>, x: byte, y: byte)
    requires |written| + 2 <= |before| && was == written + before[|written|..]
    ensures was[|written| := x][|written| + 1 := y] == (written + [x, y]) + before[|written| + 2..]
  {
  }

  /** Copying behind what has been written extends it. */
  lemma Extended(now: seq<byte>, before: seq<byte>, written: seq<byte>, b: seq<byte>)
    requires |written| + |b| <= |before|
    requires var was := written + before[|written|..]; now == was[..|written|] + b + was[|written| + |b|..]
    ensures now == (written + b) + before[|written| + |b|..]
  {
    var was := written + before[|written|..];
    assert was[..|written|] == written;
    assert was[|written| + |b|..] == before[|written| + |b|..];
  }

  // ----- round trip -----

  ghost function Encoded(r: int, s: int): (e: seq<byte>)
    requires IsScalar(r) && IsScalar(s)
  {
    EncodingOf(r, s);
    Encoding(Content(r), Content(s))
  }

  /** One byte string has one reading. */
  lemma ReadsOnce(sig: seq<byte>, cr: seq<byte>, cs: seq<byte>, dr: seq<byte>, ds: seq<byte>)
    requires |sig| < Pow2(64) && Reads(sig, cr, cs) && Reads(sig, dr, ds)
    ensures cr == dr && cs == ds
  {
    hide FromBE, ToBE, Pow2, LenAt, IntAt, Minimal, Reads;
    var u0, u := SignatureShape(sig, cr, cs);
    var w0, w := SignatureShape(sig, dr, ds);
    LenOnce(sig, 1, |sig| - u0, u0, |sig| - w0, w0);
    IntOnce(sig, u0, cr, u, dr, w);
    IntOnce(sig, u, cs, |sig|, ds, |sig|);
  }

  lemma LenOnce(sig: seq<byte>, pos: nat, n: nat, e: nat, m: nat, f: nat)
    requires LenAt(sig, pos, n, e) && LenAt(sig, pos, m, f)
    ensures n == m && e == f
  {
    LenShape(sig, pos, n, e);
    LenShape(sig, pos, m, f);
  }

  lemma IntOnce(sig: seq<byte>, pos: nat, c: seq<byte>, e: nat, d: seq<byte>, f: nat)
    requires IntAt(sig, pos, c, e) && IntAt(sig, pos, d, f)
    ensures c == d && e == f
  {
    hide FromBE, ToBE, Pow2, LenAt, IntAt;
    IntShape(sig, pos, c, e);
    IntShape(sig, pos, d, f);
    LenOnce(sig, pos + 1, |c|, e - |c|, |d|, f - |d|);
  }

  /** Two readings of one byte string agree. */
  lemma ParsesOnce(sig: seq<byte>, r: int, s: int, t: int, u: int)
    requires |sig| < Pow2(64) && Parses(sig, r, s) && Parses(sig, t, u)
    ensures r == t && s == u
  {
    hide IntValue, Clip, Pair, Encoding;
    var cr, cs :| Reads(sig, cr, cs) && r == Clip(IntValue(cr)) && s == Clip(IntValue(cs));
    var dr, ds :| Reads(sig, dr, ds) && t == Clip(IntValue(dr)) && u == Clip(IntValue(ds));
    ReadsOnce(sig, cr, cs, dr, ds);
  }

  /** What is written is read back. */
  lemma RoundTrip(r: int, s: int)
    requires IsScalar(r) && IsScalar(s)
    ensures Parses(Encoded(r, s), r, s)
    ensures |Encoded(r, s)| <= 72
  {
    EncodingOf(r, s);
    ContentIs(r);
    ContentIs(s);
    hide Content, Encoding, Minimal, IntValue;
    assert Reads(Encoded(r, s), Content(r), Content(s));
  }

  /** Strictness: a byte string carrying two integers in range is exactly what they are written as,
      zeros included. */
  lemma Canonical(sig: seq<byte>, cr: seq<byte>, cs: seq<byte>)
    requires Reads(sig, cr, cs) && 0 <= IntValue(cr) < N && 0 <= IntValue(cs) < N
    ensures sig == Encoded(IntValue(cr), IntValue(cs))
  {
    InRange(cr);
    InRange(cs);
    hide IntValue, Content, Encoding, Pair;
  }

  ghost predicate OutOfRange(c: seq<byte>)
    requires |c| >= 1
  {
    !(0 <= IntValue(c) < N)
  }

  /** sig carries an integer out of range, and r and s are what its two integers are read as. */
  ghost predicate ParsesClipped(sig: seq<byte>, r: int, s: int) {
    exists cr, cs ::
      Reads(sig, cr, cs) && r == Clip(IntValue(cr)) && s == Clip(IntValue(cs)) && (OutOfRange(cr) || OutOfRange(cs))
  }

  /** A byte string that parses is the encoding of what it is read as, or carries an integer out of
      range that is read as 0. */
  lemma WrittenOrClipped(sig: seq<byte>, r: int, s: int)
    requires IsScalar(r) && IsScalar(s)
    ensures Parses(sig, r, s) <==> sig == Encoded(r, s) || ParsesClipped(sig, r, s)
  {
    hide IntValue, Content, Encoding, Pair;
    RoundTrip(r, s);
    if Parses(sig, r, s) && sig != Encoded(r, s) {
      var cr, cs :| Reads(sig, cr, cs) && r == Clip(IntValue(cr)) && s == Clip(IntValue(cs));
      if !OutOfRange(cr) && !OutOfRange(cs) {
        Canonical(sig, cr, cs);
      }
    }
  }

  /** In particular two nonzero scalars are read from exactly one byte string. */
  lemma CanonicalNonzero(sig: seq<byte>, r: int, s: int)
    requires 0 < r < N && 0 < s < N
    ensures Parses(sig, r, s) <==> sig == Encoded(r, s)
  {
    hide IntValue, Content, Encoding, Pair, Encoded, Reads;
    WrittenOrClipped(sig, r, s);
  }

  /** Contents that stand for a number in range are that number's contents. */
  lemma InRange(c: seq<byte>)
    requires Minimal(c) && 0 <= IntValue(c)
    ensures c == Content(IntValue(c))
  {
    if c[0] >= 0x80 {
      NegativeContents(c);
    } else {
      ContentOnly(c);
    }
  }

  /** A zero scalar loses its contents: an integer out of range is read like 0. */
  lemma OutOfRangeReadsZero(cr: seq<byte>, cs: seq<byte>)
    requires Minimal(cr) && Minimal(cs) && Pair(cr, cs) && !(0 <= IntValue(cr) < N)
    ensures Parses(Encoding(cr, cs), 0, Clip(IntValue(cs)))
  {
    hide IntValue, Encoding, Pair;
    assert Reads(Encoding(cr, cs), cr, cs);
    assert Clip(IntValue(cr)) == 0;
  }
}
