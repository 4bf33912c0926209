/** Encrypted payloads, version 2: padding, framing and the checks of the reader. */
module Nip44 {
  import opened Arith
  import opened Bytes
  import opened Wrappers

  const VERSION: byte := 2
  const MIN_PLAINTEXT: nat := 1
  const MAX_PLAINTEXT: nat := 65535

  // ----- padding -----

  /** The position of the highest set bit. */
  function FloorLog2(n: nat): (k: nat)
    requires n >= 1
    ensures Pow2(k) <= n < Pow2(k + 1)
  {
    if n == 1 then 0 else FloorLog2(n / 2) + 1
  }

  lemma FloorLog2Is(n: nat, j: nat)
    requires n >= 1 && Pow2(j) <= n < Pow2(j + 1)
    ensures FloorLog2(n) == j
  {
    var k := FloorLog2(n);
    if k < j {
      Pow2Monotone(k + 1, j);
    } else if k > j {
      Pow2Monotone(j + 1, k);
    }
  }

  /** The smallest power of two that is not below n. */
  function NextPower(n: nat): (p: nat)
    requires n > 32
    ensures p >= n > p / 2 && p >= 64
  {
    var k := FloorLog2(n - 1);
    AtLeastFive(k);
    Pow2Succ(k);
    Pow2(k + 1)
  }

  lemma AtLeastFive(k: nat)
    requires Pow2(k + 1) > 32
    ensures k >= 5 && Pow2(k) >= 32
  {
    Pow2FiveIs();
    if k < 5 {
      Pow2Monotone(k + 1, 5);
    } else {
      Pow2Monotone(5, k);
    }
  }

  lemma Pow2FiveIs()
    ensures Pow2(5) == 32 && Pow2(3) == 8
  {
    Pow2Succ(0);
    Pow2Succ(1);
    Pow2Succ(2);
    Pow2Succ(3);
    Pow2Succ(4);
  }

  function Chunk(n: nat): (c: nat)
    requires n > 32
    ensures c >= 32
  {
    if NextPower(n) / 8 > 32 then NextPower(n) / 8 else 32
  }

  function CalcPadding(n: int): int {
    if n <= 32 then 32 else Chunk(n) * ((n - 1) / Chunk(n) + 1)
  }

  /** The next power is divided evenly by the chunk, and the chunk by 32. */
  lemma ChunkDivides(n: nat) returns (parts: nat)
    requires n > 32
    ensures NextPower(n) == Chunk(n) * parts && Chunk(n) % 32 == 0
  {
    var k := FloorLog2(n - 1);
    AtLeastFive(k);
    Pow2FiveIs();
    Pow2Add(5, k - 4);
    if NextPower(n) / 8 > 32 {
      BigPower(k);
      parts := 8;
    } else {
      parts := Pow2(k - 4);
    }
  }

  lemma BigPower(k: nat)
    requires k >= 5 && Pow2(k + 1) / 8 > 32
    ensures Pow2(k + 1) == 8 * (Pow2(k + 1) / 8) && (Pow2(k + 1) / 8) % 32 == 0
  {
    Pow2Values();
    if k < 8 {
      Pow2Monotone(k + 1, 8);
    }
    Pow2FiveIs();
    Pow2Add(5, k - 7);
    Pow2Add(3, k - 2);
    hide Pow2;
    assert Pow2(k + 1) / 8 == Pow2(k - 2);
  }

  /** Rounding up to a multiple of c: the least multiple that is not below n. */
  lemma RoundUp(n: nat, c: nat)
    requires n >= 1 && c >= 1
    ensures var r := c * ((n - 1) / c + 1); n <= r < n + c && r % c == 0
    ensures forall q: nat :: c * q >= n ==> c * ((n - 1) / c + 1) <= c * q
  {
    var q0 := (n - 1) / c;
    assert n - 1 == c * q0 + (n - 1) % c;
    assert c * (q0 + 1) == c * q0 + c;
    DivIs(c * (q0 + 1), c, q0 + 1, 0);
    forall q: nat | c * q >= n
      ensures c * (q0 + 1) <= c * q
    {
      NoMultipleBetween(c, q0, q, n);
    }
  }

  lemma NoMultipleBetween(c: nat, q0: nat, q: nat, n: nat)
    requires c >= 1 && c * q >= n > c * q0
    ensures c * (q0 + 1) <= c * q
  {
    assert c * q - c * q0 == c * (q - q0);
    assert q > q0;
    MulMono(q0 + 1, q, c);
  }

  /** The padded size is not below the size, exceeds it by less than a chunk, is a multiple of
      the chunk and of 32, and does not pass the next power of two. */
  lemma PaddingBounds(n: int)
    ensures CalcPadding(n) >= n && CalcPadding(n) >= 32 && CalcPadding(n) % 32 == 0
    ensures n > 32 ==> CalcPadding(n) < n + Chunk(n) && CalcPadding(n) % Chunk(n) == 0 && CalcPadding(n) <= NextPower(n)
  {
    if n > 32 {
      RoundUp(n, Chunk(n));
      var parts := ChunkDivides(n);
      hide Chunk, NextPower;
      var c, q := Chunk(n), (n - 1) / Chunk(n) + 1;
      assert c * q <= c * parts;
      MultipleOf32(c, q);
    }
  }

  /** The steps in which sizes are padded: the larger of 32 and an eighth of the next power of two. */
  lemma PaddingSteps(n: int, k: nat)
    ensures n <= 32 ==> CalcPadding(n) == 32
    ensures n > 32 && Pow2(k) < n <= Pow2(k + 1) ==>
      var step := if Pow2(k + 1) / 8 > 32 then Pow2(k + 1) / 8 else 32;
      n <= CalcPadding(n) < n + step && CalcPadding(n) % step == 0
  {
    if n > 32 && Pow2(k) < n <= Pow2(k + 1) {
      FloorLog2Is(n - 1, k);
      PaddingBounds(n);
    }
  }

  lemma MultipleOf32(c: nat, q: nat)
    requires c % 32 == 0
    ensures (c * q) % 32 == 0
  {
    var d := c / 32;
    assert c * q == (d * q) * 32;
    DivIs(c * q, 32, d * q, 0);
  }

  /** Sizes with the same next power of two share a chunk. */
  lemma SamePower(n: nat, m: nat)
    requires n > 32 && m > 32 && NextPower(n) / 2 < m <= NextPower(n)
    ensures NextPower(m) == NextPower(n) && Chunk(m) == Chunk(n)
  {
    var k, j := FloorLog2(n - 1), FloorLog2(m - 1);
    Pow2Succ(k);
    if j < k {
      Pow2Monotone(j + 1, k);
    } else if j > k {
      Pow2Monotone(k + 1, j);
    }
  }

  lemma PaddingIdempotent(n: int)
    ensures CalcPadding(CalcPadding(n)) == CalcPadding(n)
  {
    if n > 32 {
      PaddingBounds(n);
      var p := CalcPadding(n);
      SamePower(n, p);
      PaddingIs(p);
      hide NextPower, Chunk, CalcPadding;
      MultipleStays(p, Chunk(n));
    }
  }

  lemma MultipleStays(p: nat, c: nat)
    requires p >= 1 && c >= 1 && p % c == 0
    ensures c * ((p - 1) / c + 1) == p
  {
    var q := p / c;
    assert p == q * c;
    assert (q - 1) * c == q * c - c;
    DivIs(p - 1, c, q - 1, c - 1);
    assert c * q == q * c;
  }

  lemma PaddingIs(n: nat)
    requires n > 32
    ensures CalcPadding(n) == Chunk(n) * ((n - 1) / Chunk(n) + 1)
  {
  }

  lemma RoundUpMonotone(n: nat, m: nat, c: nat)
    requires 1 <= n <= m && c >= 1
    ensures c * ((n - 1) / c + 1) <= c * ((m - 1) / c + 1)
  {
    RoundUp(n, c);
    RoundUp(m, c);
    var q := (m - 1) / c + 1;
    assert c * q >= n;
  }

  lemma PaddingMonotone(n: int, m: int)
    requires n <= m
    ensures CalcPadding(n) <= CalcPadding(m)
  {
    PaddingBounds(n);
    PaddingBounds(m);
    if n > 32 {
      if m <= NextPower(n) {
        SamePower(n, m);
        PaddingIs(n);
        PaddingIs(m);
        hide NextPower, Chunk, CalcPadding;
        RoundUpMonotone(n, m, Chunk(n));
      }
    }
  }

  /** The two ends of the range. */
  lemma PaddingEnds()
    ensures CalcPadding(1) == 32 && CalcPadding(65535) == 65536
  {
    Pow2Values();
    Pow2Twice(8, 0x100);
    PaddingBounds(65535);
    Pow2Succ(15);
    FloorLog2Is(65534, 15);
    assert Chunk(65535) == 8192;
  }

  // ----- the primitives -----

  /** A text of line breaks alone: the decoder skips those. */
  predicate OnlyLineBreaks(text: seq<byte>) {
    forall i :: 0 <= i < |text| ==> text[i] == 0x0A || text[i] == 0x0D
  }

  datatype Keys = Keys(cipherKey: seq<byte>, cipherNonce: seq<byte>, macKey: seq<byte>)

  /** Key derivation, the stream cipher, the authenticator and the text encoding, with the laws
      the framing rests on. */
  datatype Crypto = Crypto(
    messageKeys: (seq<byte>, seq<byte>) -> Keys,
    chacha: (Keys, seq<byte>) -> seq<byte>,
    mac: (Keys, seq<byte>, seq<byte>) -> seq<byte>,
    encode: seq<byte> -> seq<byte>,
    decode: seq<byte> -> Option<seq<byte>>)
  {
    ghost predicate Lawful() {
      && (forall k, m {:trigger chacha(k, m)} :: |chacha(k, m)| == |m| && chacha(k, chacha(k, m)) == m)
      && (forall k, c, n {:trigger mac(k, c, n)} :: |mac(k, c, n)| == 32)
      && (forall b {:trigger encode(b)} :: decode(encode(b)) == Some(b) && |encode(b)| == 4 * ((|b| + 2) / 3))
      && (forall b {:trigger encode(b)} :: b != [] ==> encode(b)[0] != 0x23)
      && (forall t {:trigger decode(t)} :: decode(t) == Some([]) <==> OnlyLineBreaks(t))
    }

    lemma CipherLaw(k: Keys, m: seq<byte>)
      requires Lawful()
      ensures |chacha(k, m)| == |m| && chacha(k, chacha(k, m)) == m
    {
    }

    lemma MacLaw(k: Keys, c: seq<byte>, n: seq<byte>)
      requires Lawful()
      ensures |mac(k, c, n)| == 32
    {
    }

    lemma TextLaw(b: seq<byte>)
      requires Lawful()
      ensures decode(encode(b)) == Some(b) && |encode(b)| == 4 * ((|b| + 2) / 3)
      ensures b != [] ==> |encode(b)| > 0 && encode(b)[0] != 0x23
    {
    }

    lemma BreaksLaw(t: seq<byte>)
      requires Lawful()
      ensures decode(t) == Some([]) <==> OnlyLineBreaks(t)
    {
    }
  }

  // ----- framing -----

  function PutUint16(n: nat): seq<byte>
    requires n < 0x10000
  {
    [n / 0x100, n % 0x100]
  }

  function Uint16(b: seq<byte>): (n: nat)
    requires |b| == 2
    ensures n < 0x10000
  {
    (b[0] as int) * 0x100 + b[1]
  }

  /** padded is the length of p, p itself, and filler up to the padded size. */
  predicate Pads(padded: seq<byte>, p: seq<byte>) {
    && MIN_PLAINTEXT <= |p| <= MAX_PLAINTEXT
    && |padded| == 2 + CalcPadding(|p|)
    && 2 + |p| <= |padded|
    && padded[..2] == PutUint16(|p|)
    && padded[2..2 + |p|] == p
  }

  /** Version, nonce, encrypted padded text and authenticator. */
  function Frame(c: Crypto, key: seq<byte>, nonce: seq<byte>, padded: seq<byte>): seq<byte> {
    var ks := c.messageKeys(key, nonce);
    var text := c.chacha(ks, padded);
    [VERSION] + nonce + text + c.mac(ks, text, nonce)
  }

  /** data is a frame around plaintext p. */
  ghost predicate Carries(c: Crypto, key: seq<byte>, data: seq<byte>, nonce: seq<byte>, padded: seq<byte>,
        p: seq<byte>) {
    |nonce| == 32 && Pads(padded, p) && data == Frame(c, key, nonce, padded)
  }

  /** What the reader takes for plaintext p. */
  ghost predicate Accepts(c: Crypto, key: seq<byte>, payload: seq<byte>, p: seq<byte>) {
    && 132 <= |payload| <= 87472 && payload[0] != 0x23
    && c.decode(payload).Some?
    && exists nonce, padded :: Carries(c, key, c.decode(payload).value, nonce, padded, p)
  }

  /** What the writer encrypts. */
  function Padded(p: seq<byte>): (padded: seq<byte>)
    requires MIN_PLAINTEXT <= |p| <= MAX_PLAINTEXT
  {
    PaddingBounds(|p|);
    PutUint16(|p|) + p + Zeros(CalcPadding(|p|) - |p|)
  }

  /** The size in two octets, the higher first, the plaintext, and zeros up to the padded size. */
  lemma PaddedIs(p: seq<byte>)
    requires 1 <= |p| <= 65535
    ensures var q := Padded(p);
      && |q| == 2 + CalcPadding(|p|) && 2 + |p| <= |q|
      && 0x100 * (q[0] as int) + q[1] == |p| && q[2..2 + |p|] == p
      && forall i :: 2 + |p| <= i < |q| ==> q[i] == 0
  {
    hide CalcPadding;
    PaddingBounds(|p|);
    PaddedPads(p);
  }

  lemma PaddedPads(p: seq<byte>)
    requires MIN_PLAINTEXT <= |p| <= MAX_PLAINTEXT
    ensures Pads(Padded(p), p)
  {
    PaddingBounds(|p|);
    hide CalcPadding;
    var q := Padded(p);
    assert q[..2] == PutUint16(|p|);
    assert q[2..2 + |p|] == p;
  }

  /** Honest frames are 99 to 65603 octets long. */
  lemma FrameLength(c: Crypto, key: seq<byte>, nonce: seq<byte>, padded: seq<byte>, p: seq<byte>)
    requires c.Lawful() && |nonce| == 32 && Pads(padded, p)
    ensures |Frame(c, key, nonce, padded)| == 67 + CalcPadding(|p|)
    ensures 99 <= |Frame(c, key, nonce, padded)| <= 65603
  {
    hide CalcPadding, Crypto.Lawful;
    var ks := c.messageKeys(key, nonce);
    c.CipherLaw(ks, padded);
    c.MacLaw(ks, c.chacha(ks, padded), nonce);
    PaddingBounds(|p|);
    PaddingMonotone(|p|, 65535);
    PaddingEnds();
  }

  /** Both limits on the data and both on the text are met by some honest payload. */
  lemma LimitsAttained(c: Crypto, key: seq<byte>, nonce: seq<byte>, shortest: seq<byte>, longest: seq<byte>)
    requires c.Lawful() && |nonce| == 32 && |shortest| == 1 && |longest| == 65535
    ensures |Frame(c, key, nonce, Padded(shortest))| == 99 && |c.encode(Frame(c, key, nonce, Padded(shortest)))| == 132
    ensures |Frame(c, key, nonce, Padded(longest))| == 65603
      && |c.encode(Frame(c, key, nonce, Padded(longest)))| == 87472
  {
    hide CalcPadding, Crypto.Lawful, Frame, Padded;
    PaddedPads(shortest);
    PaddedPads(longest);
    FrameLength(c, key, nonce, Padded(shortest), shortest);
    FrameLength(c, key, nonce, Padded(longest), longest);
    PaddingEnds();
    c.TextLaw(Frame(c, key, nonce, Padded(shortest)));
    c.TextLaw(Frame(c, key, nonce, Padded(longest)));
  }

  datatype Error = BadNonce | BadSize | BadLength | UnknownVersion | BadText | BadDataLength | BadMac | BadPadding

  datatype Outcome = Ok(text: seq<byte>) | Err(error: Error) | Panic

  /** The length, the plaintext and zeros up to the padded size. */
  method PadPlaintext(plain: seq<byte>) returns (padded: array<byte>)
    requires MIN_PLAINTEXT <= |plain| <= MAX_PLAINTEXT
    ensures fresh(padded) && padded[..] == Padded(plain)
  {
    hide CalcPadding;
    var size := |plain|;
    PaddingBounds(size);
    var padding := CalcPadding(size);
    padded := new byte[2 + padding](i => 0);
    ZerosIs(padded[2 + size..]);
    CopyInto(padded, 0, PutUint16(size));
    CopyInto(padded, 2, plain);
  }

  /** Version, nonce, text and authenticator one behind the other. */
  method Concatenate(nonce: seq<byte>, text: seq<byte>, mac: seq<byte>) returns (concat: array<byte>)
    requires |nonce| == 32 && |mac| == 32
    ensures fresh(concat) && concat[..] == [VERSION] + nonce + text + mac
  {
    concat := new byte[1 + 32 + |text| + 32];
    concat[0] := VERSION;
    CopyInto(concat, 1, nonce);
    CopyInto(concat, 1 + 32, text);
    CopyInto(concat, 1 + 32 + |text|, mac);
  }

  method Encrypt(c: Crypto, plain: seq<byte>, key: seq<byte>, custom: Option<seq<byte>>,
        random: seq<byte>) returns (out: Outcome)
    requires c.Lawful() && |random| == 32
    ensures out == Err(BadNonce) <==> custom.Some? && |custom.value| != 32
    ensures out == Err(BadSize) <==> !(custom.Some? && |custom.value| != 32) && !(1 <= |plain| <= 65535)
    ensures !(custom.Some? && |custom.value| != 32) && 1 <= |plain| <= 65535 ==>
      var nonce := if custom.None? || custom.value == seq(32, _ => 0) then random else custom.value;
      out == Ok(c.encode(Frame(c, key, nonce, Padded(plain))))
  {
    hide CalcPadding, Crypto.Lawful;
    if custom.Some? && |custom.value| != 32 {
      return Err(BadNonce);
    }
    var nonce := if custom.Some? then custom.value else Zeros(32);
    ZerosIs(seq(32, _ => 0));
    if nonce == Zeros(32) {
      nonce := random;
    }
    var ks := c.messageKeys(key, nonce);
    var size := |plain|;
    if size < MIN_PLAINTEXT || size > MAX_PLAINTEXT {
      return Err(BadSize);
    }
    var padded := PadPlaintext(plain);
    var text := c.chacha(ks, padded[..]);
    var mac := c.mac(ks, text, nonce);
    c.MacLaw(ks, text, nonce);
    var concat := Concatenate(nonce, text, mac);
    out := Ok(c.encode(concat[..]));
  }

  lemma ZerosIs(z: seq<byte>)
    requires forall i :: 0 <= i < |z| ==> z[i] == 0
    ensures z == Zeros(|z|)
  {
  }

  /** The pieces of a frame: the version, the nonce, the text and its authenticator. */
  lemma FramePieces(c: Crypto, key: seq<byte>, data: seq<byte>, nonce: seq<byte>, padded: seq<byte>)
    requires c.Lawful() && |nonce| == 32 && data == Frame(c, key, nonce, padded)
    ensures |data| == 65 + |padded| && data[0] == 2 && data[1..33] == nonce
    ensures var ks := c.messageKeys(key, nonce);
      && c.chacha(ks, data[33..|data| - 32]) == padded
      && data[|data| - 32..] == c.mac(ks, data[33..|data| - 32], nonce)
  {
    hide Crypto.Lawful;
    var ks := c.messageKeys(key, nonce);
    var text := c.chacha(ks, padded);
    c.CipherLaw(ks, padded);
    c.MacLaw(ks, text, nonce);
    assert data[33..|data| - 32] == text;
    assert data[1..33] == nonce;
    assert data[|data| - 32..] == c.mac(ks, text, nonce);
  }

  /** The pieces put together again. */
  lemma FrameFrom(c: Crypto, key: seq<byte>, data: seq<byte>)
    requires c.Lawful() && |data| >= 65 && data[0] == VERSION
    requires var nonce, text := data[1..33], data[33..|data| - 32];
      data[|data| - 32..] == c.mac(c.messageKeys(key, nonce), text, nonce)
    ensures var nonce, text := data[1..33], data[33..|data| - 32];
      data == Frame(c, key, nonce, c.chacha(c.messageKeys(key, nonce), text))
  {
    hide Crypto.Lawful;
    var nonce, text := data[1..33], data[33..|data| - 32];
    c.CipherLaw(c.messageKeys(key, nonce), text);
    assert data == [data[0]] + nonce + text + data[|data| - 32..];
  }

  lemma Uint16Back(n: nat, b: seq<byte>)
    requires |b| == 2 && n < 0x10000
    ensures Uint16(b) == n <==> b == PutUint16(n)
  {
    assert b == [b[0], b[1]];
  }

  predicate WrongVersion(data: Option<seq<byte>>) {
    data.Some? && data.value != [] && data.value[0] != 2
  }

  /** The reader's checks accept exactly the frames, of whatever filler. The one failure that is
      not reported is a text of line breaks alone, which decodes to no data. */
  method Decrypt(c: Crypto, payload: seq<byte>, key: seq<byte>) returns (out: Outcome)
    requires c.Lawful()
    ensures out.Ok? ==> Accepts(c, key, payload, out.text)
    ensures forall p :: Accepts(c, key, payload, p) ==> out == Ok(p)
    ensures out.Panic? <==> 132 <= |payload| <= 87472 && OnlyLineBreaks(payload)
    ensures out == Err(BadLength) <==> !(132 <= |payload| <= 87472)
    ensures out == Err(BadText) <==> 132 <= |payload| <= 87472 && payload[0] != 0x23 && c.decode(payload).None?
    ensures out == Err(UnknownVersion) <==>
      132 <= |payload| <= 87472 && (payload[0] == 0x23 || WrongVersion(c.decode(payload)))
  {
    hide CalcPadding, Crypto.Lawful, Frame, Pads;
    c.BreaksLaw(payload);
    if payload != [] && payload[0] == 0x23 {
      assert !OnlyLineBreaks(payload);
    }
    hide OnlyLineBreaks;
    if |payload| < 132 || |payload| > 87472 {
      return Err(BadLength);
    }
    if payload[0] == 0x23 {
      return Err(UnknownVersion);
    }
    var decoded := c.decode(payload);
    if decoded.None? {
      return Err(BadText);
    }
    var data := decoded.value;
    forall nonce, padded, p | Carries(c, key, data, nonce, padded, p)
      ensures 99 <= |data| <= 65603 && data[0] == VERSION && data[1..33] == nonce
      ensures var ks := c.messageKeys(key, nonce);
        && c.chacha(ks, data[33..|data| - 32]) == padded
        && data[|data| - 32..] == c.mac(ks, data[33..|data| - 32], nonce)
      ensures |padded| >= 34 && 2 + |p| <= |padded| && Uint16(padded[..2]) == |p| && |p| >= 1
        && |padded| == 2 + CalcPadding(|p|) && padded[2..2 + |p|] == p
    {
      FrameLength(c, key, nonce, padded, p);
      FramePieces(c, key, data, nonce, padded);
      PadsIs(padded, p);
    }
    if data == [] {
      return Panic;
    }
    if data[0] != VERSION {
      return Err(UnknownVersion);
    }
    var len := |data|;
    if len < 99 || len > 65603 {
      return Err(BadDataLength);
    }
    var nonce := data[1..33];
    var text := data[33..len - 32];
    var givenMac := data[len - 32..];
    var ks := c.messageKeys(key, nonce);
    var expectedMac := c.mac(ks, text, nonce);
    if givenMac != expectedMac {
      return Err(BadMac);
    }
    c.CipherLaw(ks, text);
    var padded := c.chacha(ks, text);
    var unpaddedLen := Uint16(padded[..2]);
    if unpaddedLen < MIN_PLAINTEXT || unpaddedLen > MAX_PLAINTEXT || |padded| != 2 + CalcPadding(unpaddedLen) {
      return Err(BadPadding);
    }
    PaddingBounds(unpaddedLen);
    var unpadded := padded[2..][..unpaddedLen];
    FrameFrom(c, key, data);
    PadsFrom(padded, unpadded);
    assert Carries(c, key, data, nonce, padded, unpadded);
    out := Ok(unpadded);
  }

  /** The shortest such text. */
  lemma LineBreaksPanic(c: Crypto)
    requires c.Lawful()
    ensures var payload: seq<byte> := seq(132, _ => 0x0A);
      132 <= |payload| <= 87472 && payload[0] != 0x23 && OnlyLineBreaks(payload) && c.decode(payload) == Some([])
  {
    hide Crypto.Lawful;
    c.BreaksLaw(seq(132, _ => 0x0A));
  }

  lemma PadsIs(padded: seq<byte>, p: seq<byte>)
    requires Pads(padded, p)
    ensures 1 <= |p| <= 65535 && |padded| == 2 + CalcPadding(|p|) >= 34 && 2 + |p| <= |padded|
    ensures Uint16(padded[..2]) == |p| && padded[2..2 + |p|] == p
  {
    hide CalcPadding;
    PaddingBounds(|p|);
    Uint16Back(|p|, padded[..2]);
  }

  lemma PadsFrom(padded: seq<byte>, p: seq<byte>)
    requires MIN_PLAINTEXT <= |p| <= MAX_PLAINTEXT && |padded| == 2 + CalcPadding(|p|) && 2 + |p| <= |padded|
    requires Uint16(padded[..2]) == |p| && p == padded[2..][..|p|]
    ensures Pads(padded, p)
  {
    hide CalcPadding;
    Uint16Back(|p|, padded[..2]);
    assert padded[2..][..|p|] == padded[2..2 + |p|];
  }

  // ----- round trip -----

  /** What is encrypted is accepted, within all four limits, and as nothing else. */
  lemma RoundTrip(c: Crypto, key: seq<byte>, nonce: seq<byte>, p: seq<byte>)
    requires c.Lawful() && |nonce| == 32 && 1 <= |p| <= 65535
    ensures var payload := c.encode(Frame(c, key, nonce, Padded(p)));
      Accepts(c, key, payload, p) && forall q :: Accepts(c, key, payload, q) ==> q == p
  {
    hide CalcPadding, Crypto.Lawful, Frame, Padded, Pads;
    PaddedPads(p);
    var data := Frame(c, key, nonce, Padded(p));
    FrameLength(c, key, nonce, Padded(p), p);
    c.TextLaw(data);
    assert Carries(c, key, data, nonce, Padded(p), p);
    forall q | Accepts(c, key, c.encode(data), q)
      ensures q == p
    {
      AcceptsOnce(c, key, c.encode(data), p, q);
    }
  }

  /** A payload has at most one reading. */
  lemma AcceptsOnce(c: Crypto, key: seq<byte>, payload: seq<byte>, p: seq<byte>, q: seq<byte>)
    requires c.Lawful() && Accepts(c, key, payload, p) && Accepts(c, key, payload, q)
    ensures p == q
  {
    hide CalcPadding, Crypto.Lawful, Frame, Pads;
    var data := c.decode(payload).value;
    var n1, d1 :| Carries(c, key, data, n1, d1, p);
    var n2, d2 :| Carries(c, key, data, n2, d2, q);
    FramePieces(c, key, data, n1, d1);
    FramePieces(c, key, data, n2, d2);
    PadsIs(d1, p);
    PadsIs(d2, q);
  }

  /** The reader never looks at the filler: a frame is the writer's own exactly when the filler
      is zero, and is accepted in either case. */
  lemma FillerIgnored(c: Crypto, key: seq<byte>, nonce: seq<byte>, padded: seq<byte>, p: seq<byte>)
    requires c.Lawful() && |nonce| == 32 && Pads(padded, p)
    ensures Accepts(c, key, c.encode(Frame(c, key, nonce, padded)), p)
    ensures Frame(c, key, nonce, padded) == Frame(c, key, nonce, Padded(p))
      <==> forall i :: 2 + |p| <= i < |padded| ==> padded[i] == 0
  {
    hide CalcPadding, Crypto.Lawful, Frame, Pads;
    var data := Frame(c, key, nonce, padded);
    FrameLength(c, key, nonce, padded, p);
    c.TextLaw(data);
    assert Carries(c, key, data, nonce, padded, p);
    PadsIs(padded, p);
    FramePieces(c, key, data, nonce, padded);
    FramePieces(c, key, Frame(c, key, nonce, Padded(p)), nonce, Padded(p));
    FillerZero(padded, p);
  }

  lemma FillerZero(padded: seq<byte>, p: seq<byte>)
    requires Pads(padded, p)
    ensures padded == Padded(p) <==> forall i :: 2 + |p| <= i < |padded| ==> padded[i] == 0
  {
    hide CalcPadding;
    PaddingBounds(|p|);
    var q := Padded(p);
    assert padded == padded[..2] + padded[2..2 + |p|] + padded[2 + |p|..];
    assert q == PutUint16(|p|) + p + Zeros(|padded| - 2 - |p|);
    if padded == q {
      assert forall i :: 2 + |p| <= i < |q| ==> q[i] == Zeros(|padded| - 2 - |p|)[i - 2 - |p|];
    }
    if forall i :: 2 + |p| <= i < |padded| ==> padded[i] == 0 {
      ZerosIs(padded[2 + |p|..]);
    }
  }
}
