/** Spending from a wallet of tokens: which proofs are chosen, how they are split at the mint and
    what the wallet holds afterwards. Amounts are 64-bit words and wrap around. */
module Wallet {
  import opened Words
  import opened Wrappers

  datatype Proof = Proof(keyset: string, amount: u64, secret: string)

  datatype Keyset = Keyset(id: string, feePpk: u64)

  datatype Token = Token(mint: string, proofs: seq<Proof>, eventId: Option<string>, deleted: seq<string>)

  // ----- amounts and fees -----

  ghost function Total(proofs: seq<Proof>): nat {
    if proofs == [] then 0 else Total(proofs[..|proofs| - 1]) + proofs[|proofs| - 1].amount
  }

  /** Every amount counts once. */
  lemma {:induction false} TotalAppend(p: seq<Proof>, q: seq<Proof>)
    ensures Total(p + q) == Total(p) + Total(q)
    ensures |q| == 1 ==> Total(q) == q[0].amount
  {
    if q == [] {
      assert p + q == p;
    } else {
      TotalAppend(p, q[..|q| - 1]);
      assert (p + q)[..|p + q| - 1] == p + q[..|q| - 1];
    }
  }

  /** The sum as the wallet computes it. */
  method Amount(proofs: seq<Proof>) returns (sum: u64)
    ensures sum == Total(proofs) % TWO_64
  {
    sum := 0;
    for i := 0 to |proofs|
      invariant sum == Total(proofs[..i]) % TWO_64
    {
      assert proofs[..i + 1][..i] == proofs[..i];
      sum := (sum + proofs[i].amount) % TWO_64;
    }
    assert proofs[..|proofs|] == proofs;
  }

  /** The fee rate of the first keyset with this id. */
  function Rate(id: string, keysets: seq<Keyset>): Option<u64> {
    if keysets == [] then None
    else if keysets[0].id == id then Some(keysets[0].feePpk)
    else Rate(id, keysets[1..])
  }

  predicate NotListed(id: string, keysets: seq<Keyset>) {
    forall j :: 0 <= j < |keysets| ==> keysets[j].id != id
  }

  /** The first keyset with the id decides, wherever it stands; without one there is no rate. */
  lemma {:induction false} RateIs(id: string, keysets: seq<Keyset>)
    ensures forall i :: 0 <= i < |keysets| && keysets[i].id == id && NotListed(id, keysets[..i]) ==>
      Rate(id, keysets) == Some(keysets[i].feePpk)
    ensures Rate(id, keysets).None? <==> NotListed(id, keysets)
  {
    if keysets != [] {
      var rest := keysets[1..];
      RateIs(id, rest);
      assert forall j :: 1 <= j < |keysets| ==> keysets[j] == rest[j - 1];
      forall i | 1 <= i < |keysets| && NotListed(id, keysets[..i])
        ensures keysets[0].id != id && NotListed(id, rest[..i - 1])
      {
        assert keysets[..i][0] == keysets[0];
        assert forall j :: 0 <= j < i - 1 ==> rest[j] == keysets[..i][j + 1];
      }
    }
  }

  predicate AllKnown(inputs: seq<Proof>, keysets: seq<Keyset>) {
    forall i :: 0 <= i < |inputs| ==> Rate(inputs[i].keyset, keysets).Some?
  }

  ghost function RateSum(inputs: seq<Proof>, keysets: seq<Keyset>): nat
    requires AllKnown(inputs, keysets)
  {
    if inputs == [] then 0
    else RateSum(inputs[..|inputs| - 1], keysets) + Rate(inputs[|inputs| - 1].keyset, keysets).value
  }

  /** The fee of a list of inputs; None where the code gives up on an unknown keyset. */
  ghost function Fee(inputs: seq<Proof>, keysets: seq<Keyset>): (f: Option<u64>) {
    if AllKnown(inputs, keysets) then Some((RateSum(inputs, keysets) % TWO_64 + 999) % TWO_64 / 1000) else None
  }

  method FindRate(id: string, keysets: seq<Keyset>) returns (rate: Option<u64>)
    ensures rate == Rate(id, keysets)
  {
    var i := 0;
    assert keysets[0..] == keysets;
    while i < |keysets|
      invariant 0 <= i <= |keysets|
      invariant Rate(id, keysets[i..]) == Rate(id, keysets)
    {
      if keysets[i].id == id {
        return Some(keysets[i].feePpk);
      }
      assert keysets[i..][1..] == keysets[i + 1..];
      i := i + 1;
    }
    rate := None;
  }

  method CalculateFee(inputs: seq<Proof>, keysets: seq<Keyset>) returns (fee: Option<u64>)
    ensures fee == Fee(inputs, keysets)
    ensures fee.Some? <==> AllKnown(inputs, keysets)
    ensures fee.Some? ==> fee.value == ((RateSum(inputs, keysets) % TWO_64 + 999) % TWO_64) / 1000
  {
    hide Rate;
    var n: u64 := 0;
    for i := 0 to |inputs|
      invariant AllKnown(inputs[..i], keysets) && n == RateSum(inputs[..i], keysets) % TWO_64
    {
      assert inputs[..i + 1][..i] == inputs[..i];
      var rate := FindRate(inputs[i].keyset, keysets);
      if rate.None? {
        return None;
      }
      assert AllKnown(inputs[..i + 1], keysets);
      n := (n + rate.value) % TWO_64;
    }
    assert inputs[..|inputs|] == inputs;
    fee := Some((n + 999) % TWO_64 / 1000);
  }

  /** Every input adds its keyset's rate. */
  lemma {:induction false} RateSumAppend(p: seq<Proof>, q: seq<Proof>, keysets: seq<Keyset>)
    requires AllKnown(p, keysets) && AllKnown(q, keysets)
    ensures AllKnown(p + q, keysets) && RateSum(p + q, keysets) == RateSum(p, keysets) + RateSum(q, keysets)
    ensures |q| == 1 ==> RateSum(q, keysets) == Rate(q[0].keyset, keysets).value
  {
    hide Rate;
    if q == [] {
      assert p + q == p;
    } else {
      RateSumAppend(p, q[..|q| - 1], keysets);
      assert (p + q)[..|p + q| - 1] == p + q[..|q| - 1];
      assert |q| == 1 ==> q[..|q| - 1] == [];
    }
  }

  /** There is no fee exactly when some input's keyset is not in the list. */
  lemma FeeUnknown(inputs: seq<Proof>, keysets: seq<Keyset>)
    ensures Fee(inputs, keysets).None? <==>
      exists i :: 0 <= i < |inputs| && NotListed(inputs[i].keyset, keysets)
  {
    forall i | 0 <= i < |inputs|
      ensures Rate(inputs[i].keyset, keysets).None? <==> NotListed(inputs[i].keyset, keysets)
    {
      RateIs(inputs[i].keyset, keysets);
    }
    hide Rate, NotListed, RateSum;
  }

  /** Unless the rates overflow, the fee is their sum in thousandths, rounded up. */
  lemma FeeRoundsUp(inputs: seq<Proof>, keysets: seq<Keyset>)
    requires AllKnown(inputs, keysets) && RateSum(inputs, keysets) + 999 < TWO_64
    ensures var fee := Fee(inputs, keysets).value;
      RateSum(inputs, keysets) <= 1000 * fee < RateSum(inputs, keysets) + 1000
  {
    hide RateSum;
  }

  // ----- choosing proofs -----

  predicate Considered(mint: string, specificMint: string, excludeMints: seq<string>) {
    (specificMint == "" || mint == specificMint) && mint !in excludeMints
  }

  /** The positions below n of a mint's tokens. */
  ghost function Positions(tokens: seq<Token>, mint: string, n: nat): (p: seq<nat>)
    requires n <= |tokens|
    ensures forall i :: i in p <==> 0 <= i < n && tokens[i].mint == mint
  {
    if n == 0 then []
    else Positions(tokens, mint, n - 1) + (if tokens[n - 1].mint == mint then [n - 1] else [])
  }

  /** The proofs of a mint's tokens below n. */
  ghost function Gathered(tokens: seq<Token>, mint: string, n: nat): seq<Proof>
    requires n <= |tokens|
  {
    if n == 0 then []
    else Gathered(tokens, mint, n - 1) + (if tokens[n - 1].mint == mint then tokens[n - 1].proofs else [])
  }

  /** The proofs of a list of tokens, one token's behind the other's. */
  ghost function ProofsOf(tokens: seq<Token>): seq<Proof> {
    if tokens == [] then [] else ProofsOf(tokens[..|tokens| - 1]) + tokens[|tokens| - 1].proofs
  }

  lemma ProofsSnoc(s: seq<Token>, t: Token)
    ensures ProofsOf([]) == [] && ProofsOf(s + [t]) == ProofsOf(s) + t.proofs
  {
    assert (s + [t])[..|s|] == s;
  }

  predicate Rising(p: seq<nat>) {
    forall j, k :: 0 <= j < k < |p| ==> p[j] < p[k]
  }

  lemma RiseOnce(p: seq<nat>, n: nat)
    requires Rising(p) && forall i :: i in p ==> i < n
    ensures Rising(p + [n])
  {
    forall j | 0 <= j < |p|
      ensures p[j] < n
    {
      assert p[j] in p;
    }
  }

  /** The positions are in the order of the list. */
  lemma {:induction false} PositionsRise(tokens: seq<Token>, mint: string, n: nat)
    requires n <= |tokens|
    ensures Rising(Positions(tokens, mint, n))
  {
    if n > 0 {
      PositionsRise(tokens, mint, n - 1);
      RiseOnce(Positions(tokens, mint, n - 1), n - 1);
      assert Positions(tokens, mint, n - 1) + [] == Positions(tokens, mint, n - 1);
    }
  }

  /** What is gathered are the proofs of the tokens at the positions. */
  lemma {:induction false} GatheredFrom(tokens: seq<Token>, mint: string, n: nat, p: seq<nat>, chosen: seq<Token>)
    requires n <= |tokens| && p == Positions(tokens, mint, n) && |chosen| == |p|
    requires forall i :: 0 <= i < |p| ==> p[i] < |tokens| && chosen[i] == tokens[p[i]]
    ensures Gathered(tokens, mint, n) == ProofsOf(chosen)
  {
    if n > 0 {
      GatheredOne(tokens, mint, n - 1);
      if tokens[n - 1].mint == mint {
        GatheredFrom(tokens, mint, n - 1, p[..|p| - 1], chosen[..|p| - 1]);
      } else {
        GatheredFrom(tokens, mint, n - 1, p, chosen);
      }
    }
  }

  datatype Chosen = Chosen(mint: string, tokens: seq<Token>, tokenIndexes: seq<nat>, proofs: seq<Proof>,
      keysets: seq<Keyset>)

  /** What has been collected of a mint before token n. */
  ghost predicate PartOf(part: Chosen, tokens: seq<Token>, mint: string, n: nat, keysets: seq<Keyset>)
    requires n <= |tokens|
  {
    && part.mint == mint && part.keysets == keysets
    && part.tokenIndexes == Positions(tokens, mint, n)
    && part.proofs == Gathered(tokens, mint, n)
    && |part.tokens| == |part.tokenIndexes|
    && forall i :: 0 <= i < |part.tokens| ==>
      part.tokenIndexes[i] < |tokens| && part.tokens[i] == tokens[part.tokenIndexes[i]]
  }

  /** The inputs cover amount and fee, as the wallet's arithmetic sees it. */
  ghost predicate Covers(proofs: seq<Proof>, keysets: seq<Keyset>, amount: u64) {
    && Total(proofs) % TWO_64 >= amount
    && Fee(proofs, keysets).Some?
    && Total(proofs) % TWO_64 >= (amount + Fee(proofs, keysets).value) % TWO_64
  }

  datatype Error = NoKeysets | NotEnough | TooMuch | NoEvent

  datatype Outcome<T> = Ok(value: T) | Err(error: Error) | Panic

  /** The search goes past token n: its mint's keysets can be had, and the mint's tokens up to and
      including this one hold less than the amount, or less than the amount and a known fee. */
  ghost predicate Passes(tokens: seq<Token>, keysetsOf: string -> Option<seq<Keyset>>, amount: u64, n: nat)
    requires n < |tokens|
  {
    && keysetsOf(tokens[n].mint).Some?
    && var proofs, keysets := Gathered(tokens, tokens[n].mint, n + 1), keysetsOf(tokens[n].mint).value;
    || Total(proofs) % TWO_64 < amount
    || (Fee(proofs, keysets).Some? && Total(proofs) % TWO_64 < (amount + Fee(proofs, keysets).value) % TWO_64)
  }

  /** The search reaches token n. */
  ghost predicate Reaches(tokens: seq<Token>, keysetsOf: string -> Option<seq<Keyset>>, amount: u64,
      specificMint: string, excludeMints: seq<string>, n: nat)
  {
    forall i {:trigger tokens[i]} ::
        0 <= i < n && i < |tokens| && Considered(tokens[i].mint, specificMint, excludeMints) ==>
      Passes(tokens, keysetsOf, amount, i)
  }

  /** The search ends at token t. */
  ghost predicate StopsAt(tokens: seq<Token>, keysetsOf: string -> Option<seq<Keyset>>, amount: u64,
      specificMint: string, excludeMints: seq<string>, t: nat)
  {
    && t < |tokens| && Considered(tokens[t].mint, specificMint, excludeMints)
    && Reaches(tokens, keysetsOf, amount, specificMint, excludeMints, t)
    && !Passes(tokens, keysetsOf, amount, t)
  }

  /** It ends because the mint has no keysets to offer. */
  ghost predicate StopsWithoutKeysets(tokens: seq<Token>, keysetsOf: string -> Option<seq<Keyset>>, amount: u64,
      specificMint: string, excludeMints: seq<string>, t: nat)
  {
    StopsAt(tokens, keysetsOf, amount, specificMint, excludeMints, t) && keysetsOf(tokens[t].mint).None?
  }

  /** It ends in a panic: the amount is there, but the keyset of some proof is unknown. */
  ghost predicate StopsInPanic(tokens: seq<Token>, keysetsOf: string -> Option<seq<Keyset>>, amount: u64,
      specificMint: string, excludeMints: seq<string>, t: nat)
  {
    && StopsAt(tokens, keysetsOf, amount, specificMint, excludeMints, t) && keysetsOf(tokens[t].mint).Some?
    && var proofs := Gathered(tokens, tokens[t].mint, t + 1);
    && Total(proofs) % TWO_64 >= amount && !AllKnown(proofs, keysetsOf(tokens[t].mint).value)
  }

  /** There is only one place to stop. */
  lemma StopsOnce(tokens: seq<Token>, keysetsOf: string -> Option<seq<Keyset>>, amount: u64,
      specificMint: string, excludeMints: seq<string>, t: nat)
    requires StopsAt(tokens, keysetsOf, amount, specificMint, excludeMints, t)
    ensures forall u: nat :: StopsAt(tokens, keysetsOf, amount, specificMint, excludeMints, u) ==> u == t
    ensures !Reaches(tokens, keysetsOf, amount, specificMint, excludeMints, |tokens|)
  {
    hide Considered, Passes, Reaches;
    if Reaches(tokens, keysetsOf, amount, specificMint, excludeMints, |tokens|) {
      NoneBetween(tokens, keysetsOf, amount, specificMint, excludeMints, t, |tokens|);
    }
    forall u: nat | StopsAt(tokens, keysetsOf, amount, specificMint, excludeMints, u)
      ensures u == t
    {
      NoneBetween(tokens, keysetsOf, amount, specificMint, excludeMints, u, t);
      NoneBetween(tokens, keysetsOf, amount, specificMint, excludeMints, t, u);
    }
    hide StopsAt;
  }

  lemma NoneBetween(tokens: seq<Token>, keysetsOf: string -> Option<seq<Keyset>>, amount: u64,
      specificMint: string, excludeMints: seq<string>, t: nat, u: nat)
    requires StopsAt(tokens, keysetsOf, amount, specificMint, excludeMints, t)
      && Reaches(tokens, keysetsOf, amount, specificMint, excludeMints, u) && u <= |tokens|
    ensures u <= t
  {
    hide Considered, Passes;
  }

  lemma NeverStops(tokens: seq<Token>, keysetsOf: string -> Option<seq<Keyset>>, amount: u64,
      specificMint: string, excludeMints: seq<string>)
    requires Reaches(tokens, keysetsOf, amount, specificMint, excludeMints, |tokens|)
    ensures forall u: nat :: !StopsAt(tokens, keysetsOf, amount, specificMint, excludeMints, u)
  {
    hide Considered, Passes;
  }

  /** What the table holds before token t: the parts of exactly the considered mints seen so far. */
  ghost predicate Table(byMint: map<string, Chosen>, tokens: seq<Token>, keysetsOf: string -> Option<seq<Keyset>>,
      specificMint: string, excludeMints: seq<string>, t: nat)
    requires t <= |tokens|
  {
    && (forall m :: m in byMint ==>
          Considered(m, specificMint, excludeMints) && keysetsOf(m).Some?
              && PartOf(byMint[m], tokens, m, t, keysetsOf(m).value))
    && (forall i :: 0 <= i < t && Considered(tokens[i].mint, specificMint, excludeMints) ==> tokens[i].mint in byMint)
  }

  /** A token of another mint adds nothing to a mint's part. */
  lemma OtherMint(tokens: seq<Token>, mint: string, t: nat)
    requires t < |tokens| && tokens[t].mint != mint
    ensures Positions(tokens, mint, t + 1) == Positions(tokens, mint, t)
      && Gathered(tokens, mint, t + 1) == Gathered(tokens, mint, t)
  {
    var p, g := Positions(tokens, mint, t), Gathered(tokens, mint, t);
    assert p + [] == p && g + [] == g;
  }

  lemma PartKept(part: Chosen, tokens: seq<Token>, mint: string, t: nat, keysets: seq<Keyset>)
    requires t < |tokens| && tokens[t].mint != mint && PartOf(part, tokens, mint, t, keysets)
    ensures PartOf(part, tokens, mint, t + 1, keysets)
  {
    OtherMint(tokens, mint, t);
    hide Positions, Gathered;
  }

  lemma TableSkips(byMint: map<string, Chosen>, tokens: seq<Token>, keysetsOf: string -> Option<seq<Keyset>>,
      specificMint: string, excludeMints: seq<string>, t: nat)
    requires t < |tokens| && Table(byMint, tokens, keysetsOf, specificMint, excludeMints, t)
    requires !Considered(tokens[t].mint, specificMint, excludeMints)
    ensures Table(byMint, tokens, keysetsOf, specificMint, excludeMints, t + 1)
  {
    forall m | m in byMint
      ensures PartOf(byMint[m], tokens, m, t + 1, keysetsOf(m).value)
    {
      PartKept(byMint[m], tokens, m, t, keysetsOf(m).value);
    }
    hide Considered, PartOf;
  }

  /** The part of the current token's mint, empty when the mint is new. */
  lemma TablePart(byMint: map<string, Chosen>, tokens: seq<Token>, keysetsOf: string -> Option<seq<Keyset>>,
      specificMint: string, excludeMints: seq<string>, t: nat, part: Chosen, keysets: seq<Keyset>)
    requires t < |tokens| && Table(byMint, tokens, keysetsOf, specificMint, excludeMints, t)
    requires Considered(tokens[t].mint, specificMint, excludeMints) && keysetsOf(tokens[t].mint) == Some(keysets)
    requires part == if tokens[t].mint in byMint then byMint[tokens[t].mint]
      else Chosen(tokens[t].mint, [], [], [], keysets)
    ensures PartOf(part, tokens, tokens[t].mint, t, keysets)
  {
    hide Considered;
    if tokens[t].mint !in byMint {
      NoneBelow(tokens, tokens[t].mint, t);
    }
  }

  lemma {:induction false} NoneBelow(tokens: seq<Token>, mint: string, n: nat)
    requires n <= |tokens| && forall i :: 0 <= i < n ==> tokens[i].mint != mint
    ensures Positions(tokens, mint, n) == [] && Gathered(tokens, mint, n) == []
  {
    if n > 0 {
      NoneBelow(tokens, mint, n - 1);
    }
  }

  function WithToken(part: Chosen, token: Token, t: nat): Chosen {
    part.(tokens := part.tokens + [token], tokenIndexes := part.tokenIndexes + [t],
        proofs := part.proofs + token.proofs)
  }

  lemma PartGrows(part: Chosen, tokens: seq<Token>, t: nat, keysets: seq<Keyset>)
    requires t < |tokens| && PartOf(part, tokens, tokens[t].mint, t, keysets)
    ensures PartOf(WithToken(part, tokens[t], t), tokens, tokens[t].mint, t + 1, keysets)
  {
  }

  /** The other mints' parts stay, and the current mint's is the new one. */
  lemma PartsKept(byMint: map<string, Chosen>, tokens: seq<Token>, keysetsOf: string -> Option<seq<Keyset>>,
      specificMint: string, excludeMints: seq<string>, t: nat, part: Chosen)
    requires t < |tokens| && Table(byMint, tokens, keysetsOf, specificMint, excludeMints, t)
    requires keysetsOf(tokens[t].mint).Some?
    requires PartOf(part, tokens, tokens[t].mint, t + 1, keysetsOf(tokens[t].mint).value)
    ensures var now := byMint[tokens[t].mint := part];
      forall m :: m in now ==> keysetsOf(m).Some? && PartOf(now[m], tokens, m, t + 1, keysetsOf(m).value)
  {
    forall m | m in byMint && m != tokens[t].mint
      ensures PartOf(byMint[m], tokens, m, t + 1, keysetsOf(m).value)
    {
      PartKept(byMint[m], tokens, m, t, keysetsOf(m).value);
    }
    hide Considered, PartOf;
  }

  lemma TableGrows(byMint: map<string, Chosen>, tokens: seq<Token>, keysetsOf: string -> Option<seq<Keyset>>,
      specificMint: string, excludeMints: seq<string>, t: nat, part: Chosen)
    requires t < |tokens| && Table(byMint, tokens, keysetsOf, specificMint, excludeMints, t)
    requires Considered(tokens[t].mint, specificMint, excludeMints) && keysetsOf(tokens[t].mint).Some?
    requires PartOf(part, tokens, tokens[t].mint, t + 1, keysetsOf(tokens[t].mint).value)
    ensures Table(byMint[tokens[t].mint := part], tokens, keysetsOf, specificMint, excludeMints, t + 1)
  {
    hide Considered, PartOf;
    PartsKept(byMint, tokens, keysetsOf, specificMint, excludeMints, t, part);
    TableFrom(byMint[tokens[t].mint := part], tokens, keysetsOf, specificMint, excludeMints, t + 1);
  }

  lemma TableFrom(byMint: map<string, Chosen>, tokens: seq<Token>, keysetsOf: string -> Option<seq<Keyset>>,
      specificMint: string, excludeMints: seq<string>, t: nat)
    requires t <= |tokens|
    requires forall m :: m in byMint ==> Considered(m, specificMint, excludeMints) && keysetsOf(m).Some?
    requires forall m :: m in byMint ==> PartOf(byMint[m], tokens, m, t, keysetsOf(m).value)
    requires forall i :: 0 <= i < t && Considered(tokens[i].mint, specificMint, excludeMints) ==>
      tokens[i].mint in byMint
    ensures Table(byMint, tokens, keysetsOf, specificMint, excludeMints, t)
  {
  }

  /** Goes through the tokens, adding each to its mint's part, and stops as soon as one part covers
      the amount and its fee. */
  method GetProofsForSending(tokens: seq<Token>, keysetsOf: string -> Option<seq<Keyset>>, amount: u64,
      specificMint: string, excludeMints: seq<string>) returns (out: Outcome<(Chosen, u64)>)
    ensures out.Ok? ==> Chose(tokens, keysetsOf, amount, specificMint, excludeMints, out.value.0, out.value.1)
    ensures out.Ok? <==> exists c: Chosen, fee: u64 ::
      Chose(tokens, keysetsOf, amount, specificMint, excludeMints, c, fee)
    ensures out == Err(NotEnough) <==> Reaches(tokens, keysetsOf, amount, specificMint, excludeMints, |tokens|)
    ensures out == Err(NoKeysets) <==> exists t: nat ::
      StopsWithoutKeysets(tokens, keysetsOf, amount, specificMint, excludeMints, t)
    ensures out == Panic <==> exists t: nat :: StopsInPanic(tokens, keysetsOf, amount, specificMint, excludeMints, t)
    ensures out.Err? ==> out.error == NotEnough || out.error == NoKeysets
  {
    hide Total, Fee, Table, PartOf, Considered, Passes, Reaches, AllKnown, StopsAt, StopsWithoutKeysets, StopsInPanic,
        Chose;
    StartsAt(tokens, keysetsOf, amount, specificMint, excludeMints);
    var byMint: map<string, Chosen> := map[];
    EmptyTable(tokens, keysetsOf, specificMint, excludeMints);
    for t := 0 to |tokens|
      invariant Table(byMint, tokens, keysetsOf, specificMint, excludeMints, t)
      invariant Reaches(tokens, keysetsOf, amount, specificMint, excludeMints, t)
    {
      var token := tokens[t];
      ConsideredIs(token.mint, specificMint, excludeMints);
      if specificMint != "" && token.mint != specificMint {
        TableSkips(byMint, tokens, keysetsOf, specificMint, excludeMints, t);
        SearchSkips(tokens, keysetsOf, amount, specificMint, excludeMints, t);
        continue;
      }
      if token.mint in excludeMints {
        TableSkips(byMint, tokens, keysetsOf, specificMint, excludeMints, t);
        SearchSkips(tokens, keysetsOf, amount, specificMint, excludeMints, t);
        continue;
      }
      var part;
      if token.mint in byMint {
        part := byMint[token.mint];
        TableHas(byMint, tokens, keysetsOf, specificMint, excludeMints, t, token.mint);
      } else {
        var keysets := keysetsOf(token.mint);
        if keysets.None? {
          WithoutKeysets(tokens, keysetsOf, amount, specificMint, excludeMints, t);
          return Err(NoKeysets);
        }
        part := Chosen(token.mint, [], [], [], keysets.value);
      }
      ghost var keysets := keysetsOf(token.mint).value;
      TablePart(byMint, tokens, keysetsOf, specificMint, excludeMints, t, part, keysets);
      PartGrows(part, tokens, t, keysets);
      part := WithToken(part, token, t);
      PartIs(part, tokens, t, keysets);
      CoversIs(part.proofs, keysets, amount);
      var held := Amount(part.proofs);
      if held >= amount {
        // maybe this is enough
        var fee := CalculateFee(part.proofs, part.keysets);
        if fee.None? {
          InPanic(tokens, keysetsOf, amount, specificMint, excludeMints, t);
          return Panic;
        }
        if held >= (amount + fee.value) % TWO_64 {
          ChoiceMade(tokens, keysetsOf, amount, specificMint, excludeMints, t, part, fee.value);
          WithChoice(tokens, keysetsOf, amount, specificMint, excludeMints, part, fee.value);
          return Ok((part, fee.value));
        }
      }
      TableGrows(byMint, tokens, keysetsOf, specificMint, excludeMints, t, part);
      SearchGoesOn(tokens, keysetsOf, amount, specificMint, excludeMints, t);
      byMint := byMint[token.mint := part];
    }
    NothingChosen(tokens, keysetsOf, amount, specificMint, excludeMints);
    out := Err(NotEnough);
  }

  lemma ChoiceMade(tokens: seq<Token>, keysetsOf: string -> Option<seq<Keyset>>, amount: u64,
      specificMint: string, excludeMints: seq<string>, t: nat, part: Chosen, fee: u64)
    requires t < |tokens| && Considered(tokens[t].mint, specificMint, excludeMints)
    requires Reaches(tokens, keysetsOf, amount, specificMint, excludeMints, t)
      && keysetsOf(tokens[t].mint) == Some(part.keysets)
    requires PartOf(part, tokens, tokens[t].mint, t + 1, part.keysets)
    requires part.mint == tokens[t].mint && part.tokenIndexes != [] && part.tokenIndexes[|part.tokenIndexes| - 1] == t
    requires Covers(part.proofs, part.keysets, amount) && Fee(part.proofs, part.keysets) == Some(fee)
    ensures Chose(tokens, keysetsOf, amount, specificMint, excludeMints, part, fee)
  {
    hide Considered, Reaches, PartOf, Covers, Fee;
  }

  lemma StartsAt(tokens: seq<Token>, keysetsOf: string -> Option<seq<Keyset>>, amount: u64,
      specificMint: string, excludeMints: seq<string>)
    ensures Reaches(tokens, keysetsOf, amount, specificMint, excludeMints, 0)
  {
  }

  lemma SearchSkips(tokens: seq<Token>, keysetsOf: string -> Option<seq<Keyset>>, amount: u64,
      specificMint: string, excludeMints: seq<string>, t: nat)
    requires t < |tokens| && Reaches(tokens, keysetsOf, amount, specificMint, excludeMints, t)
    requires !Considered(tokens[t].mint, specificMint, excludeMints)
    ensures Reaches(tokens, keysetsOf, amount, specificMint, excludeMints, t + 1)
  {
    hide Considered, Passes;
  }

  lemma SearchGoesOn(tokens: seq<Token>, keysetsOf: string -> Option<seq<Keyset>>, amount: u64,
      specificMint: string, excludeMints: seq<string>, t: nat)
    requires t < |tokens| && Reaches(tokens, keysetsOf, amount, specificMint, excludeMints, t)
      && keysetsOf(tokens[t].mint).Some?
    requires var proofs, keysets := Gathered(tokens, tokens[t].mint, t + 1), keysetsOf(tokens[t].mint).value;
      Total(proofs) % TWO_64 >= amount ==>
        Fee(proofs, keysets).Some? && Total(proofs) % TWO_64 < (amount + Fee(proofs, keysets).value) % TWO_64
    ensures Reaches(tokens, keysetsOf, amount, specificMint, excludeMints, t + 1)
  {
    hide Considered, Fee, Total, Gathered;
    assert Passes(tokens, keysetsOf, amount, t);
    hide Passes;
  }

  /** A choice is made where the search stops, at a token that is enough. */
  lemma ChoseStops(tokens: seq<Token>, keysetsOf: string -> Option<seq<Keyset>>, amount: u64,
      specificMint: string, excludeMints: seq<string>, chosen: Chosen, fee: u64) returns (t: nat)
    requires Chose(tokens, keysetsOf, amount, specificMint, excludeMints, chosen, fee)
    ensures StopsAt(tokens, keysetsOf, amount, specificMint, excludeMints, t)
      && t == chosen.tokenIndexes[|chosen.tokenIndexes| - 1]
    ensures PartOf(chosen, tokens, tokens[t].mint, t + 1, chosen.keysets)
      && keysetsOf(tokens[t].mint) == Some(chosen.keysets)
    ensures Covers(Gathered(tokens, tokens[t].mint, t + 1), chosen.keysets, amount)
      && Fee(chosen.proofs, chosen.keysets) == Some(fee)
  {
    hide Considered, Total, Fee, Reaches, Gathered, Positions;
    t := chosen.tokenIndexes[|chosen.tokenIndexes| - 1];
  }

  /** At most one choice can be made. */
  lemma ChoseOnce(tokens: seq<Token>, keysetsOf: string -> Option<seq<Keyset>>, amount: u64,
      specificMint: string, excludeMints: seq<string>, c: Chosen, f: u64, d: Chosen, g: u64)
    requires Chose(tokens, keysetsOf, amount, specificMint, excludeMints, c, f)
      && Chose(tokens, keysetsOf, amount, specificMint, excludeMints, d, g)
    ensures c == d && f == g
  {
    hide Chose, StopsAt, Covers, Gathered, Positions, Fee;
    var t := ChoseStops(tokens, keysetsOf, amount, specificMint, excludeMints, c, f);
    var u := ChoseStops(tokens, keysetsOf, amount, specificMint, excludeMints, d, g);
    StopsOnce(tokens, keysetsOf, amount, specificMint, excludeMints, t);
    assert c.tokens == d.tokens;
  }

  lemma WithoutKeysets(tokens: seq<Token>, keysetsOf: string -> Option<seq<Keyset>>, amount: u64,
      specificMint: string, excludeMints: seq<string>, t: nat)
    requires t < |tokens| && Considered(tokens[t].mint, specificMint, excludeMints)
    requires Reaches(tokens, keysetsOf, amount, specificMint, excludeMints, t) && keysetsOf(tokens[t].mint).None?
    ensures StopsWithoutKeysets(tokens, keysetsOf, amount, specificMint, excludeMints, t)
    ensures !Reaches(tokens, keysetsOf, amount, specificMint, excludeMints, |tokens|)
    ensures !exists u: nat :: StopsInPanic(tokens, keysetsOf, amount, specificMint, excludeMints, u)
    ensures !exists c: Chosen, fee: u64 :: Chose(tokens, keysetsOf, amount, specificMint, excludeMints, c, fee)
  {
    hide Considered, Reaches, Chose, Total, Fee, Covers;
    StopsOnce(tokens, keysetsOf, amount, specificMint, excludeMints, t);
    hide StopsAt;
    forall c: Chosen, fee: u64 | Chose(tokens, keysetsOf, amount, specificMint, excludeMints, c, fee)
      ensures false
    {
      var u := ChoseStops(tokens, keysetsOf, amount, specificMint, excludeMints, c, fee);
    }
  }

  lemma {:induction false} InPanic(tokens: seq<Token>, keysetsOf: string -> Option<seq<Keyset>>, amount: u64,
      specificMint: string, excludeMints: seq<string>, t: nat)
    requires t < |tokens| && Considered(tokens[t].mint, specificMint, excludeMints)
    requires Reaches(tokens, keysetsOf, amount, specificMint, excludeMints, t) && keysetsOf(tokens[t].mint).Some?
    requires Total(Gathered(tokens, tokens[t].mint, t + 1)) % TWO_64 >= amount
    requires Fee(Gathered(tokens, tokens[t].mint, t + 1), keysetsOf(tokens[t].mint).value).None?
    ensures StopsInPanic(tokens, keysetsOf, amount, specificMint, excludeMints, t)
    ensures !Reaches(tokens, keysetsOf, amount, specificMint, excludeMints, |tokens|)
    ensures !exists u: nat :: StopsWithoutKeysets(tokens, keysetsOf, amount, specificMint, excludeMints, u)
    ensures !exists c: Chosen, fee: u64 :: Chose(tokens, keysetsOf, amount, specificMint, excludeMints, c, fee)
  {
    hide Considered, Reaches, Chose, Total, Gathered, RateSum;
    StopsOnce(tokens, keysetsOf, amount, specificMint, excludeMints, t);
    hide StopsAt, AllKnown;
    forall c: Chosen, fee: u64 | Chose(tokens, keysetsOf, amount, specificMint, excludeMints, c, fee)
      ensures false
    {
      var u := ChoseStops(tokens, keysetsOf, amount, specificMint, excludeMints, c, fee);
    }
  }

  lemma WithChoice(tokens: seq<Token>, keysetsOf: string -> Option<seq<Keyset>>, amount: u64,
      specificMint: string, excludeMints: seq<string>, chosen: Chosen, fee: u64)
    requires Chose(tokens, keysetsOf, amount, specificMint, excludeMints, chosen, fee)
    ensures !Reaches(tokens, keysetsOf, amount, specificMint, excludeMints, |tokens|)
    ensures !exists u: nat :: StopsWithoutKeysets(tokens, keysetsOf, amount, specificMint, excludeMints, u)
    ensures !exists u: nat :: StopsInPanic(tokens, keysetsOf, amount, specificMint, excludeMints, u)
  {
    hide Considered, Reaches, Chose, Total, Gathered, RateSum, AllKnown;
    var u := ChoseStops(tokens, keysetsOf, amount, specificMint, excludeMints, chosen, fee);
    StopsOnce(tokens, keysetsOf, amount, specificMint, excludeMints, u);
    hide StopsAt;
  }

  lemma NothingChosen(tokens: seq<Token>, keysetsOf: string -> Option<seq<Keyset>>, amount: u64,
      specificMint: string, excludeMints: seq<string>)
    requires Reaches(tokens, keysetsOf, amount, specificMint, excludeMints, |tokens|)
    ensures !exists u: nat :: StopsWithoutKeysets(tokens, keysetsOf, amount, specificMint, excludeMints, u)
    ensures !exists u: nat :: StopsInPanic(tokens, keysetsOf, amount, specificMint, excludeMints, u)
    ensures !exists c: Chosen, fee: u64 :: Chose(tokens, keysetsOf, amount, specificMint, excludeMints, c, fee)
  {
    hide Considered, Reaches, Chose, Total, Gathered, Fee, AllKnown;
    NeverStops(tokens, keysetsOf, amount, specificMint, excludeMints);
    hide StopsAt;
    forall c: Chosen, fee: u64 | Chose(tokens, keysetsOf, amount, specificMint, excludeMints, c, fee)
      ensures false
    {
      var u := ChoseStops(tokens, keysetsOf, amount, specificMint, excludeMints, c, fee);
    }
  }

  /** The choice: all tokens of one mint up to the first at which they cover amount and fee. */
  ghost predicate Chose(tokens: seq<Token>, keysetsOf: string -> Option<seq<Keyset>>, amount: u64,
      specificMint: string, excludeMints: seq<string>, chosen: Chosen, fee: u64)
  {
    && chosen.tokenIndexes != []
    && var last := chosen.tokenIndexes[|chosen.tokenIndexes| - 1];
    && last < |tokens| && Considered(tokens[last].mint, specificMint, excludeMints)
    && PartOf(chosen, tokens, tokens[last].mint, last + 1, chosen.keysets)
    && keysetsOf(chosen.mint) == Some(chosen.keysets)
    && Covers(chosen.proofs, chosen.keysets, amount) && Fee(chosen.proofs, chosen.keysets) == Some(fee)
    && Reaches(tokens, keysetsOf, amount, specificMint, excludeMints, last)
  }

  /** What is chosen are the tokens of one allowed mint up to the last, in the order of the list. */
  lemma ChoiceIs(tokens: seq<Token>, keysetsOf: string -> Option<seq<Keyset>>, amount: u64,
      specificMint: string, excludeMints: seq<string>, c: Chosen, fee: u64)
    requires Chose(tokens, keysetsOf, amount, specificMint, excludeMints, c, fee)
    ensures (specificMint == "" || c.mint == specificMint) && c.mint !in excludeMints
    ensures c.tokenIndexes != [] && c.tokenIndexes[|c.tokenIndexes| - 1] < |tokens|
    ensures forall i :: i in c.tokenIndexes <==>
      0 <= i <= c.tokenIndexes[|c.tokenIndexes| - 1] && tokens[i].mint == c.mint
    ensures forall j, k :: 0 <= j < k < |c.tokenIndexes| ==> c.tokenIndexes[j] < c.tokenIndexes[k]
  {
    ConsideredIs(c.mint, specificMint, excludeMints);
    ChosenIndexes(tokens, keysetsOf, amount, specificMint, excludeMints, c, fee);
    IndexesAre(tokens, c.mint, c.tokenIndexes);
    hide *;
  }

  /** They come with their proofs, which hold the amount, and amount and fee. */
  lemma ChoiceHolds(tokens: seq<Token>, keysetsOf: string -> Option<seq<Keyset>>, amount: u64,
      specificMint: string, excludeMints: seq<string>, c: Chosen, fee: u64)
    requires Chose(tokens, keysetsOf, amount, specificMint, excludeMints, c, fee)
    ensures |c.tokens| == |c.tokenIndexes|
    ensures forall i :: 0 <= i < |c.tokens| ==> c.tokenIndexes[i] < |tokens| && c.tokens[i] == tokens[c.tokenIndexes[i]]
    ensures c.proofs == ProofsOf(c.tokens) && keysetsOf(c.mint) == Some(c.keysets)
    ensures Fee(c.proofs, c.keysets) == Some(fee)
      && Total(c.proofs) % TWO_64 >= amount && Total(c.proofs) % TWO_64 >= (amount + fee) % TWO_64
  {
    hide *;
    CoversIs(c.proofs, c.keysets, amount);
    var last := ChosenPart(tokens, keysetsOf, amount, specificMint, excludeMints, c, fee);
    PartTokens(c, tokens, tokens[last].mint, last + 1, c.keysets);
  }

  /** The positions below n of a mint whose token is at n - 1. */
  lemma LastPosition(tokens: seq<Token>, mint: string, n: nat, p: seq<nat>)
    requires 0 < n <= |tokens| && tokens[n - 1].mint == mint && p == Positions(tokens, mint, n)
    ensures p != [] && p[|p| - 1] == n - 1
    ensures forall i :: i in p <==> 0 <= i <= n - 1 && tokens[i].mint == mint
  {
  }

  lemma IndexesAre(tokens: seq<Token>, mint: string, p: seq<nat>)
    requires p != [] && p[|p| - 1] < |tokens| && tokens[p[|p| - 1]].mint == mint
    requires p == Positions(tokens, mint, p[|p| - 1] + 1)
    ensures forall i :: i in p <==> 0 <= i <= p[|p| - 1] && tokens[i].mint == mint
    ensures forall j, k :: 0 <= j < k < |p| ==> p[j] < p[k]
  {
    LastPosition(tokens, mint, p[|p| - 1] + 1, p);
    PositionsRise(tokens, mint, p[|p| - 1] + 1);
    hide Positions;
  }

  lemma ChosenIndexes(tokens: seq<Token>, keysetsOf: string -> Option<seq<Keyset>>, amount: u64,
      specificMint: string, excludeMints: seq<string>, c: Chosen, fee: u64)
    requires Chose(tokens, keysetsOf, amount, specificMint, excludeMints, c, fee)
    ensures c.tokenIndexes != [] && c.tokenIndexes[|c.tokenIndexes| - 1] < |tokens|
    ensures c.mint == tokens[c.tokenIndexes[|c.tokenIndexes| - 1]].mint
      && Considered(c.mint, specificMint, excludeMints)
    ensures c.tokenIndexes == Positions(tokens, c.mint, c.tokenIndexes[|c.tokenIndexes| - 1] + 1)
  {
    hide *;
    var last := ChosenPart(tokens, keysetsOf, amount, specificMint, excludeMints, c, fee);
    PartHas(c, tokens, tokens[last].mint, last + 1, c.keysets);
  }

  lemma ChosenPart(tokens: seq<Token>, keysetsOf: string -> Option<seq<Keyset>>, amount: u64,
      specificMint: string, excludeMints: seq<string>, c: Chosen, fee: u64) returns (last: nat)
    requires Chose(tokens, keysetsOf, amount, specificMint, excludeMints, c, fee)
    ensures c.tokenIndexes != [] && last == c.tokenIndexes[|c.tokenIndexes| - 1] < |tokens|
    ensures PartOf(c, tokens, tokens[last].mint, last + 1, c.keysets)
    ensures Considered(tokens[last].mint, specificMint, excludeMints) && keysetsOf(c.mint) == Some(c.keysets)
    ensures Covers(c.proofs, c.keysets, amount) && Fee(c.proofs, c.keysets) == Some(fee)
  {
    hide Fee, Total, Reaches, Covers, Considered, PartOf;
    last := c.tokenIndexes[|c.tokenIndexes| - 1];
  }

  lemma PartHas(part: Chosen, tokens: seq<Token>, mint: string, n: nat, keysets: seq<Keyset>)
    requires n <= |tokens| && PartOf(part, tokens, mint, n, keysets)
    ensures part.mint == mint && part.tokenIndexes == Positions(tokens, mint, n)
  {
    hide Positions, Gathered;
  }

  lemma PartTokens(part: Chosen, tokens: seq<Token>, mint: string, n: nat, keysets: seq<Keyset>)
    requires n <= |tokens| && PartOf(part, tokens, mint, n, keysets)
    ensures |part.tokens| == |part.tokenIndexes| && part.proofs == ProofsOf(part.tokens)
    ensures forall i :: 0 <= i < |part.tokens| ==>
      part.tokenIndexes[i] < |tokens| && part.tokens[i] == tokens[part.tokenIndexes[i]]
  {
    hide Positions, Gathered, ProofsOf;
    GatheredFrom(tokens, mint, n, part.tokenIndexes, part.tokens);
  }

  /** It is the first that is enough: at no earlier token did an allowed mint's tokens so far cover
      amount and fee. */
  lemma ChoiceIsEarliest(tokens: seq<Token>, keysetsOf: string -> Option<seq<Keyset>>, amount: u64,
      specificMint: string, excludeMints: seq<string>, c: Chosen, fee: u64, i: nat)
    requires Chose(tokens, keysetsOf, amount, specificMint, excludeMints, c, fee)
    requires i < c.tokenIndexes[|c.tokenIndexes| - 1] && tokens[i].mint !in excludeMints
    requires specificMint == "" || tokens[i].mint == specificMint
    ensures keysetsOf(tokens[i].mint).Some?
      && !Covers(Gathered(tokens, tokens[i].mint, i + 1), keysetsOf(tokens[i].mint).value, amount)
  {
    hide Fee, Total, Gathered, Positions;
    PassesIs(tokens, keysetsOf, amount, i);
    hide Passes;
  }

  /** The search goes past exactly those tokens at which the proofs gathered so far are not enough,
      and a mint's keysets and the fee are known wherever they are needed. */
  lemma PassesIs(tokens: seq<Token>, keysetsOf: string -> Option<seq<Keyset>>, amount: u64, n: nat)
    requires n < |tokens|
    ensures Passes(tokens, keysetsOf, amount, n) <==>
      && keysetsOf(tokens[n].mint).Some?
      && var proofs, keysets := Gathered(tokens, tokens[n].mint, n + 1), keysetsOf(tokens[n].mint).value;
      && !Covers(proofs, keysets, amount)
      && !(Total(proofs) % TWO_64 >= amount && Fee(proofs, keysets).None?)
  {
    hide Fee, Total, Gathered;
  }

  lemma ConsideredIs(mint: string, specificMint: string, excludeMints: seq<string>)
    ensures Considered(mint, specificMint, excludeMints) <==>
      !(specificMint != "" && mint != specificMint) && mint !in excludeMints
  {
  }

  lemma EmptyTable(tokens: seq<Token>, keysetsOf: string -> Option<seq<Keyset>>, specificMint: string,
        excludeMints: seq<string>)
    ensures Table(map[], tokens, keysetsOf, specificMint, excludeMints, 0)
  {
  }

  lemma TableHas(byMint: map<string, Chosen>, tokens: seq<Token>, keysetsOf: string -> Option<seq<Keyset>>,
      specificMint: string, excludeMints: seq<string>, t: nat, mint: string)
    requires t <= |tokens| && Table(byMint, tokens, keysetsOf, specificMint, excludeMints, t) && mint in byMint
    ensures keysetsOf(mint).Some?
  {
  }

  lemma PartIs(part: Chosen, tokens: seq<Token>, t: nat, keysets: seq<Keyset>)
    requires t < |tokens| && PartOf(part, tokens, tokens[t].mint, t + 1, keysets)
    ensures part.mint == tokens[t].mint && part.keysets == keysets
      && part.proofs == Gathered(tokens, tokens[t].mint, t + 1)
    ensures part.tokenIndexes != [] && part.tokenIndexes[|part.tokenIndexes| - 1] == t
  {
  }

  lemma CoversIs(proofs: seq<Proof>, keysets: seq<Keyset>, amount: u64)
    ensures Covers(proofs, keysets, amount) <==>
      && Total(proofs) % TWO_64 >= amount && Fee(proofs, keysets).Some?
      && Total(proofs) % TWO_64 >= (amount + Fee(proofs, keysets).value) % TWO_64
  {
    hide Fee, Total;
  }

  // ----- splitting -----

  /** The mint library's split of an amount into denominations, as far as this module relies on it. */
  ghost predicate SplitsExactly(amountSplit: u64 -> seq<u64>) {
    && amountSplit(0) == []
    && forall a :: Sum(amountSplit(a)) == a
  }

  ghost function Sum(s: seq<u64>): nat {
    if s == [] then 0 else Sum(s[..|s| - 1]) + s[|s| - 1]
  }

  /** The denominations asked of the mint, for the principal and for the change. The 64-bit
      subtractions wrap around when the fee is more than what is left for it. */
  method SplitIntoPrincipalAndChange(keysets: seq<Keyset>, proofs: seq<Proof>, target: u64,
        amountSplit: u64 -> seq<u64>)
      returns (out: Outcome<(seq<u64>, seq<u64>)>)
    requires SplitsExactly(amountSplit)
    ensures out.Panic? <==> Fee(proofs, keysets).None?
    ensures Fee(proofs, keysets).Some? ==> (out.Err? <==> target > Total(proofs) % TWO_64)
    ensures out.Ok? ==> var fee, held := Fee(proofs, keysets).value, Total(proofs) % TWO_64;
      && Sum(out.value.0) == (if target < held then target else (held - fee) % TWO_64)
      && Sum(out.value.1) == (if target < held then (held - target - fee) % TWO_64 else 0)
      && (out.value.1 == [] <==> Sum(out.value.1) == 0)
  {
    hide Total, Fee;
    var proofsAmount := Amount(proofs);
    var principalAmount: u64, changeAmount: u64;
    var fee := CalculateFee(proofs, keysets);
    if fee.None? {
      return Panic;
    }
    if target < proofsAmount {
      // the exact target, then change, and the fee is taken from the change
      principalAmount := target;
      changeAmount := (proofsAmount - target - fee.value) % TWO_64;
    } else if target == proofsAmount {
      // everything is swapped, so the fee is taken from the principal
      principalAmount := (target - fee.value) % TWO_64;
      changeAmount := 0;
    } else {
      return Err(TooMuch);
    }
    var splits := amountSplit(principalAmount);
    var changeStartIndex := |splits|;
    splits := splits + amountSplit(changeAmount);
    assert splits[..changeStartIndex] == amountSplit(principalAmount);
    assert splits[changeStartIndex..] == amountSplit(changeAmount);
    assert Sum(amountSplit(changeAmount)) == changeAmount;
    assert Sum(amountSplit(principalAmount)) == principalAmount;
    assert Sum([]) == 0;
    out := Ok((splits[..changeStartIndex], splits[changeStartIndex..]));
  }

  /** The principal is what was asked for and nothing is lost. */
  predicate Exact(principal: int, change: int, fee: int, target: int, held: int) {
    principal == target && principal + change + fee == held
  }

  /** When a split is exact: the inputs must hold target and fee together. */
  lemma SplitExact(held: u64, target: u64, fee: u64)
    requires target <= held
    ensures var principal := if target < held then target else (held - fee) % TWO_64;
      var change := if target < held then (held - target - fee) % TWO_64 else 0;
      Exact(principal, change, fee, target, held) <==> target + fee <= held
  {
  }

  /** For chosen inputs the split is exact unless amount and fee overflow a word together. */
  lemma ChosenSplitExact(proofs: seq<Proof>, keysets: seq<Keyset>, amount: u64)
    requires Covers(proofs, keysets, amount)
    ensures var fee, held := Fee(proofs, keysets).value, Total(proofs) % TWO_64;
      var principal := if amount < held then amount else (held - fee) % TWO_64;
      var change := if amount < held then (held - amount - fee) % TWO_64 else 0;
      Exact(principal, change, fee, amount, held) <==> amount + fee < TWO_64
  {
    hide Fee, Total;
    CoversIs(proofs, keysets, amount);
    SplitExact(Total(proofs) % TWO_64, amount, Fee(proofs, keysets).value);
  }

  // ----- the wallet afterwards -----

  /** Everything the wallet holds. */
  ghost function Balance(tokens: seq<Token>): nat {
    if tokens == [] then 0 else Balance(tokens[..|tokens| - 1]) + Total(tokens[|tokens| - 1].proofs)
  }

  lemma BalanceSnoc(tokens: seq<Token>, t: Token)
    ensures Balance(tokens + [t]) == Balance(tokens) + Total(t.proofs)
  {
    assert (tokens + [t])[..|tokens|] == tokens;
  }

  /** The tokens below n that are not among the used ones. */
  function Unused(tokens: seq<Token>, used: seq<nat>, n: nat): seq<Token>
    requires n <= |tokens|
  {
    if n == 0 then []
    else Unused(tokens, used, n - 1) + (if n - 1 in used then [] else [tokens[n - 1]])
  }

  /** How many members of s are below n. */
  ghost function Below(s: set<nat>, n: nat): nat {
    |set j | j in s && j < n|
  }

  lemma BelowNext(s: set<nat>, n: nat)
    ensures Below(s, n + 1) == Below(s, n) + (if n in s then 1 else 0)
  {
    var a, b := set j | j in s && j < n, set j | j in s && j < n + 1;
    assert b == if n in s then a + {n} else a;
  }

  /** The i-th position below n moves to where Below says. */
  lemma BelowPlaces<T>(s: set<nat>, n: nat, before: seq<T>, all: seq<T>)
    requires n < |all| && |before| == Below(s, n)
    requires forall i: nat :: i < n && i in s ==> Below(s, i) < |before| && before[Below(s, i)] == all[i]
    ensures var after := if n in s then before + [all[n]] else before;
      && |after| == Below(s, n + 1)
      && forall i: nat :: i < n + 1 && i in s ==> Below(s, i) < |after| && after[Below(s, i)] == all[i]
  {
    BelowNext(s, n);
    hide Below;
  }

  /** Below n the members of kept are the positions that are not used. */
  ghost predicate Kept(used: seq<nat>, n: nat, kept: set<nat>) {
    forall i: nat :: i < n ==> (i in kept <==> i !in used)
  }

  lemma {:induction false} UnusedPlaces(tokens: seq<Token>, used: seq<nat>, n: nat, kept: set<nat>)
    requires n <= |tokens| && Kept(used, n, kept)
    ensures |Unused(tokens, used, n)| == Below(kept, n)
    ensures forall i: nat :: i < n && i in kept ==>
      Below(kept, i) < |Unused(tokens, used, n)| && Unused(tokens, used, n)[Below(kept, i)] == tokens[i]
  {
    hide *;
    BelowNone(kept);
    if n == 0 {
      NothingBefore(tokens, used);
    } else {
      KeptBelow(used, n, kept);
      UnusedOne(tokens, used, n - 1);
      UnusedPlaces(tokens, used, n - 1, kept);
      BelowPlaces(kept, n - 1, Unused(tokens, used, n - 1), tokens);
    }
  }

  lemma NothingBefore(tokens: seq<Token>, used: seq<nat>)
    ensures Unused(tokens, used, 0) == []
  {
  }

  lemma KeptBelow(used: seq<nat>, n: nat, kept: set<nat>)
    requires n > 0 && Kept(used, n, kept)
    ensures Kept(used, n - 1, kept) && (n - 1 in kept <==> n - 1 !in used)
  {
  }

  lemma BelowNone(s: set<nat>)
    ensures Below(s, 0) == 0
  {
    assert (set j | j in s && j < 0) == {};
  }

  /** Every unused token keeps its place among the unused ones, and nothing else is left. */
  lemma UnusedIs(tokens: seq<Token>, used: seq<nat>, n: nat)
    requires n <= |tokens|
    ensures var kept := set i: nat | i < |tokens| && i !in used;
      && |Unused(tokens, used, n)| == Below(kept, n)
      && forall i: nat :: i < n && i !in used ==>
        Below(kept, i) < |Unused(tokens, used, n)| && Unused(tokens, used, n)[Below(kept, i)] == tokens[i]
  {
    hide Unused, Below;
    var kept := set i: nat | i < |tokens| && i !in used;
    UnusedPlaces(tokens, used, n, kept);
  }

  datatype TokenRef = TokenRef(eventId: string, created: bool, isNutzap: bool)

  /** The references to used tokens that had been published. */
  function DeletedRefs(tokens: seq<Token>, used: seq<nat>, n: nat): seq<TokenRef>
    requires n <= |tokens|
  {
    if n == 0 then [] else
      var ref := if n - 1 in used
          && tokens[n - 1].eventId.Some? then [TokenRef(tokens[n - 1].eventId.value, false, false)] else [];
      DeletedRefs(tokens, used, n - 1) + ref
  }

  lemma {:induction false} DeletedPlaces(tokens: seq<Token>, used: seq<nat>, n: nat, gone: set<nat>,
        refs: seq<TokenRef>)
    requires n <= |tokens| == |refs|
    requires forall i: nat :: i < |tokens| ==> (i in gone <==> i in used && tokens[i].eventId.Some?)
    requires forall i: nat :: i < |tokens| && tokens[i].eventId.Some? ==>
      refs[i] == TokenRef(tokens[i].eventId.value, false, false)
    ensures |DeletedRefs(tokens, used, n)| == Below(gone, n)
    ensures forall i: nat :: i < n && i in gone ==>
      Below(gone, i) < |DeletedRefs(tokens, used, n)| && DeletedRefs(tokens, used, n)[Below(gone, i)] == refs[i]
  {
    if n == 0 {
      BelowNone(gone);
    } else {
      DeletedPlaces(tokens, used, n - 1, gone, refs);
      var before := DeletedRefs(tokens, used, n - 1);
      assert before + [] == before;
      assert DeletedRefs(tokens, used, n) == if n - 1 in gone then before + [refs[n - 1]] else before;
      hide DeletedRefs, Below;
      BelowPlaces(gone, n - 1, before, refs);
    }
  }

  /** One reference for each used token that had been published, in the order of the list. */
  lemma DeletedRefsIs(tokens: seq<Token>, used: seq<nat>, n: nat)
    requires n <= |tokens|
    ensures var gone := set i: nat | i < |tokens| && i in used && tokens[i].eventId.Some?;
      && |DeletedRefs(tokens, used, n)| == Below(gone, n)
      && forall i: nat :: i < n && i in used && tokens[i].eventId.Some? ==>
        && Below(gone, i) < |DeletedRefs(tokens, used, n)|
        && DeletedRefs(tokens, used, n)[Below(gone, i)] == TokenRef(tokens[i].eventId.value, false, false)
  {
    hide DeletedRefs, Below;
    var gone := set i: nat | i < |tokens| && i in used && tokens[i].eventId.Some?;
    var refs := seq(|tokens|, i requires 0 <= i < |tokens| =>
      TokenRef(if tokens[i].eventId.Some? then tokens[i].eventId.value else "", false, false));
    DeletedPlaces(tokens, used, n, gone, refs);
  }

  lemma BalancePrefix(tokens: seq<Token>, n: nat)
    requires n < |tokens|
    ensures Balance(tokens[..n + 1]) == Balance(tokens[..n]) + Total(tokens[n].proofs)
  {
    assert tokens[..n + 1] == tokens[..n] + [tokens[n]];
    BalanceSnoc(tokens[..n], tokens[n]);
  }

  ghost function AtMost(n: nat, last: nat): (m: nat)
    ensures m <= last && m <= n
  {
    if n <= last then n else last
  }

  /** One more token is either unused, or used and its proofs gathered. */
  lemma UnusedStep(tokens: seq<Token>, mint: string, last: nat, n: nat)
    requires last <= |tokens| && n < |tokens|
    ensures var used := Positions(tokens, mint, last);
      var taken := n < last && tokens[n].mint == mint;
      && Unused(tokens, used, n + 1)
        == (if taken then Unused(tokens, used, n) else Unused(tokens, used, n) + [tokens[n]])
      && Total(Gathered(tokens, mint, AtMost(n + 1, last)))
         == Total(Gathered(tokens, mint, AtMost(n, last))) + (if taken then Total(tokens[n].proofs) else 0)
  {
    UnusedOne(tokens, Positions(tokens, mint, last), n);
    if n < last {
      GatheredOne(tokens, mint, n);
    }
    hide Total, Unused, Gathered;
    if n < last && tokens[n].mint == mint {
      TotalAppend(Gathered(tokens, mint, n), tokens[n].proofs);
    }
  }

  lemma UnusedOne(tokens: seq<Token>, used: seq<nat>, n: nat)
    requires n < |tokens|
    ensures Unused(tokens, used, n + 1)
      == (if n in used then Unused(tokens, used, n) else Unused(tokens, used, n) + [tokens[n]])
  {
    var u := Unused(tokens, used, n);
    assert u + [] == u;
  }

  lemma GatheredOne(tokens: seq<Token>, mint: string, n: nat)
    requires n < |tokens|
    ensures Gathered(tokens, mint, n + 1)
      == (if tokens[n].mint == mint then Gathered(tokens, mint, n) + tokens[n].proofs else Gathered(tokens, mint, n))
  {
    var g := Gathered(tokens, mint, n);
    assert g + [] == g;
  }

  lemma NothingUsed(tokens: seq<Token>, mint: string, last: nat)
    requires last <= |tokens|
    ensures Balance(tokens[..0]) == 0 && Balance(Unused(tokens, Positions(tokens, mint, last), 0)) == 0
    ensures Total(Gathered(tokens, mint, AtMost(0, last))) == 0
  {
    assert tokens[..0] == [];
  }

  /** Using all tokens of a mint below n takes exactly their proofs out of the balance. */
  lemma {:induction false} UnusedBalance(tokens: seq<Token>, mint: string, last: nat, n: nat)
    requires last <= |tokens| && n <= |tokens|
    ensures Balance(tokens[..n]) == Balance(Unused(tokens, Positions(tokens, mint, last), n))
      + Total(Gathered(tokens, mint, AtMost(n, last)))
  {
    hide *;
    if n == 0 {
      NothingUsed(tokens, mint, last);
    } else {
      var m := n - 1;
      UnusedBalance(tokens, mint, last, m);
      UnusedStep(tokens, mint, last, m);
      BalancePrefix(tokens, m);
      BalanceSnoc(Unused(tokens, Positions(tokens, mint, last), m), tokens[m]);
      assert m + 1 == n;
    }
  }

  /** A mint signs one proof of each denomination asked for. */
  ghost predicate SignsExactly(mintAnswer: seq<u64> -> seq<Proof>) {
    forall s {:trigger mintAnswer(s)} :: Total(mintAnswer(s)) == Sum(s) && (mintAnswer(s) == [] <==> s == [])
  }

  lemma SignedIs(mintAnswer: seq<u64> -> seq<Proof>, s: seq<u64>)
    requires SignsExactly(mintAnswer)
    ensures Total(mintAnswer(s)) == Sum(s) && (mintAnswer(s) == [] <==> s == [])
  {
  }

  function PrincipalOf(held: int, amount: int, fee: int): int {
    if amount < held then amount else (held - fee) % TWO_64
  }

  function ChangeOf(held: int, amount: int, fee: int): int {
    if amount < held then (held - amount - fee) % TWO_64 else 0
  }

  /** What sending leaves behind: nothing happens to the list unless there is change. */
  ghost predicate Spent(before: seq<Token>, after: seq<Token>, chosen: Chosen, principal: seq<Proof>,
        change: seq<Proof>,
      eventId: Option<string>, amount: u64, fee: u64)
  {
    && var held := Total(chosen.proofs) % TWO_64;
    && Total(principal) == PrincipalOf(held, amount, fee)
    && Total(change) == ChangeOf(held, amount, fee)
    && (change == [] <==> Total(change) == 0)
    && after == if change == [] then before
         else Unused(before, chosen.tokenIndexes, |before|) + [Token(chosen.mint, change, eventId, [])]
  }

  lemma SpentBy(before: seq<Token>, after: seq<Token>, chosen: Chosen, principal: seq<Proof>, change: seq<Proof>,
      eventId: Option<string>, amount: u64, fee: u64)
    requires Total(principal) == PrincipalOf(Total(chosen.proofs) % TWO_64, amount, fee)
    requires Total(change) == ChangeOf(Total(chosen.proofs) % TWO_64, amount, fee)
    requires change == [] <==> Total(change) == 0
    requires after == if change == [] then before
         else Unused(before, chosen.tokenIndexes, |before|) + [Token(chosen.mint, change, eventId, [])]
    ensures Spent(before, after, chosen, principal, change, eventId, amount, fee)
  {
  }

  /** Without overflow the recipient gets exactly the amount. The balance drops by amount and fee
      exactly when the chosen proofs hold more than that, or nothing is due at all: otherwise there is
      no change, and without change the used tokens stay in the list. */
  lemma BalanceAfterSending(before: seq<Token>, after: seq<Token>, keysetsOf: string -> Option<seq<Keyset>>,
        specificMint: string,
      excludeMints: seq<string>, chosen: Chosen, principal: seq<Proof>, change: seq<Proof>, eventId: Option<string>,
          amount: u64, fee: u64)
    requires Chose(before, keysetsOf, amount, specificMint, excludeMints, chosen, fee)
    requires Spent(before, after, chosen, principal, change, eventId, amount, fee)
    requires amount + fee < TWO_64 && Total(chosen.proofs) < TWO_64
    ensures Total(principal) == amount
    ensures Total(principal) + Total(change) + fee == Total(chosen.proofs)
    ensures Balance(after) + amount + fee == Balance(before) <==>
      Total(chosen.proofs) > amount + fee || amount + fee == 0
  {
    hide Balance, Total, Fee, Gathered, Positions, Unused, Covers, Reaches, Considered;
    var last := ChosenLast(before, keysetsOf, amount, specificMint, excludeMints, chosen, fee);
    CoversIs(chosen.proofs, chosen.keysets, amount);
    UnusedBalance(before, before[last].mint, last + 1, |before|);
    assert before[..|before|] == before;
    BalanceSnoc(Unused(before, chosen.tokenIndexes, |before|), Token(chosen.mint, change, eventId, []));
    hide Chose;
    WholeWord(Total(chosen.proofs));
  }

  /** A token worth exactly amount and fee is spent and stays in the list. */
  lemma ExactTokenStays()
    ensures var keyset, token := Keyset("k", 1000), Token("m", [Proof("k", 6, "")], None, []);
      var chosen := Chosen("m", [token], [0], token.proofs, [keyset]);
      && Chose([token], _ => Some([keyset]), 5, "", [], chosen, 1)
      && forall after, principal, change, eventId :: Spent([token], after, chosen, principal, change, eventId, 5, 1) ==>
        after == [token] && Total(principal) == 5 && Balance(after) + 5 + 1 != Balance([token])
  {
    var keyset, token := Keyset("k", 1000), Token("m", [Proof("k", 6, "")], None, []);
    OneTokenChosen(token, keyset, 5);
  }

  /** A wallet of one token with one proof: what is chosen, when it is enough. */
  lemma OneTokenChosen(token: Token, keyset: Keyset, amount: u64)
    requires |token.proofs| == 1 && token.proofs[0].keyset == keyset.id && keyset.feePpk == 1000
    requires token.proofs[0].amount >= amount && token.proofs[0].amount >= (amount + 1) % TWO_64
    ensures Total(token.proofs) == token.proofs[0].amount && Fee(token.proofs, [keyset]) == Some(1)
    ensures Chose([token], _ => Some([keyset]), amount, "", [],
      Chosen(token.mint, [token], [0], token.proofs, [keyset]), 1)
  {
    var p, k := token.proofs[0], token.proofs[0].keyset;
    assert token.proofs == [p];
    OneProof(p, keyset);
    OneToken(token);
    hide *;
    var part := Chosen(token.mint, [token], [0], [p], [keyset]);
    ChoiceMade([token], _ => Some([keyset]), amount, "", [], 0, part, 1);
  }

  lemma OneProof(p: Proof, keyset: Keyset)
    requires p.keyset == keyset.id && keyset.feePpk == 1000
    ensures Total([p]) == p.amount && Fee([p], [keyset]) == Some(1)
  {
    assert [p][..0] == [];
    assert Total([]) == 0;
    assert Rate(p.keyset, [keyset]) == Some(1000);
    assert AllKnown([p], [keyset]);
    assert RateSum([p][..0], [keyset]) == 0;
  }

  lemma OneToken(token: Token)
    requires |token.proofs| == 1
    ensures Gathered([token], token.mint, 1) == token.proofs && Positions([token], token.mint, 1) == [0]
  {
    assert Gathered([token], token.mint, 0) == [];
    assert [] + token.proofs == token.proofs;
  }

  /** Amount and fee that overflow a word together: the recipient gets one less than was asked for. */
  lemma OverflowFallsShort()
    ensures var keyset, token := Keyset("k", 1000), Token("m", [Proof("k", 0xFFFFFFFF_FFFFFFFF, "")], None, []);
      var amount: u64, held := 0xFFFFFFFF_FFFFFFFF, Total(token.proofs) % TWO_64;
      && Chose([token], _ => Some([keyset]), amount, "", [], Chosen("m", [token], [0], token.proofs, [keyset]), 1)
      && !Exact(PrincipalOf(held, amount, 1), ChangeOf(held, amount, 1), 1, amount, held)
      && PrincipalOf(held, amount, 1) == amount - 1
  {
    OneTokenChosen(Token("m", [Proof("k", 0xFFFFFFFF_FFFFFFFF, "")], None, []), Keyset("k", 1000), 0xFFFFFFFF_FFFFFFFF);
  }

  lemma WholeWord(x: nat)
    requires x < TWO_64
    ensures x % TWO_64 == x
  {
  }

  lemma ChosenLast(tokens: seq<Token>, keysetsOf: string -> Option<seq<Keyset>>, amount: u64,
      specificMint: string, excludeMints: seq<string>, chosen: Chosen, fee: u64) returns (last: nat)
    requires Chose(tokens, keysetsOf, amount, specificMint, excludeMints, chosen, fee)
    ensures last < |tokens| && chosen.tokenIndexes == Positions(tokens, tokens[last].mint, last + 1)
    ensures chosen.proofs == Gathered(tokens, tokens[last].mint, last + 1)
    ensures Covers(chosen.proofs, chosen.keysets, amount) && Fee(chosen.proofs, chosen.keysets) == Some(fee)
  {
    hide Covers, Reaches, Considered, Positions, Gathered, Fee;
    last := chosen.tokenIndexes[|chosen.tokenIndexes| - 1];
  }

  /** There is a choice of proofs, and a change token can be published where one is due. */
  ghost predicate CanSend(tokens: seq<Token>, keysetsOf: string -> Option<seq<Keyset>>, amount: u64,
      specificMint: string, eventId: Option<string>)
  {
    exists c: Chosen, f: u64 ::
      Chose(tokens, keysetsOf, amount, specificMint, [], c, f)
          && (ChangeOf(Total(c.proofs) % TWO_64, amount, f) == 0 || eventId.Some?)
  }

  /** There is a choice of proofs, but the change token that is due cannot be published. */
  ghost predicate LacksEvent(tokens: seq<Token>, keysetsOf: string -> Option<seq<Keyset>>, amount: u64,
      specificMint: string, eventId: Option<string>)
  {
    exists c: Chosen, f: u64 ::
      Chose(tokens, keysetsOf, amount, specificMint, [], c, f) && ChangeOf(Total(c.proofs) % TWO_64, amount, f) > 0
          && eventId.None?
  }

  lemma NothingToSend(tokens: seq<Token>, keysetsOf: string -> Option<seq<Keyset>>, amount: u64,
      specificMint: string, eventId: Option<string>)
    requires !exists c: Chosen, f: u64 :: Chose(tokens, keysetsOf, amount, specificMint, [], c, f)
    ensures !CanSend(tokens, keysetsOf, amount, specificMint, eventId)
    ensures !LacksEvent(tokens, keysetsOf, amount, specificMint, eventId)
  {
    hide Chose;
  }

  /** The one choice decides whether sending goes through. */
  lemma SendDecided(tokens: seq<Token>, keysetsOf: string -> Option<seq<Keyset>>, amount: u64,
      specificMint: string, eventId: Option<string>, chosen: Chosen, fee: u64)
    requires Chose(tokens, keysetsOf, amount, specificMint, [], chosen, fee)
    ensures var due := ChangeOf(Total(chosen.proofs) % TWO_64, amount, fee) > 0;
      && (CanSend(tokens, keysetsOf, amount, specificMint, eventId) <==> !due || eventId.Some?)
      && (LacksEvent(tokens, keysetsOf, amount, specificMint, eventId) <==> due && eventId.None?)
  {
    hide Chose, Total;
    forall c: Chosen, f: u64 | Chose(tokens, keysetsOf, amount, specificMint, [], c, f)
      ensures c == chosen && f == fee
    {
      ChoseOnce(tokens, keysetsOf, amount, specificMint, [], chosen, fee, c, f);
    }
  }

  class Wallet {
    var tokens: seq<Token>

    constructor (tokens: seq<Token>)
      ensures this.tokens == tokens
    {
      this.tokens := tokens;
    }

    /** Drops the used tokens and adds one token with the change. The list is replaced only when
        there is change, and the ids of the dropped tokens do not reach the new token. */
    method SaveChangeAndDeleteUsedTokens(mint: string, changeProofs: seq<Proof>, used: seq<nat>,
          eventId: Option<string>,
        refs: seq<TokenRef>) returns (out: Outcome<seq<TokenRef>>)
      modifies this
      ensures out == Err(NoEvent) <==> changeProofs != [] && eventId.None?
      ensures out.Err? ==> out.error == NoEvent
      ensures out.Err? ==> tokens == old(tokens)
      ensures !out.Panic?
      ensures out.Ok? && changeProofs != [] ==>
        && tokens == Unused(old(tokens), used, |old(tokens)|) + [Token(mint, changeProofs, eventId, [])]
        && out.value == refs + DeletedRefs(old(tokens), used, |old(tokens)|) + [TokenRef(eventId.value, true, false)]
      ensures out.Ok? && changeProofs == [] ==>
        tokens == old(tokens) && out.value == refs + DeletedRefs(old(tokens), used, |old(tokens)|)
    {
      var updatedTokens: seq<Token> := [];
      var changeToken := Token(mint, changeProofs, None, []);
      var references := refs;
      assert refs + [] == refs;
      for i := 0 to |tokens|
        invariant tokens == old(tokens)
        invariant updatedTokens == Unused(tokens, used, i)
        invariant references == refs + DeletedRefs(tokens, used, i)
      {
        var token := tokens[i];
        if i in used {
          assert updatedTokens + [] == updatedTokens;
          if token.eventId.Some? {
            // only the loop's own copy of the token learns of its deletion
            token := token.(deleted := token.deleted + [token.eventId.value]);
            references := references + [TokenRef(token.eventId.value, false, false)];
          }
          continue;
        }
        updatedTokens := updatedTokens + [token];
      }
      if |changeToken.proofs| > 0 {
        if eventId.None? {
          return Err(NoEvent);
        }
        changeToken := changeToken.(eventId := eventId);
        tokens := updatedTokens + [changeToken];
        references := references + [TokenRef(eventId.value, true, false)];
      }
      out := Ok(references);
    }

    /** Sends an amount: chooses proofs, swaps them at the mint and saves the change. mintAnswer
        gives the proofs the mint signs for the denominations asked for. */
    method Send(amount: u64, specificMint: string, keysetsOf: string -> Option<seq<Keyset>>,
          amountSplit: u64 -> seq<u64>,
        mintAnswer: seq<u64> -> seq<Proof>, eventId: Option<string>)
        returns (out: Outcome<seq<Proof>>, ghost chosen: Chosen, ghost change: seq<Proof>, ghost fee: u64)
      requires SplitsExactly(amountSplit) && SignsExactly(mintAnswer)
      modifies this
      ensures out.Ok? <==> CanSend(old(tokens), keysetsOf, amount, specificMint, eventId)
      ensures out == Err(NoEvent) <==> LacksEvent(old(tokens), keysetsOf, amount, specificMint, eventId)
      ensures out == Err(NotEnough) <==> Reaches(old(tokens), keysetsOf, amount, specificMint, [], |old(tokens)|)
      ensures out == Err(NoKeysets) <==> exists t: nat ::
        StopsWithoutKeysets(old(tokens), keysetsOf, amount, specificMint, [], t)
      ensures out == Panic <==> exists t: nat :: StopsInPanic(old(tokens), keysetsOf, amount, specificMint, [], t)
      ensures out != Err(TooMuch)
      ensures !out.Ok? ==> tokens == old(tokens)
      ensures out.Ok? ==>
        && Chose(old(tokens), keysetsOf, amount, specificMint, [], chosen, fee)
        && Spent(old(tokens), tokens, chosen, out.value, change, eventId, amount, fee)
      ensures out.Ok? && amount + fee < TWO_64 && Total(chosen.proofs) < TWO_64 ==>
        && Total(out.value) == amount
        && (Balance(tokens) + amount + fee == Balance(old(tokens)) <==>
          Total(chosen.proofs) > amount + fee || amount + fee == 0)
    {
      hide Total, Fee, Chose, Balance, Covers, Spent, SignsExactly, SplitsExactly, Sum, CanSend, LacksEvent, Reaches,
           StopsWithoutKeysets, StopsInPanic;
      if !exists c: Chosen, f: u64 :: Chose(tokens, keysetsOf, amount, specificMint, [], c, f) {
        NothingToSend(tokens, keysetsOf, amount, specificMint, eventId);
      }
      chosen, change, fee := Chosen("", [], [], [], []), [], 0;
      var got := GetProofsForSending(tokens, keysetsOf, amount, specificMint, []);
      if got.Panic? {
        return Panic, chosen, change, fee;
      } else if got.Err? {
        return Err(got.error), chosen, change, fee;
      }
      var picked := got.value.0;
      chosen, fee := picked, got.value.1;
      ChoseFee(tokens, keysetsOf, amount, specificMint, [], chosen, fee);
      SendDecided(tokens, keysetsOf, amount, specificMint, eventId, chosen, fee);
      var split := SplitIntoPrincipalAndChange(picked.keysets, picked.proofs, amount, amountSplit);
      if split.Panic? {
        return Panic, chosen, change, fee;
      } else if split.Err? {
        return Err(TooMuch), chosen, change, fee;
      }
      SignedIs(mintAnswer, split.value.0);
      SignedIs(mintAnswer, split.value.1);
      var principal, changeProofs := mintAnswer(split.value.0), mintAnswer(split.value.1);
      change := changeProofs;
      var saved := SaveChangeAndDeleteUsedTokens(picked.mint, changeProofs, picked.tokenIndexes, eventId, []);
      if saved.Err? {
        return Err(saved.error), chosen, change, fee;
      }
      SpentBy(old(tokens), tokens, chosen, principal, change, eventId, amount, fee);
      out := Ok(principal);
      if amount + fee < TWO_64 && Total(chosen.proofs) < TWO_64 {
        BalanceAfterSending(old(tokens), tokens, keysetsOf, specificMint, [], chosen, principal, change, eventId,
            amount, fee);
      }
    }
  }

  lemma ChoseFee(tokens: seq<Token>, keysetsOf: string -> Option<seq<Keyset>>, amount: u64,
      specificMint: string, excludeMints: seq<string>, chosen: Chosen, fee: u64)
    requires Chose(tokens, keysetsOf, amount, specificMint, excludeMints, chosen, fee)
    ensures Fee(chosen.proofs, chosen.keysets) == Some(fee) && Total(chosen.proofs) % TWO_64 >= amount
  {
    hide Considered, Reaches, Total, Fee, PartOf;
  }
}
