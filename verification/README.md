# Verified models of a Nostr client library and its curve arithmetic

This project models the parts of the go-nostr repository whose correctness is hardest to see, and
proves what they promise. It has two halves.

**The secp256k1 engine** (C, under `libsecp256k1/src`):

- field arithmetic modulo p = 2^256 - 2^32 - 977 on five 52-bit limbs (`Field5x52Mul.dfy`,
  `Field5x52.dfy`) and on ten 26-bit limbs (`Field10x26Mul.dfy`, `Field10x26.dfy`), at the level of
  words and accumulators, and the square root (`Fermat.dfy`, `FieldSqrt.dfy`);
- scalar multiplication: the two signed-digit recoders (`Wnaf.dfy`), the endomorphism split
  (`Scalars.dfy`), Strauss (`Strauss.dfy`), Pippenger (`Windows.dfy`, `Pippenger.dfy`), batching within a
  scratch space (`ScratchSpace.dfy`, `EcmultScratch.dfy`, `EcmultMulti.dfy`), the constant-time
  multiplier (`EcmultConst.dfy`) and the blinded generator comb with its table (`Comb.dfy`,
  `EcmultGenTable.dfy`, `EcmultGen.dfy`);
- signatures: `Ecdsa.dfy` signs and verifies with those multipliers, `Der.dfy` reads and writes them.

**The protocol code** (Go): the canonical event form (`EventSerialization.dfy`), encrypted payloads
(`Nip44.dfy`), wallet spending (`Wallet.dfy`), and two concurrent protocols as state machines over all
interleavings: a subscription's life cycle (`Subscription.dfy`, and what can still happen in it in
`SubscriptionProgress.dfy`) and the fetch from many relays (`Fetch.dfy`).

`dafny verify dfyconfig.toml` checks everything.

## How the model is built

- Points are elements of an arbitrary abelian group killed by the group order (`Groups.dfy`,
  `Curves.dfy`); the laws are hypotheses of the theorems, never axioms. Each fast multiplier is proved
  equal to the plain sum of multiples. Only `Ecdsa.dfy` uses coordinates, through a function that gives
  a point's x coordinate and the parity of its y coordinate.
- Words are integers with range types (`Words.dfy`), so that every sum and product carries a
  proof that it does not wrap; where the source does wrap, the remainder is written out. Disjoint
  bit-ors and shifts are written as sums, quotients and remainders; bitwise operations whose result is
  compared with all-ones or zero are the recursive functions of `BitLogic.dfy`.
- C arrays and structures that are updated in place are arrays and class fields; Go slices that are
  appended to are sequences; goroutines are steps of a state machine, and theorems about them are about
  every sequence of steps.
- Random numbers, keyset requests, the mint's answers, the stream cipher, the authenticator, base64 and
  relay messages are parameters with the laws the callers rely on.
- Primality of p is a hypothesis only of the last two clauses of `FieldSqrt.Sqrt`; the scalar inverse
  of `Ecdsa.dfy` is a function with the law k * inverse(k) = 1.

## What the code does differently from what is said about it

- `field_10x26_impl.h` allows magnitude 32, but at that magnitude the first carry pass of every
  normalisation can lose a carry of a 32-bit word (`Field10x26.LargestLimbsWrap`). The contracts in
  `Field10x26.dfy` say when the residue is right: if and only if the sums of the pass fit 32 bits, which
  holds always up to magnitude 31.
- `fe_equal` documents magnitudes 1 and 31, whose sum after negation is 33, above the bound of 32 that
  the verification build asserts for a sum. On five limbs the answer is still right, because the zero
  test is right up to 33. On ten limbs it is not: `Field10x26.EqualMissed` gives equal elements that are
  called different, `Field10x26.EqualConfused` different ones that are called equal. `Field10x26.Equal`
  says what is computed: up to magnitude 30 the answer is always right, and at 31 equal elements are
  recognised if and only if no word wraps in the sum and in the first pass.
- The comment above `ecmult_wnaf` says that the number of set values is returned; the code returns one
  past the last nonzero digit, and so does the model.
- The public key is written into the canonical event form without escaping. The form is injective all
  the same, for arbitrary keys.
- `Decrypt` indexes the decoded bytes before it checks their length, and Go's base64 reader skips line
  breaks, so a text of line breaks alone makes it panic (`Nip44.LineBreaksPanic`), and nothing else does;
  the padding octets are never looked at.
- With `amount + fee` above 2^64 - 1 the wallet's choice succeeds and the split then wraps around
  (`Wallet.OverflowFallsShort`); and the token list is replaced only when there is change, so a token
  worth exactly amount and fee stays in it (`Wallet.ExactTokenStays`). `Deleted` of the change token
  stays empty: the loop appends to its own copy of each used token.
- `Fire` sets `live` again even after the context has ended; `Subscription.LateFireUnsafe` gives the
  run in which an event is then sent on the closed channel, and `Subscription.LateFireFrontier` says in
  which states a late `Fire` can lead to one.
- Duplicates are filtered by the first quoted `id` in the raw message, which need not be the event's
  own; `Fetch.EventEmittedTwice` gives a run in which one event is emitted twice.

## Model

| member | source | states |
|---|---|---|
| Scalars.HalfDoubles | libsecp256k1/src/scalar.h:67 | doubling the half of a scalar gives the scalar back modulo the order |
| Scalars.HighIs | libsecp256k1/src/scalar_4x64_impl.h:241-253 | a scalar is high exactly when twice it exceeds n, and exactly when its opposite is smaller |
| Scalars.ShortBounds | libsecp256k1/src/scalar_impl.h:142-178 | both halves of the endomorphism split lie within the lattice bounds, hence strictly between -2^128 and 2^128, for every scalar |
| Scalars.SplitRecombines | libsecp256k1/src/scalar_impl.h:142-178 | r1 + r2*lambda is congruent to k for the code's rounded-multiplication split |
| Scalars.FirstHalf | libsecp256k1/src/scalar_impl.h:142-178 | the first half the code computes modulo n is the short signed number of the lattice reduction |
| Scalars.SecondHalf | libsecp256k1/src/scalar_impl.h:142-178 | the same for the second half |
| Scalars.ShortsRecombine | libsecp256k1/src/scalar_impl.h:287-317 | the two short signed halves recombine to k as well |
| Wnaf.SignedIs | libsecp256k1/src/ecmult_impl.h:178-182 | a scalar is read as negative exactly from 2^255 on |
| Wnaf.SignedOfShort | libsecp256k1/src/ecmult_impl.h:178-182 | a scalar congruent to a number below 2^128 in absolute value reads back as that number under the top-bit sign rule |
| Wnaf.WnafFixed | libsecp256k1/src/ecmult_impl.h:421-481 | for every scalar and window: the words, read in radix 2^w, exceed the low 128 bits of s by the skew, which is 0 or 1; every word is 0 or odd and below 2^w; no other array cell changes |
| Wnaf.StepKeeps | libsecp256k1/src/ecmult_impl.h:456-478 | one round (borrow from the word below when even, then the merge of a word 1 or -1) keeps the value, the oddness and the range of all words |
| Wnaf.Merge | libsecp256k1/src/ecmult_impl.h:466-475 | folding a word 1 or -1 into a lower neighbour of opposite sign changes neither the value nor any word's range |
| Wnaf.SkipLeadingZeros | libsecp256k1/src/ecmult_impl.h:446-453 | the words skipped at the top are zero in the scalar, so the remaining cut still holds all of it |
| Wnaf.HornerIsRadix | libsecp256k1/src/ecmult_impl.h:521-574 | reading digits from the top, as the multipliers do, gives the value read from the bottom |
| Wnaf.EcmultWnaf | libsecp256k1/src/ecmult_impl.h:162-221 | the digits sum to the signed scalar less the carry left over; each is 0 or odd below 2^(w-1); a nonzero digit is followed by w-1 zeros or the end of the array; the result is one past the last nonzero digit and at most one more than the bits of the absolute value; the carry is 0 whenever the signed value is below 2^(len-1) |
| Wnaf.TakeWindow | libsecp256k1/src/ecmult_impl.h:192-207 | writing one window digit advances the represented prefix by exactly that window |
| Wnaf.WindowFacts | libsecp256k1/src/ecmult_impl.h:187-202 | a window that starts at a bit different from the carry yields a nonzero odd digit in range, and carries only out of a full window whose top bit is set |
| Wnaf.FinalCarry | libsecp256k1/src/ecmult_impl.h:209-219 | with the top bit of the recoded value clear nothing is carried out and the digits are all of it |
| Windows.WindowJoins | libsecp256k1/src/ecmult_impl.h:521-574 | the digits of window i plus 2^w times everything above make up everything from window i on |
| Pippenger.WeightedByTails | libsecp256k1/src/ecmult_impl.h:555-572 | the sum of (2j+1)*bucket[j] is twice the ramp of tail sums plus the full tail |
| Pippenger.WeightedUpdate | libsecp256k1/src/ecmult_impl.h:540-547 | adding a point to bucket i adds 2i+1 times the point to the weighted sum |
| Pippenger.FileDigit | libsecp256k1/src/ecmult_impl.h:540-547 | filing a point under digit v, positive or negative, stays inside the buckets and adds v times the point |
| Pippenger.FileSkew | libsecp256k1/src/ecmult_impl.h:532-539 | paying back the skew subtracts the point once |
| Pippenger.FillBuckets | libsecp256k1/src/ecmult_impl.h:524-548 | after filing, the weighted buckets are the combination of all points with their digits of this window, skew included |
| Pippenger.SumBuckets | libsecp256k1/src/ecmult_impl.h:550-572 | the running-sum loop with its deferred doubling adds the weighted sum of all buckets to the result |
| Pippenger.RecodeAll | libsecp256k1/src/ecmult_impl.h:507-519 | skipping zero scalars and points at infinity does not change the sum, and the words of each remaining point are stored at its slot |
| Pippenger.PippengerWnaf | libsecp256k1/src/ecmult_impl.h:500-575 | the result is the sum of sc[i]*pt[i] for any number of points and scalars below 2^128; bucket indices stay in range |
| Curves.Curve.Recombine | libsecp256k1/src/ecmult_impl.h:258-259 | s1*P + s2*lambda(P) is k*P whenever s1 + s2*lambda is congruent to k |
| Curves.Curve.LambdaOfMul | libsecp256k1/src/ecmult_impl.h:135-143 | the endomorphism commutes with integer multiples |
| Curves.OddMultiplesTable | libsecp256k1/src/ecmult_impl.h:73-115 | the table holds 1, 3, 5, ... times the point |
| Curves.TableGetIs | libsecp256k1/src/ecmult_impl.h:125-133 | the entry looked up for a signed odd digit is that multiple of the point |
| Curves.LambdaTable | libsecp256k1/src/ecmult_impl.h:298-302 | mapping a table of odd multiples through the endomorphism gives the odd multiples of the mapped point |
| Strauss.ShortSigned | libsecp256k1/src/ecmult_impl.h:305-310 | the 128-bit halves of a scalar are their own signed values, within the digit array |
| Strauss.PartialStep | libsecp256k1/src/ecmult_impl.h:321-345 | doubling the combination of digits above i and adding digit i of every row gives the combination from i on |
| Strauss.PartialAll | libsecp256k1/src/ecmult_impl.h:321-345 | the combination from digit 0 on is the combination of the rows' values |
| Strauss.AddDigit | libsecp256k1/src/ecmult_impl.h:324-344 | one table lookup adds the row's digit times its point, or nothing for a zero digit or beyond the row |
| Strauss.AddPoints | libsecp256k1/src/ecmult_impl.h:324-333 | one pass over the points adds digit i of both halves of every point |
| Strauss.Prepare | libsecp256k1/src/ecmult_impl.h:251-291 | splitting, recoding and table building keep the sum of na[i]*a[i] when zero scalars and points at infinity are left out |
| Strauss.AddGenerator | libsecp256k1/src/ecmult_impl.h:304-317 | the generator's scalar enters as two rows of digits that stand for ng times the generator |
| Strauss.StraussWnaf | libsecp256k1/src/ecmult_impl.h:237-347 | the result is the sum of na[i]*a[i] plus ng*G for any number of points and all scalars |
| EcmultMulti.EndoSplit | libsecp256k1/src/ecmult_impl.h:629-642 | both new scalars are below 2^128 and the two products add up to the old one |
| EcmultMulti.PippengerBatch | libsecp256k1/src/ecmult_impl.h:654-715 | a batch succeeds exactly when its buffers can be had and its callbacks succeed, adds the batch's points and the generator part, and gives all scratch space back on every way out |
| EcmultMulti.StraussBatch | libsecp256k1/src/ecmult_impl.h:366-403 | the same for the interleaved algorithm |
| EcmultMulti.BatchSize | libsecp256k1/src/ecmult_impl.h:788-804 | the fewest batches that a point limit, capped at 5000000, allows, and the smallest batch size that then holds every point; 0 and 0 for no points; fails exactly when no point fits |
| EcmultMulti.BatchFits | libsecp256k1/src/ecmult_impl.h:788-804 | no batch exceeds the limit, together the batches hold every point and none is empty |
| EcmultMulti.MultiSimple | libsecp256k1/src/ecmult_impl.h:763-784 | the point-by-point fallback computes the same sum and fails exactly when a callback does |
| EcmultMulti.RunBatches | libsecp256k1/src/ecmult_impl.h:840-850 | in a space with room for each batch: the batches cover every point once, the generator enters once, the results add up, and it fails exactly when a callback does |
| EcmultMulti.EcmultMultiVar | libsecp256k1/src/ecmult_impl.h:807-851 | for every scratch space, or none, and whichever algorithm it leads to: the result is the generator part plus the sum over all callback points, and it fails exactly when a callback does, never for want of scratch space |
| EcmultMulti.SumJoins | libsecp256k1/src/ecmult_impl.h:840-850 | sums over adjacent callback ranges join |
| EcmultScratch.PippengerMaxPoints | libsecp256k1/src/ecmult_impl.h:727-759 | every number of points up to the result fits the space together with the buckets of its own window, and one more than the result does not; at 1260 the search may instead have ended because these do not fit window 8, which is tried and never chosen |
| EcmultScratch.StraussMaxPoints | libsecp256k1/src/ecmult_impl.h:410-412 | a number of points is at most the result exactly when its scratch size fits the space |
| EcmultScratch.WindowInverse | libsecp256k1/src/ecmult_impl.h:581-626 | the point limit of a window and the window chosen for a number of points are inverse to each other; window 8 is never chosen |
| EcmultScratch.WindowLimits | libsecp256k1/src/ecmult_impl.h:611-626 | the twelve limits |
| EcmultScratch.PippengerFits | libsecp256k1/src/ecmult_impl.h:648-690 | when the scratch size fits the allowance, the six buffers fit the space, each rounded up |
| EcmultScratch.StraussFits | libsecp256k1/src/ecmult_impl.h:361-386 | the same for the five buffers of the interleaved algorithm |
| EcmultScratch.PippengerSum | libsecp256k1/src/ecmult_impl.h:648-690 | the scratch size is the sum of the six buffers asked for and one word more for each entry |
| EcmultScratch.StraussSum | libsecp256k1/src/ecmult_impl.h:361-386 | the scratch size is the sum of the five buffers |
| EcmultScratch.PippengerBuffers | libsecp256k1/src/ecmult_impl.h:674-690 | taking the six buffers succeeds exactly when their rounded sizes fit what is free; no size wraps |
| EcmultScratch.StraussBuffers | libsecp256k1/src/ecmult_impl.h:375-386 | the same for the five buffers |
| ScratchSpace.Scratch.MaxAllocation | libsecp256k1/src/scratch_impl.h:58-71 | the free space less what rounding can cost a number of objects, or 0 exactly when nothing is left, also where that product would wrap |
| ScratchSpace.Scratch.Alloc | libsecp256k1/src/scratch_impl.h:73-97 | succeeds exactly when the size rounded up to whole units is free, and then takes that much; a rounding that wraps around fails |
| ScratchSpace.Scratch.ApplyCheckpoint | libsecp256k1/src/scratch_impl.h:46-56 | gives back what was handed out since the checkpoint; a checkpoint ahead changes nothing |
| ScratchSpace.RoundToAlign | libsecp256k1/src/util.h:180-182 | rounding up in 64-bit words is the exact rounding, size 0 included, or 0 when that reaches 2^64 |
| ScratchSpace.RoundedIs | libsecp256k1/src/util.h:179-182 | the rounded size is the smallest multiple of the alignment that holds the size |
| EcmultConst.ConstTableGet | libsecp256k1/src/ecmult_const_impl.h:61-103 | for every 5-bit pattern the masked lookup with its conditional negation is the signed-bit sum of the pattern times A |
| EcmultConst.KIsOffset | libsecp256k1/src/ecmult_const_impl.h:105-121 | the constant K is congruent to (2^l - 2^129 - 1)*(1 + lambda) with l = 130 |
| EcmultConst.OffsetHalves | libsecp256k1/src/ecmult_const_impl.h:191-220 | the two shifted halves lie in [0, 2^129), and their sign patterns together stand for q |
| EcmultConst.SignsAll | libsecp256k1/src/ecmult_const_impl.h:129-137 | the signed-bit value of v over l bits is 2v + 1 - 2^l |
| EcmultConst.EcmultConst | libsecp256k1/src/ecmult_const_impl.h:124-268 | q*A for every scalar q and every point A |
| SignedBits.SignSumIs | libsecp256k1/src/ecmult_const_impl.h:129-137 | reading bits as signs gives 2v + 1 - 2^l |
| SignedBits.XorBit | libsecp256k1/src/ecmult_gen_impl.h:225-226 | bit i of an exclusive or is the sum of the bits modulo 2 |
| SignedBits.RotateLowBit | libsecp256k1/src/ecmult_gen_impl.h:210-219 | the low bit of a word rotated right by n is bit n, whatever the bits above hold |
| Comb.FlippedSum | libsecp256k1/src/ecmult_gen_impl.h:230-233 | inverting all bits of a block's pattern negates its signed sum |
| Comb.RowsAddUp | libsecp256k1/src/ecmult_gen_impl.h:191-271 | rows weighted by powers of two are the signed sum of all comb bits |
| EcmultGenTable.FillBlock | libsecp256k1/src/ecmult_gen_compute_table_impl.h:73-87 | repeated addition of doubled teeth to the filled prefix leaves at every index the signed sum its bits select |
| EcmultGenTable.BlockTeeth | libsecp256k1/src/ecmult_gen_compute_table_impl.h:50-71 | the doubled teeth of a block and their sum, with the running double ready for the next block |
| EcmultGenTable.HalfDoubled | libsecp256k1/src/ecmult_gen_compute_table_impl.h:30-47 | twice the ladder's half is the generator |
| EcmultGenTable.ComputeTable | libsecp256k1/src/ecmult_gen_compute_table_impl.h:17-106 | for every comb shape the finished table holds, for each block and index, the signed sum of the selected weights times half the generator |
| EcmultGen.GatherBits | libsecp256k1/src/ecmult_gen_impl.h:198-228 | the xor-built word holds the comb's bits in its low teeth whatever junk stays above |
| EcmultGen.StoredIndex | libsecp256k1/src/ecmult_gen_impl.h:230-235 | the masked, conditionally inverted index has the pattern's bits, flipped when the top tooth is set |
| EcmultGen.LookUp | libsecp256k1/src/ecmult_gen_impl.h:230-254 | lookup and conditional negation give the block's signed sum times half the generator |
| EcmultGen.ScalarDiff | libsecp256k1/src/ecmult_gen_impl.h:36-52 | the loop computes half of 2^COMB_BITS - 1 modulo n |
| EcmultGen.Unblind | libsecp256k1/src/ecmult_gen_impl.h:56-100 | the signed sum of d over COMB_BITS bits times half the generator, plus the blinding point, is gn*G |
| EcmultGen.AllRows | libsecp256k1/src/ecmult_gen_impl.h:191-271 | the rows the loop adds are the signed sum of the bits of d |
| EcmultGen.Context.constructor | libsecp256k1/src/ecmult_gen_impl.h:17-20 | a built context satisfies scalar_offset = (2^COMB_BITS - 1)/2 - b and ge_offset = b*G with b = -1 |
| EcmultGen.Context.Unseeded | libsecp256k1/src/ecmult_gen_impl.h:297-303 | resetting the blinding restores the invariant with b = -1 |
| EcmultGen.Context.Blind | libsecp256k1/src/ecmult_gen_impl.h:285-339 | every re-blinding keeps the context invariant; a zero draw is replaced by 1 |
| EcmultGen.Context.Clear | libsecp256k1/src/ecmult_gen_impl.h:26-31 | a cleared context is no longer built |
| EcmultGen.Context.Multiply | libsecp256k1/src/ecmult_gen_impl.h:54-282 | gn*G for every gn and every valid blinding |
| Field5x52Mul.MulInner | libsecp256k1/src/field_5x52_int128_impl.h:18-152 | for limbs within 56/56/56/56/52 bits the output has the residue of a*b and magnitude 1; no 64- or 128-bit accumulator wraps |
| Field5x52Mul.SqrInner | libsecp256k1/src/field_5x52_int128_impl.h:154-272 | the same for a^2 with doubled mixed products |
| Field5x52Mul.Columns | libsecp256k1/src/field_5x52_int128_impl.h:40-46 | a product is the sum of its nine columns |
| Field5x52Mul.Combine | libsecp256k1/src/field_5x52_int128_impl.h:40-46 | the stages of the reduction change the value by an explicit multiple of p |
| Field5x52.Normalize | libsecp256k1/src/field_5x52_impl.h:43-78 | for magnitude up to 32 the result is the limbs of the residue in [0, p) |
| Field5x52.NormalizeVar | libsecp256k1/src/field_5x52_impl.h:99-135 | the same for the variable-time form |
| Field5x52.NormalizationsAgree | libsecp256k1/src/field_5x52_impl.h:99-135 | both forms leave identical limbs |
| Field5x52.NormalUnique | libsecp256k1/src/field_5x52_impl.h:26-30 | a residue has only one normal form |
| Field5x52.NormalizeWeak | libsecp256k1/src/field_5x52_impl.h:80-97 | keeps the residue and brings the limbs to magnitude 1 |
| Field5x52.AtLeastP | libsecp256k1/src/field_5x52_impl.h:59-61 | after the first pass the value is below 2p and the limb comparison decides whether it is at least p |
| Field5x52.NormalizesToZero | libsecp256k1/src/field_5x52_impl.h:137-158 | true exactly when the value is 0 modulo p, for limbs of magnitude up to 33 |
| Field5x52.NormalizesToZeroVar | libsecp256k1/src/field_5x52_impl.h:160-199 | the same for the form with the early return on the lowest limb |
| Field5x52.ZeroMasks | libsecp256k1/src/field_5x52_impl.h:141-157 | the two masks recognise exactly the raw values 0 and p |
| Field5x52.NegateUnchecked | libsecp256k1/src/field_5x52_impl.h:306-319 | for magnitude m up to 31: magnitude m+1, the negated residue, no limb underflows |
| Field5x52.Half | libsecp256k1/src/field_5x52_impl.h:362-414 | for magnitude m up to 31: magnitude m/2 + 1 and twice the result has the residue of the input |
| Field5x52.Add | libsecp256k1/src/field_5x52_impl.h:333-339 | values and magnitudes add without overflow |
| Field5x52.CmpVar | libsecp256k1/src/field_5x52_impl.h:215-226 | compares the numbers two normal elements stand for |
| Field5x52.Equal | libsecp256k1/src/field_impl.h:24-34 | equality of residues for magnitudes up to 1 and 31, the documented range |
| Fermat.FermatLittle | libsecp256k1/src/field_impl.h:37-46 | a^(p-1) is 1 modulo a prime p that does not divide a |
| Fermat.ScaledAll | libsecp256k1/src/field_impl.h:37-46 | multiplication by a permutes the nonzero residues |
| Fermat.Euler | libsecp256k1/src/field_impl.h:37-46 | a^((p-1)/2) is 1 or -1 |
| Fermat.EulerSquare | libsecp256k1/src/field_impl.h:37-46 | and it is 1 for squares |
| FieldSqrt.SquareTimes | libsecp256k1/src/field_impl.h:68-124 | squaring n times in place multiplies the exponent by 2^n |
| FieldSqrt.RootChain | libsecp256k1/src/field_impl.h:59-132 | the addition chain computes a^((p+1)/4) for every a of magnitude up to 8 |
| FieldSqrt.RootIsSquare | libsecp256k1/src/field_impl.h:37-46 | the result is itself a square, and its square is a*a^((p-1)/2) |
| FieldSqrt.RootOrOpposite | libsecp256k1/src/field_impl.h:37-46 | for prime p the square is a or -a, and it is a exactly when a has a root |
| FieldSqrt.Sqrt | libsecp256k1/src/field_impl.h:36-145 | returns 1 exactly when result^2 is a, for prime p exactly when a is a square; a 0 return leaves result^2 = -a |
| Field10x26Mul.MulInner | libsecp256k1/src/field_10x26_impl.h:401-729 | for limbs within 30 bits (26 for the top one) the output has the residue of a*b and the asserted limb widths |
| Field10x26Mul.SqrInner | libsecp256k1/src/field_10x26_impl.h:731-1003 | the same for a^2 with doubled mixed products |
| Field10x26Mul.Reduce | libsecp256k1/src/field_10x26_impl.h:441-728 | the interleaved reduction of nineteen columns: neither 64-bit accumulator overflows, and the limbs differ from the columns by a multiple of p |
| Field10x26Mul.Columns | libsecp256k1/src/field_10x26_impl.h:435-439 | a product is the sum of its nineteen columns |
| Field10x26Mul.SquareIsColumn | libsecp256k1/src/field_10x26_impl.h:786-789 | pairing the products of a column from both ends and doubling the mixed ones changes no column of a square |
| Field10x26.Normalize | libsecp256k1/src/field_10x26_impl.h:53-100 | for any ten 32-bit words the limbs become normal, and they have the residue of the input exactly when no sum of the first pass leaves its word |
| Field10x26.NormalizeVar | libsecp256k1/src/field_10x26_impl.h:128-176 | the same for the variable-time form |
| Field10x26.NormalizeWeak | libsecp256k1/src/field_10x26_impl.h:102-126 | magnitude 1, and the residue is kept under the same condition |
| Field10x26.NormalizesToZero | libsecp256k1/src/field_10x26_impl.h:178-205 | for any ten 32-bit words: true exactly when the value less what wrapping loses is 0 modulo p |
| Field10x26.NormalizesToZeroVar | libsecp256k1/src/field_10x26_impl.h:207-257 | the same for the form with the early return on the lowest limb |
| Field10x26.NothingLost | libsecp256k1/src/field_10x26_impl.h:53-76 | up to magnitude 31 no carry is lost |
| Field10x26.LargestLimbsWrap | libsecp256k1/src/field_10x26_impl.h:40-51 | the largest limbs of magnitude 32 do lose a carry |
| Field10x26.AtLeastP | libsecp256k1/src/field_10x26_impl.h:77-79 | the limb comparison decides whether the value is at least p |
| Field10x26.ZeroMasks | libsecp256k1/src/field_10x26_impl.h:182-204 | the masks recognise exactly the raw values 0 and p |
| Field10x26.NegateUnchecked | libsecp256k1/src/field_10x26_impl.h:340-359 | for magnitude m up to 31: magnitude m+1, the negated residue, no limb underflows |
| Field10x26.Half | libsecp256k1/src/field_10x26_impl.h:1032-1095 | for magnitude m up to 31: magnitude m/2 + 1 and twice the result has the residue of the input |
| Field10x26.PassValue | libsecp256k1/src/field_10x26_impl.h:61-71 | the digits of a carry pass are the words it was given, the folded top included, less what its 32-bit sums lose |
| Field10x26.HighWordsFit | libsecp256k1/src/field_10x26_impl.h:61-71 | at magnitude 32 only the two lowest words can lose a carry |
| Field10x26.Add | libsecp256k1/src/field_10x26_impl.h:374-385 | for any words the value is the sum less what the words lose; magnitudes that add up to at most 32 add without loss |
| Field10x26.Equal | libsecp256k1/src/field_impl.h:25-35 | for magnitudes 1 and 31 the answer is that of the difference less what its words lose; it is right whenever no word wraps, and always for magnitude up to 30; equal elements are recognised if and only if no word wraps |
| Field10x26.WrapShows | libsecp256k1/src/field_impl.h:32-34 | with b of magnitude up to 30 a carry may be lost, but then neither the difference nor what is left of it is a multiple of p |
| Field10x26.EqualMissed | libsecp256k1/src/field.h:166-172 | equal elements of the documented magnitudes 1 and 31 whose comparison loses a carry, so that the answer is "different" |
| Field10x26.EqualConfused | libsecp256k1/src/field.h:166-172 | different elements of the documented magnitudes 1 and 31 for which what is left of the difference is 0 modulo p, so that the answer is "equal" |
| BitLogic.AndOnes | libsecp256k1/src/field_5x52_impl.h:52-61 | a conjunction of k-bit words is all ones exactly when both are |
| BitLogic.XorOnes | libsecp256k1/src/field_5x52_impl.h:149-154 | an exclusive or with c is all ones exactly on the complement of c |
| Ecdsa.TwoCases | libsecp256k1/src/ecdsa_impl.h:236-264 | because p is below 2n, a coordinate is r modulo n exactly in the two cases the code tests |
| Ecdsa.Verify | libsecp256k1/src/ecdsa_impl.h:195-264 | accepts exactly the signatures of section 4.1.4 of SEC 1, without the inversion |
| Ecdsa.Sign | libsecp256k1/src/ecdsa_impl.h:266-302 | the signing equation holds up to the sign of s, 2*s is at most n, every signature reported good is accepted by the verifier, and r and the recovery id give the x coordinate of the verifier's point and the parity of its y coordinate |
| Ecdsa.SignedAccepted | libsecp256k1/src/ecdsa_impl.h:266-302 | a pair that satisfies the signing equation reconstructs the nonce point and is accepted |
| Ecdsa.Signing.NegationAccepted | libsecp256k1/src/ecdsa_impl.h:292-296 | (r, s) and (r, n - s) are accepted together |
| Ecdsa.Signing.NegatedReconstructed | libsecp256k1/src/ecdsa_impl.h:292-296 | negating s negates the reconstructed point |
| Ecdsa.Signing.GeneratorOrder | libsecp256k1/src/ecdsa_impl.h:276-281 | only multiples of n send the generator to infinity |
| Ecdsa.SignEquation | libsecp256k1/src/ecdsa_impl.h:288-292 | s*k is m + r*d modulo n |
| Der.ReadLen | libsecp256k1/src/ecdsa_impl.h:36-88 | accepts exactly the shortest length octets, except that a length of several octets must also fit what is left; reads stay inside the bytes and the size_t never wraps |
| Der.ParseInteger | libsecp256k1/src/ecdsa_impl.h:90-139 | accepts exactly the integers with minimal contents, of any length; the scalar is the value, or 0 when it is negative or too large |
| Der.Parse | libsecp256k1/src/ecdsa_impl.h:141-169 | accepts exactly the encodings of two integers in distinguished encoding, with nothing left over |
| Der.Serialize | libsecp256k1/src/ecdsa_impl.h:171-193 | writes exactly the encoding when the buffer has room, reports the needed size either way, and touches nothing else |
| Der.ParsesOnce | libsecp256k1/src/ecdsa_impl.h:141-169 | a byte string has at most one reading |
| Der.RoundTrip | libsecp256k1/src/ecdsa_impl.h:141-193 | parsing what is written gives the same scalars; at most 72 bytes |
| Der.Canonical | libsecp256k1/src/ecdsa_impl.h:141-193 | a byte string carrying two integers in [0, n), zeros included, is exactly what the serialiser writes for them |
| Der.WrittenOrClipped | libsecp256k1/src/ecdsa_impl.h:116-169 | a byte string is read as two given scalars exactly when it is their serialisation or carries an integer out of range that is read as 0 |
| Der.CanonicalNonzero | libsecp256k1/src/ecdsa_impl.h:141-193 | a byte string is read as two given nonzero scalars exactly when it is their serialisation |
| Der.ContentOnly | libsecp256k1/src/ecdsa_impl.h:108-115 | minimal contents of a non-negative number are unique |
| Der.FewestOctets | libsecp256k1/src/ecdsa_impl.h:108-115 | contents pass the two tests exactly when no shorter contents stand for the same integer |
| Der.LengthIs | libsecp256k1/src/ecdsa_impl.h:36-88 | the length octets: one octet below 128, otherwise the number of octets that follow and the length in big-endian order without a leading zero |
| Der.EncodingOf | libsecp256k1/src/ecdsa_impl.h:171-193 | the encoding of two scalars octet by octet |
| Der.OutOfRangeReadsZero | libsecp256k1/src/ecdsa_impl.h:116-136 | an out-of-range integer is accepted and read as 0 |
| EventSerialization.EscapeString | helpers.go:54-90 | appends the quoted string, octet for octet with the escapes of EscapeTable |
| EventSerialization.EscapeTable | helpers.go:54-90 | the escapes one by one: the seven short forms, four hexadecimal digits in lower case for the other control characters, everything else as it is |
| EventSerialization.ShortestEscape | helpers.go:54-90 | an escape is the only shortest text that is read as its octet |
| EventSerialization.SerializeEventInto | event.go:68-102 | appends the canonical form, whose escapes, numbers and punctuation are fixed by EscapeTable, NoLeadingZero and KnownForm |
| EventSerialization.NoLeadingZero | event.go:74-76 | decimal numbers have no leading zero |
| EventSerialization.DecimalBack | event.go:74-76 | a decimal number stands for its integer, negative ones included |
| EventSerialization.KnownForm | event.go:68-102 | the form of one event with a positive and a negative number, several tags, one of them empty, and a line break, octet for octet |
| EventSerialization.StringBack | helpers.go:54-90 | reading a quoted string gives back any byte string, whatever follows it |
| EventSerialization.TagsBack | event.go:81-97 | reading the tag list gives back any list of lists of byte strings |
| EventSerialization.ParseBack | event.go:68-102 | every field of an event is recovered when the public key holds no quotation mark |
| EventSerialization.NoHiddenFields | event.go:68-102 | no key can be written so that an event reads as another event with a shorter key |
| EventSerialization.Injective | event.go:61-102 | different events have different canonical forms, with no condition on the unescaped key |
| Nip44.PaddingSteps | nip44/nip44.go:213-220 | sizes up to 32 are padded to 32; others to the next multiple of the larger of 32 and an eighth of the next power of two |
| Nip44.PaddingBounds | nip44/nip44.go:213-220 | the padded size is at least the size, exceeds it by less than one chunk, is a multiple of the chunk and of 32, and stays within the next power of two |
| Nip44.PaddingIdempotent | nip44/nip44.go:213-220 | padding a padded size changes nothing |
| Nip44.PaddingMonotone | nip44/nip44.go:213-220 | padding is monotone |
| Nip44.Encrypt | nip44/nip44.go:44-94 | for 1 to 65535 octets the frame around the padded plaintext, under the nonce given, or under the random one when none or 32 zeros are given; each error with its exact cause |
| Nip44.PaddedIs | nip44/nip44.go:72-75 | the padded plaintext: its size in two octets, the higher first, the plaintext, zeros up to the padded size |
| Nip44.FramePieces | nip44/nip44.go:87-91 | the frame: the octet 2, the nonce, the encrypted padded plaintext, and the authenticator of both |
| Nip44.Decrypt | nip44/nip44.go:96-154 | accepts exactly the payloads that decode to a frame of a plaintext and returns it; panics exactly on 132 to 87472 line breaks; the errors for the length, the text encoding and the version with their exact causes |
| Nip44.LineBreaksPanic | nip44/nip44.go:96-112 | 132 line breaks pass the checks on length and first character and decode to nothing, whose first octet is then read |
| Nip44.RoundTrip | nip44/nip44.go:44-154 | what is encrypted is accepted within all limits, as that plaintext and no other |
| Nip44.AcceptsOnce | nip44/nip44.go:96-154 | a payload has at most one reading |
| Nip44.FrameLength | nip44/nip44.go:96-117 | honest frames have 99 to 65603 octets |
| Nip44.LimitsAttained | nip44/nip44.go:96-117 | both ends of both limits are met by honest payloads |
| Nip44.FillerIgnored | nip44/nip44.go:138-153 | the padding octets are never checked: a frame is the writer's own exactly when they are zero |
| Wallet.Amount | nip60/send.go:218-222 | the sum of the amounts modulo 2^64 |
| Wallet.TotalAppend | nip60/send.go:218-222 | every proof counts once, with its amount |
| Wallet.RateIs | nip60/helpers.go:28-37 | the rate of an id is that of the first keyset with that id, wherever it stands in the list, and there is none exactly when no keyset has it |
| Wallet.RateSumAppend | nip60/helpers.go:26-37 | every input adds the rate of its keyset once |
| Wallet.FeeUnknown | nip60/helpers.go:28-37 | there is no fee exactly when some input's keyset is not in the list |
| Wallet.CalculateFee | nip60/helpers.go:25-39 | the rates of the inputs added and rounded up to thousandths, wrapping around as words do, or the panic when a keyset is unknown |
| Wallet.FeeRoundsUp | nip60/helpers.go:25-39 | without overflow the fee is the sum of the rates in thousandths, rounded up |
| Wallet.GetProofsForSending | nip60/send.go:189-234 | which of the four outcomes occurs: a choice exactly when one exists; not enough exactly when the search passes every token; a keyset error or a panic exactly when it stops at a token whose mint has no keysets, or whose gathered proofs reach the amount and include an unknown keyset |
| Wallet.StopsOnce | nip60/send.go:196-230 | the search stops at no more than one token |
| Wallet.ChoseOnce | nip60/send.go:196-230 | a wallet, amount and mint filter leave no more than one choice: all tokens of one mint, in order, up to the first token at which any mint's tokens cover amount and fee |
| Wallet.ChoiceIs | nip60/send.go:196-227 | what is chosen are the positions of one mint's tokens up to the last, all of them and in the order of the list; the mint is the one asked for, if any, and not excluded |
| Wallet.ChoiceHolds | nip60/send.go:214-227 | with the tokens at those positions come their proofs, which hold the amount, and amount and fee, in the wallet's arithmetic |
| Wallet.ChoiceIsEarliest | nip60/send.go:198-230 | at no earlier token of an allowed mint did that mint's proofs cover amount and fee |
| Wallet.PassesIs | nip60/send.go:206-230 | the search goes past a token exactly when the mint's keysets can be had, its proofs so far do not cover amount and fee, and no fee that is needed is unknown |
| Wallet.ProofsSnoc | nip60/send.go:219 | a token's proofs go behind those of the tokens before it |
| Wallet.SplitIntoPrincipalAndChange | nip60/swap.go:115-144 | the two amounts asked of the mint in all three cases, with 64-bit wrap-around |
| Wallet.SplitExact | nip60/swap.go:121-144 | the principal is the target and nothing is lost exactly when the inputs hold target and fee together |
| Wallet.ChosenSplitExact | nip60/swap.go:121-144 | for chosen proofs the split is exact if and only if amount + fee does not overflow a word |
| Wallet.OverflowFallsShort | nip60/swap.go:121-144 | one proof of 2^64 - 1 sent whole at a fee of 1: it is chosen, and the recipient gets one less than was asked for |
| Wallet.UnusedBalance | nip60/send.go:140-165 | leaving out the chosen tokens takes exactly the chosen proofs out of the balance |
| Wallet.UnusedIs | nip60/send.go:140-165 | the unused tokens stay in their order, and nothing else is left |
| Wallet.DeletedRefsIs | nip60/send.go:141-161 | one reference, not created and no nutzap, for each used token that had been published, in the order of the list |
| Wallet.BalanceAfterSending | nip60/send.go:53-119 | without overflow the recipient gets the amount, and the balance drops by amount and fee if and only if the chosen proofs hold more than that or nothing is due |
| Wallet.ExactTokenStays | nip60/send.go:121-187 | a token worth exactly amount and fee is chosen and spent, and stays in the list and in the balance |
| Wallet.Wallet.SaveChangeAndDeleteUsedTokens | nip60/send.go:121-187 | with change the list becomes the unused tokens plus the change; without change it stays as it is; the history references in order |
| Wallet.Wallet.Send | nip60/send.go:53-119 | succeeds exactly when a choice exists and, where change is due, its event can be made; each failure with its exact cause, leaving the list as it was; on success the choice, the split and the list afterwards, with the balance equation |
| Subscription.StepKeepsInv | subscription.go:81-194 | every step of every goroutine keeps the invariant |
| Subscription.SafeRuns | subscription.go:81-194 | in every interleaving in which Fire makes the subscription live before the start goroutine's unsub takes live down: no send on the closed channel, at most one CLOSE, at most one end-of-stored-events signal |
| Subscription.PromptIsInTime | subscription.go:81-194 | a run with Fire before the end of the context is such a run |
| Subscription.PromptRuns | subscription.go:81-194 | hence the same guarantees for every run with Fire before the end of the context |
| Subscription.EoseBarrier | subscription.go:96-128 | once the signal is posted every event dispatched before the message has been delivered, or dropped because the subscription was over or not fired |
| Subscription.BarrierBeforePost | subscription.go:120-128 | the barrier holds before the signal is posted |
| SubscriptionProgress.EoseAnswered | subscription.go:96-128 | from every reachable state in which the end-of-stored-events message has been read, or can be, some continuation posts the signal |
| SubscriptionProgress.BarrierLifts | subscription.go:120-128 | the converse of the barrier: once every event dispatched before the message has passed its countdown, the signal can be posted |
| SubscriptionProgress.EventDelivered | subscription.go:96-118 | from every reachable live state in which the subscription is registered, or the reader is at a message of it, some continuation delivers a further event |
| SubscriptionProgress.DroppedWhy | subscription.go:103-118 | a step drops an undecided event only when nothing is live or the context has ended, and early only when Fire has not come |
| SubscriptionProgress.FreeLock | subscription.go:103-118 | whoever holds the lock can go on until it is free again, and without an event being received when the context has ended |
| SubscriptionProgress.ChannelCloses | subscription.go:81-91 | from every reachable state behind the end of the context the channel can be closed with no event being received; a Fire that fails to write ends the context |
| SubscriptionProgress.CloseNotLost | subscription.go:146-192 | as long as the relay sends no CLOSED, from Fire on exactly one holds: live, one caller about to write CLOSE, or CLOSE written |
| SubscriptionProgress.CloseWritten | subscription.go:146-168 | from every reachable live state some continuation writes CLOSE, the first and only one |
| SubscriptionProgress.UnsubEnds | subscription.go:146-157 | from any state a call of unsub can come to its end, with the context ended, the subscription removed, live down, and CLOSE written exactly when it was live |
| SubscriptionProgress.ClosedEnds | subscription.go:131-137 | the handler of a CLOSED message can do the same without writing CLOSE |
| SubscriptionProgress.NoFurtherClose | subscription.go:131-157 | with nothing live and nobody about to write CLOSE, no continuation writes one: a handled CLOSED keeps it from being sent |
| SubscriptionProgress.RemovedOnce | subscription.go:146-157 | in every reachable state the subscription is registered exactly as long as no caller of unsub has finished, and a caller past its first step has ended the context |
| SubscriptionProgress.SilentAfterRemoval | subscription.go:155-156 | once it is removed and the reader is idle, no continuation dispatches a further event |
| Subscription.LateFireUnsafe | subscription.go:176-194 | with Fire after the start goroutine has finished an event can be sent on the closed channel |
| Subscription.LateFireFrontier | subscription.go:81-194 | for every reachable state in which Fire comes after the start goroutine has taken live down: some continuation sends on the closed channel if and only if the subscription is still registered, the reader is not idle, a delivery waits for the lock, or one holds it behind the close |
| Subscription.ShelteredRun | subscription.go:81-194 | in the remaining states no continuation does |
| Fetch.StepKeepsInv | pool.go:606-717 | every step of the relays' goroutines, readers and the closer keeps the invariant |
| Fetch.EmittedOnce | pool.go:614-622 | no claimed id is emitted twice across relays and retries |
| Fetch.EventsEmittedOnce | relay.go:290-307 | nor an event, as long as all messages with one event claim one id |
| Fetch.EmittedFromCurrent | pool.go:696-710 | what a goroutine is about to emit came from its relay on its current subscription, and has not been emitted |
| Fetch.EventEmittedTwice | relay.go:290-307 | a run in which one event, sent under two claims, is emitted twice |
| Fetch.ClosedOnceAndLast | pool.go:639-644 | the output is closed at most once, after every goroutine has finished, and nothing is sent afterwards |
| Fetch.CloseReachable | pool.go:639-717 | when every goroutine has finished the closer can proceed; no relay is subscribed to more than twice |
| Fetch.NewIdEmitted | relay.go:290-307 | from every reachable state in which a relay's goroutine has not stopped, some continuation emits any event of that relay under an id that nobody has claimed |
| Fetch.RetryReachable | pool.go:682-693 | a listening goroutine whose relay asks for authentication can come to listen to a second subscription, when there is a handler and it has not been tried |
| Fetch.EndReachable | pool.go:639-717 | from every reachable state some continuation closes the output |
| Groups.Group.MulMul | libsecp256k1/src/ecmult_impl.h:240-247 | multiples of multiples multiply, for all integers |
| Groups.Group.MulCong | libsecp256k1/src/ecmult_impl.h:240-247 | congruent factors modulo the exponent give the same multiple |
| Groups.Group.DotAdd | libsecp256k1/src/ecmult_impl.h:240-247 | combinations add coefficient by coefficient |

## Left out

- Effective-affine coordinates: `ecmult_odd_multiples_table` keeps Z ratios and `gej_add_ge` formulas in
  coordinates; tables are odd multiples of group elements here, and the addition formulas, with their
  restriction on points at infinity, are not part of this model.
- `ecmult_const_xonly`, the modular inverse and the Jacobi symbol: they need formulas or bodies beyond
  the group laws.
- Scalar arithmetic modulo n on limbs: additions, products, negation and halving are taken modulo n
  directly; bit reads are taken from the number.
- `Curves.OddMultiplesTable`: does not state the Z ratios and the common Z that the source hands back
  beside the table, because group elements have no coordinates here.
- Addresses, contents and the magic word of scratch spaces: what is kept of the space is how much has been handed out.
  The sizes of the structures are parameters between 1 and 65536 octets, and the alignment is a power of
  two up to 4096.
- `EcmultMulti.PippengerBatch`, `EcmultMulti.StraussBatch`: stated for all batches whose scratch size fits
  a 64-bit word; beyond that the source's size computations wrap around.
- `EcmultScratch.PippengerBuffers`, `EcmultScratch.StraussBuffers`: likewise.
- The seed expansion of `ecmult_gen_blind` and its projective blinding factor: the drawn b is a
  parameter, and the factor does not change the point.
- `EcmultGen.Context.Clear`: the wiped offset fields are unconstrained until the context is built again.
- Byte and storage conversions of field elements, `add_int`, `mul_int` and conditional moves: easy
  members of the same kind as the ones proved.
- Comparison of normal elements on ten limbs: the five-limb proof over again.
- `Nip44.CalcPadding`: the floating-point logarithm is the integer one; the two agree for every size
  the code accepts.
- Key agreement, key derivation, ChaCha20, HMAC and base64 themselves.
- `Wallet.Wallet.Send`: spending conditions, blinding, signing, events on the wire and the other mints' keyset
  collisions; the mint is assumed to answer with one proof for each denomination.
- `Subscription` and `Fetch`: timing, pings, reconnection and the count form of a subscription; a
  message is a step that may happen at any time. What is claimed is what can still happen, not that it
  will: a delivery may wait for its consumer for ever.
- Duplicate filtering in `Fetch` marks an id as seen before its signature is checked, so it is not
  claimed that every event is emitted, only that none is emitted twice and a new id can be.
- `SimplePool.subMany`, the paginator, JSON, bech32, the database-backed SDK and the per-NIP tag readers.
