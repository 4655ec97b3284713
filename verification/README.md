# Verified models of the arithmetic and bookkeeping core of Logos

This project models five parts of the Logos node in Dafny and proves what they compute:

1. **Batch Ed25519 verification** by Bos-Carter multi-scalar multiplication: an array
   heap of indices keyed by multi-limb scalars, a shrinking comparison window, a second
   half of 128-bit scalars that enters in the middle of the run, a closing ladder, the
   batch equation built from the signatures, and verification of one signature, of a batch
   and of a whole list (`BatchLimbs`, `HeapOrder`, `BosCarter`, `SetAside`, `FinalLadder`,
   `BatchHeap`, `BatchScalars`, `BatchEquation`, `BatchVerdict`, `BatchVerify`,
   `BatchRun`).
2. **Scalars modulo the group order** of section 5.1 of RFC 8032: Barrett reduction,
   addition, multiplication, byte conversion, the radix-16 and the sliding-window
   recodings, and the scalar multiplications built on them (`Modm`, `Bytes`, `ModmBytes`,
   `Digits`, `SlidingWindow`, `Window4`, `ScalarMult`).
3. **The field modulo 2^255 - 19** in 51-bit limbs (section 4.1 of RFC 7748):
   multiplication, squaring, conversion to and from bytes, and the two addition chains
   (`Field25519`, `FieldBytes`, `FieldChains`).
4. **Two indexes of the ledger**: the cache of leading candidates, and the voting power of
   representatives with the account balances it mirrors (`LeadingCandidates`,
   `VotingPower`, `AccountBalances`).
5. **BLAKE2b** (RFC 7693): the row-parallel compression against the scalar reference,
   buffered streaming, and the four-way tree mode BLAKE2bp (`Blake2bRounds`,
   `Blake2bRows`, `Blake2bWords`, `Blake2bStream`, `Blake2bTree`, `Blake2b64`,
   `Blake2bLayout`).

`Arith`, `Words` and `Collections` hold what the others share.

## How the source is represented

- A 64- or 128-bit variable has type `u64` or `u128`; every assignment to one carries a
  proof that it stays in range.  Where the source lets a word wrap, `Wrap64` or an
  explicit remainder says so.  `Or` stands for a bitwise or of words that share no bit.
- Limb numbers that the source keeps in memory are arrays and may alias as they may in
  the source.  Limbs that only pass through local variables are method parameters.
- In batch verification a point is a vector of integers, the coefficients over the points
  the run started from.  What holds for these holds for sums of points in every abelian
  group.  For the batch equation each coordinate counts modulo the order m of the base
  point or modulo the cofactor 8, so keys and R may be any points of the curve.  In the
  single multiplications a point is its multiple of the base point, or the
  pair of its multiples of the two points involved.
- A halt of the node (`trace_and_halt`, a failed assertion) ends the run: the function
  returns `None`, the method `true`.
- The databases of the node are maps.  A database iterator is a loop in any order of keys.
- The BLAKE2 streams are generic in the compression function (`Core`); `Blake2b64` gives
  the instance for 64-bit words and shows that both compressions of the source compute it.

## What the source does that its comments do not say

- `curve25519_square_times` is commented as raising to the power 2 * count; it squares
  count times, so the power is 2^count.  A count of zero would wrap its loop counter, so
  the model asks for at least one.
- The closing ladder of the batch multiplication is exact for the surviving scalars 0 and
  1.  For any larger one it sees only the low 224 bits and counts their top set bit twice;
  `LadderFactor` is the multiple it returns and `LadderExactMeaning` says for which
  scalars that is the scalar itself.
- The run may end before the 128-bit half has entered.  `Exact` is the condition on the
  starting scalars under which the whole computation returns their weighted sum; over
  independent points it is necessary too.
- With an even number of scalars the entry in the last slot of the heap is an only child
  and is never looked at again (`HeapOrder.EvenHeapBreaks`).  Whatever scalar it holds when
  the second half has come in is missing from the answer; `MultiScalarmult` returns that
  term as `aside`.  Nothing is missing if the last scalar is 0, and something always is if
  every scalar is nonzero and of at most 128 bits.  The one caller passes odd numbers.
- The batch reduces r_i * h_i modulo m before it multiplies the key by it.  For a key with
  a part of order 8 that changes the product, so signatures that are each accepted alone
  can fail together (`TwistedKeyFails`); `GenuineBalanced` is the exact condition.
- Single verification refuses S from 2^253 up and an R whose bytes are not the packed form
  of its point; the batch looks at neither.  A signature and its twin with S + 2m are one
  to the batch and two to single verification (`HighTwin`, `TwinSameBatch`).
- A candidate whose new rank is lower than that of somebody outside the cache stays in
  the cache.  `PutKeepsTop` gives the exact condition, `DemotionBreaksTop` an example.
  After such a put a sync is no longer without effect (`SyncAfterDemotion`).
- A balance change for an account that gets its first representative two epochs later
  halts the node, because the undo step looks up the zero address (`FirstProxyHalts`).
- A decrease first lowers the outgoing representative's power in epoch + 2 as well, and
  only then undoes that.  Where the account no longer counts for it in epoch + 2, the first
  step can halt the node (`LateDecreaseHalts`).  The halting conditions of all three calls
  are exact (`SetBalanceHalts`, `SetAvailableHalts`, `ChangeRepHalts`).
- A record is pruned when nothing is left of it in epoch + 2, even if it still holds
  power in epoch + 1 (`LateRiseStrands`).  Giving up a representative takes its
  power away, but as long as the account has no new one, `GetRepForEpoch` goes on naming
  the old one, in every later epoch (`GivingUpForgotten`).  `RunsExactly` is the exact condition under which
  ledger and balances agree at every point of a run.
- An account remembers two representatives.  After a third, the lookup for an epoch of the
  first answers with the second or fails its assertion (`FirstOfThreeForgotten`);
  `RepUpToEpoch` says exactly which answers stay.

## Model

| member | source | states |
|---|---|---|
| `BatchLimbs.LtMeaning` | ed25519-donna/modm-donna-64bit.h:303-331 | the borrow chains of `lt256_modm_batch` and `lte256_modm_batch` over the low limbs decide < and <= of the whole scalars whenever both are zero above the window |
| `BatchLimbs.SubMeaning` | ed25519-donna/modm-donna-64bit.h:287-300 | the limbs written by `sub256_modm_batch` over the window are those of the difference of the whole scalars |
| `BatchLimbs.ZeroMeaning` | ed25519-donna/modm-donna-64bit.h:333-341 | `iszero256_modm_batch` holds exactly of the scalar 0 |
| `BatchLimbs.OneMeaning` | ed25519-donna/modm-donna-64bit.h:343-351 | `isone256_modm_batch` holds exactly of the scalar 1 |
| `BatchLimbs.AtMost128Meaning` | ed25519-donna/modm-donna-64bit.h:353-361 | `isatmost128bits256_modm_batch` holds exactly of scalars below 2^128, and these are zero above limb 2 |
| `HeapOrder.RiseStep` | ed25519-donna/ed25519-donna-batchverify.h:42-46 | swapping a larger child with its parent keeps a permutation that is in order except above the moved index |
| `HeapOrder.SinkStep` | ed25519-donna/ed25519-donna-batchverify.h:62-68 | swapping the hole with its larger child keeps a permutation that is in order except below the moved index |
| `HeapOrder.RootIsLargest` | ed25519-donna/ed25519-donna-batchverify.h:98-101 | in heap order no key exceeds that of the root |
| `HeapOrder.TopTwo` | ed25519-donna/ed25519-donna-batchverify.h:96-103 | the root and the larger of its children hold the two largest keys, at distinct indices |
| `HeapOrder.SinkDone` | ed25519-donna/ed25519-donna-batchverify.h:62-71 | where the sinking loop stops, only the order towards the parent can be broken, if an only child has key 0 |
| `HeapOrder.EvenHeapBreaks` | ed25519-donna/ed25519-donna-batchverify.h:51-77 | keys 4, 3, 1, 2: in an even heap the last entry can end above its parent |
| `BatchHeap.Batch.HeapSwap` | ed25519-donna/ed25519-donna-batchverify.h:22-28 | exchanges two entries of the index array and nothing else |
| `BatchHeap.Batch.InsertNext` | ed25519-donna/ed25519-donna-batchverify.h:31-48 | the index array stays a permutation of 0..size-1 in max-heap order, one longer, and the last slot holds no more than the new scalar |
| `BatchHeap.Batch.SinkRoot` | ed25519-donna/ed25519-donna-batchverify.h:57-68 | from a heap whose root may be too small to one whose only misplaced index is where the sinking stops; the slot an even heap cannot reach keeps its index and counts as 0 |
| `BatchHeap.Batch.RiseBack` | ed25519-donna/ed25519-donna-batchverify.h:70-76 | the misplaced index rises until the heap is in order again, for every size |
| `BatchHeap.Batch.UpdatedRoot` | ed25519-donna/ed25519-donna-batchverify.h:51-77 | sink-to-bottom then rise restores the order of all scalars within reach after the root's scalar changed, for odd and even sizes |
| `BatchHeap.Batch.Build` | ed25519-donna/ed25519-donna-batchverify.h:80-86 | the first count scalars form a heap |
| `BatchHeap.Batch.Extend` | ed25519-donna/ed25519-donna-batchverify.h:89-93 | a heap is extended to new_count scalars, whatever their limbs, and its last slot holds no more than the last scalar |
| `BatchHeap.Batch.GetTop2` | ed25519-donna/ed25519-donna-batchverify.h:96-103 | returns distinct indices of a largest scalar within reach and of a largest among the others |
| `BatchHeap.Batch.Subtract` | ed25519-donna/modm-donna-64bit.h:287-300 | in place on the scalar array: row max1 becomes the difference, all other rows stay |
| `BatchHeap.Batch.Reduce` | ed25519-donna/ed25519-donna-batchverify.h:182-184 | one replacement (s1, s2; P1, P2) to (s1 - s2, s2; P1, P2 + P1) on the whole scalars and points, with the heap in order afterwards, for odd and even sizes |
| `BatchHeap.Batch.WindowShrinks` | ed25519-donna/ed25519-donna-batchverify.h:171-173 | when the largest scalar has a zero top window limb, every scalar in the heap is zero from there up and the window index does not underflow |
| `BatchHeap.Batch.WindowKeepsLimb2` | ed25519-donna/ed25519-donna-batchverify.h:171-180 | before the extension the window never shrinks below limb 2, because two scalars that still add up to 2^128 remain |
| `BatchHeap.Batch.WindowCoversNew` | ed25519-donna/ed25519-donna-batchverify.h:175-180 | at the extension the window covers all 128-bit scalars that come in |
| `BatchHeap.Batch.Pass` | ed25519-donna/ed25519-donna-batchverify.h:171-184 | one turn of the loop keeps every run invariant and strictly lowers the total of all scalars |
| `BatchHeap.Batch.Run` | ed25519-donna/ed25519-donna-batchverify.h:156-185 | terminates with every scalar within reach zero except at most one, with the second half in the heap exactly if the starting scalars satisfy `Extends`, and with the starting sum kept up to the one term an even heap puts aside |
| `BatchHeap.Batch.MultiScalarmult` | ed25519-donna/ed25519-donna-batchverify.h:150-188 | for every count of at least 5: with no term put aside, returns the ladder's multiple of a point whose multiple by the greatest common divisor is the sum of the entries taken in; returns the sum of s_i * P_i of the starting values whenever they satisfy `Exact` and no term was put aside, and over independent points exactly then; none is put aside for an odd count or a last scalar 0, one always is for an even count of nonzero scalars of at most 128 bits |
| `BosCarter.StepKeepsSum` | ed25519-donna/ed25519-donna-batchverify.h:182-183 | a replacement keeps the sum of s_i * P_i over all entries, in the heap or not |
| `BosCarter.StepShrinks` | ed25519-donna/ed25519-donna-batchverify.h:182-183 | a replacement by a positive scalar lowers the total of the scalars |
| `BosCarter.StepKeepsDivisors` | ed25519-donna/ed25519-donna-batchverify.h:182-183 | a replacement keeps the common divisors of the scalars in the heap |
| `BosCarter.RunStep` | ed25519-donna/ed25519-donna-batchverify.h:164-185 | the run invariant (weighted sum, common divisors, untouched second half) survives a replacement, and a pair adding up to 2^128 is left if the larger scalar had more than 128 bits |
| `BosCarter.RunExtend` | ed25519-donna/ed25519-donna-batchverify.h:175-180 | the run invariant survives the entry of the second half |
| `BosCarter.SurvivorIsGcd` | ed25519-donna/ed25519-donna-batchverify.h:167-169 | the scalar left at the end is the greatest common divisor of all inserted scalars |
| `BosCarter.NotExtended` | ed25519-donna/ed25519-donna-batchverify.h:167-180 | a run that ends without the second half started from scalars that do not satisfy `Extends` |
| `BosCarter.LadderExactMeaning` | ed25519-donna/ed25519-donna-batchverify.h:106-148 | the closing ladder returns s * P exactly for s in {0, 1} and for 2^224 + 2^223 <= s < 2^225 |
| `BosCarter.ExactSuffices` | ed25519-donna/ed25519-donna-batchverify.h:151-188 | from any end of a run that started from `Exact` scalars, the closing step returns the weighted sum |
| `BosCarter.ExactNecessary` | ed25519-donna/ed25519-donna-batchverify.h:151-188 | if it does so over independent points, the starting scalars were `Exact` |
| `BosCarter.EvenScalarsNotExact` | ed25519-donna/ed25519-donna-batchverify.h:124-147 | five scalars of value 2 are not `Exact`: 2 survives and the ladder returns 6 times the point |
| `BosCarter.LateScalarNotExact` | ed25519-donna/ed25519-donna-batchverify.h:167-169 | scalars 1, 0, 0 and then 1, 0 are not `Exact`: the run ends before the second half enters |
| `FinalLadder.Final` | ed25519-donna/ed25519-donna-batchverify.h:106-148 | returns `LadderFactor` of the scalar times the point, and nothing where the scan for a set bit leaves the scalar |
| `FinalLadder.FindTop` | ed25519-donna/ed25519-donna-batchverify.h:126-133 | finds the top set bit of the low four limbs, or none |
| `SetAside.StepIndependent` | ed25519-donna/ed25519-donna-batchverify.h:182-183 | a replacement keeps the points independent |
| `SetAside.PutAside` | ed25519-donna/ed25519-donna-batchverify.h:175-180 | the starting sum is that of the scalars within reach plus the term put aside |
| `SetAside.AsideSpoils` | ed25519-donna/ed25519-donna-batchverify.h:150-188 | over independent points a run that has put a nonzero term aside never returns the starting sum |
| `BatchScalars.ExpandRow` | ed25519-donna/ed25519-donna-batchverify.h:222-229 | one row of the heap becomes the bytes modulo m, all other rows stay |
| `BatchScalars.FillScalars` | ed25519-donna/ed25519-donna-batchverify.h:219-240 | by four loops in place: row 0 is the sum of r_i * s_i, the next n rows r_i * h_i, the last n rows r_i, all modulo m |
| `BatchScalars.PlacePoints` | ed25519-donna/ed25519-donna-batchverify.h:242-249 | the base point, the negated keys and the negated R, or failure exactly if one does not decode |
| `BatchEquation.Equation` | ed25519-donna/ed25519-donna-batchverify.h:225-251 | in every coordinate, modulo m or 8, the sum asked of the heap is the sum of r_i * (s_i * B - h_i * A_i - R_i) plus m times the keys that reducing r_i * h_i wraps |
| `BatchEquation.GenuineBalanced` | ed25519-donna/ed25519-donna-batchverify.h:225-252 | with s_i * B = R_i + h_i * A_i for every signature the sum is neutral if and only if the wrapped keys have no part modulo 8 |
| `BatchEquation.PureKeysBalance` | ed25519-donna/ed25519-donna-batchverify.h:225-252 | with keys in the subgroup of order m it always is, whatever the coefficients |
| `BatchEquation.OneCoefficientBalances` | ed25519-donna/ed25519-donna-batchverify.h:219-252 | with all else fixed, at most one of the 2^128 values of r_i makes the sum neutral if the defect of signature i is invertible modulo m |
| `BatchVerdict.FactorMod8` | ed25519-donna/ed25519-donna-batchverify.h:124-147 | the multiple that the ladder returns vanishes modulo 8 exactly if the survivor's does, for every survivor |
| `BatchVerdict.FactorNeutral` | ed25519-donna/ed25519-donna-batchverify.h:106-148 | if the survivor and the ladder's factor have inverses modulo m, the returned point is neutral exactly if the survivor's multiple is |
| `BatchVerdict.DecisiveBalanced` | ed25519-donna/ed25519-donna-batchverify.h:219-252 | if nothing but zeros stays out of the heap, the sum of the entries taken in is neutral exactly if the equation holds |
| `BatchVerdict.ExactDecisive` | ed25519-donna/ed25519-donna-batchverify.h:151-188 | `Exact` scalars are among these |
| `BatchVerdict.TwistedKeyFails` | ed25519-donna/ed25519-donna-batchverify.h:234-239 | genuine signatures, one with a key of order 8, whose batch comes to a verdict and fails |
| `BatchVerdict.TwistedExists` | ed25519-donna/ed25519-donna-batchverify.h:234-239 | such signatures exist, given by their bytes |
| `BatchVerify.SignOpen` | ed25519-donna/ed25519.c:93-116 | from bytes to verdict by `Expand256` and `DoubleScalarmult`: accepts exactly if S is below 2^253, the bytes of R are canonical and s * B = R + h * A |
| `BatchVerify.HighTwin` | ed25519-donna/ed25519.c:100 | every signature accepted alone has a twin with S + 2m that is as genuine and is refused alone |
| `BatchVerify.TwinSameBatch` | ed25519-donna/ed25519-donna-batchverify.h:225-229 | exchanging a signature for its twin gives the heap the same scalars and points |
| `BatchVerify.CheckBatch` | ed25519-donna/ed25519-donna-batchverify.h:216-252 | from bytes to verdict: with a faithful ladder a batch passes if and only if the sum of the entries taken in is neutral, and if nothing but zeros stayed out, if and only if the equation holds |
| `BatchRun.OneBatch` | ed25519-donna/ed25519-donna-batchverify.h:216-260 | with a faithful ladder, the signatures of a batch are all taken as valid if it decodes and passes, and each is verified alone if not; for a decisive batch passing is its equation; bit 1 is raised exactly if a decoded batch does not pass |
| `BatchRun.SignOpenBatch` | ed25519-donna/ed25519-donna-batchverify.h:204-276 | over a list of any length, in batches of up to 64 and at most three single ones: every group is settled as above, bit 0 says whether one was refused, bit 1 whether a decoded batch did not pass, and signatures each accepted alone in decisive batches give 0 if no wrapped key has a part modulo 8 |
| `BatchRun.SettledByEquation` | ed25519-donna/ed25519-donna-batchverify.h:250-260 | in a group whose verdict is that of its equation, a signature ends valid if and only if the group has more than three, decodes and balances, or the signature is accepted alone |
| `BatchRun.GroupSizes` | ed25519-donna/ed25519-donna-batchverify.h:216-217 | the groups are of 64 signatures, the last of what is left |
| `BatchRun.NeverRefused` | ed25519-donna/ed25519-donna-batchverify.h:204-276 | a signature that verifies alone is never refused; one that does not is accepted only in a batch that passes, for a large S, an R that is not canonical, or a defect |
| `Modm.Reduce` | ed25519-donna/modm-donna-64bit.h:42-63 | subtracts m exactly if the number is at least m, with branch-free borrows |
| `Modm.BorrowLimb` | ed25519-donna/modm-donna-64bit.h:37-53 | the sign bit of a wrapped difference is the comparison, and the limb written is the difference with the borrow added back |
| `Modm.MaskSelects` | ed25519-donna/modm-donna-64bit.h:58-62 | xor with a masked xor selects one of two words |
| `Modm.Quotient` | ed25519-donna/modm-donna-64bit.h:74-85 | the limbs of q3 are the quotient by 2^40 of columns 4 to 8 of mu * q1 with the carry of column 3 alone |
| `Modm.QuotientBounds` | ed25519-donna/modm-donna-64bit.h:71-85 | with columns 0 to 2 left out, 2^264 times the estimate is at most mu * q1 and misses it by less than 2^264 + 5 * 2^224 |
| `Modm.BarrettBound` | ed25519-donna/modm-donna-64bit.h:65-107 | the remainder after the estimate lies in [0, 3m) |
| `Modm.LowProduct` | ed25519-donna/modm-donna-64bit.h:87-96 | r2 is q3 * m modulo 2^264 |
| `Modm.Residue` | ed25519-donna/modm-donna-64bit.h:71-103 | r1 - r2 modulo 2^264 is x - q3 * m itself |
| `Modm.Barrett` | ed25519-donna/modm-donna-64bit.h:65-107 | the canonical x mod m for every x below 2^512; the result may overwrite r1 |
| `Modm.Add256` | ed25519-donna/modm-donna-64bit.h:110-121 | (x + y) mod m for reduced x and y; the result may overwrite either |
| `Modm.ProductColumns` | ed25519-donna/modm-donna-64bit.h:129-147 | the nine column sums, weighted, are the product of the two five-limb numbers |
| `Modm.SplitProduct` | ed25519-donna/modm-donna-64bit.h:129-147 | from the columns of a product below 2^512, q1 is its bits from 248 up and r1 its low 264 bits |
| `Modm.Mul256` | ed25519-donna/modm-donna-64bit.h:123-150 | (x * y) mod m; the result may overwrite either operand |
| `ModmBytes.Expand256` | ed25519-donna/modm-donna-64bit.h:152-187 | the canonical value mod m of the little-endian number of up to 64 bytes; inputs of fewer than 32 bytes are below m and skip the reduction |
| `ModmBytes.Contract256` | ed25519-donna/modm-donna-64bit.h:205-211 | 32 bytes whose little-endian number is the value |
| `Digits.LimbsToDigits` | ed25519-donna/modm-donna-64bit.h:219-226 | cutting the limbs into equal digits keeps the number: the digits, weighted, add up to it |
| `Window4.MakeSigned` | ed25519-donna/modm-donna-64bit.h:228-237 | the carry loop keeps the sum and leaves digits in [-8, 7], the last in [-8, 8] |
| `Window4.ContractWindow4` | ed25519-donna/modm-donna-64bit.h:213-238 | for every s below 2^255 the 64 digits lie in [-8, 8] and add up to s in radix 16 |
| `SlidingWindow.RippleSafe` | ed25519-donna/modm-donna-64bit.h:266-274 | the carry ripple always finds a zero digit before digit 256 |
| `SlidingWindow.CollectDigit` | ed25519-donna/modm-donna-64bit.h:262-278 | the inner loop keeps the number, clears the digits it takes, and leaves an odd digit of at most 2^(w-1) - 1 in absolute value |
| `SlidingWindow.MakeSliding` | ed25519-donna/modm-donna-64bit.h:257-279 | from the bits of s to a signed recoding with the same sum |
| `SlidingWindow.ContractSlidingWindow` | ed25519-donna/modm-donna-64bit.h:240-280 | for every s up to 2^255 and window 2 to 7: the digits add up to s, every nonzero digit is odd and within 2^(w-1) - 1, and is followed by at least w - 1 zeros |
| `ScalarMult.BuildTable` | ed25519-donna/ed25519-donna-impl-base.h:263-266 | the table holds P, 3P, ..., 15P |
| `ScalarMult.TableIndex` | ed25519-donna/ed25519-donna-impl-base.h:280-288 | abs(digit) / 2 of an odd digit is the index of its odd multiple, inside the table |
| `ScalarMult.DoubleScalarmult` | ed25519-donna/ed25519-donna-impl-base.h:252-292 | s1 * P + s2 * B for all s1, s2 up to 2^255, given a table of the odd multiples of B |
| `ScalarMult.Choose` | ed25519-donna/ed25519-donna-impl-base.h:303-328 | b * 256^pos * B for every digit b in [-8, 8], by eight conditional moves |
| `ScalarMult.Schedule` | ed25519-donna/ed25519-donna-impl-base.h:334-363 | the odd digits times 16 plus the even digits, each in radix 256, are all the digits in radix 16 |
| `ScalarMult.ScalarmultBase` | ed25519-donna/ed25519-donna-impl-base.h:334-363 | s * B for every s below 2^255 |
| `Field25519.ColumnsHoldProduct` | ed25519-donna/curve25519-donna-64bit.h:126-155 | five columns with the 19-fold high products are congruent to the product |
| `Field25519.CarryChain` | ed25519-donna/curve25519-donna-64bit.h:158-164 | the carry chain keeps the value modulo p and brings the limbs below 2^52 |
| `Field25519.Mul` | ed25519-donna/curve25519-donna-64bit.h:105-171 | for limbs below 2^54: in range throughout, congruent to the product, limbs below 2^52; the result may overwrite an operand |
| `Field25519.Square` | ed25519-donna/curve25519-donna-64bit.h:236-284 | the same for the square with doubled limbs |
| `Field25519.WideChain` | ed25519-donna/curve25519-donna-64bit.h:215-226 | the parallel carry chain of `square_times` keeps the value modulo p and brings the limbs below 2^52 |
| `Field25519.SquareTimes` | ed25519-donna/curve25519-donna-64bit.h:178-234 | congruent to in^(2^count) for every count of at least 1, in range in every turn |
| `FieldBytes.Expand` | ed25519-donna/curve25519-donna-64bit.h:286-319 | the low 255 bits of the 32-byte number, in 51-bit limbs |
| `FieldBytes.Contract` | ed25519-donna/curve25519-donna-64bit.h:321-373 | the 32 bytes of the one number in [0, p) congruent to the input, for all limbs below 2^63 |
| `FieldBytes.ExpandContract` | ed25519-donna/curve25519-donna-64bit.h:286-373 | contract after expand gives the low 255 bits mod p, and the input itself if it was below p |
| `FieldChains.FiftyFoldOnes` | ed25519-donna/curve25519-donna-helpers.h:8-31 | from z^(2^5 - 1) to z^(2^250 - 1), with n in place of 5, limbs in range at every step |
| `FieldChains.Eleven` | ed25519-donna/curve25519-donna-helpers.h:40-45 | the common start: z^11 and z^31 |
| `FieldChains.Recip` | ed25519-donna/curve25519-donna-helpers.h:36-49 | z^(2^255 - 21) for every z |
| `FieldChains.PowTwo252m3` | ed25519-donna/curve25519-donna-helpers.h:54-67 | z^(2^252 - 3) for every z |
| `LeadingCandidates.GreaterTotal` | logos/epoch/epoch_voting_manager.cpp:271-283 | the ranking orders any two different candidates, if digests do not collide |
| `LeadingCandidates.GreaterTrans` | logos/epoch/epoch_voting_manager.cpp:271-283 | the ranking is transitive |
| `LeadingCandidates.TopUnique` | logos/blockstore.cpp:948-1016 | the exact cache is determined by the candidates: no two different ones satisfy the description |
| `LeadingCandidates.Scan` | logos/blockstore.cpp:926-942 | one pass in any order counts the cache and finds its lowest entry |
| `LeadingCandidates.BlockStore.SyncLeading` | logos/blockstore.cpp:923-946 | size and remembered minimum become those of the cache; the databases stay |
| `LeadingCandidates.BlockStore.UpdateLeading` | logos/blockstore.cpp:948-1016 | the put of an already stored candidate, as the relation `Put` describes it |
| `LeadingCandidates.BlockStore.CandidatePut` | logos/blockstore.cpp:880-895 | the new state is one that `Put` allows from the old; from an exact cache and with no rank lowered, nobody outside the cache then has more votes than anybody inside, nor as many and more stake |
| `LeadingCandidates.TopSize` | logos/blockstore.cpp:948-1016 | an exact cache holds eight candidates, or all if there are fewer |
| `LeadingCandidates.TopByVotes` | logos/epoch/epoch_voting_manager.cpp:271-283 | who is in an exact cache has at least the votes of everybody outside, with equal votes at least the stake, and with both equal the larger digest |
| `LeadingCandidates.RankedIsTop` | logos/epoch/epoch_voting_manager.cpp:271-283 | and conversely, a full cache of current records ranked so is exact |
| `LeadingCandidates.MinByVotes` | logos/epoch/epoch_voting_manager.cpp:271-283 | the minimum has the fewest votes in the cache, the least stake among these and the smallest digest among those |
| `LeadingCandidates.PutKeepsTop` | logos/blockstore.cpp:948-1016 | after a put the cache holds exactly the best min(8, count) candidates with their current records, and when full the true minimum, if and only if the put does not demote a cached candidate |
| `LeadingCandidates.RankKeptNotDemoted` | logos/blockstore.cpp:956-973 | a put that does not lower the account's rank demotes nobody |
| `LeadingCandidates.RunsStayExact` | logos/blockstore.cpp:880-1016 | over every run of puts that never lower a rank, with syncs anywhere, the cache stays exact |
| `LeadingCandidates.SyncKeeps` | logos/blockstore.cpp:923-946 | a sync leaves databases, size and, while the cache is full, the remembered minimum as they were if and only if size and full-cache minimum were right before it |
| `LeadingCandidates.ExtraSyncHarmless` | logos/blockstore.cpp:923-946 | from any point at which size and full-cache minimum are right, whatever the cache holds, a sync changes the outcome of no later put |
| `LeadingCandidates.SyncAfterDemotion` | logos/blockstore.cpp:923-973 | after a demoting put the minimum is wrong, and the next candidate enters the cache with a sync and not without |
| `LeadingCandidates.DemotionBreaksTop` | logos/blockstore.cpp:956-973 | an exact full cache in which one rank-lowering put leaves a candidate that is no longer among the best |
| `VotingPower.UpdateHalts` | logos/staking/voting_power_manager.cpp:92-219 | an update halts exactly if the representative has no record or the amount does not fit, and otherwise prunes the record exactly if nothing is left in its next level and the representative is not registered |
| `VotingPower.UpdateAffectsLater` | logos/staking/voting_power_manager.cpp:92-179 | an update given for an epoch changes, among the records that stay stored, the unlocked power of exactly the named representative in exactly the later epochs; self stake and locked proxy of every epoch the record answers for stay, and the record moves to the later of its epoch and the update's |
| `VotingPower.DroppedHeldNothing` | logos/staking/voting_power_manager.cpp:182-219 | a pruned record was worth nothing after the epochs involved |
| `VotingPower.PowerAfter` | logos/staking/voting_power_manager.cpp:92-219 | after any list of updates, everybody's power in every later epoch is the old one plus what the list adds up to, except that a representative stranded by pruning has none in the next epoch |
| `AccountBalances.RepAfter` | logos/common.cpp:269-280 | without a change of representative after epoch + 2, the representatives of epoch + 1 and epoch + 2 settle every later epoch |
| `AccountBalances.NetOfCalls` | logos/common.cpp:295-321 | the ledger calls of a setter, up to three, add the change to the representative of epoch + 1 in that epoch and to the one of epoch + 2 afterwards, and to nobody else |
| `AccountBalances.MirrorHalts` | logos/common.cpp:295-321 | the exact condition on account and ledger under which those calls halt, the lookup of the representative included |
| `AccountBalances.SetBalanceHalts` | logos/common.cpp:282-363 | the exact condition under which a balance change halts |
| `AccountBalances.SetAvailableHalts` | logos/common.cpp:365-447 | the exact condition under which a change of the available balance halts |
| `AccountBalances.ChangeRepHalts` | logos/staking/staking_manager.cpp:495-520 | the exact condition under which a change of representative halts |
| `AccountBalances.FollowingExactly` | logos/common.cpp:295-321 | calls that follow the account keep the ledger equal to the proxied balances, of everybody on record or not, if and only if they strand nobody |
| `AccountBalances.SetterExactly` | logos/common.cpp:269-447 | a setter keeps the ledger in step if and only if nothing changes or the representatives are settled, and nobody is stranded |
| `AccountBalances.SetBalanceExactly` | logos/common.cpp:282-363 | the same for a balance change |
| `AccountBalances.SetAvailableExactly` | logos/common.cpp:365-447 | the same for a change of the available balance |
| `AccountBalances.SetBalanceKeepsRest` | logos/common.cpp:282-363 | for an account whose available balance is within its balance, a balance change keeps balance minus available, without wrap, and touches no other account |
| `AccountBalances.SetAvailableWithin` | logos/common.cpp:365-447 | for every account, a change of the available balance stays within the balance and touches no other account |
| `AccountBalances.ChangeRepExactly` | logos/staking/staking_manager.cpp:402-415 | a change of representative keeps the ledger in step if and only if it moves nothing, names a new one or gives up none, and strands nobody |
| `AccountBalances.RunsExactly` | logos/common.cpp:269-447 | over every run of both setters and of changes of representative, in any order of epochs, the ledger is in step at every point if and only if every call met its condition |
| `AccountBalances.RegisteredNotStranded` | logos/staking/voting_power_manager.cpp:182-219 | calls that name only registered representatives strand nobody |
| `AccountBalances.FirstProxyHalts` | logos/common.cpp:306-321 | an account whose first representative starts at epoch + 2 halts the node on any change |
| `AccountBalances.LateRiseStrands` | logos/common.cpp:304-321 | a rise of the balance that prunes the outgoing representative while it still has the account in epoch + 1 |
| `AccountBalances.LateDecreaseHalts` | logos/common.cpp:304-321 | a state in step in which every decrease by either setter halts |
| `AccountBalances.GivingUpForgotten` | logos/staking/staking_manager.cpp:495-520 | giving up a representative takes its power away in an epoch in which it still represents the account |
| `AccountBalances.Ledger.UpdateUnlockedProxied` | logos/staking/voting_power_manager.cpp:296-351 | the stored record or its removal, or the halt, as `Update` says; every stored record answers for every epoch from its own and the call's on with what it held, and the change in the unlocked part |
| `AccountBalances.Ledger.MirrorChange` | logos/common.cpp:295-321 | the sequence of ledger calls, halting where one of them halts |
| `AccountBalances.Ledger.SetAccountBalance` | logos/common.cpp:282-363 | account and ledger after the call, or the halt, and in step afterwards under exactly the stated condition |
| `AccountBalances.Ledger.SetAccountAvailable` | logos/common.cpp:365-447 | account and ledger after the call, or the halt, and in step afterwards under exactly the stated condition |
| `AccountBalances.Ledger.ChangeAccountRep` | logos/staking/staking_manager.cpp:495-520 | account and ledger after the change, or the halt, and in step afterwards under exactly the stated condition; the target represents the account from the next epoch on, the outgoing one up to then |
| `AccountBalances.RepFromNextEpoch` | logos/staking/staking_manager.cpp:402-415 | after a change the lookup for a later epoch answers with the target, or with the outgoing representative if it was given up |
| `AccountBalances.RepUpToEpoch` | logos/staking/staking_manager.cpp:402-415 | for an epoch up to the current one the answer stays if and only if the change is the second in its epoch, the newer representative was the answer, or both were the same |
| `AccountBalances.FirstOfThreeForgotten` | logos/common.cpp:269-280 | an account with a third representative whose first can no longer be looked up |
| `AccountBalances.KnownFromOlder` | logos/common.cpp:269-280 | with its records in order, the lookup succeeds exactly from the first epoch of the older one on |
| `AccountBalances.RecordsInOrder` | logos/staking/staking_manager.cpp:402-415 | changes of representative keep the records in order and the balances as they are |
| `Blake2bRounds.LoadsFollowSigma` | blake2/blake2b-load-sse2.h:18-65 | the 48 message loads pick, lane by lane, the words that the schedule names |
| `Blake2bRounds.RefG` | blake2/blake2b-ref.c:153-163 | in place on four entries of v: one application of G of section 3.1 of RFC 7693, all other entries kept |
| `Blake2bRounds.RefRound` | blake2/blake2b-ref.c:165-175 | four columns, then four diagonals |
| `Blake2bRounds.RefCompress` | blake2/blake2b-ref.c:177-216 | the compression function F of section 3.2 of RFC 7693 |
| `Blake2bRounds.AgreeCompress` | blake2/blake2b-round.h:27-41 | operations that agree word by word give the same compression |
| `Blake2bRows.G1` | blake2/blake2b-round.h:45-62 | the first half of G on all four lanes |
| `Blake2bRows.G2` | blake2/blake2b-round.h:64-81 | the second half of G on all four lanes |
| `Blake2bRows.HalvesAreMix` | blake2/blake2b-round.h:45-81 | the two halves, which add in another order, are G on each lane |
| `Blake2bRows.Diagonalize` | blake2/blake2b-round.h:115-124 | the unpack form turns diagonals into columns |
| `Blake2bRows.Undiagonalize` | blake2/blake2b-round.h:126-135 | and back |
| `Blake2bRows.DiagonalizeAligned` | blake2/blake2b-round.h:84-97 | so does the byte-align form |
| `Blake2bRows.UndiagonalizeAligned` | blake2/blake2b-round.h:99-112 | and back |
| `Blake2bRows.RowRound` | blake2/blake2b-round.h:145-155 | one row-parallel round is one round of the reference |
| `Blake2bRows.RowCompress` | blake2/blake2b.c:167-234 | the row-parallel compression is F for every chaining value, block, counter and flags, all 12 rounds |
| `Blake2bWords.RotationsAgree` | blake2/blake2b-round.h:27-41 | shifts joined by xor, byte shuffles and the doubling for 63 are the rotations of the reference |
| `Blake2bWords.RowCompressWords` | blake2/blake2b.c:167-234 | on 64-bit words, in its SSE2 and its SSSE3 form, the row-parallel compression equals the scalar reference |
| `Blake2b64.RowCompressBlock` | blake2/blake2b.c:167-234 | the same from a block of bytes: it is the compression of the streams below |
| `Blake2b64.RefCompressBlock` | blake2/blake2b-ref.c:177-216 | and so is the reference |
| `Blake2bStream.State.IncrementCounter` | blake2/blake2b.c:74-78 | the two counter words advance as one number modulo 2^128 |
| `Blake2bStream.State.Update` | blake2/blake2b.c:238-263 | appends the input to the absorbed bytes and keeps the state invariant: all blocks but the last compressed and counted, 1 to 128 bytes of a nonempty message in the buffer |
| `Blake2bStream.UpdateAll` | blake2/blake2b.c:360-373 | a message in pieces of any sizes is absorbed as their concatenation |
| `Blake2bStream.StateDetermined` | blake2/blake2b.c:238-263 | chaining value, counter, buffer length and buffered bytes depend on nothing but the absorbed bytes |
| `Blake2bStream.State.Final` | blake2/blake2b.c:266-281 | -1 and no change without room or after a first final; otherwise the digest of section 3.3 of RFC 7693 of the absorbed bytes, and only outlen bytes of the output written |
| `Blake2bStream.Init` | blake2/blake2b.c:99-119 | refuses a bad output length; otherwise an empty state |
| `Blake2bStream.InitKey` | blake2/blake2b.c:121-153 | refuses bad lengths; otherwise a state that has absorbed the padded key block |
| `Blake2bStream.Blake2b` | blake2/blake2b.c:284-311 | the digest of key block and message, or -1 for bad arguments |
| `Blake2bTree.LaneConcat` | blake2/blake2bp.c:164-178 | after whole stripes, a leaf's bytes of a concatenation are those of the parts in a row |
| `Blake2bTree.LaneOfPiece` | blake2/blake2bp.c:199-206 | a leaf's bytes of up to one stripe are one slice of at most 128 bytes |
| `Blake2bTree.FeedLane` | blake2/blake2bp.c:164-173 | one leaf takes its block of every whole stripe |
| `Blake2bTree.Tree.Update` | blake2/blake2bp.c:135-184 | appends the input; every leaf has taken exactly its lane of the whole stripes and buflen is the total length mod 512 |
| `Blake2bTree.Tree.Final` | blake2/blake2bp.c:188-215 | -1 without room or after a first final; otherwise the tree hash of the message, and only outlen bytes of the output written |
| `Blake2bTree.Init` | blake2/blake2bp.c:81-99 | refuses a bad output length; otherwise an empty tree |
| `Blake2bTree.InitKey` | blake2/blake2bp.c:101-132 | refuses bad lengths; otherwise a tree whose leaves have absorbed the key block |
| `Blake2bTree.UpdateAll` | blake2/blake2bp.c:331-344 | a message in pieces of any sizes is absorbed as their concatenation |
| `Blake2bTree.RunLeaf` | blake2/blake2bp.c:258-281 | one leaf of the one-shot form: the hash of the key block and its lane |
| `Blake2bTree.Blake2bp` | blake2/blake2bp.c:217-292 | the one-shot form gives the same tree hash as streaming, or -1 for bad arguments |
| `Blake2bLayout.Load64IsLE` | blake2/blake2-impl.h:48-65 | a loaded word is the little-endian number of its eight bytes |
| `Blake2bLayout.StoreIsToLE` | blake2/blake2-impl.h:104-119 | a stored word is the eight bytes of its number, least significant first |
| `Blake2bLayout.LoadStore` | blake2/blake2-impl.h:48-119 | loading undoes storing |
| `Blake2bLayout.StoreLoad` | blake2/blake2-impl.h:48-119 | storing undoes loading |
| `Blake2bLayout.BlockWord` | blake2/blake2b-ref.c:183-185 | message word i is the number in bytes 8i to 8i + 7 of the block |
| `Blake2bLayout.HashWord` | blake2/blake2b.c:266-281 | bytes 8i to 8i + 7 of a hash are those of word i |
| `Blake2bLayout.InitialWord` | blake2/blake2b.c:81-97 | word i of the initial chaining value is that of the IV xored with the number in bytes 8i to 8i + 7 of the parameter block |
| `Blake2bLayout.InitialByte` | blake2/blake2b.c:81-97 | in memory it is the IV xored with the parameter block byte by byte |
| `Blake2bLayout.InitParam` | blake2/blake2b.c:81-97 | the loop over 64 bytes leaves that chaining value in memory |
| `Blake2bLayout.InitialInjective` | blake2/blake2.h:110-124 | parameter blocks with fields in range that differ give different chaining values |
| `Blake2bLayout.LeafLayout` | blake2/blake2bp.c:44-60 | the 64 bytes of the parameter block of leaf i, with its number in bytes 8 to 11 |
| `Blake2bLayout.RootLayout` | blake2/blake2bp.c:62-78 | the 64 bytes of that of the root |
| `Blake2bLayout.SequentialLayout` | blake2/blake2b.c:101-119 | the 64 bytes of that of a sequential hash |
| `Blake2bLayout.StartsDiffer` | blake2/blake2bp.c:44-78 | no two of the leaves, the root and a sequential hash start from the same chaining value |
| `Blake2bLayout.KeyBlockMeans` | blake2/blake2b.c:146-152 | a key becomes one block of its bytes and zeros, no key none |
| `Blake2bLayout.KeyBlockInjective` | blake2/blake2b.c:146-152 | keys of one length are told apart by their blocks |
| `Blake2bLayout.InitialVector` | blake2/blake2b.c:48-54 | the first four words of the IV are the fractional parts of the square roots of 2, 3, 5 and 7 |
| `Blake2bLayout.InitialVectorRest` | blake2/blake2b.c:48-54 | the others are those of 11, 13, 17 and 19 |
| `Blake2bLayout.FlagWord` | blake2/blake2b.c:67-72 | a raised flag is a word of 64 ones |
| `Blake2bLayout.PairWords` | blake2/blake2b-ref.c:191-202 | counter and flag words enter the compression with their values |
| `Blake2bLayout.Rotation32` | blake2/blake2-impl.h:148-151 | bit i of the rotated word is bit i + 32, modulo 64, of the word |
| `Blake2bLayout.Rotation24` | blake2/blake2-impl.h:148-151 | the same for 24 |
| `Blake2bLayout.Rotation16` | blake2/blake2-impl.h:148-151 | the same for 16 |
| `Blake2bLayout.Rotation63` | blake2/blake2-impl.h:148-151 | the same for 63 |
| `Blake2bLayout.SigmaPermutes` | blake2/blake2b-ref.c:31-45 | every round uses each message word once, and the last two repeat the first two |

## Left out

- Curve points themselves: addition and doubling formulas, packing, square roots, primality of p and Fermat's theorem; only exponents and multiples are claimed.
- `curve25519_add`, `curve25519_sub` and their variants, `curve25519_neg` and the conditional swaps: single passes over limbs that would add easy members.
- The 32-bit limb code, the inline assembly, the SSE2 field code and the AVX2, SSE4.1 and XOP forms of BLAKE2b, which repeat the arguments made here; `expand_raw256_modm`, which is the loading half of `Expand256`.
- BatchHeap.Batch.MultiScalarmult: asks for scalars below 2^128 in the second half, which the comments of the source call the 128-bit scalars; with an even count, whether a term is put aside is given exactly by `aside` and bounded on both sides by conditions on the starting scalars, not decided from them in every case.
- BatchRun.SignOpenBatch: takes the random bytes, the hash of (R, A, message) and the decoded points as given, and whether the bytes of R are the packed form of its point.
- BatchEquation.OneCoefficientBalances: asks for an inverse of the defect modulo m; that m is prime, so that every nonzero defect has one, is not proved.
- BatchVerify.CheckBatch: asks for inverses modulo m of the survivor and the ladder's factor where these differ, for the same reason.
- Field25519.SquareTimes: asks for a count of at least 1; the source would wrap its counter on 0 and never passes it.
- ScalarMult.ScalarmultBase: takes the contents of the precomputed table as given, and models the constant-time selection as conditional moves without its masks; so does ScalarMult.DoubleScalarmult for the table of odd multiples.
- Modm.Reduce: models the mask selection on its two possible masks (see `MaskSelects`), not as a bitwise operation on integers.
- Bytes are turned into words and words into bytes by their little-endian meaning in the scalar and field code; load and store instructions are not modelled there.
- LMDB transactions, cursors, logging and error codes; a failed write is not modelled.
- AccountBalances.ChangeRepExactly: covers accounts without staked funds; moving staked funds between targets, locked proxy and self stake are not modelled, nor are `HandleFallback` and the fallback database of the voting power manager.
- The clearing of the leading-candidates database at an epoch change.
- LeadingCandidates.RunsStayExact: assumes that no two different delegate records have the same digest.
- Blake2bTree.Tree.Update: the leaves are served one after the other; the OpenMP form runs the same loop body for each leaf in its own thread.
- Blake2bStream.State.constructor: takes the parameter block as a value; its bytes and their xor with the IV are in `Blake2bLayout`.
- Wiping of key blocks and buffers (`secure_zero_memory`), and a null input with a positive length.
- BLAKE2s, BLAKE2sp, BLAKE2X, SHA-512, consensus, networking, RPC, configuration and everything else of the node.
