# QDAY consensus in Dafny

QDAY is a chain of unspent outputs with hybrid signatures, whose coins start to decay once somebody publishes a
discrete logarithm (the canary proof). This project models the core of its node: the forest of Merkle trees that
stands for the set of outputs, the ledger rules, the choice of the best chain, the transaction pool, the arithmetic
under them, and some self-contained algorithms. `dafny verify dfyconfig.toml` checks all of it.

## What is proved

- **Accumulator** (`Forest`, `Carry`, `Paths`, `Update`, `Accumulator`, `BlockRevert`). The trees are those of section
  2.1 of RFC 6962. An accumulator of 64 roots is shown to stand for a list of leaves. Applying a block leaves exactly
  the roots of the updated and extended list; every proof of every leaf can be carried forwards and backwards over any
  walk along the chain, and comes back hash for hash; and membership is exact, so a leaf has one proof. Recomputation,
  merging and patching are methods that overwrite proofs in place, as in the source.
- **Multiproofs** (`Multiproof`). The shared proof of a set of leaves has the announced size and restores every single
  proof, although the decoder only knows an inferred number of leaves.
- **Ledger** (`Ledger`, `MidState`, `BlockApply`, `Utxo`, `Refinement`, `Safety`, `Provenance`, `Spends`, `Runs`).
  `Ledger` states the rules as functions on the full list of leaves. The class `MidState` and the validation methods
  are shown to compute the same verdicts from the roots alone. The concrete state is refined to a plain map of unspent
  outputs, and from this follow, for every chain of valid blocks: the supply bound, absence of currency overflow,
  single spending, exact inputs, and a single activation. `BlockApply.Replay` judges whole chains by the accumulator's
  roots, and `BlockRevert.FollowBlocks` carries proofs along them.
- **Chain and pool** (`Manager`, `Tip`, `Pool`, `Ephemerals`, `LedgerPool`, `Candidate`). The tip is always the fold
  of block application from genesis. Reorganisations follow exactly the path over the common ancestor, and a failed
  one restores the old tip. The outcome of `AddBlocks` is given for every list of blocks, and the theorems about
  chains hold of the tip. The pool's list, positions, weight and cached state agree, and sets are inserted wholly or
  not at all. A mining candidate is valid once its header is.
- **Arithmetic** (`Currency`, `Work`, `Difficulty`, `Decay`). Division of 128-bit values by trial quotient, 256-bit
  words, the difficulty rule along header chains, and the decay of values are exact, with panics exactly where stated.
- **Policies, relay, addresses** (`Policy`, `Swap`, `Envelope`, `Relay`, `Radix`, `Bech32`, `AddressText`,
  `AddressParser`). Who can spend a native or swap address; dependency-closed packing of transactions; Bech32m (BIP
  350, on the code of BIP 173) with round trips, canonical form and detection of every single error.

## How the source is represented

- Hashes, transaction ids, block ids and addresses are values of free datatypes, which makes them collision-free. All
  other cryptography, the commitment, sizes of encoded inputs and the median of timestamps are functions in a record
  that every theorem is general in.
- Machine integers are naturals with explicit limits: words of 64 bits, currencies of 128, works of 256. A panic of
  the source is a flag, a verdict `Panicked`, or a precondition that is then shown to hold.
- The accumulator theorems hold for fewer than 2^63 leaves.
- An output that is created and spent in one block reaches the accumulator as an added leaf. Validation does not look
  at the proof that the spending input carries, and the source appends the leaf's path to it. So the leaf's proof does
  not verify afterwards if that input carried one: `EphemeralProofs.AnyProofAccepted` shows that such inputs are
  accepted, and `EphemeralProofs.AddedAcceptedIff` gives the exact condition on the block. It concerns the proofs
  only, the roots are right in any case.
- The comment on `ParseQdayAddress` names canonical Bech32m; the code also accepts the upper-case form, which BIP 173
  allows, so the result is stated for the lower-cased string.

## Model

| member | source | states |
|---|---|---|
| `Forest.ComputeProofRoot` | core/consensus/merkle.go:23-33 | the loop folds a leaf and its proof to the root that the recursive definition of a proof path gives |
| `Forest.TreeHeight` | core/consensus/merkle.go:182-188 | the one height at which a leaf lies in a stored tree: the tree is the last full block of leaves of that height, and its bit is set in the number of leaves |
| `Forest.ProofRootUnique` | core/consensus/merkle.go:23-33 | a proof that folds to a root of the leaf list is the proof of the leaf at its own index: the leaf is in the list there and every hash of the proof is determined |
| `Forest.ContainsIff` | core/consensus/merkle.go:182-188 | membership is exact: a leaf is accepted if and only if the leaf list has it at its index and the proof is the full proof of that index, so no other length and no other proof is accepted |
| `Carry.RootsStored` | core/consensus/merkle.go:253-308 | storing the carried root in the lowest free tree turns the stored roots of n leaves into those of n + 1 |
| `Carry.TreeHeightGrows` | core/consensus/merkle.go:253-308 | the tree of an old leaf never shrinks when leaves are appended |
| `Carry.GrowthExtends` | core/consensus/merkle.go:458-469 | for every old leaf the proof after the append is the old proof followed by the growth of its old tree |
| `Paths.RepairedCorrect` | core/consensus/merkle.go:426-449 | overwriting a proof from the updated leaf that it meets lowest gives the proof in the updated list |
| `Paths.ReadySplit` | core/consensus/merkle.go:312-380 | updated leaves split at the middle of a range serve the two halves of the range |
| `Paths.MovedWithEntry` | core/consensus/merkle.go:312-380 | writing the recomputed sibling root into the proofs of a half, before or after that half is recomputed, gives the proofs of the whole range |
| `Update.SplitLeaves` | core/consensus/merkle.go:312-380 | the binary search returns the point that separates the indices below mid from the others |
| `Update.SetEntry` | core/consensus/merkle.go:312-380 | one entry of every proof is overwritten and nothing else changes |
| `Update.RecomputeHalf` | core/consensus/merkle.go:312-380 | the root of one half in the new list is returned and written into the proofs of the other half |
| `Update.RecomputeHalves` | core/consensus/merkle.go:312-380 | both halves end with the proofs of the new list, although the second is recomputed with half-updated proofs |
| `Update.Recompute` | core/consensus/merkle.go:312-380 | returns the root of a range in the new leaf list and leaves in every updated leaf its proof in that list |
| `Update.SortLeaves` | core/consensus/merkle.go:312-380 | the same leaves in order of tree height and index |
| `Update.GroupLeaves` | core/consensus/merkle.go:312-380 | groups sorted leaves by the tree that holds them |
| `Update.UpdateGroup` | core/consensus/merkle.go:312-380 | the updated leaves of one tree get their proofs in the new list, and the others are untouched |
| `Update.UpdateTree` | core/consensus/merkle.go:312-380 | after a tree the updated leaves of this and all lower trees have proofs in the new list, and the grouping stays |
| `Update.UpdateLeaves` | core/consensus/merkle.go:312-380 | every updated leaf ends with its proof in the list with all updates, grouped by tree |
| `Update.UpdateProof` | core/consensus/merkle.go:426-449 | the proof of any leaf of an updated tree becomes its proof in the new list, at the same length |
| `Accumulator.AppendBackwards` | core/consensus/merkle.go:253-308 | walking back from a leaf appends a hash to exactly the proofs between the walk's end and its start |
| `Accumulator.MergeProofs` | core/consensus/merkle.go:253-308 | a merge appends the right root to the leaves of the left tree and the left root to those of the right tree, and to no others |
| `Accumulator.GrowTrees` | core/consensus/merkle.go:253-308 | a merge records its roots in the growth of every initial tree under it |
| `Accumulator.MergeRow` | core/consensus/merkle.go:253-308 | one merge carries the root, the added proofs and the growth one row up |
| `Accumulator.MergeUp` | core/consensus/merkle.go:253-308 | all merges of an append: the carried root, the proofs of the leaves added so far and the growth of the old trees are those of the longer list |
| `Accumulator.ElementAccumulator.constructor` | core/consensus/merkle.go:121-126 | an empty accumulator holds the empty leaf list |
| `Accumulator.ElementAccumulator.AddLeaf` | core/consensus/merkle.go:253-308 | one more leaf: roots, assigned indices, proofs and growth are those of the longer list |
| `Accumulator.ElementAccumulator.StoreTree` | core/consensus/merkle.go:253-308 | the roots of n leaves become the roots of n + 1 |
| `Accumulator.ElementAccumulator.AddLeaves` | core/consensus/merkle.go:253-308 | the stored roots are those of the old leaves followed by the new ones, the new leaves get consecutive indices and their old proofs followed by their proofs in the result, and the growth is that of every old tree |
| `Accumulator.ElementAccumulator.UpdateRoots` | core/consensus/merkle.go:384-405 | the stored roots are those of the list with the updates, and every updated leaf has its proof in it |
| `Accumulator.ElementAccumulator.NewRoot` | core/consensus/merkle.go:384-405 | the root of a tree after the update, from any updated leaf in it or unchanged if there is none |
| `Accumulator.ElementAccumulator.StoreRoots` | core/consensus/merkle.go:384-405 | the stored roots become those of the updated list |
| `Accumulator.ElementAccumulator.ApplyBlock` | core/consensus/merkle.go:384-405 | afterwards the accumulator holds exactly the old leaves with the updates followed by the added leaves, and updated and added leaves carry their proofs in that list |
| `Accumulator.AppendGrowth` | core/consensus/merkle.go:384-405 | appending the growth of its tree to the proof of an updated leaf gives its proof in the longer list |
| `Accumulator.UpdateElementProof` | core/consensus/merkle.go:458-469 | any valid proof of an old leaf becomes its proof after the block; a leaf added by the block is left alone |
| `Accumulator.RevertElementProof` | core/consensus/merkle.go:476-487 | any valid proof after a block, of a leaf from before it, becomes hash for hash its proof before the block |
| `Accumulator.CutProof` | core/consensus/merkle.go:476-487 | cuts a proof back to the tree that its leaf had among the older leaves |
| `Accumulator.FollowStep` | core/consensus/merkle.go:458-487 | one update, forwards or backwards, takes a valid proof to the neighbouring list |
| `Accumulator.FollowChain` | core/consensus/merkle.go:458-487 | given the updates of each block, along every walk forwards and backwards on which the leaf exists, the patched proof is the proof in the list reached; back at the first list it is the original, hash for hash |
| `BlockRevert.DiffsRevert` | core/consensus/application.go:739-752 | the diffs of a block, taken as unspent, are exactly the leaves that it found, with their proofs |
| `BlockRevert.RevertDiffs` | core/consensus/application.go:925-955 | the leaves of the diffs, taken as unspent, get an update that leads from the list after the block to the list before it |
| `BlockRevert.RevertElements` | core/consensus/application.go:925-955 | running an accepted block again on the state before it gives the way back for every proof |
| `BlockRevert.BlockUpdates` | core/consensus/application.go:820-955 | the apply and the revert update of any accepted block are inverse steps for the holders of proofs |
| `BlockRevert.ChainUpdates` | core/consensus/application.go:820-955 | the same for every block of every valid chain from genesis, over the leaf lists of its states |
| `BlockRevert.FollowBlocks` | core/consensus/merkle.go:458-487 | on every valid chain, a proof valid at one height is after any walk up and down the proof at the height reached, and back at the start it is restored hash for hash |
| `Accumulator.AddedProofIff` | core/consensus/merkle.go:253-308 | an added leaf verifies afterwards if and only if its proof was empty before: the hashes of the new proof are appended to what was there |
| `Accumulator.AddedAccepted` | core/consensus/merkle.go:253-308 | the same for each of the leaves of an append, against the stored roots |
| `EphemeralProofs.SameVerdict` | core/consensus/validation.go:905-931 | the verdict on a transaction does not depend on the proofs of its unconfirmed inputs |
| `EphemeralProofs.AnyProofAccepted` | core/consensus/validation.go:574-591 | an accepted transaction stays accepted, under the same ID, with any proof on an unconfirmed input |
| `EphemeralProofs.BlockClean` | core/consensus/application.go:429-434 | an accepted block leaves no proof on the elements it adds if and only if no unconfirmed input of it carries one |
| `EphemeralProofs.AddedAcceptedIff` | core/consensus/application.go:820-847 | after an accepted block, all leaves it added verify in the accumulator if and only if no unconfirmed input of it carried a proof |
| `Accumulator.ElementAccumulator.RevertBlock` | core/consensus/merkle.go:410-424 | the update describes the way back to the older list for every leaf, and the removed leaves keep their indices |
| `Accumulator.ElementAccumulator.Renumber` | core/consensus/merkle.go:410-424 | the removed leaves get the indices that follow those of the older list |
| `Accumulator.ElementAccumulator.ContainsLeaf` | core/consensus/merkle.go:186-188 | accepts a leaf if and only if the held list has its hash at its index and its proof is the full proof there |
| `Multiproof.ProofSize` | core/types/multiproof.go:95-114 | counts the hashes that the leaves of a range do not determine |
| `Multiproof.VisitCompute` | core/types/multiproof.go:117-140 | appends exactly the roots of the untouched subtrees of a range, from left to right |
| `Multiproof.VisitExpand` | core/types/multiproof.go:144-172 | consumes exactly those roots from the stream, returns the root of the range and rewrites every proof in it |
| `Multiproof.ExpandHalves` | core/types/multiproof.go:144-172 | both halves in turn, with the rest of the stream passed on, and their roots written into each other's proofs |
| `Multiproof.Bucket` | core/types/multiproof.go:74-92 | groups leaves by the height of the tree that holds them |
| `Multiproof.SortBucket` | core/types/multiproof.go:74-92 | a sorted group covers exactly the shared positions of its tree, whose range is computed from any of its leaves |
| `Multiproof.MultiproofSize` | core/types/multiproof.go:95-114 | equals the length of the multiproof |
| `Multiproof.ComputeMultiproof` | core/types/multiproof.go:117-140 | returns the roots of all subtrees, in every tree with a leaf of the set, that contain no leaf of the set |
| `Multiproof.ExpandMultiproof` | core/types/multiproof.go:144-172 | given the multiproof and any further data, every leaf gets its individual proof exactly and the further data is left |
| `Multiproof.InferNumLeaves` | core/types/multiproof.go:181-206 | a number of leaves that gives every leaf of the set its real tree height, although the real number is not known |
| `Multiproof.Encode` | core/types/multiproof.go:181-206 | the inferred number of leaves preserves all tree heights, and the proof is the multiproof |
| `Multiproof.Decode` | core/types/multiproof.go:209-229 | rejects exactly when an index is outside the stated number of leaves or the stream ends early, and otherwise restores every proof and consumes just the multiproof |
| `Currency.Cmp` | core/types/currency.go:61-69 | orders by value |
| `Currency.AddWithOverflow` | core/types/currency.go:87-91 | the flag is set exactly when the sum does not fit in 128 bits, and the result is the sum modulo 2^128 |
| `Currency.SubWithUnderflow` | core/types/currency.go:104-108 | the flag is set exactly when the difference is negative, and the result is the difference modulo 2^128 |
| `Currency.Mul64WithOverflow` | core/types/currency.go:154-164 | the flag is set exactly when the product does not fit, and otherwise the result is the product |
| `Currency.QuoRem64` | core/types/currency.go:211-219 | exact quotient and remainder by a 64-bit divisor |
| `Currency.HighWord` | core/types/currency.go:179-208 | the top word of the shifted divisor brackets the divisor |
| `Currency.TrialWithinOne` | core/types/currency.go:179-208 | the shifted trial quotient is the true quotient or one more |
| `Currency.TrialQuotient` | core/types/currency.go:179-208 | before the decrement the trial quotient is the true quotient or one more, for every 128-bit dividend and divisor with a high word |
| `Currency.Correct` | core/types/currency.go:179-208 | one correction suffices, and neither the product nor the differences overflow |
| `Currency.QuoRem` | core/types/currency.go:179-208 | for all dividends and nonzero divisors the exact quotient and remainder, with no panic inside |
| `Work.Add` | core/consensus/application.go:68-81 | exact 256-bit sum, with a panic exactly on overflow |
| `Work.Sub` | core/consensus/application.go:83-96 | exact difference, with a panic exactly on underflow |
| `Work.MulBy64` | core/consensus/application.go:98-112 | exact product by a 64-bit factor, with a panic exactly on overflow |
| `Work.DivBy64` | core/consensus/application.go:114-126 | exact quotient by a nonzero 64-bit divisor |
| `Work.CmpIsOrder` | core/consensus/application.go:25-27 | comparing the big-endian bytes orders by value |
| `Work.Min` | core/consensus/application.go:128-133 | the smaller value |
| `Work.Max` | core/consensus/application.go:135-140 | the larger value |
| `Difficulty.TargetInterval` | core/consensus/application.go:321-353 | the aimed-at interval stays between a third and three times the block interval |
| `Difficulty.NextDifficulty` | core/consensus/application.go:321-353 | at least 1, and within 1/250 of the difficulty (at least 1) of the one before |
| `Difficulty.AdjustDifficulty` | core/consensus/application.go:321-353 | on 256-bit words the rule computes exactly that value, and panics exactly if the product with the target time or the raised difficulty does not fit, also for negative accumulated times |
| `Difficulty.UpdateOakWork` | core/consensus/application.go:210-219 | exact decayed sum, with a panic exactly on overflow |
| `Difficulty.HeaderStep` | core/consensus/application.go:371-398 | a header keeps the difficulty positive and its change bounded, keeps the bound on the decayed work and raises the total work |
| `Difficulty.BoundedIsSafe` | core/consensus/application.go:180-219 | below a difficulty of 2^184 no update of a header can panic |
| `Difficulty.HeaderChain` | core/consensus/application.go:371-398 | along every header chain with difficulties up to B: difficulty at least 1 and each within 1/250 (or 1) of the one before, decayed work at most 200 B + 199, total work growing by 1 to B per block, and no panic while the total fits |
| `Difficulty.ApplyHeader` | core/consensus/application.go:371-398 | on 256-bit words it computes exactly the next head, and panics exactly if one of the four operations overflows |
| `Difficulty.ApplyHeaders` | core/consensus/application.go:371-398 | any number of headers on words follows the chain of heads, without a panic up to a difficulty of 2^184 while the total work fits |
| `Difficulty.SufficientlyHeavier` | core/consensus/state.go:228-249 | true exactly if the total work is larger by over a fifth of the other difficulty, with a panic exactly if that bar does not fit |
| `Decay.CheckParams` | core/consensus/qday.go:35-57 | accepts exactly the parameters of the model, in particular those whose gross emission fits in 128 bits |
| `Decay.QdayValue` | core/consensus/qday.go:156-175 | equals floor(value * remaining / DecayBlocks) for every 128-bit value, although it is computed from quotient and remainder without a wide product |
| `Decay.RemainingBounds` | core/consensus/qday.go:156-175 | exactly when a value is full (before activation, in the shield and in the first step) and exactly when it is zero |
| `Decay.ValueNonIncreasing` | core/consensus/qday.go:156-175 | the value never rises with height and never exceeds the nominal value |
| `Decay.SplitNeverGains` | core/consensus/qday.go:156-175 | splitting a value over any number of outputs of the same birth height never raises the spendable total |
| `Envelope.Encode` | core/consensus/qday.go:102-113 | builds the bytes of an envelope |
| `Envelope.Parse` | core/consensus/qday.go:115-141 | accepts exactly the well-formed envelopes and returns their fields |
| `Envelope.ParseEncode` | core/consensus/qday.go:102-141 | parsing the encoding of any well-formed envelope gives it back |
| `Envelope.EncodeParse` | core/consensus/qday.go:102-141 | accepted bytes are the encoding of their result, so an envelope has one encoding |
| `Policy.HidesKeepsAddress` | core/types/policy.go:74-119 | replacing any proper sub-policies, at any depth, by their opaque form keeps the address |
| `Policy.Verifier.constructor` | core/types/policy.go:122-233 | starts with all signatures and preimages and no policy counted |
| `Policy.Verifier.Walk` | core/types/policy.go:122-233 | accepts exactly when the policy can be satisfied from the front of what is left, and removes exactly what it used |
| `Policy.Verifier.WalkAll` | core/types/policy.go:122-233 | a threshold in order over its sub-policies, skipping opaque ones |
| `Policy.Verifier.WalkKeys` | core/types/policy.go:122-233 | legacy unlock conditions, signature by signature |
| `Policy.Verify` | core/types/policy.go:122-233 | accepts if and only if the policy is satisfied with no signature and no preimage left over |
| `Swap.SwapAddresses` | core/types/qday_swap.go:31-75 | full, claim and refund policy of a swap have one address |
| `Swap.SwapRevealed` | core/types/qday_swap.go:31-75 | any policy with the swap's address that verifies is its claim or its refund policy |
| `Swap.ClaimIff` | core/types/qday_swap.go:78-91 | the claim policy is satisfied exactly by both recipient signatures and a preimage of the secret hash, with nothing left over |
| `Swap.RefundIff` | core/types/qday_swap.go:94-104 | the refund policy is satisfied exactly by both refund signatures at or after the refund height, with nothing left over |
| `Swap.SwapSpendIff` | core/consensus/validation.go:593-600 | a spend of a swap's address is accepted if and only if it is one of these two |
| `Swap.SwapAdmitted` | core/types/qday_swap.go:121-156 | both revealed forms of a valid swap are swap spends, and the full policy is not |
| `Swap.NativeSpendIff` | core/types/qday_swap.go:108-116 | a spend of a native address is accepted if and only if it reveals the hybrid policy and carries both signatures |
| `Spends.AcceptedSpend` | core/consensus/validation.go:593-631 | every input of an accepted transaction takes an unspent coin of the ledger with exactly its contents, and reveals and satisfies the policy of the coin's address |
| `Spends.SwapInput` | core/consensus/qday.go:241-248 | an accepted transaction takes a coin of a swap's address only as the claim, with both recipient signatures and a preimage, or as the refund, with both refund signatures on a chain that has reached the refund height, and never before swaps are active |
| `Spends.NativeInput` | core/consensus/qday.go:241-248 | an accepted transaction takes a coin of a native address only with both of its keys' signatures |
| `Utxo.SpendAllKeeps` | core/consensus/application.go:429-434 | spending distinct unspent outputs removes exactly them and their value |
| `Utxo.OutputsFresh` | core/consensus/application.go:409-421 | a transaction that spends an unspent output creates ids that were never used |
| `Utxo.CreateAllKeeps` | core/consensus/application.go:409-421 | creating the outputs of a transaction keeps every id of an unspent output used and its parents spent |
| `Utxo.TransactKeeps` | core/consensus/application.go:614-673 | value is conserved by a transaction, its inputs become spent for good, and no spent output returns |
| `Refinement.AvailableIsLive` | core/consensus/validation.go:574-631 | an input that passes the checks, confirmed or ephemeral, is an unspent entry of the ledger with exactly its value, address and maturity |
| `Refinement.SpendStep` | core/consensus/application.go:429-434 | recording a spend in the maps of a block is a spend in the abstract book |
| `Refinement.CreateStep` | core/consensus/application.go:409-421 | recording an output in the maps of a block is a creation in the abstract book |
| `Refinement.InputsSpendable` | core/consensus/validation.go:602-631 | the inputs of an accepted transaction are different unspent outputs of the abstract book |
| `Refinement.ApplyTxStep` | core/consensus/application.go:614-673 | applying an accepted transaction to the block state is the abstract transaction |
| `Safety.TxStep` | core/consensus/validation.go:602-663 | an accepted transaction keeps the invariant of a block: outputs and fees are covered by inputs, and spends stay distinct |
| `Safety.TxNoPanic` | core/consensus/validation.go:522-572 | no currency addition of validation overflows while the unspent total fits |
| `Safety.BlockBook` | core/consensus/application.go:820-847 | after a block the leaf list is the abstract book after its transactions and its payout |
| `Safety.BlockStep` | core/consensus/validation.go:976-1010 | a valid block keeps the chain invariant: supply bound, single spending, unique ids |
| `Safety.GenesisGood` | coreutils/chain/qday.go:125-150 | the state after genesis satisfies the chain invariant |
| `Safety.SupplyBound` | core/consensus/state.go:257-269 | on every chain of valid blocks the unspent outputs are worth at most the premine and the rewards up to that height, which fits in 128 bits |
| `Safety.BlockNoPanic` | core/consensus/validation.go:976-1010 | no block, valid or not, makes validation panic in a state whose unspent total fits |
| `Safety.NoOverflow` | core/consensus/validation.go:522-663 | on every reached state no block makes a currency operation of validation panic |
| `Safety.SingleSpend` | core/consensus/validation.go:574-631 | on every chain of valid blocks no output is spent twice, in one block or in two |
| `Safety.BlockActivation` | core/consensus/qday.go:211-253 | a valid block has at most one canary proof, only before activation, and sets the activation height exactly then |
| `Safety.ActivatesOnce` | core/consensus/application.go:841-846 | on every chain at most one canary proof is accepted, and the activation height is 0 before it and the proof's height plus the delay ever after |
| `Provenance.ExactInputs` | core/consensus/validation.go:574-591 | on every reached state an accepted input, confirmed or ephemeral, has exactly what the output it names was given: value, address and birth height of a transaction's output, value, address and maturity of a payout, or the premine |
| `Provenance.InputsAuthentic` | core/consensus/validation.go:574-591 | the same for the inputs of a block's transactions, relative to all sources made before |
| `MidState.MidState.constructor` | core/consensus/state.go:891-900 | an empty block state |
| `MidState.MidState.RecordElement` | core/consensus/application.go:400-407 | finds or appends the one diff of an id |
| `MidState.MidState.CreateElement` | core/consensus/application.go:409-421 | the whole new block state after creating an output |
| `MidState.MidState.SpendElement` | core/consensus/application.go:429-434 | the whole new block state after spending an output |
| `MidState.MidState.ApplyTransaction` | core/consensus/application.go:614-673 | the whole new block state after a transaction, including the canary flag |
| `MidState.CheckOverflow` | core/consensus/validation.go:522-572 | true exactly if outputs and fee do not fit in 128 bits |
| `MidState.CheckPresent` | core/consensus/merkle.go:194-196 | the accumulator accepts the element as unspent exactly when the leaf list has it with that proof |
| `MidState.CheckEphemeral` | core/consensus/validation.go:574-591 | accepts exactly the outputs created earlier in the block, unchanged |
| `MidState.CheckAvailable` | core/consensus/validation.go:602-631 | accepts exactly the elements that are unspent in the accumulator and the block |
| `MidState.CheckPolicy` | core/consensus/validation.go:593-600 | the address must be the policy's and the policy must be satisfied |
| `MidState.CheckInput` | core/consensus/validation.go:602-631 | all rules of one input |
| `MidState.CheckInputs` | core/consensus/validation.go:602-631 | every input passes and no id occurs twice |
| `MidState.AddInputs` | core/consensus/validation.go:632-663 | the decayed sum of the inputs, with a panic exactly on overflow |
| `MidState.AddOutputs` | core/consensus/validation.go:632-663 | the sum of the outputs, unless one of them is zero |
| `MidState.ValidateSiacoins` | core/consensus/validation.go:602-663 | accepted, rejected or panicked exactly as the rules on inputs and sums say |
| `MidState.CheckPolicies` | core/consensus/qday.go:241-248 | only native policies, and swap spends once they are active |
| `MidState.CheckQday` | core/consensus/qday.go:211-253 | exactly the rules on envelopes, counts, fees and defence work of a transaction |
| `MidState.ValidateTransaction` | core/consensus/validation.go:905-931 | exactly the verdict of the ledger rules on a transaction |
| `MidState.CheckPayouts` | core/consensus/validation.go:31-81 | one payout, of exactly the reward and all fees, and the sum must fit |
| `MidState.CheckOrphan` | core/consensus/validation.go:84-105 | exactly the header, payout and weight rules |
| `MidState.ValidateTransactions` | core/consensus/validation.go:976-1010 | each transaction is judged on the state that those before it leave |
| `MidState.ValidateBlock` | core/consensus/validation.go:976-1010 | with only the roots of the accumulator it gives exactly the verdict of the ledger rules on the full leaf list |
| `BlockApply.RunBlock` | core/consensus/application.go:676-709 | the block state after all transactions and the payout |
| `BlockApply.SplitElements` | core/consensus/application.go:711-737 | diffs with a leaf become updated leaves and the others added leaves, in order |
| `BlockApply.BlockLeaves` | core/consensus/application.go:711-737 | the updated leaves have proofs and distinct positions, and together with the added ones they give the new leaf list |
| `BlockApply.DiffLeaves` | core/consensus/application.go:739-752 | the updated and added leaves of the diffs: the updated ones have proofs in the old list and replace exactly the changed hashes |
| `BlockApply.AddIndex` | core/consensus/application.go:820-847 | the leaf of the chain index comes after the outputs, so that the added hashes are those of the new state |
| `BlockApply.ApplyElements` | core/consensus/application.go:820-847 | after a valid block the roots are exactly those of the new state's leaf list, the update carries every old proof along, and each added leaf verifies exactly if it arrived without a proof |
| `BlockApply.Replay` | core/consensus/validation.go:976-1010 | judges blocks from genesis on by the roots of the accumulator: it stops exactly at the first invalid block, the state is reached by valid blocks, the roots are those of its leaves, and nothing panics |
| `Manager.CommonIs` | coreutils/chain/manager.go:439-486 | the common ancestor of two blocks is below both and above every block below both |
| `Manager.Rewind` | coreutils/chain/manager.go:439-486 | moves to the parent unless the path is already longer than the limit |
| `Manager.RewindTo` | coreutils/chain/manager.go:439-486 | descends to a height and lists the blocks passed |
| `Manager.RewindBoth` | coreutils/chain/manager.go:439-486 | two blocks of one height descend to their common ancestor and not further |
| `Manager.Level` | coreutils/chain/manager.go:439-486 | brings two blocks to one height without passing their common ancestor |
| `Manager.ReorgPath` | coreutils/chain/manager.go:439-486 | the reverted blocks are exactly the descent to the common ancestor and the applied ones exactly the ascent to the target; it fails only if these are longer than the limit |
| `Manager.CheckKeeps` | coreutils/chain/manager.go:401-437 | validating a block on its validated parent keeps the store consistent |
| `Manager.AddKeeps` | coreutils/chain/manager.go:245-308 | storing an unvalidated block keeps the store consistent and everything validated as it was |
| `Manager.CheckedIsFold` | coreutils/chain/manager.go:401-437 | the state of every validated block, and so of the tip, is the fold of block application from genesis along its chain, every block of which is valid in its place |
| `Manager.Manager.constructor` | coreutils/chain/manager.go:1591-1606 | a store with a validated genesis is consistent |
| `Manager.Manager.RevertTip` | coreutils/chain/manager.go:385-398 | the tip becomes the parent with its stored state |
| `Manager.Manager.ApplyTip` | coreutils/chain/manager.go:401-437 | succeeds exactly if the block was validated before or is valid, and then tip and store are exactly updated; otherwise nothing changes |
| `Manager.Manager.RevertAll` | coreutils/chain/manager.go:488-531 | reverting the descent leads to the common ancestor |
| `Manager.Manager.ApplyAll` | coreutils/chain/manager.go:488-531 | succeeds exactly if every block of the path is valid in its place, with the resulting state as tip |
| `Manager.Manager.ReorgTo` | coreutils/chain/manager.go:488-531 | succeeds exactly if the blocks from the common ancestor to the target are valid in their places |
| `Manager.Manager.Restorable` | coreutils/chain/manager.go:245-308 | the way back to the old tip has been validated, so restoring it cannot fail |
| `Manager.Manager.Switch` | coreutils/chain/manager.go:281-308 | unchanged exactly if the new chain is not sufficiently heavier, reorganised exactly if it also applies, and otherwise the old tip with the same state is restored |
| `Manager.Manager.AddBlock` | coreutils/chain/manager.go:245-280 | the exact store and state after one block, and exactly when it is refused |
| `Manager.Manager.AddBlocks` | coreutils/chain/manager.go:245-308 | the exact outcome for any list of blocks; the tip is either the old one with the same state, or the last block with over a fifth of the old difficulty more work |
| `Tip.FoldIsRun` | core/consensus/application.go:820-847 | for the ledger's rules the fold of a chain is the run of block application |
| `Tip.CheckedIsReached` | coreutils/chain/manager.go:401-437 | the state of every validated block is reached from genesis by the valid blocks of its chain |
| `Tip.ReachedIsSound` | core/consensus/application.go:820-847 | the supply bound, single spending and absence of panics together, for every state reached from genesis |
| `Tip.TipIsSafe` | coreutils/chain/manager.go:245-308 | for the tip that chain selection has arrived at: the supply bound, no output spent twice on its chain, and no next block that makes validation panic |
| `Tip.Ingest` | coreutils/chain/manager.go:245-308 | from genesis on, whatever batches of blocks arrive and when, the store stays consistent and keeps its genesis, so that the tip is safe |
| `Tip.ProofReverts` | coreutils/chain/manager.go:385-398 | reverting the block with the canary proof leads to a state without activation height |
| `Pool.RefillPrefix` | coreutils/chain/manager.go:634-738 | refilling with a prefix of a valid pool keeps all of it |
| `Pool.Cheapest` | coreutils/chain/manager.go:634-738 | a transaction with the lowest fee per weight |
| `Pool.Evict` | coreutils/chain/manager.go:634-738 | what is kept is in order and below three quarters of the limit, nothing dropped has a better rate, and the last drop was needed |
| `Pool.Unindex` | coreutils/chain/manager.go:1516-1588 | removes exactly the positions from start on |
| `Pool.Pool.constructor` | coreutils/chain/manager.go:1591-1606 | an empty pool is consistent |
| `Pool.Pool.Append` | coreutils/chain/manager.go:1516-1588 | one more valid transaction extends list, positions, weight and cached state together |
| `Pool.Pool.Refill` | coreutils/chain/manager.go:634-738 | rebuilds the pool from a list by dropping what is known or invalid in its place |
| `Pool.Pool.Revalidate` | coreutils/chain/manager.go:634-738 | a current pool stays as it is; otherwise it is exactly the refill of the kept transactions, and list, positions, weight and cached state agree |
| `Ephemerals.CheckMember` | coreutils/chain/manager.go:888-898 | accepts exactly the members whose unconfirmed inputs name an output recorded from earlier members, with its contents |
| `Ephemerals.AddMember` | coreutils/chain/manager.go:904-906 | records exactly the outputs of one more member |
| `Ephemerals.CheckEphemerals` | coreutils/chain/manager.go:886-909 | accepts exactly the sets in which every unconfirmed input names an output of an earlier member with its value and address |
| `Pool.Pool.ValidateSet` | coreutils/chain/manager.go:1291-1319 | accepts exactly the sets that are valid in order on the tip, and tells exactly if all are known |
| `Pool.Pool.CheckSet` | coreutils/chain/manager.go:1291-1319 | the same together with the check of ephemeral outputs |
| `Pool.Pool.Restore` | coreutils/chain/manager.go:1516-1588 | rolls back list, positions and weight exactly and drops the cached state |
| `Pool.Pool.Insert` | coreutils/chain/manager.go:1516-1588 | either extends the pool by all unknown members of the set in order, or leaves list, positions and weight as before |
| `Pool.Pool.AddSet` | coreutils/chain/manager.go:1516-1588 | the exact outcome for a set, all or nothing |
| `Pool.Lighten` | coreutils/chain/manager.go:634-686 | nothing is dropped below the weight limit; otherwise the cheapest go first, until three quarters of the limit are left |
| `Pool.Pool.AddTransactions` | coreutils/chain/manager.go:1516-1588 | the set's unknown members are all added to the revalidated list or nothing is; that list is the old one, or exactly the refill of what eviction keeps if the cached state was dropped or the pool was full |
| `LedgerPool.FoldIsApply` | coreutils/chain/manager.go:634-738 | with the ledger's rules the cached state is the block state after the pool's transactions, and validity of all prefixes is validity in a block |
| `LedgerPool.RebuildsToItself` | coreutils/chain/manager.go:634-738 | rebuilding a valid pool on the same tip, after restamping ephemeral heights, keeps every transaction |
| `LedgerPool.EphemeralsFollow` | coreutils/chain/manager.go:886-909 | the check of ephemeral outputs refuses no set that is valid on the tip |
| `LedgerPool.Submit` | coreutils/chain/manager.go:1516-1588 | on one tip and below the weight limit, with or without a cached state, a set is added wholly to the list as it was, or list, positions and weight stay as they were |
| `LedgerPool.SubmitAll` | coreutils/chain/manager.go:1516-1588 | over any number of offers up to the weight limit, refused ones leave no trace |
| `LedgerPool.PoolNoPanic` | coreutils/chain/manager.go:634-738 | validating any transaction on top of a valid pool cannot panic |
| `Candidate.MarkersParse` | coreutils/qday/miner.go:28-48 | the markers of a candidate parse to their miner and nonce and have the weights that were reserved |
| `Candidate.PayoutFits` | coreutils/qday/miner.go:28-48 | reward and fees of the taken transactions fit in 128 bits |
| `Candidate.Offer` | coreutils/qday/miner.go:28-48 | takes a transaction exactly if it fits and is valid on what was taken before |
| `Candidate.TakeAll` | coreutils/qday/miner.go:28-48 | the greedy choice is valid in order and fits, and its value is reward and fees |
| `Candidate.Assemble` | coreutils/qday/miner.go:28-48 | the block around the transactions taken has the form that makes a candidate valid |
| `Candidate.CandidateTxs` | coreutils/qday/miner.go:28-48 | between the two markers the taken transactions stay valid in order |
| `Candidate.CandidateValid` | core/consensus/validation.go:976-1010 | a block of the candidate's form satisfies every rule but those on its header |
| `Candidate.BuildCandidate` | coreutils/qday/miner.go:28-48 | for all offered transactions and valid miner keys, the block satisfies markers, payout, weight, commitment and transaction rules, so it is valid once its header is |
| `Relay.AncestorsClosed` | coreutils/syncer/txpool_relay.go:20-98 | the ancestors of a transaction contain it and all parents of their members |
| `Relay.AncestorsLeast` | coreutils/syncer/txpool_relay.go:20-98 | they are the least such set |
| `Relay.Search` | coreutils/syncer/txpool_relay.go:20-98 | the depth-first search ends, and within the limit it finds exactly the ancestors that are not packed yet and their size |
| `Relay.Flush` | coreutils/syncer/txpool_relay.go:20-98 | a flush starts a new packet and loses nothing |
| `Relay.Take` | coreutils/syncer/txpool_relay.go:20-98 | adding all missing ancestors at once keeps every parent before its child and the packet within the limit |
| `Relay.PackOne` | coreutils/syncer/txpool_relay.go:20-98 | a transaction is offered afterwards exactly if its ancestors fit a packet of their own |
| `Relay.FindDependencies` | coreutils/syncer/txpool_relay.go:20-98 | parents are exactly the earlier creators of unconfirmed inputs, or some such input has none |
| `Relay.RelayPlan` | coreutils/syncer/txpool_relay.go:20-98 | every packet lists each member once after its parents and within the byte limit, a transaction is in some packet exactly if its ancestors fit, and the plan fails exactly if an unconfirmed parent is missing |
| `Radix.Regroup` | core/types/qday_address.go:149-171 | fails exactly on a value that is too wide, and otherwise the groups and the remainder have the value of the input |
| `Radix.ConvertBits` | core/types/qday_address.go:149-171 | padded or strict regrouping of bits, with the strict form refusing remainders of a full group or with set bits |
| `Radix.PadRoundTrip` | core/types/qday_address.go:149-171 | strict regrouping undoes padded regrouping to narrower groups |
| `Radix.UnpadCanonical` | core/types/qday_address.go:149-171 | what strict regrouping accepts is the padded form of its result |
| `Bech32.Combine` | core/types/qday_address.go:78-91 | combines a state with the generators selected by its top bits |
| `Bech32.Polymod` | core/types/qday_address.go:78-91 | the loop is the run of the checksum step |
| `Bech32.StepInjective` | core/types/qday_address.go:78-91 | a step is injective on 30-bit states |
| `Bech32.OneErrorDetected` | core/types/qday_address.go:78-91 | two strings of symbols that differ in one place have different checksums |
| `Bech32.CheckSymbolsIff` | core/types/qday_address.go:105-118 | exactly one choice of the six check symbols completes a string |
| `AddressText.Encode` | core/types/qday_address.go:105-118 | writes prefix, separator, data and the check symbols that complete it |
| `AddressText.Decode` | core/types/qday_address.go:120-147 | accepts exactly strings of one case and sane length whose symbols check, and returns prefix and data |
| `AddressText.ParseBech32` | core/types/qday_address.go:58-74 | accepts exactly version 1 addresses of this network with clean padding and a nonzero payload |
| `AddressParser.DecodeHex` | core/types/qday_address.go:41-45 | exactly the bytes that the hexadecimal text spells, or nothing |
| `AddressParser.HexRoundTrip` | core/types/qday_address.go:41-45 | hexadecimal text of any bytes decodes to these bytes |
| `AddressParser.HexCanonical` | core/types/qday_address.go:41-45 | every decodable text is, in lower case, the hexadecimal text of its bytes |
| `AddressParser.LegacyRoundTrip` | core/types/qday_address.go:41-57 | the legacy text of any valid keys parses to the address of the keys |
| `AddressParser.LegacyCanonical` | core/types/qday_address.go:41-57 | every accepted legacy string spells, in lower case, valid keys with their check bytes, and parses to their address |
| `AddressParser.ParseLegacy` | core/types/qday_address.go:41-57 | accepts exactly the legacy strings with right check bytes and nonzero keys |
| `AddressParser.Parse` | core/types/qday_address.go:40-74 | the legacy form for strings of its length and prefix, and Bech32m for all others |
| `AddressText.Format` | core/types/qday_address.go:26-29 | writes the canonical text |
| `AddressText.ParseText` | core/types/qday_address.go:26-74 | parsing the text of any nonzero address gives the address back |
| `AddressText.ParsedIsCanonical` | core/types/qday_address.go:40-74 | every accepted string is, in lower case, the canonical text of its result |
| `AddressText.SingleErrorRejected` | core/types/qday_address.go:40-147 | changing any single character of an accepted string makes it rejected |

## Left out

- Hash functions, signatures, the canary curve and the search for nonces: they are parameters of the model.
- The median of timestamps, as an unspecified function of the timestamps of the last eleven blocks.
- Sizes of encoded inputs in the transaction weight, as an unspecified function; general binary and JSON codecs.
- v1 transactions, siafunds, file contracts, attestations and foundation updates: no QDAY block after genesis may hold one, and the types have no place for them. Blocks without v2 data are not representable either.
- The nonce factor in the header rule, which is 1 on QDAY networks and so always divides.
- The application of the genesis block: chains start in the state after it, with the premine as the only output.
- Block heights are unbounded; wrap-around of 64-bit heights is not modelled.
- Multiproof.Decode: says nothing about the proofs that come out of a stream which is long enough but holds other hashes than those of the stated leaves.
- Manager.Manager.AddBlocks: pruned blocks are not modelled, the store keeps every block; a verdict `Panicked` counts as invalid there, and `Safety.NoOverflow` excludes it. The order of expiring contracts does not arise.
- Manager.Manager.Switch: compares total work as unbounded numbers; when the comparison and the header updates fit in 256 bits is stated by `Difficulty.SufficientlyHeavier` and `Difficulty.HeaderChain`.
- `AddValidatedV2Blocks`, which skips validation of what a checkpoint vouches for.
- Pool.Pool.AddTransactions: the set with its proofs rebased to the tip is an input of the model. Carrying the pool over a reorganisation (`revertPoolUpdate`, `applyPoolUpdate`, `restoreQdayPool`) is not modelled.
- Pool.Pool.AddSet: the same input.
- Pool.Evict: among transactions of equal rate any may be dropped first, as the source's sort is not stable; the model takes the cheapest of what is left each time, where the source sorts once.
- AddressParser.Parse: the check bytes of keys and the address of keys are parameters, as hashes.
- BlockApply.Replay: the next state is computed on the full list of leaves; only the verdicts come from the roots.
- Ownership of proof slices (`Share`, `Move`, `Copy`); each leaf of a block is an object of its own.
- `Currency.MulWithOverflow`, which the modelled code does not call.
- The key-value store, the network layer, the wallet, the HTTP service and the command line.
