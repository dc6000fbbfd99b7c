# Verified model of the Arkos node core

Arkos is a UTXO blockchain node. This project models its consensus engine and the parts that feed it, and proves
what the design promises over every run:

- a **block tree** with cumulative-work fork choice, reorganisation and pruning, moved by delivered blocks and submitted
  transactions (`BlockTree.dfy`, `Nodes.dfy`, `Invariant.dfy`, `Runs.dfy`, `Guarantees.dfy`, and the in-place version in
  `Blockchain.dfy`);
- the **ledger**: scripts, transaction validation, the unspent-output set, conservation of value, the supply cap and freedom
  from double spends, and the consent of owners to every spend (`Transactions.dfy`, `Scripts.dfy`, `Ledger.dfy`, `Blocks.dfy`,
  `Supply.dfy`, `DoubleSpend.dfy`, `Spending.dfy`);
- the **consensus arithmetic**: compact targets, retargeting, medians, the emission schedule and the length-committed Merkle
  tree (`Targets.dfy`, `Consensus.dfy`, `Difficulty.dfy`, `Merkle.dfy`);
- **selection, construction and synchronisation**: the pool and its fee-rate order, admission and mining, block templates,
  wallet payments, the headers-first exchange and the peer rate limiter (`Mempool.dfy`, `Admission.dfy`, `Mining.dfy`,
  `Wallet.dfy`, `Sync.dfy`, `RateLimiter.dfy`).

`Basics.dfy` holds machine integers, encodings and the generic induction and summation lemmas; `Witness.dfy` exhibits a run
that accepts a mined block and meets the hypotheses of the run theorems.

## How the model is built

Library calls (hashing, serialisation, signature verification, address derivation) are the fields of a record `Crypto` that
every operation takes, so each theorem holds for every choice of them. Where the design relies on a hash being injective, the
theorem says so as a hypothesis on the finite set of strings that the run hashes (`CollisionFree`, `NoCollisions`,
`TxidsDiffer`): a function into 32 bytes cannot be injective everywhere. `NoCollisions` speaks only of canonical blocks, those
whose header text could pass validation, so peers may deliver anything else. The clock, the iteration order of hash maps and the
length of the nonce search are parameters.

State that the program updates in place is a class whose methods are proved to take exactly the step of a value-level function
(`UtxoStore.UtxoSet`, `PoolStore.Mempool`, `Blockchains.Blockchain`, `RateLimits.RateLimiter`); the theorems are about those
functions. The block tree is treated twice: `BlockTree` proves fork choice, pruning and bounded reorganisation for any rules
that tie a block to the branch below it, and `Nodes`/`Invariant` show that the node's rules are such rules. The invariant `Inv`
carries, beside the node, the history of every block the run ever stored, including pruned ones.

Three error paths deserve mention because they shape the statements. A block whose branch would push the minted total past
u64 is stored but cannot be activated; it is the one kind of retained block that may outweigh the tip, so "the tip is heaviest"
is stated for blocks whose branch replays. A transaction that names one output twice is accepted and counts its value twice, so
conservation is stated exactly (value is conserved if and only if no output worth something is named twice) and the supply
cap has distinct inputs as a hypothesis, which the wallet's own transactions meet. The documentation of multisignature scripts
asks for distinct keys, but the code accepts one registered key repeated; the model follows the code and says exactly when it
meets the documented rule (`Scripts.RulePerInput`, `Scripts.RulePerScript`).

A reorganisation may lead to a heavier branch that is shorter. Pool entries whose outputs are unspent there can be immature or
time-locked again, so statements about the pool name that condition instead of assuming that heights only grow.

## Model

| member | source | states |
|---|---|---|
| `BlockTree.FinalBlocksStay` | src/blockchain/chain.rs:163-240 | for any block rules in which a branch fixes the work of the next block: a branch heavier than the active one keeps every active block 200 or more below the old tip |
| `BlockTree.LateBlockIsLight` | src/blockchain/chain.rs:220-240 | a block that arrives 200 blocks late adds no more work than the active block at its height, so it can never trigger a reorganisation |
| `BlockTree.PruneSettles` | src/blockchain/chain.rs:222-240 | pruning drops no active block, keeps every other invariant, and leaves only active blocks at the settled depth |
| `BlockTree.AncestorsPresent` | src/blockchain/chain.rs:407-410 | once a block is stored, the walk to genesis finds all its ancestors, so activation cannot miss one |
| `BlockTree.ChainParts` | src/blockchain/chain.rs:462-482 | every block of a walked chain is filed under its hash and the chain up to it is its own walk |
| `BlockTree.NewTip` | src/blockchain/chain.rs:189-202 | storing a heavier block and activating it keeps the tree, the work map and the maximality of the tip |
| `BlockTree.SideBlock` | src/blockchain/chain.rs:189-207 | storing a block that does not outweigh the tip keeps them too |
| `Nodes.RulesAreSound` | src/blockchain/chain.rs:301-323 | the node's validation is such a set of rules: a lawful block extends its branch by height and hash, and its bits are fixed by the branch |
| `Invariant.FastIsSlow` | src/blockchain/chain.rs:341-363 | the cached context on the active tip equals the walk and replay from genesis, for every parent, result or error |
| `Invariant.VerdictByBranch` | src/blockchain/chain.rs:163-193 | a block passes if and only if its ancestors are retained, it is lawful on their branch, its timestamp is at most two hours ahead and its work fits u128; the active branch plays no part |
| `Invariant.HashNamesBlock` | src/blockchain/chain.rs:163-167 | a block that passes again after pruning is the block stored before, since its header commits to its body and its branch to its height |
| `Invariant.AdmitByWork` | src/blockchain/chain.rs:184-218 | what storing a validated block does, told by the work and replayability of its branch alone |
| `Invariant.DeliveryKeeps` | src/blockchain/chain.rs:163-218 | one delivery of any block at any time keeps the invariant, whether the block is refused, stored, activated or stuck on the minted total |
| `Runs.Reachable` | src/blockchain/chain.rs:94-218 | the invariant holds in every state reachable from genesis by deliveries and submissions |
| `Witness.HypothesesCanBeMet` | src/blockchain/block.rs:209-232 | the hypotheses of the run theorems are satisfiable by a run that does something: concrete primitives, a genesis block and a mined block on it that delivery makes the tip, with nothing colliding |
| `Guarantees.ForkChoice` | src/blockchain/chain.rs:163-218 | in every run tip work never decreases, the tip moves only to strictly more work, a known block is accepted and changes nothing, a failed delivery leaves the active chain and its caches alone, a failed validation leaves the whole state alone and is reported, and after validation only a minted overflow can fail |
| `Guarantees.BoundedReorganisation` | src/blockchain/chain.rs:163-240 | in every run no delivery replaces an active block 200 or more below the tip |
| `Guarantees.RetainedExactly` | src/blockchain/chain.rs:163-240 | after any delivery in any run the node holds precisely those blocks, old or just passed, that lie at most 200 below the tip or are active |
| `Guarantees.TipIsHeaviest` | src/blockchain/chain.rs:184-202 | in every run the work map holds the sum of block work over ancestors, and no retained block whose branch replays outweighs the tip |
| `Guarantees.CacheRefinesReplay` | src/blockchain/chain.rs:341-482 | in every run the active chain is the walk from its tip, the index inverts it, outputs and minted total are those of a replay, and the fast context equals the slow one |
| `Guarantees.SameVerdict` | src/blockchain/chain.rs:301-363 | two nodes that retain the same branch pass the same verdict on a block above it, error included |
| `Guarantees.Convergence` | src/blockchain/chain.rs:163-218 | two nodes that stored the same blocks in any order have tips of equal work, and the same active chain, index, outputs and minted total if one block alone carries the most work |
| `Guarantees.SupplyCapInEveryRun` | src/blockchain/chain.rs:365-405 | in every run all unspent outputs together are worth at most the minted total and at most the rewards of as many blocks as the chain has, hence less than 31,415,925,999,111,456, below the cap |
| `Guarantees.NoDoubleSpendInEveryRun` | src/blockchain/chain.rs:592-619 | on every branch ever stored no two transactions spend the same outpoint |
| `Guarantees.SpendsWhatWasMade` | src/blockchain/chain.rs:333-337 | on every branch ever stored a non-first transaction spends outputs of earlier blocks of that branch and is no coinbase |
| `Spending.SpendsAreAuthorised` | src/blockchain/chain.rs:522-640 | every input of every non-first transaction on every branch ever stored names an output of a transaction in an earlier block whose script consents to it: time locks passed, the key hashes to the owner and its signature verifies for this transaction's digest (or m registered ones do); a coinbase is spent only 100 blocks after its declared height |
| `Spending.StoredBlocksObey` | src/blockchain/block.rs:137-182 | every block above genesis on every branch ever stored has a header hash whose number is at most the target its branch fixes, 1 to 10,000 transactions, at most 4 MiB, 50,000 spends and creations and 16 coinbase outputs, a coinbase first, its own Merkle root, and a date after most of the eleven blocks below |
| `Spending.DifficultyInEveryRun` | src/blockchain/chain.rs:686-707 | on every branch ever stored bits change only at multiples of 2016, at most to a fourfold easier target; there a slow period never hardens and a fast one never eases the target |
| `Spending.SubsidyInEveryRun` | src/blockchain/chain.rs:365-405 | on every branch ever stored a coinbase claims at most the scheduled reward plus what the block's inputs exceed its outputs by, and of new coins at most what is left of the cap |
| `Guarantees.IndexInverts` | src/blockchain/chain.rs:444-445 | the rebuilt index maps every hash of the chain to its height and nothing else |
| `Blockchains.ChainToHash` | src/blockchain/chain.rs:462-482 | the cursor loop returns the chain from genesis to the hash, or an error exactly when an ancestor is missing |
| `Blockchains.RebuildFrom` | src/blockchain/chain.rs:439-454 | the rebuild loop yields index, outputs and minted total of the chain and prunes the pool, or stops at the first overflow with the pool pruned so far |
| `Blockchains.Blockchain.constructor` | src/blockchain/chain.rs:94-122 | a new node is the genesis state |
| `Blockchains.Blockchain.ContextOf` | src/blockchain/chain.rs:341-363 | returns the context of a parent, cached or replayed |
| `Blockchains.Blockchain.Validate` | src/blockchain/chain.rs:163-187 | the reading half of add_block: total work of the candidate, or the first failing check |
| `Blockchains.ValidateLink` | src/blockchain/chain.rs:163-180 | known parent, valid structure and next height, in that order |
| `Blockchains.Blockchain.PruneStaleOrphans` | src/blockchain/chain.rs:222-240 | a stored block stays if and only if the chain is at most 200 blocks long, the block is above the cutoff, or an active block at or below the cutoff carries its hash; work entries stay exactly for blocks that stay; no entry changes |
| `Blockchains.RetainBlocks` | src/blockchain/chain.rs:235-237 | the first retain pass keeps exactly the blocks above the cutoff and those whose hash is active |
| `Blockchains.Blockchain.RebuildActiveState` | src/blockchain/chain.rs:439-460 | new active state and pruned pool, or the overflow error with only the pool changed |
| `Blockchains.Blockchain.ActivateChain` | src/blockchain/chain.rs:407-437 | the walk followed by the rebuild |
| `Blockchains.Blockchain.AddBlock` | src/blockchain/chain.rs:163-218 | in every reachable state add_block takes exactly the specified step and returns its result |
| `Blockchains.Blockchain.Submit` | src/blockchain/chain.rs:289-299 | the pool after submission and the result, against the unchanged chain |
| `BlockValidation.SumFees` | src/blockchain/chain.rs:381-386 | the fee loop returns the sum or the first failure |
| `BlockValidation.ValidateBlock` | src/blockchain/block.rs:137-182 | the structural checks in source order, with the byte-by-byte work check and the counting loop |
| `BlockValidation.ValidateSubsidy` | src/blockchain/chain.rs:365-405 | coinbase output count, fees and allowed reward |
| `BlockValidation.ValidateInOrder` | src/blockchain/chain.rs:333-337 | the transaction loop on a private copy of the branch's outputs |
| `BlockValidation.ReplayBlocks` | src/blockchain/chain.rs:351-362 | the replay loop equals the replay of the branch |
| `Blocks.HeaderCommits` | src/blockchain/block.rs:137-182 | two lawful blocks with the same header hold the same transactions in the same order and number |
| `Blocks.WorkIsNumeric` | src/blockchain/block.rs:82-86 | a header meets its target if and only if its hash, read as a number, is at most mantissa * 256^(exp-3) |
| `Blocks.CheckTarget` | src/blockchain/block.rs:82-86 | meets_target as it runs, expansion of the bits and byte comparison, decides that number comparison |
| `Blocks.LawfulLeafSizes` | src/blockchain/block.rs:234-247 | no transaction of a lawful block serialises to 8 or 64 bytes, the lengths of the tree's other hash inputs |
| `Blocks.BranchPastMedian` | src/blockchain/chain.rs:325-331 | along a lawful branch the past median never decreases |
| `Blocks.MintedExactly` | src/blockchain/chain.rs:341-363 | a branch replays if and only if its coinbases together claim at most u64::MAX, and the minted total is that sum |
| `Blocks.OpsAdd` | src/blockchain/block.rs:162-166 | the count of spends and creations adds up over any split of a block and is inputs plus outputs for one transaction |
| `Blocks.BytesAdd` | src/blockchain/block.rs:154-161 | so do the serialised bytes of its transactions, on top of the fixed part of a block |
| `Difficulty.SlowPeriodNeverHardens` | src/blockchain/chain.rs:686-707 | when most timestamps at heights |chain|-2021 to |chain|-2011 are at most t and most of the last eleven at least t + 194*2016, the next target is not harder, whatever the minority says, for bits whose target can grow fourfold below the exponent cap |
| `Difficulty.FastPeriodNeverEases` | src/blockchain/chain.rs:686-707 | the mirror law, for all bits with a non-zero mantissa |
| `Difficulty.ExpectedKeeps` | src/blockchain/consensus.rs:33-72 | a period of exactly the expected length keeps the target |
| `Supply.TransactionBalance` | src/blockchain/chain.rs:583-640 | exact balance of a valid transaction: unspent value plus fee grows by precisely the value its inputs count twice |
| `Supply.RecountedExactly` | src/blockchain/chain.rs:592-619 | value is counted twice if and only if some output worth something is named by two inputs |
| `Wallets.RepeatedInputInflates` | src/blockchain/chain.rs:592-619 | for every wallet and every mature coin of its own worth v with 546 <= 2v within u64, the signed transaction that names the coin twice and pays 2v validates with fee 0 and raises the unspent value by v |
| `Supply.FeesAreGivenUp` | src/blockchain/chain.rs:333-386 | the later transactions of a block lower the unspent value by at least the fees priced against the parent |
| `Supply.BlockTotal` | src/blockchain/chain.rs:365-405 | a block raises the unspent value by at most its coinbase less the fees |
| `Supply.BlockSupply` | src/blockchain/chain.rs:365-405 | a lawful block raises the unspent value by at most the reward of its height: its fees come out of what was there |
| `Supply.ValidIsNotCoinbase` | src/transaction/tx.rs:177-182 | a transaction that passes validation is never a coinbase |
| `Supply.SupplyCap` | src/blockchain/block.rs:22-26 | the same on every lawful chain that replays: the unspent value is bounded by the emission up to its length, although the minted total counts recycled fees |
| `DoubleSpend.UnspentExactly` | src/transaction/utxo.rs:29-52 | in an orderly history the unspent outputs are exactly those made and not used |
| `DoubleSpend.NoDoubleSpend` | src/blockchain/chain.rs:592-619 | on a lawful branch with different coinbases no two transactions spend the same outpoint |
| `DoubleSpend.SpendsEarlierBlocks` | src/blockchain/chain.rs:381-386 | every input of a non-first transaction names an output of an earlier block of the branch |
| `DoubleSpend.OnlyFirstIsCoinbase` | src/blockchain/block.rs:162-176 | no transaction but the first of a block is a coinbase |
| `DoubleSpend.DeclaredHeightsDiffer` | src/transaction/tx.rs:150-175 | coinbases that declare the height of their block all differ |
| `Ledger.ValidMeaning` | src/blockchain/chain.rs:583-640 | a transaction is valid with a given fee if and only if every input is spendable, no output is dust, sums fit u64 and the fee is the surplus |
| `Ledger.MaturityExact` | src/transaction/utxo.rs:54-63 | an output is immature if and only if a coinbase of its txid declared height d and the spending height is below d + 100 |
| `Ledger.ValidLater` | src/transaction/utxo.rs:56-63 | a valid transaction keeps validity and fee at every later height, through maturity and nested time locks, while its outputs are there |
| `Ledger.Created` | src/transaction/utxo.rs:49-52 | output i of a transaction is filed under index i and nothing else is |
| `UtxoStore.UtxoSet.ApplyTransaction` | src/transaction/utxo.rs:29-52 | the in-place loops remove spent outputs, insert created ones and record a coinbase's height |
| `UtxoStore.SumInputValues` | src/blockchain/chain.rs:592-619 | the input loop returns the running sum or the first failure |
| `UtxoStore.ValidateTransaction` | src/blockchain/chain.rs:583-640 | the validator returns the fee or the first failing check |
| `Scripts.EvaluateScript` | src/blockchain/chain.rs:522-581 | the recursive evaluator with its counting loop decides the script; Scripts.SatisfiesExactly says what that means |
| `Scripts.SatisfiesExactly` | src/blockchain/chain.rs:522-581 | any script, under any nesting of time locks, is satisfied if and only if all locks have passed and at its core either the key hashes to the owner's address and its signature verifies, or the first m offered pairs verify under registered keys |
| `Scripts.MultisigExact` | src/blockchain/chain.rs:522-581 | m-of-n is met if and only if the first m offered pairs all verify under registered keys |
| `Scripts.RepeatedSignerSuffices` | src/blockchain/chain.rs:522-581 | one registered key with one verifying pair, repeated m times, meets any threshold and covers that one key only |
| `Scripts.RulePerInput` | src/transaction/tx.rs:15-16 | the documented rule, each signature covering a distinct key, is met by the m pairs the code counts if and only if their keys are pairwise different |
| `Scripts.RulePerScript` | src/transaction/tx.rs:15-16 | every input that satisfies the script offers m different registered keys that verify if and only if m is at most 1 or no registered key verifies anything under the digest |
| `Scripts.SatisfiesLater` | src/blockchain/chain.rs:522-581 | a satisfied script stays satisfied as the clock advances |
| `Scripts.SatisfiesAgain` | src/blockchain/chain.rs:522-581 | a script satisfied at one time is satisfied at another, earlier or later, if and only if every time lock nested in it has passed then |
| `Transactions.ComputeSigHash` | src/transaction/tx.rs:187-205 | the signing buffer is the digest of network, version, inputs and outputs; Transactions.SigPreimageExact says what that binds |
| `Transactions.SigPreimageExact` | src/transaction/tx.rs:187-205 | between transactions whose input fields have equal lengths, the signed bytes are equal if and only if network, version, every outpoint and key, and the number, values and script bytes of the outputs are |
| `Transactions.SignatureBinds` | src/transaction/tx.rs:184-205 | so, unless the hash or the text encoding collides, one digest never serves two transactions that pay differently, spend differently or belong to different networks |
| `Transactions.KeyBoundaryIsNotSigned` | src/transaction/tx.rs:191-196 | why equal lengths are asked for: input fields have no length prefix, so moving bytes from one half of a key to the other leaves the signed bytes alone |
| `Transactions.SigHashIgnoresSignatures` | src/transaction/tx.rs:187-205 | signatures, extra data and witnesses are outside the signed bytes |
| `Transactions.CoinbaseDeclares` | src/transaction/tx.rs:150-175 | a coinbase declares the height it was built for |
| `Merkle.RootInjective` | src/blockchain/block.rs:234-272 | two non-empty lists of any lengths have equal roots if and only if they are equal |
| `Merkle.LeafReachesRoot` | src/blockchain/block.rs:248-272 | every leaf of every tree leads to the root by its position: joined on each level with the digest beside it, left when its position is even and right when odd, or with the digest of the level's length where nothing is beside it |
| `Merkle.ClimbToRoot` | src/blockchain/block.rs:248-272 | the halving loop terminates and computes the root |
| `Targets.WorkCheckExact` | src/blockchain/block.rs:292-302 | for exponents 3 to 32 a hash passes if and only if its number is at most mantissa * 256^(exp-3) |
| `Targets.TargetReads` | src/blockchain/block.rs:275-290 | the target bytes read as the number the compact form stands for, truncated below exponent 3 |
| `Targets.LexIsNumeric` | src/blockchain/block.rs:292-302 | byte-by-byte comparison is comparison of numbers |
| `Targets.WorkAntitone` | src/blockchain/chain.rs:667-673 | block work is at least 1 and never smaller for a smaller target |
| `Targets.WorkExact` | src/blockchain/chain.rs:667-673 | block work is 2^128 - 1 divided by the upper half of the target, rounding down, or 2^128 - 1 when that half is zero |
| `Targets.BitsToTarget` | src/blockchain/block.rs:275-290 | the array is filled with the target bytes |
| `Targets.HashLeTarget` | src/blockchain/block.rs:292-302 | the loop decides the byte-by-byte comparison |
| `Retargeting.AtMostFourfold` | src/blockchain/consensus.rs:33-72 | a retarget never makes the target more than four times easier |
| `Retargeting.AtLeastQuarter` | src/blockchain/consensus.rs:33-72 | it never makes it more than four times harder, up to three mantissa units, if and only if the exponent cap does not bite or the mantissa is at most 3 |
| `Retargeting.MonotoneBelowCap` | src/blockchain/consensus.rs:33-72 | more elapsed time never gives a harder target while the cap is idle |
| `Retargeting.MonotoneAtCap` | src/blockchain/consensus.rs:33-72 | at the capped exponent that monotonicity holds if and only if four times the mantissa still fits three bytes |
| `Retargeting.DropsAtCap` | src/blockchain/consensus.rs:60-72 | where it fails: four expected periods give a harder target than one |
| `Retargeting.NeverZero` | src/blockchain/consensus.rs:33-72 | a non-zero mantissa never becomes zero, and a zero one is returned unchanged |
| `Retargeting.MonotoneExactly` | src/blockchain/consensus.rs:33-72 | over all bits with a non-zero mantissa, monotonicity in elapsed time holds if and only if the exponent is below the cap; or at it with four times the mantissa within three bytes; or above it (testnet and regtest genesis) with the mantissa moreover outside 0x40 to 0x3ff |
| `Timestamps.MedianRank` | src/blockchain/consensus.rs:7-14 | the median is at least v if and only if at most half of the values lie below v |
| `Timestamps.MedianRobust` | src/blockchain/consensus.rs:7-14 | with fewer than half of its window altered the median stays between the bounds of the unaltered values |
| `Timestamps.PastMedianMonotone` | src/blockchain/chain.rs:675-684 | blocks above the past median never lower it, in windows still filling or full |
| `Emission.EmissionBound` | src/blockchain/block.rs:128-135 | the rewards of any number of blocks sum to less than 31,415,925,999,111,456, below the cap |
| `Emission.RewardHalves` | src/blockchain/block.rs:128-135 | the first 488,004 blocks earn 32,188,184,932 each, and 488,004 blocks later every reward has halved, rounding down |
| `Pools.PoolAccounted` | src/transaction/mempool.rs:42-81 | over every run of admissions and removals the byte total is the sum of held sizes within 32 MiB, fee keys are transaction keys, and every fee clears the minimum |
| `Pools.ExactIsTransitive` | src/transaction/mempool.rs:96-111 | without saturation the comparator is transitive |
| `Pools.OrderExists` | src/transaction/mempool.rs:96-111 | an ordering by the comparator exists, and sorting finds it, if and only if the comparator is transitive on the pool |
| `Pools.TakeIsDetermined` | src/transaction/mempool.rs:96-116 | then selection is a prefix of one unique order, whatever order the map iterates in |
| `Pools.TakeTakesBest` | src/transaction/mempool.rs:96-116 | every selected entry precedes every entry left behind |
| `Pools.SaturationCycles` | src/transaction/mempool.rs:105-111 | a run of three submissions below the supply cap after which saturation puts the three entries, filed under their own txids, in a circle |
| `Pools.BeforeIsRate` | src/transaction/mempool.rs:99-111 | the comparator agrees with the exact fee rate, then txid, on two entries if and only if it is not the case that both cross products reach the end of u64, differ, and the txids order them against the rate |
| `Pools.TextLessExactly` | src/transaction/mempool.rs:110-111 | the tie-break is by the first character where two txids differ, the smaller first, a prefix before its extensions |
| `PoolStore.Mempool.AddWithFee` | src/transaction/mempool.rs:42-62 | the pool and the result of an admission |
| `PoolStore.Mempool.Remove` | src/transaction/mempool.rs:75-81 | the pool after a removal |
| `Admissions.ValidAgain` | src/blockchain/chain.rs:583-640 | a transaction once valid on some branch at some height is valid with the same fee on another branch where its outputs are unspent, at any height, lower ones included, if and only if those outputs are mature and their time locks passed there |
| `Admissions.StillValid` | src/blockchain/chain.rs:583-640 | hence at the same or a greater height it keeps validity and fee without further conditions |
| `Admissions.DeliveryShrinksPool` | src/blockchain/chain.rs:444-454 | a delivery only takes transactions out of the pool, what stays keeps its fee, and the byte total and fee keys still balance |
| `Admissions.MinedLeavePool` | src/blockchain/chain.rs:439-454 | whenever a delivery changes the active chain, exactly the transactions of the new chain leave the pool; an accepted delivery takes out those or none |
| `Admissions.PoolAccountedInEveryRun` | src/transaction/mempool.rs:42-81 | in every run of a node, deliveries and reorganisations included, the pool's byte total is the sum of held sizes within 32 MiB, fee keys are transaction keys, every fee clears the minimum and every entry is filed under its txid |
| `Admissions.FeesAreVouched` | src/blockchain/chain.rs:289-299 | in every run every pool entry carries the fee that validation computed at the step it was submitted |
| `Admissions.SubmissionExactly` | src/blockchain/chain.rs:289-299 | in every run a submission is admitted if and only if it is valid at the tip, its fee is at least 1,000 and the pool stays within 32 MiB; then the pool holds it, with that fee unless it was held before; otherwise nothing changes |
| `Mining.MineHeader` | src/blockchain/block.rs:305-316 | the nonce search stops at the first header whose hash, as a number, is at most its target |
| `Mining.SearchShape` | src/blockchain/block.rs:305-316 | it changes the nonce, and the timestamp once per 2^64 tries, and nothing else |
| `Mining.MinerIsPaid` | src/blockchain/chain.rs:243-262 | the mined block carries the best 500 of the pool after one coinbase output under the miner's script, worth the scheduled reward or what is left of the cap, plus the recorded fees, saturating; it declares its height |
| `Mining.MinedHeader` | src/blockchain/chain.rs:262-276 | its header extends the tip, commits to the body, has the branch's bits and the least time that is neither before now nor at or below the past median |
| `Mining.InOrderHolds` | src/blockchain/chain.rs:333-337 | transactions valid against the tip and pairwise compatible stay valid one after another |
| `Mining.FeesAddUp` | src/blockchain/chain.rs:249-254 | the fees the validator adds up are the recorded ones |
| `Mining.CandidateIsLawful` | src/blockchain/chain.rs:243-287 | a candidate within limits that pays no more than reward and fees is lawful on the tip |
| `Mining.ExtendsTip` | src/blockchain/chain.rs:163-218 | a lawful new block on the active tip with totals that fit is accepted and becomes the tip |
| `Mining.SelfAcceptance` | src/blockchain/chain.rs:243-287 | a node accepts the block it mined, and it becomes the tip |
| `Mining.EntryIsPriced` | src/blockchain/chain.rs:289-299 | in every run, whatever its reorganisations, a pool entry whose inputs are unspent is valid on the next block at its recorded fee if and only if the outputs it spends are mature and unlocked at that height |
| `Mining.MinesItsOwnTip` | src/blockchain/chain.rs:243-299 | in every run the mined block becomes the tip when the outputs its selection spends are unspent, mature and unlocked, the selection is compatible and fits the limits, and the past median is below now plus two hours |
| `MiningService.TemplateAgrees` | src/rpc/methods.rs:130-213 | on an unchanged node a solved template is never taken for stale: the rebuilt body is the template's, and the node judges exactly that block |
| `MiningService.SubmissionMeans` | src/rpc/methods.rs:169-234 | unless the header carries its proof of work, names the tip's height and commits to the body this node would build, nothing changes and an error is returned; otherwise the reply is the outcome of add_block on that block |
| `MiningService.RebuiltPays` | src/rpc/methods.rs:200-225 | that body: the capped reward to the miner, then the best 500 of the pool |
| `MiningService.TemplateAccepted` | src/rpc/methods.rs:130-234 | a solved template whose selection is ready becomes the tip |
| `OutpointKeys.KeyRoundTrip` | src/transaction/utxo.rs:77-90 | reading a stored key back gives its outpoint |
| `OutpointKeys.TxidHasNoColon` | src/transaction/utxo.rs:39-52 | every outpoint the set stores has a colon-free txid, as the key properties ask |
| `OutpointKeys.KeysIdentify` | src/transaction/utxo.rs:25-27 | any text in an input meets a stored key if and only if it is that outpoint |
| `OutpointKeys.KeyedGet` | src/transaction/utxo.rs:65-67 | looking up the key of any text a peer sends finds exactly what the outpoint names: the set keyed by strings refines the set keyed by outpoints |
| `OutpointKeys.KeyedRemove` | src/transaction/utxo.rs:30-36 | removing by the key of any text a peer sends removes that outpoint and nothing else |
| `OutpointKeys.KeyedInsert` | src/transaction/utxo.rs:49-52 | inserting under the key is inserting under the outpoint |
| `OutpointKeys.StoredAreReadable` | src/transaction/utxo.rs:29-52 | outputs made by transactions have keys that read back |
| `Wallets.ReadableInEveryRun` | src/transaction/utxo.rs:77-90 | in every run all keys of the set read back, so utxos_for loses nothing, and indices stay below u32::MAX |
| `Wallets.UtxosForIsExact` | src/transaction/utxo.rs:77-90 | whatever order the map iterates in, utxos_for lists exactly the unspent outputs that pay to the address, each once, under its own outpoint |
| `Wallets.SelectCoins` | src/wallet/wallet.rs:123-133 | the selection loop takes the shortest non-empty prefix that reaches the needed sum, or everything |
| `Wallets.Needed` | src/wallet/wallet.rs:123-133 | no shorter non-empty prefix reaches the sum, and falling short means everything was taken |
| `Wallets.BuildTransaction` | src/wallet/wallet.rs:112-187 | the method builds what Send specifies, or its failure; Wallets.SendPays says what that pays |
| `Wallets.SendPays` | src/wallet/wallet.rs:123-187 | send spends exactly the chosen coins, pays the amount to the recipient's script in the first output, and has a second output, to the sender's script and worth what is left after amount and fee, if and only if something is left |
| `Wallets.SendIsValid` | src/wallet/wallet.rs:112-187 | what send builds from the coins utxos_for lists validates with exactly the requested fee if and only if amount and change clear the dust limit, and is refused as dust otherwise, provided the coins it takes are mature and under the wallet's plain script; its inputs name different outpoints, as the supply cap asks |
| `Wallets.SendMoves` | src/wallet/wallet.rs:112-187 | for every address at once: when the payment takes effect the recipient's script holds the amount more, the sender's amount plus fee less (the fee less when paying himself), every other the same |
| `Wallets.SendFails` | src/wallet/wallet.rs:134-136 | send fails if and only if all coins together fall short |
| `Sync.LocatorShape` | src/network/node.rs:332-358 | the locator starts at the tip, strictly descends, ends at genesis and has at most 33 entries |
| `Sync.PushHashes` | src/network/node.rs:332-349 | the doubling loop pushes the hashes at the specified heights |
| `Sync.BlockLocator` | src/network/node.rs:332-358 | the locator with genesis appended unless reached |
| `Sync.ResumeIsClose` | src/network/node.rs:332-358 | up to height 2^21+9 the resume point is at most as far below the fork as the requester's tip is above it |
| `Sync.ReplyResumes` | src/network/node.rs:458-464 | the responder resumes right after the highest locator entry on both chains |
| `Sync.HandleHeaders` | src/network/node.rs:478-510 | the header loop accepts a connected prefix and collects the unknown hashes |
| `Sync.AcceptsAll` | src/network/node.rs:478-510 | a linked reply that continues a known block is accepted whole and exactly its unknown blocks are requested in order |
| `Sync.AcceptsLongestPrefix` | src/network/node.rs:478-510 | for any reply whatever: the accepted headers are a linked, solved prefix that continues a known block, ending at the first header that does not continue it or misses its target; the unknown hashes of that prefix are requested in order |
| `Sync.UnknownExactly` | src/network/node.rs:494-502 | a hash is requested if and only if it is in the accepted headers and not known |
| `Sync.Exchange` | src/network/node.rs:458-518 | the reply to a node's locator is such a reply |
| `Sync.LawfulSiblings` | src/network/node.rs:458-464 | two lawful chains on one genesis, with no collision among their blocks, are such chains: a hash fixes the block on a given branch and its parent's hash, and no later block has the hash of genesis |
| `Sync.SharedHashSharesBranch` | src/network/node.rs:458-464 | blocks of two such chains with the same hash have the same height and the same branch below them |
| `Sync.FindFork` | src/network/node.rs:458-464 | two such chains agree up to one height and hold different blocks at every height above it |
| `Sync.ExchangeInEveryRun` | src/network/node.rs:458-518 | two reachable nodes on one genesis, with no collision among what the two have seen: their active chains part at one height f; the reply starts at or below f + 1 and, up to height 2^21+9, at most as far below f as the requester's tip is above it; it is the next 2,000 headers of the responder's chain or all that are left; it is accepted whole and exactly the missing blocks are requested in order |
| `RateLimits.RateLimiter.Check` | src/security/rate_limit.rs:34-59 | the in-place table and answer of one check |
| `RateLimits.TableInEveryRun` | src/security/rate_limit.rs:34-59 | in every run at most 4,096 peers are tracked and the insertion order lists exactly them, each once |
| `RateLimits.EvictsLongestTracked` | src/security/rate_limit.rs:37-47 | in every run a tracked peer is evicted if and only if a newcomer is checked while 4,096 peers are tracked and it has been in the table longest |
| `RateLimits.AtMostMaxPerWindow` | src/security/rate_limit.rs:34-59 | in every run with a clock that never goes back a peer is accepted at most max times in any interval of the window's length since it was last evicted |
| `RateLimits.RefusedOnlyWhenFull` | src/security/rate_limit.rs:34-59 | a peer is refused only when its last max acceptances all fall within the window |

## Left out

- Hashing, serialisation, signatures, key derivation and address encoding are uninterpreted functions; the only fact used about the serialised form is a lower bound on its length (`BincodeLayout`) and, as a hypothesis, that it does not collide.
- Persistence: the chain is modelled without a store, so reloading from disk and store errors are not covered.
- Machine bounds on heights, timestamps and sizes: heights, timestamps and block clocks are unbounded; u32, u64 and u128 limits are modelled where the code checks or saturates.
- Output indices past u32: an index is the position itself; block limits keep positions small (`Supply.ChainOutputsAreFew`).
- Wall-clock reads and the termination of the nonce search: the clock is a parameter, and `Mining.MineHeader` covers searches that end.
- `Mempool::add` without a fee, `balance_of`, and the read-only queries of the pool and the chain: one-line lookups.
- Banning in the rate limiter: it fills a window by hand and can exceed the cap, so the guarantees are stated for runs of checks.
- The order in which an inconsistent comparator is sorted: when saturation makes the fee-rate order cyclic the library's result is unspecified; `Pools.OrderExists` says exactly when that happens.
- Sockets, encryption, peer discovery, relay tasks and the remaining messages of the peer protocol.
- Wallet phrases, hierarchical derivation and key storage; mobile, desktop and web front ends; command-line tools.
- Wallets.SendIsValid: the sum of amount and fee and the collected value are taken to fit u64, because the code adds them unchecked.
