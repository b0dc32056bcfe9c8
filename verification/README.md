# wobble: a verified model of the ledger engine

wobble is a Bitcoin-style node. This project models its deterministic core in Dafny and proves what
that core is for:

- the **ledger step**: validating and applying transactions and blocks to a set of unspent outputs;
- the **fork tree and snapshot cache**: every known block with height and cumulative work, one cached
  unspent set per block, and the switch of the active set when another branch becomes heaviest;
- the **pool** of pending transactions: admission, replacement by fee, eviction, pruning, mining;
- the **protocols**: catching up with a peer by walking back from its tip, and the background miner
  with its generation counter;
- the **persisted tables**: incremental saves, full saves, and loading after a restart;
- the encodings, the merkle commitment and the proof-of-work arithmetic all of it rests on.

## How the model is built

Each component has specification functions on values (`Validate`, `ApplyBlock`, `AcceptBlock`,
`SubmitTransaction`, `SaveAcceptedBlockState`, ...). Where the source updates things in place there is
a class or a loop (`State.UtxoSet`, `Chain.ChainIndex`, `Mempool.TransactionPool`, `LiveNode.LiveNode`,
`SqliteStore.SqliteStore`, `LiveServer.LiveServer`) whose methods are proved equal to those functions.
The theorems about whole runs are proved on the functions.

| layer | files |
|---|---|
| values | `Primitives`, `Bytes`, `Sums`, `Sorting`, `Crypto`, `Types`, `Encoding`, `Merkle`, `PowTarget`, `Commitment` |
| ledger | `State`, `Authorisation`, `Consensus`, `BlockRules`, `Replay`, `Provenance` |
| pool | `Mempool`, `Admission`, `Candidate`, `MiningLoop`, `HonestMining`, `Payment`, `Balances` |
| chain and node | `Chain`, `NodeState`, `ActiveChain`, `Acceptance`, `Refusals`, `RepeatedTail`, `LiveNode`, `Agreement`, `Rebuild` |
| protocols | `Sync`, `MinerWorker`, `MinerSearch` |
| persistence | `TxIndex`, `WalletIndex`, `Store`, `Loading`, `SqliteStore`, `RoundTrip`, `Ties`, `Persistence`, `Synchrony`, `RepeatedIds`, `Server`, `Restarts`, `AllRuns`, `LiveServer` |

Hashing and signatures come from one constant, `Crypto.suite`, that has no definition. Every result
therefore holds for every hash function and signature scheme. Where a law is needed it is a hypothesis:
that own signatures verify, or that no two objects of the run at hand collide. No injective hash is
ever assumed.

Four predicates on nodes recur. `Consistent` is the invariant of all runs, also those in which blocks
were rejected after being indexed. `Settled` adds that every indexed block has a snapshot, which holds
after a run exactly when no block was indexed and then failed. `Honest` adds that no transaction id
repeats on the best chain, no pending transaction is shaped like a coinbase, and ids do not collide
between the pool and the best chain. `SupplyFits` says that one subsidy per block fits in 64 bits, and
`NextSubsidyFits` that one more does.

## Laws that hold only under a condition

- **Save and load.** A restart restores the saved node if and only if none of its blocks failed and the
  best tip comes first, in (height, hash) order, among the heaviest blocks (`RoundTrip.SaveLoadRoundTrip`).
  The node keeps the first heaviest block it saw; the loader replays in (height, hash) order. Of two
  equally heavy blocks on one tip, exactly one order of arrival survives a restart, the one that starts
  with the smaller hash (`Ties.TieReloadsIff`, `Ties.ExactlyOneOrderReloads`).
- **Restarts between blocks.** The row of a replaced or evicted transaction stays in the pool table until
  the next best-chain block. Along a clean history a restart succeeds if and only if the tip comes first
  among the heaviest. It restores the running node if and only if, moreover, nothing was displaced since
  the last block saved on the best chain; otherwise it loads a pool that holds conflicting or too many
  transactions (`Restarts.RestartRestoresIff`).
- **Restarts after rejected blocks.** In every run the stored blocks are exactly the accepted ones, and they
  always replay (`AllRuns.RestartOfAnyRun`). But a block saved while the best tip is a failed block persists
  a tip that is not stored, and the restart fails with a best-tip mismatch (`AllRuns.SaveUnderFailedTip`).
- **Incremental index.** The save of a block that extends the best chain equals a full save if and only if
  it refreshes the index or the block brings only new transaction ids (`RepeatedIds.BlockSaveIff`). A block
  that only repeats a coinbase is accepted, is saved without a refresh, and makes the tables differ from a
  full save: the upsert keeps the last row, the rebuild the first (`RepeatedIds.RepeatedCoinbaseSplits`).
- **Synchronisation.** A pass between two reachable nodes succeeds if and only if there is nothing to
  fetch, or the peer accepted its own tip and the local node is empty or has the same root
  (`Sync.SyncSucceedsIff`).
- **Merkle commitment.** It needs lists of equal length: repeating the last transaction of an odd list
  keeps the root (`Merkle.RepeatedTailKeepsRoot`). At the node, the block with the repeated transaction has
  the same hash and always fails. If it arrives first, the block without it is refused in every later
  state (`RepeatedTail.RepeatedFirstShutsOut`).
- **Work.** A target whose upper 128 bits, plus one, are at most half of another's counts for strictly more
  work, with one exception: against an all-ones upper half, a target exactly half as large counts for one as
  well (`PowTarget.HalvedTargetHasMoreWork`; such targets are in `PowTarget.HalvedTargetException`). No compact
  encoding names an all-ones half (`PowTarget.ExpandableIsOrdinary`).
- **Payments.** A built payment validates if and only if the value of the outputs needed to cover the
  amount fits in 64 bits, because the selection saturates where validation checks
  (`Payment.PaymentValidates`; a failing set is in `Payment.SaturatedPaymentFails`).
- **Accepted blocks.** `accept_block` updates index and best tip before it checks transactions, so a
  block that fails the check stays indexed. `Acceptance.AcceptSucceedsIff` says, from the state before the
  call, exactly which blocks are accepted. A failed block is never made good
  (`ActiveChain.FailedForever`), and a run ends settled if and only if none failed
  (`ActiveChain.SettledIffClean`).
- **Mining.** With everything else in order, mining succeeds if and only if the best tip was accepted
  (`MiningLoop.MiningSucceedsIff`). The pool admits transactions without inputs
  (`MiningLoop.CoinbaseShapedIsAdmitted`); while one is among the first pending ones, no nonce solves the
  candidate (`MiningLoop.CoinbaseShapedIsUnsolvable`). In honest states the pool can always be mined
  (`HonestMining.HonestMiningCloses`).

## Model

| member | source | states |
|---|---|---|
| Encoding.AppendInputs | src/types.rs:172-180 | the loop appends the encoding of every input, with or without unlocking data, to the bytes already there |
| Encoding.AppendOutputs | src/types.rs:182-185 | the loop appends the encoding of every output |
| Encoding.EncodeTransaction | src/types.rs:168-188 | the buffer written field by field is the concatenation the decoder below inverts |
| Encoding.ParseTransactionInverts | src/types.rs:160-188 | a parser recovers every transaction from its encoding, whatever bytes follow |
| Encoding.EncodingIsPrefixFree | src/types.rs:160-188 | no encoding is a prefix of another one; in particular encoding is injective |
| Encoding.SigningEncodingIgnoresOnlyUnlockingData | src/types.rs:164-188 | two transactions have the same signing bytes exactly when they differ at most in unlocking data, so signing does not change the signed digest |
| Encoding.HeaderEncodingIsInjective | src/types.rs:201-210 | the header encoding determines every header field |
| Commitment.IdCommitsToTransaction | src/types.rs:160-197 | transactions with one id are equal, signatures included, unless their encodings collide |
| Commitment.HashCommitsToHeader | src/types.rs:200-215 | blocks with one hash have equal headers, unless the headers collide |
| Commitment.HashCommitsToBlock | src/consensus.rs:162-182 | valid blocks with one hash and one length are the same block, down to every signature, unless something hashed for them collides |
| Merkle.NextLevel | src/types.rs:229-244 | padding an odd level and hashing adjacent pairs gives the next level of the recursively defined tree |
| Merkle.SmallRoots | src/types.rs:218-247 | the roots of up to three ids written out in digests: nothing, the id itself, the digest of the pair, and the last id repeated |
| Merkle.ComputeMerkleRoot | src/types.rs:218-247 | the level loop ends and returns the root of that tree; the hash of nothing for an empty list |
| Merkle.RootCommitsToLeaves | src/types.rs:218-247 | lists of equal length with equal roots are equal, unless two different pairs hashed for them collide |
| Merkle.RepeatedTailKeepsRoot | src/types.rs:218-247 | repeating the last element of an odd list longer than one keeps the root |
| RepeatedTail.SameInIsolation | src/consensus.rs:162-182 | a block and the same block with its last transaction repeated have one hash and are both valid in isolation or neither |
| RepeatedTail.RepeatedNeverApplies | src/consensus.rs:109-153 | the repeated one applies to no unspent set |
| RepeatedTail.RepeatedFirstShutsOut | src/node_state.rs:202-255 | so a node that would accept the block, but sees the repeated one first, refuses the block in every later state |
| PowTarget.ExpandCompact | src/consensus.rs:34-64 | the byte array filled in place is the one whose value the next row gives |
| PowTarget.FromCompactValue | src/consensus.rs:34-64 | which compact encodings are rejected, and that an accepted one has the value mantissa * 256^(exponent - 3), shifted right for exponents up to three |
| PowTarget.BytesOfBits | src/consensus.rs:34-64 | the same over the four bytes of the encoding: exponent, sign bit and mantissa are where the compact form puts them |
| PowTarget.IsMetByIsNumeric | src/consensus.rs:67-69 | comparing bytes is comparing 256-bit numbers |
| PowTarget.WorkIsAntitone | src/consensus.rs:72-88 | among targets a compact encoding can name, a smaller one never counts for less work, also across the 128-bit boundary, and none counts for less than one |
| PowTarget.WorkValue | src/consensus.rs:72-88 | the work by the value of the target: the largest factor of the upper half plus one within 128 bits, one for an all-ones half, and 2^128 - 1 less half the lower half when the upper one is zero |
| PowTarget.HalvedTargetHasMoreWork | src/consensus.rs:72-88 | halving the upper half plus one strictly raises the work, at least twofold below all ones, except in one named case |
| PowTarget.HalvedTargetException | src/consensus.rs:76-81 | two targets at which that case arises |
| PowTarget.SmallTargetHasMoreWork | src/consensus.rs:83-85 | a target below 2^128 counts for more than any above; below it work differs exactly when more than the lowest bit does |
| PowTarget.ExpandableIsOrdinary | src/consensus.rs:34-64 | no target named by a compact encoding has an all-ones half |
| PowTarget.TestDifficulties | src/chain.rs:243-257 | the two difficulties of the fork-choice test count for 2 and 65537 |
| State.ValidateIffAcceptable | src/state.rs:107-171 | validation accepts exactly the transactions that meet the rules as predicates (distinct, present and signed inputs, non-empty outputs, sums in range, no overspend) and computes their fee; the next two rows spell the rules out |
| Authorisation.ValidateIffAuthorised | src/state.rs:107-171 | a spending transaction is valid exactly when it pays something, its sums fit and cover, it names no output twice, and every output it names is unspent, locked to a 32-byte curve point, and signed for by that key over the digest of the encoding without unlocking data |
| Authorisation.ErrorIsFirstBroken | src/state.rs:107-171 | a transaction is refused with an error exactly when it names the first rule broken: outputs, then the first faulty input and which of its rules fails, then the balance; a signature mismatch exactly when both parse and verification fails |
| State.ValidateDependsOnInputs | src/state.rs:107-171 | the verdict, error and fee depend only on the outputs being spent |
| State.SumOutputs | src/state.rs:179-187 | the checked loop returns the exact sum, or an overflow error exactly when the sum does not fit |
| State.UtxoSet.ValidateTransaction | src/state.rs:107-171 | the input loop computes the specified verdict |
| State.UtxoSet.TransactionFee | src/state.rs:73-76 | the fee of a valid transaction, or the validation error |
| State.UtxoSet.ApplyTransaction | src/state.rs:79-105 | succeeds exactly on acceptable transactions; then spent entries are gone and created ones are in; otherwise nothing changed |
| State.UtxoSet.AddOutputs | src/state.rs:92-102 | the insertion loop adds exactly the created entries, over any they collide with |
| State.TotalSpent | src/state.rs:86-90 | distinct present inputs take exactly the sum of their values out of the set |
| State.ApplyConserves | src/state.rs:79-105 | applying a transaction destroys its fee and the entries it overwrites, nothing else; a coinbase adds its outputs |
| State.ValidateNeverOverflowsInputs | src/state.rs:150-152 | while the whole set fits in 64 bits no transaction is refused for input overflow |
| BlockRules.ValidateBlockIff | src/consensus.rs:162-201 | a block is valid in isolation exactly when its hash is numerically at most its target, its first transaction and no other is a coinbase, and its header commits to its transactions |
| Refusals.BlockErrorIsFirstFault | src/consensus.rs:162-201 | a block is refused by itself with an error exactly when that error names the first rule it breaks, in the order of the checks |
| BlockRules.LoopIff | src/consensus.rs:116-130 | the transaction loop succeeds exactly when every transaction is acceptable in the state its predecessors leave and the fees fit; state and fees are then the plain succession and sum |
| BlockRules.ApplyBlockIff | src/consensus.rs:109-153 | a block applies exactly when it is well formed, every transaction is acceptable where it stands, and the coinbase claims at most 50 plus fees; the result is the plain succession, coinbase last |
| Refusals.LoopErrorIff | src/consensus.rs:116-130 | the transaction loop fails with an error exactly when it belongs to the first transaction that is refused where it stands or whose fee overflows the sum |
| Refusals.ApplyErrorIff | src/consensus.rs:109-153 | a block fails to apply with an error exactly when that error names its first fault: its own, of a transaction, or of the coinbase, with the amounts allowed and claimed |
| Consensus.RunTransactions | src/consensus.rs:116-130 | the loop on the working copy computes the specified set and fees, or the first error |
| Consensus.ApplyBlockTo | src/consensus.rs:109-153 | block application is atomic: the specified set on success, the untouched set on any error |
| Consensus.TransactionsConserve | src/consensus.rs:116-130 | over the loop, unspent value, fees and overwritten value add up to what was there before |
| Consensus.BlockConserves | src/consensus.rs:109-153 | value enters a block only through a coinbase bounded by subsidy plus fees, and leaves only as fees and overwritten entries |
| Consensus.BlockSupplyBound | src/consensus.rs:109-153 | a block adds at most 50 to the total unspent value |
| Consensus.BlockNeverOverflows | src/consensus.rs:116-137 | while the supply and one subsidy fit in 64 bits, no block is refused for input overflow |
| Replay.SupplyBound | src/consensus.rs:109-153 | replaying a branch leaves at most 50 per block |
| Replay.NoDoubleSpend | src/state.rs:79-153 | along a branch every spend of an outpoint directly follows a creation of it, and it is unspent at the end exactly when its last event is a creation |
| Replay.SpendsAreSeparated | src/state.rs:126-153 | between two spends of an outpoint it was created again |
| Provenance.LedgerStep | src/state.rs:79-105 | a transaction with a new id keeps "unspent is created and not spent" and spends only known outputs |
| Provenance.LedgerOfPath | src/node_state.rs:228-255 | without repeated ids, the snapshot of any accepted block of a reachable node holds exactly what its branch created and did not spend, and every input on the branch refers to an earlier transaction |
| Provenance.LedgerOfBestChain | src/node_state.rs:211-221 | the same for the active set and the best chain, whenever the best tip was accepted |
| Provenance.PendingIsNotConfirmed | src/mempool.rs:189-192 | a valid pending transaction that spends something is not on the best chain |
| Chain.ChainIndex.constructor | src/chain.rs:31-33 | starts as the empty tree |
| Chain.ChainIndex.Insert | src/chain.rs:75-114 | index and result are as specified, and the tree invariant is kept |
| Chain.ChainIndex.UpdateBestTip | src/chain.rs:116-136 | the tip moves only to strictly more work; both lookups are safe |
| Chain.ChainIndex.BranchCount | src/chain.rs:60-71 | counts exactly the blocks that are nobody's parent |
| Chain.InsertKeepsTree | src/chain.rs:75-136 | insertion keeps a single-rooted tree with a heaviest tip, keeps all entries, never lowers the best work, and moves the tip only to strictly more work |
| Chain.HarderSiblingWins | src/chain.rs:116-136 | of two new blocks on the tip the one with the harder target becomes the tip, whichever comes first |
| Chain.BestTipIsHead | src/chain.rs:116-136 | the best tip never has a child |
| Chain.BranchCountStep | src/chain.rs:60-71 | a new entry adds a branch exactly when its parent already had a child |
| Chain.BranchCountOfInsert | src/chain.rs:60-114 | so inserting a new block into a non-empty index raises the branch count by one exactly when it is indexed and its parent already had a child |
| Chain.GenesisIsOnlyHead | src/chain.rs:60-71 | the first block is the only branch head |
| Mempool.TransactionPool.Submit | src/mempool.rs:91-144 | pool and result are as specified; with valid pending transactions no `expect` can fail |
| Mempool.TransactionPool.RemoveMany | src/mempool.rs:237-241 | the loop takes out exactly the listed ids, whatever their order, and keeps the pool invariant against every unspent set |
| Mempool.TransactionPool.Prune | src/mempool.rs:189-192 | keeps exactly the transactions still valid |
| Mempool.TransactionPool.CollectValid | src/mempool.rs:151-179 | the loop over the working copy selects as specified |
| Mempool.ConflictExposesInput | src/mempool.rs:617-632 | a conflict always exposes an input claimed by a pending transaction |
| Mempool.EvictionCandidateIsCheapest | src/mempool.rs:212-235 | there is a candidate exactly when the survivors of the conflicts fill the pool, and it is the cheapest of them, ties by lowest id |
| Mempool.Victim | src/mempool.rs:226-234 | the victim has the lowest fee, ties by lowest id |
| Mempool.HighestFee | src/mempool.rs:108-120 | the fee to beat is the greatest among the conflicts |
| Mempool.SameInputSetIsEquality | src/mempool.rs:607-615 | between valid transactions the one-sided input test is equality of the input sets |
| Mempool.ReplacementIsUnique | src/mempool.rs:202-210 | a replaceable conflict is with exactly one pending transaction, over the same inputs |
| Mempool.SubmitEffect | src/mempool.rs:91-144 | an accepted submission adds, or replaces exactly one cheaper transaction over the same inputs, or evicts the cheapest one of a full pool; never both |
| Admission.PolicyIsFunctional | src/mempool.rs:97-143 | at most one of these effects is allowed for a transaction |
| Admission.SubmitSucceedsIff | src/mempool.rs:91-144 | a submission succeeds exactly when it is new, valid, and has an effect the policy allows |
| Admission.RefusalIsExplained | src/mempool.rs:91-144 | a refusal leaves the pool alone, and each error names its true reason with the fees at stake |
| Admission.RefusedIff | src/mempool.rs:91-144 | a submission is refused with an error exactly when that is the first reason: a known id, validity, the first claimed input of a conflict that may not be replaced, the fee of the one rival, or the lowest fee of a full pool |
| Mempool.SubmitKeepsInv | src/mempool.rs:91-144 | submission keeps the pool keyed by id, valid, conflict-free and within 1024 |
| Mempool.PruneEstablishesInv | src/mempool.rs:189-192 | pruning re-establishes that invariant against any unspent set |
| Mempool.SubmitNeverLowersFees | src/mempool.rs:97-143 | total pending fees never decrease, and a displacement strictly raises them |
| Mempool.PendingFeesWithinSupply | src/mempool.rs:91-144 | total pending fees are at most the total unspent value |
| NodeState.KnownBlockIsNoOp | src/node_state.rs:202-224 | accepting a known block changes nothing; it succeeds exactly when the block is valid and has a snapshot |
| NodeState.AcceptKeepsConsistent | src/node_state.rs:202-255 | accepting any block, also one that is rejected, keeps the invariant |
| NodeState.SubmitKeepsConsistent | src/node_state.rs:126-130 | so does submitting |
| NodeState.MineKeepsConsistent | src/node_state.rs:160-194 | so does mining |
| NodeState.RunsAreConsistent | src/node_state.rs:126-224 | the invariant holds after every sequence of operations |
| NodeState.CacheRefinesReplay | src/node_state.rs:228-255 | in every such state a block has a snapshot exactly when its stored path replays from genesis, and then it is the replayed set |
| NodeState.SnapshotsAreParentClosed | src/node_state.rs:238-245 | a block with a snapshot has a parent with one |
| NodeState.CumulativeWorkIsPathSum | src/chain.rs:75-114 | the work of an entry is the sum over its path |
| NodeState.SnapshotsNeverDoubleSpend | src/node_state.rs:228-255 | in every reachable state, along the path of an accepted block every spend follows a creation, and an outpoint is in the snapshot exactly when its last event is a creation |
| NodeState.SnapshotSupplyBound | src/consensus.rs:109-153 | no snapshot of any reachable state holds more than 50 * (height + 1) |
| Acceptance.InsertSucceedsIff | src/chain.rs:75-114 | the index takes a block exactly when it is well formed and is known, starts an empty index, or extends an indexed block without overflowing the work counter |
| Refusals.InsertErrorIff | src/chain.rs:75-114 | the index refuses a block with an error exactly when that error names the first obstacle: a fault of the block, a first block with a parent, an unknown parent, or the work counter |
| Acceptance.AcceptSucceedsIff | src/node_state.rs:202-255 | judged from the state before the call: a block the index cannot place changes nothing; any other is stored, and it is accepted exactly when it is known and has a snapshot, or its parent has one and the block applies to it |
| Refusals.AcceptErrorIff | src/node_state.rs:202-255 | in every reachable state a block is refused with an error exactly when that error names the first reason: the index, a parent without snapshot, or the first fault against that snapshot |
| Acceptance.AcceptedPathReplays | src/node_state.rs:202-255 | equivalently, exactly when the stored path to it replays from genesis |
| ActiveChain.SettledTipApplied | src/node_state.rs:202-224 | when no block failed, the best tip was accepted |
| ActiveChain.ActiveIsBestChain | src/node_state.rs:211-221 | whenever the best tip was accepted, the active set is the replayed best chain; a reorganisation leaves no trace of the old branch |
| ActiveChain.AcceptKeepsSettled | src/node_state.rs:202-255 | accepted blocks, and blocks the index refuses, keep the state settled |
| ActiveChain.SettledIffClean | src/node_state.rs:126-224 | a run ends settled exactly when no step indexed a block that then failed |
| ActiveChain.FailedForever | src/node_state.rs:202-255 | a block that failed once is refused in every later state of every run |
| ActiveChain.SubmitNeverOverflows | src/node_state.rs:126-130 | while the supply fits, no pending transaction is refused for input overflow, in any reachable state |
| ActiveChain.AcceptNeverOverflows | src/node_state.rs:202-255 | and no block is, while one more subsidy fits |
| ActiveChain.BalanceFits | src/node_state.rs:116-123 | while the supply fits, the unchecked balance sum cannot overflow |
| LiveNode.LiveNode.constructor | src/node_state.rs:50-52 | starts empty and consistent |
| LiveNode.LiveNode.MaterialiseSnapshot | src/node_state.rs:228-255 | derives the snapshot in place as specified, or leaves the cache alone with the error |
| LiveNode.LiveNode.Accept | src/node_state.rs:202-224 | new state and result are as specified, and the invariant is kept |
| LiveNode.LiveNode.SubmitTransaction | src/node_state.rs:126-130 | likewise for submission |
| LiveNode.LiveNode.Mine | src/node_state.rs:160-194 | likewise for mining, given the nonce |
| LiveNode.LiveNode.AddFees | src/node_state.rs:172-181 | the checked fee loop computes the specified sum or error |
| LiveNode.LiveNode.BalanceForKey | src/node_state.rs:116-123 | the unchecked loop returns the value locked to the key modulo 2^64, and exactly that value while the supply fits |
| Agreement.AgreeAt | src/node_state.rs:202-255 | two reachable nodes with compatible blocks agree on every block both know: entry, whether it has a snapshot, and which |
| Agreement.AcceptTransfers | src/node_state.rs:202-255 | a node accepts any block such a peer accepted, once it knows the parent, and files it exactly as the peer did, whatever either of them rejected before |
| Rebuild.FirstIsRoot | src/chain.rs:86-95 | a parent-first listing of a node's blocks starts with its root |
| Rebuild.RebuildsFromAnyOrder | src/node_state.rs:60-68 | every parent-first order of a settled node's blocks loads, and gives back its entries, blocks and snapshots; also its tip and active set if the heaviest block is unique |
| Rebuild.LoadsOnlySettled | src/node_state.rs:60-68 | conversely, if some parent-first order of a reachable node's blocks loads, no block of that node had failed |
| Rebuild.LoadedEnumerates | src/node_state.rs:60-68 | loading distinct blocks stores exactly those blocks |
| Rebuild.OrderIndependence | src/node_state.rs:60-68 | if one order of a set of blocks loads, every parent-first order does, with the same index, blocks and snapshots, and the same node if the heaviest block is unique |
| Sync.CollectMissing | src/server.rs:1321-1349 | the backward walk ends (the remote height decreases) and collects exactly the segment the local node lacks |
| Sync.SyncToAdvertisedTip | src/server.rs:1294-1369 | fetching and applying the segment in place gives the specified node and result |
| Sync.WalkSucceeds | src/server.rs:1321-1369 | walking back from a block the compatible peer accepted, no fetched block is refused, each is filed as the peer has it, and the requested block is known afterwards, also for a local node that rejected blocks |
| Sync.SyncConverges | src/server.rs:1294-1369 | against a peer whose tip was accepted, the pass of any reachable local node succeeds and its best work becomes the larger of the two; a settled node stays settled |
| Sync.SyncBothWays | src/server.rs:1294-1369 | two nodes that sync in both directions end with equal best work |
| Sync.StrangersAreRefused | src/server.rs:1351-1360 | a node with another root refuses the peer's root first and is unchanged |
| Sync.WalkNeedsSnapshot | src/server.rs:1321-1369 | a walk that had something to fetch and succeeded ended at a block the peer accepted |
| Sync.SyncSucceedsIff | src/server.rs:1294-1369 | between any two reachable nodes without hash collision a pass succeeds exactly when there is nothing to fetch, or the peer accepted its tip and the local node is empty or shares the root |
| MiningLoop.SequentialFees | src/consensus.rs:116-130 | for independent transactions, fees recomputed on the running set equal fees against the original set |
| MiningLoop.CollectSkipsNothing | src/mempool.rs:151-179 | when the first pending transactions by id, up to the limit, are no coinbases and overwrite nothing, selection takes exactly those, whatever comes after them |
| MiningLoop.TipBlockIsNew | src/node_state.rs:160-194 | a block on the best tip is not indexed yet |
| MiningLoop.TipBlockAccepted | src/node_state.rs:202-224 | on an accepted best tip, a block that applies becomes the tip, its result the active set, and the pool is pruned against it, whatever was rejected elsewhere |
| MiningLoop.CoinbaseShapedIsAdmitted | src/mempool.rs:91-144 | a pool with room admits every new transaction without inputs whose outputs are non-empty and fit |
| MiningLoop.CoinbaseShapedIsUnsolvable | src/mining.rs:223-230 | while such a transaction is among the first pending ones by id, up to the limit, every nonce fails |
| MiningLoop.MiningClosesTheLoop | src/node_state.rs:160-194 | given a nonce, an accepted best tip, a subsidy of at most 50, a supply that fits, no work overflow, and selected transactions that are no coinbases and overwrite nothing: the mined block is accepted and becomes the tip; it stands on the old tip at the requested difficulty; its coinbase has no inputs, one output of exactly subsidy plus recomputed fees to the miner key, and the requested lock time; the pool loses exactly the included transactions |
| MiningLoop.MinedBlockShape | src/mining.rs:170-220 | the mined block field by field: header version, time, parent, bits, nonce and root, the coinbase, and the chosen transactions after it |
| Balances.MiningMovesBalance | src/node_state.rs:160-194 | a mined block moves every balance by what its transactions pay and take, and the miner key also by subsidy plus fees |
| Balances.MinerEarnsReward | src/mining.rs:170-184 | the balance of a miner key that no included transaction pays or spends grows by exactly subsidy plus fees |
| MiningLoop.FailedTipStopsMining | src/node_state.rs:238-245 | while the best tip is a failed block every attempt to mine fails |
| MiningLoop.MiningSucceedsIff | src/node_state.rs:160-194 | with everything else in order, mining succeeds exactly when the best tip was accepted |
| HonestMining.HonestPoolIsFresh | src/mempool.rs:91-144 | in an honest state no pending transaction overwrites an entry |
| HonestMining.HonestMiningCloses | src/node_state.rs:160-194 | so from an honest state the loop closes without any assumption about the pool |
| MinerWorker.StepKeepsInv | src/mining.rs:256-321 | every atomic step of producer, queue and worker keeps the invariant |
| MinerWorker.ReachableInv | src/mining.rs:114-146 | so it holds in every interleaving with fewer than 2^64 increments |
| MinerWorker.LatestIsNeverLost | src/mining.rs:256-321 | until it is reported the latest submission is queued, about to be queued, or the worker's current work, and not about to be dropped |
| MinerWorker.QuiescentMeansReported | src/mining.rs:256-321 | when all commands are handled and the worker waits, the latest submission was reported |
| MinerWorker.ReportsAreSound | src/mining.rs:276-297 | a report solves a submitted candidate whose generation was the value just loaded from the counter, and no candidate is reported twice |
| MinerSearch.SearchIsInOrder | src/mining.rs:276-297 | in every interleaving, after k failed tests of a candidate the worker stands at the submitted nonce plus k modulo 2^32, every nonce before that failed, and a report is the first solution in that order |
| MinerSearch.ExhaustedMeansUnsolvable | src/mining.rs:285-297 | once 2^32 tests of a candidate have failed no nonce solves it |
| MinerSearch.FailedTestLooksIff | src/mining.rs:292-295 | a failed test sends the worker to its queue exactly when the next nonce is a multiple of 4096 |
| MinerSearch.QueueIsWatched | src/mining.rs:276-318 | in every interleaving the worker looks at its queue after at most 4096 failed tests |
| Payment.SelectInputs | src/node_state.rs:286-307 | the loop selects a minimal prefix of the sorted owned outputs that covers the amount, or all of them |
| Payment.SignInputs | src/node_state.rs:350-353 | every input ends up signed by its owner over the final transaction |
| Payment.BuildPayment | src/node_state.rs:265-356 | fails exactly when the owned value is less than the amount, and reports it; otherwise the first output is the amount to the recipient, the rest of the saturated input value goes to the change key and is omitted when nothing is left, and every input is signed by a wallet key over the final transaction; only the number of inputs needed must fit the encoding |
| Payment.PaymentShape | src/node_state.rs:316-353 | every payment pays as ordered, is signed by the owners and spends no output twice |
| Balances.ApplyMovesBalance | src/state.rs:79-105 | a transaction moves every balance by exactly what it pays to the key less what it takes from it, and less what it overwrites |
| Balances.PaymentMovesBalance | src/node_state.rs:316-326 | for every key, also when recipient and change are the same: the recipient gets the amount, the change key the rest, and every key loses what was spent of it |
| Balances.RecipientGetsAmount | src/node_state.rs:316-326 | a recipient that pays nothing itself is richer by exactly the amount |
| Payment.OwnedOutputsSum | src/node_state.rs:283-304 | the sorted owned outputs carry exactly the owned value |
| Sorting.OutPointOrder | src/node_state.rs:284 | outputs are considered by transaction id, in byte order, then by index |
| Payment.CoversIsFunctional | src/node_state.rs:291-307 | how many outputs are selected depends only on the owned outputs and the amount |
| Payment.PaymentValidates | src/node_state.rs:265-356 | given the sign/verify law a payment has distinct inputs, and it validates, with fee zero and value conserved, exactly when the value of the outputs needed to cover the amount fits in 64 bits |
| Payment.SaturatedPaymentFails | src/node_state.rs:303-307 | with outputs worth 1 and 2^64 - 1, a payment of 2^64 - 1 is built and never validates |
| Payment.PaymentAlwaysValidates | src/node_state.rs:265-356 | it always validates while the whole set fits in 64 bits |
| TxIndex.BuildIsIndex | src/sqlite_store.rs:1495-1557 | the rebuild loop computes exactly one row per confirmed and pending transaction and its key edges; the next three rows say what rows and edges are |
| WalletIndex.RebuiltRows | src/sqlite_store.rs:1495-1557 | there is a row for each transaction of chain and pool and no other; it names block, height and position exactly when the transaction stands there, and none of the three exactly when it is pending |
| WalletIndex.RebuiltEdges | src/sqlite_store.rs:1582-1611 | one edge per input, then one per output; an output edge for exactly the outputs of the transaction, and an input edge for exactly the chain outputs its inputs name, each with key, value and index |
| WalletIndex.PlacedExactly | src/sqlite_store.rs:1495-1530 | the transactions of a branch are exactly those of its blocks, with block hash, height and position |
| Store.ReplayOrder | src/sqlite_store.rs:1152-1175 | the load order lists every indexed hash once, by height and then hash |
| Store.ReplaysByHeightThenHash | src/sqlite_store.rs:1152-1175 | a block comes before another exactly when it is lower, or as high with the smaller hash bytes |
| Loading.LoadErrorIff | src/sqlite_store.rs:935-957 | any tables fail to load with an error exactly when that error names the first thing wrong: an entry without block, a pending transaction under another id, a replay that fails, or a rebuilt tip, unspent set or pool that differs |
| SqliteStore.BestChainEntries | src/sqlite_store.rs:1567-1579 | following parents from the tip and reversing gives the entries from root to tip |
| SqliteStore.BestChainContains | src/sqlite_store.rs:1560-1564 | decides membership in the best chain |
| SqliteStore.BuildTransactionIndex | src/sqlite_store.rs:1495-1557 | the loops over blocks and pool compute the specified index |
| SqliteStore.Restore | src/node_state.rs:60-68 | accepting the blocks one by one on a new node, then attaching and pruning the pool, gives the specified node or error |
| SqliteStore.MapsMatchIsEquality | src/sqlite_store.rs:1665-1680 | the one-sided comparisons of unspent sets and pools are equality |
| SqliteStore.SqliteStore.constructor | src/sqlite_store.rs:95-105 | a new store has empty tables |
| SqliteStore.SqliteStore.SaveMempoolTransaction | src/sqlite_store.rs:232-291 | upserts one pending transaction, its row and its edges, and leaves all other rows |
| SqliteStore.SqliteStore.DeleteStaleRows | src/sqlite_store.rs:1178-1205 | the loop deletes exactly what belongs to persisted pending transactions no longer in the pool |
| SqliteStore.SqliteStore.SaveConfirmedBlockTransactions | src/sqlite_store.rs:1208-1230 | moves the block's transactions from pending to confirmed and rewrites their edges |
| SqliteStore.SqliteStore.BuildConfirmedEdges | src/sqlite_store.rs:1382-1412 | resolves inputs through earlier outputs of the block first, persisted rows second |
| SqliteStore.SqliteStore.SaveAcceptedBlock | src/sqlite_store.rs:348-367 | records the block; for a best-chain block also updates unspent set, pool and index, in place |
| SqliteStore.SqliteStore.SaveMempoolState | src/sqlite_store.rs:327-332 | replaces pool and index by the rebuilt ones |
| SqliteStore.SqliteStore.SaveAcceptedBlockState | src/server.rs:1439-1461 | saves the block and refreshes pool and index when the decision function asks for it |
| SqliteStore.SqliteStore.SaveNodeState | src/sqlite_store.rs:965-1078 | rewrites every table from the node |
| SqliteStore.SqliteStore.LoadBlocksInHeightOrder | src/sqlite_store.rs:1152-1175 | returns the blocks in load order, or the first entry without a block |
| SqliteStore.SqliteStore.FindMiskeyed | src/sqlite_store.rs:453-474 | scanning the pool rows in any order finds a miskeyed row exactly when there is one |
| SqliteStore.SqliteStore.LoadNodeState | src/sqlite_store.rs:935-957 | replays, attaches the pool, and makes the three comparisons, giving the specified node or error; of several miskeyed rows any one is reported |
| RoundTrip.ReplayedParentFirst | src/sqlite_store.rs:1152-1175 | the load order puts parents first |
| RoundTrip.LoadedTip | src/chain.rs:116-136 | after any number of loaded blocks the tip is the first heaviest among them |
| RoundTrip.ReplayRestores | src/sqlite_store.rs:935-957 | replaying the stored blocks restores the node up to its pool if the tip comes first among the heaviest, and ends at another tip otherwise |
| RoundTrip.LoadOutcome | src/sqlite_store.rs:935-957 | loading succeeds exactly when the tip comes first and every persisted pending transaction is valid; which error it gives otherwise |
| RoundTrip.LoadOfUnsettled | src/sqlite_store.rs:935-957 | the tables of a node with a failed block never load; the replay reports the failure |
| RoundTrip.SaveLoadRoundTrip | src/sqlite_store.rs:935-1078 | for every reachable node, load after save returns exactly that node if and only if no block failed and the tip comes first among the heaviest; which error it gives otherwise; a unique heaviest block suffices |
| Ties.TieReloadsIff | src/chain.rs:116-136 | two equally heavy blocks on the tip are both accepted and the first one stays the tip; the node reloads exactly when that one has the smaller hash, and fails with a best-tip mismatch otherwise |
| Ties.ExactlyOneOrderReloads | src/sqlite_store.rs:1152-1175 | of the two orders of arrival exactly one survives a restart |
| Persistence.UpsertOutcome | src/sqlite_store.rs:1219-1224 | after the upserts the block's ids have confirmed rows and no pending rows or edges |
| Persistence.InsertOutcome | src/sqlite_store.rs:1225-1227 | after the insertions each block transaction has exactly its own edges, all others are untouched |
| Persistence.BlockEdgesAreIndexed | src/sqlite_store.rs:1382-1412 | edges built from block-local outputs and persisted rows are those of the whole chain |
| Persistence.ConfirmedSaved | src/sqlite_store.rs:1208-1230 | confirming a block completes the index when everything outside the block was indexed |
| Synchrony.HonestIsIndexable | src/sqlite_store.rs:1495-1557 | in an honest state the index is well defined: every input refers to an earlier indexed transaction |
| Synchrony.SaveWritesSnapshot | src/sqlite_store.rs:965-1078 | a full save writes one row and one edge group per transaction of best chain and pool |
| Synchrony.PendingSaved | src/sqlite_store.rs:232-291 | saving an admitted transaction keeps the tables in step, although displaced rows remain |
| Synchrony.StaleDeleted | src/sqlite_store.rs:1178-1205 | deleting stale rows leaves exactly the index of the remaining pool |
| Synchrony.IncrementalSave | src/sqlite_store.rs:348-367 | saving an extension of the best chain without refresh writes what a full save would |
| RepeatedIds.RebuildKeepsFirst | src/sqlite_store.rs:1508-1516 | the rebuild keeps the first row of a repeated id |
| RepeatedIds.UpsertsKeepLast | src/sqlite_store.rs:1219-1224 | the incremental upserts keep the last |
| RepeatedIds.IncrementalSaveIff | src/sqlite_store.rs:348-367 | so an extension saved without refresh equals a full save exactly when the block brings only new ids |
| RepeatedIds.BlockSaveIff | src/server.rs:1400-1461 | the server's save of an extension equals a full save exactly when it refreshes or the block brings only new ids |
| RepeatedIds.RepeatedCoinbaseSplits | src/server.rs:2051-2090 | a block that only repeats a coinbase of the best chain is accepted, leaves the pool alone, is saved without a refresh, and the tables then differ from a full save |
| Synchrony.RefreshedSave | src/server.rs:1439-1461 | a refresh after a new best tip equals a full save, whatever the index held and whatever ids repeat, also after a reorganisation |
| Synchrony.SideBranchSaved | src/sqlite_store.rs:348-367 | a block off the best chain only adds its record |
| Synchrony.BlockSaved | src/server.rs:1439-1461 | the decision when to refresh is right: every saved block keeps the tables in step, and on the best chain they equal a full save |
| Server.TxHandled | src/server.rs:904-951 | an announced transaction keeps the tables in step |
| Server.BlockHandled | src/server.rs:860-951 | an announced or mined block does too, and on the best chain the tables equal a full save |
| Server.TablesStayInStep | src/server.rs:1400-1461 | along every clean history the chain tables equal the node's, the persisted pool contains the pending one, and the index is that of the persisted pool |
| Server.IncrementalEqualsFull | src/server.rs:1400-1461 | whenever the last message saved a best-chain block, extension or reorganisation, the tables are what a full save writes, and a restart loads exactly the node if and only if its tip comes first |
| Restarts.PersistedStaysValid | src/sqlite_store.rs:232-291 | along every clean history each persisted pending transaction stays valid, displaced ones included |
| Restarts.RestartOutcome | src/sqlite_store.rs:935-957 | at any point of a clean history a restart succeeds exactly when the tip comes first, and loads the node with the persisted pool |
| Restarts.MinedSavesBest | src/server.rs:860-899 | a mined block is always saved on the best chain |
| Restarts.PoolsEqualIff | src/sqlite_store.rs:232-291 | persisted and running pool are equal exactly when nothing was displaced since the last block saved on the best chain |
| Restarts.RestartRestoresIff | src/sqlite_store.rs:935-957 | so a restart restores the running node exactly when the tip comes first and nothing was displaced since; otherwise the loaded pool breaks the pool's own rules |
| Restarts.RestartAfterSubmission | src/sqlite_store.rs:232-291 | the same for one submission to any settled node right after a full save, with its effect named |
| AllRuns.TablesHoldAccepted | src/server.rs:860-951 | in every run, whatever is rejected, the stored blocks and entries are exactly those of the accepted blocks |
| AllRuns.PartIsSettled | src/sqlite_store.rs:1152-1175 | the accepted blocks of a reachable node form a settled node on the tip a replay arrives at |
| AllRuns.RestartOfAnyRun | src/sqlite_store.rs:935-957 | in every run the stored blocks replay to that node, and the exact outcome of the three comparisons follows |
| AllRuns.SaveUnderFailedTip | src/sqlite_store.rs:116-147 | a block saved while the best tip is a failed block persists a tip that is not stored, and the restart fails with a best-tip mismatch |
| LiveServer.LiveServer.HandleTx | src/server.rs:904-951 | node and tables change as specified |
| LiveServer.LiveServer.HandleBlock | src/server.rs:904-951 | likewise; a rejected block is not persisted |
| LiveServer.LiveServer.HandleMinePending | src/server.rs:860-899 | likewise for mining on request |
| LiveServer.LiveServer.HandleMinedCandidate | src/server.rs:1188-1201 | a block from the background miner is handled like an announced one, unless the tip moved on; then nothing changes |

## Left out

- SHA-256 and Ed25519 themselves: they are parameters, constrained only where a theorem names a law.
- The nonce search: that it ends is a matter of chance; mining is modelled from the nonce it finds.
- SQL, binary row encoding, hex and transactions of the database: tables are maps, each save is atomic.
- Row timestamps (first seen, last updated) and the peers table.
- Sockets, framing, timeouts, retries, relaying, peer selection, command line, wallet and logging.
- A peer that lies or withholds blocks: the peer answers from its own store, as `get_tip` and `get_block` do.
- Catching up before retrying an orphan announcement, and table saves for messages that change nothing.
- Saving during a sync pass: each synced block is accepted and saved like an announced one, with the tip and pool ids from just before it.
- The closing of the miner's channel, and runs with 2^64 or more generation increments.
- MinerWorker.StepKeepsInv: the worker loop is a state machine over its atomic steps rather than a loop, because the property is about interleavings.
- Heights are unbounded naturals; the source stores them in 64 bits.
- MiningLoop.MiningClosesTheLoop: assumes that the supply fits in 64 bits, because the fee sum of the source can overflow otherwise.
- Payment.BuildPayment: assumes that the inputs needed can be counted in four bytes, because the source aborts on more.
- Store.ReplayOrder: the sort is specified by its result; the database's ordering is not modelled.
- Encoding, sorting and iterator chains that the source writes as expressions are functions here, without intermediate buffers.
