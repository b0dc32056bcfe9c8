/** Runs in which every indexed block also passed the UTXO check: the active set is the best chain. */
module ActiveChain {
  import opened Primitives
  import opened Crypto
  import opened Types
  import opened State
  import opened Sums
  import opened Chain
  import opened Mempool
  import opened Replay
  import opened NodeState
  import Consensus
  import Candidate

  /** Every indexed block has a snapshot. */
  ghost predicate Settled(n: Node) {
    Consistent(n) && n.snapshots.Keys == n.chain.entries.Keys
  }

  lemma ConsistentPool(n: Node)
    requires Consistent(n)
    ensures PoolInv(n.mempool, n.activeUtxos)
  {
    hide TreeExplained, CacheExplained, ActiveExplained, PoolInv;
  }

  /** The best tip passed the check of its transactions. */
  ghost predicate TipApplied(n: Node) {
    n.chain.bestTip.Some? ==> n.chain.bestTip.value in n.snapshots
  }

  /** This holds in particular when every block passed. */
  lemma SettledTipApplied(n: Node)
    requires Settled(n)
    ensures TipApplied(n)
  {
    hide CacheExplained, ActiveExplained, PoolInv, EntryExplained, Linked, IsRoot;
  }

  /** The active set belongs to the best tip: a reorganisation leaves nothing of the old branch. */
  lemma ActiveIsBestChain(n: Node)
    requires Consistent(n) && TipApplied(n)
    ensures n.chain.bestTip.None? ==> n.activeUtxos == map[]
    ensures n.chain.bestTip.Some? ==>
      && n.chain.bestTip.value in n.snapshots
      && n.activeUtxos == n.snapshots[n.chain.bestTip.value]
      && ReplayBlocks(PathBlocks(n.chain, n.blocks, n.chain.bestTip.value)) == Ok(n.activeUtxos)
  {
    hide PoolInv, CacheExplained, EntryExplained, ReplayBlocks;
    CachedAreIndexed(n);
    if n.chain.bestTip.Some? {
      CacheRefinesReplay(n, n.chain.bestTip.value);
    }
  }

  lemma InstallKeys(n: Node, h: Hash, snapshot: Utxos)
    ensures Install(n, h, snapshot).snapshots.Keys == n.snapshots.Keys + {h}
    ensures Install(n, h, snapshot).chain == n.chain && Install(n, h, snapshot).blocks == n.blocks
  {
    hide PruneInvalid;
  }

  /** An accepted block, and a block the index refuses, leave every indexed block with a snapshot. */
  lemma AcceptKeepsSettled(n: Node, b: Block)
    requires Settled(n)
    requires AcceptBlock(n, b).1.Ok? || AcceptBlock(n, b).1.error.ChainFailure?
    ensures Settled(AcceptBlock(n, b).0)
  {
    hide HeaderHash, Consensus.ValidateBlock, NewEntry, EnsureSnapshot, Consistent, Install;
    AcceptKeepsConsistent(n, b);
    if BlockHash(b) in n.chain.entries {
      KnownBlockIsNoOp(n, b);
    } else if Consensus.ValidateBlock(b).Ok? && NewEntry(n.chain, b).Ok? {
      var e := NewEntry(n.chain, b).value;
      StoredAreIndexed(n);
      AcceptNew(n, b, e);
      SnapshotErrors(Indexed(n, b, e), e);
      var ensured := EnsureSnapshot(Indexed(n, b, e), e.blockHash, e.parent, e.height);
      InstallKeys(Indexed(n, b, e), e.blockHash, ensured.value);
    }
  }

  lemma StoredAreIndexed(n: Node)
    requires Consistent(n)
    ensures n.blocks.Keys == n.chain.entries.Keys && Tree(n.chain)
  {
  }

  lemma SnapshotErrors(n: Node, e: ChainIndexEntry)
    ensures EnsureSnapshot(n, e.blockHash, e.parent, e.height).Err? ==>
            !EnsureSnapshot(n, e.blockHash, e.parent, e.height).error.ChainFailure?
  {
    hide Consensus.ApplyBlock;
  }

  /** The step did not index a block that then failed the UTXO check. */
  ghost predicate CleanStep(n: Node, op: Operation) {
    match op
    case AcceptOp(b) => AcceptBlock(n, b).1.Ok? || AcceptBlock(n, b).1.error.ChainFailure?
    case SubmitOp(_) => true
    case MineOp(r, nonce) =>
      || MineBlock(n, r, nonce).1.Ok?
      || MineBlock(n, r, nonce).1.error.ChainFailure?
      || MineBlock(n, r, nonce).1.error.FeeFailure?
  }

  ghost predicate CleanRun(ops: seq<Operation>) {
    ops != [] ==> CleanRun(ops[..|ops| - 1]) && CleanStep(Run(ops[..|ops| - 1]), ops[|ops| - 1])
  }

  lemma AcceptErrors(n: Node, b: Block)
    ensures AcceptBlock(n, b).1.Err? ==> !AcceptBlock(n, b).1.error.FeeFailure?
  {
    hide Consensus.ApplyBlock, Consensus.ValidateBlock, NewEntry, HeaderHash, Install;
  }

  /** The block `h` is indexed but was never given a snapshot. */
  ghost predicate Failed(n: Node, h: Hash) {
    h in n.chain.entries && h !in n.snapshots
  }

  /** A block that failed once stays failed, whatever block arrives. */
  lemma FailedStays(n: Node, b: Block, h: Hash)
    requires Consistent(n) && Failed(n, h)
    ensures Failed(AcceptBlock(n, b).0, h)
  {
    hide HeaderHash, Consensus.ValidateBlock, NewEntry, EnsureSnapshot, Consistent, Install, Overtakes;
    if BlockHash(b) in n.chain.entries {
      KnownBlockIsNoOp(n, b);
    } else if Consensus.ValidateBlock(b).Ok? && NewEntry(n.chain, b).Ok? {
      var e := NewEntry(n.chain, b).value;
      StoredAreIndexed(n);
      AcceptNew(n, b, e);
      NewEntryFits(n, b);
      var ensured := EnsureSnapshot(Indexed(n, b, e), e.blockHash, e.parent, e.height);
      if ensured.Ok? {
        InstallKeys(Indexed(n, b, e), e.blockHash, ensured.value);
      }
    }
  }

  /** An unclean accept leaves a failed block behind. */
  lemma UncleanFails(n: Node, b: Block)
    requires Consistent(n) && AcceptBlock(n, b).1.Err? && !AcceptBlock(n, b).1.error.ChainFailure?
    ensures Failed(AcceptBlock(n, b).0, BlockHash(b))
  {
    hide HeaderHash, Consensus.ValidateBlock, NewEntry, EnsureSnapshot, Consistent, Install, Overtakes;
    if BlockHash(b) in n.chain.entries {
      KnownBlockIsNoOp(n, b);
    } else if Consensus.ValidateBlock(b).Ok? && NewEntry(n.chain, b).Ok? {
      var e := NewEntry(n.chain, b).value;
      StoredAreIndexed(n);
      AcceptNew(n, b, e);
      NewEntryFits(n, b);
      CachedAreIndexed(n);
    }
  }

  /** The node after a step has the chain, blocks and snapshots it has after accepting one block, or none. */
  lemma StepAccepts(n: Node, op: Operation) returns (b: Option<Block>)
    ensures var m := if b.None? then n else AcceptBlock(n, b.value).0;
            && Step(n, op).chain == m.chain && Step(n, op).blocks == m.blocks
            && Step(n, op).snapshots == m.snapshots
    ensures CleanStep(n, op) <==> (b.Some? && AcceptBlock(n, b.value).1.Err? ==>
                                     AcceptBlock(n, b.value).1.error.ChainFailure?)
  {
    hide AcceptBlock, Collect, SumFees, SubmitTransaction, HeaderHash;
    match op {
      case AcceptOp(block) => b := Some(block);
      case SubmitOp(_) => b := None;
      case MineOp(r, nonce) =>
        if MiningCandidate(n, r).Ok? {
          b := Some(Candidate.WithNonce(MiningCandidate(n, r).value, nonce));
          AcceptErrors(n, b.value);
        } else {
          b := None;
        }
    }
  }

  lemma StepKeepsFailed(n: Node, op: Operation, h: Hash)
    requires Consistent(n) && Failed(n, h)
    ensures Failed(Step(n, op), h)
  {
    hide Consistent, AcceptBlock, Step, CleanStep;
    var b := StepAccepts(n, op);
    if b.Some? {
      FailedStays(n, b.value, h);
    }
  }

  /** A block that failed once is refused in every later state, whatever happens in between. */
  lemma {:induction false} FailedForever(n: Node, ops: seq<Operation>, b: Block)
    requires Consistent(n) && Failed(n, BlockHash(b))
    ensures Failed(RunFrom(n, ops), BlockHash(b)) && AcceptBlock(RunFrom(n, ops), b).1.Err?
  {
    hide Consistent, Step, AcceptBlock, HeaderHash;
    if ops != [] {
      FailedForever(n, ops[..|ops| - 1], b);
      RunFromKeepsConsistent(n, ops[..|ops| - 1]);
      StepKeepsFailed(RunFrom(n, ops[..|ops| - 1]), ops[|ops| - 1], BlockHash(b));
    }
    RunFromKeepsConsistent(n, ops);
    KnownBlockIsNoOp(RunFrom(n, ops), b);
  }

  lemma SettledIffNoneFailed(n: Node)
    requires Consistent(n)
    ensures Settled(n) <==> forall h :: !Failed(n, h)
  {
    hide Consistent;
    CachedAreIndexed(n);
    if forall h :: !Failed(n, h) {
      assert forall h :: h in n.chain.entries ==> !Failed(n, h);
    }
  }

  lemma StepSettledIff(n: Node, op: Operation)
    requires Consistent(n) && Consistent(Step(n, op))
    ensures Settled(Step(n, op)) <==> Settled(n) && CleanStep(n, op)
  {
    hide Consistent, AcceptBlock, Step, CleanStep, Settled;
    SettledIffNoneFailed(n);
    SettledIffNoneFailed(Step(n, op));
    var b := StepAccepts(n, op);
    if b.Some? {
      if h :| Failed(n, h) {
        StepKeepsFailed(n, op, h);
      } else if CleanStep(n, op) {
        AcceptKeepsSettled(n, b.value);
        AcceptKeepsConsistent(n, b.value);
        SettledIffNoneFailed(AcceptBlock(n, b.value).0);
        assert forall h :: Failed(Step(n, op), h) <==> Failed(AcceptBlock(n, b.value).0, h);
      } else {
        UncleanFails(n, b.value);
        assert Failed(Step(n, op), BlockHash(b.value));
      }
    } else {
      assert forall h :: Failed(Step(n, op), h) <==> Failed(n, h);
    }
  }

  /** A run ends settled exactly when it was clean: a single failed block is never made good. */
  lemma {:induction false} SettledIffClean(ops: seq<Operation>)
    ensures Settled(Run(ops)) <==> CleanRun(ops)
  {
    hide Step, Settled, CleanStep, Consistent;
    if ops == [] {
      NewNodeSettled();
    } else {
      var front := ops[..|ops| - 1];
      SettledIffClean(front);
      RunsAreConsistent(front);
      RunsAreConsistent(ops);
      StepSettledIff(Run(front), ops[|ops| - 1]);
    }
  }

  lemma NewNodeSettled()
    ensures Settled(NewNode())
  {
    NewNodeConsistent();
  }

  // ---- Overflow is unreachable ------------------------------------------------------------

  /** One subsidy per block of the longest branch fits in 64 bits. */
  ghost predicate SupplyFits(n: Node) {
    forall h :: h in n.chain.entries ==> Consensus.BLOCK_SUBSIDY * (n.chain.entries[h].height + 1) <= U64_MAX
  }

  /** And so does the subsidy of one more block. */
  ghost predicate NextSubsidyFits(n: Node) {
    forall h :: h in n.chain.entries ==> Consensus.BLOCK_SUBSIDY * (n.chain.entries[h].height + 2) <= U64_MAX
  }

  lemma ActiveSupplyBound(n: Node)
    requires Consistent(n)
    ensures SupplyFits(n) ==> Total(n.activeUtxos) <= U64_MAX
    ensures NextSubsidyFits(n) ==> Total(n.activeUtxos) + Consensus.BLOCK_SUBSIDY <= U64_MAX
  {
    hide Total, PoolInv, TreeExplained, CacheExplained;
    CachedAreIndexed(n);
    if n.activeUtxos == map[] {
      TotalEmpty();
    } else {
      var h :| h in n.snapshots && n.activeUtxos == n.snapshots[h];
      SnapshotSupplyBound(n, h);
    }
  }

  /** In every reachable state whose supply fits, no pending transaction is refused for input overflow. */
  lemma SubmitNeverOverflows(n: Node, tx: Transaction)
    requires Consistent(n) && SupplyFits(n)
    ensures Submit(n, tx).1 != Err(MempoolFailure(Mempool.InvalidTransaction(InputValueOverflow)))
  {
    hide Consistent, SupplyFits, Validate, Txid, Total, ConflictRefusal, CapacityRefusal, Displaced;
    ActiveSupplyBound(n);
    ValidateNeverOverflowsInputs(n.activeUtxos, tx);
    RefusalKinds(n.mempool, n.activeUtxos, tx);
  }

  lemma RefusalKinds(pool: Pool, u: Utxos, tx: Transaction)
    ensures forall fee: u64 :: ConflictRefusal(pool, u, tx, fee).Some? ==>
              !ConflictRefusal(pool, u, tx, fee).value.InvalidTransaction?
    ensures forall fee: u64 :: CapacityRefusal(pool, u, tx, fee).Some? ==>
              !CapacityRefusal(pool, u, tx, fee).value.InvalidTransaction?
  {
  }

  /** And no block is, while one more subsidy fits. */
  lemma AcceptNeverOverflows(n: Node, b: Block)
    requires Consistent(n) && NextSubsidyFits(n)
    ensures AcceptBlock(n, b).1
            != Err(ConsensusFailure(Consensus.InvalidTransaction(InputValueOverflow)))
  {
    hide Consensus.ApplyBlock, Consensus.ValidateBlock, HeaderHash, Install, Total, Consistent, NextSubsidyFits;
    var (chain, inserted) := InsertBlock(n.chain, b);
    if inserted.Ok? {
      var e := inserted.value;
      assert ParentSnapshot(n.snapshots, e.parent).Ok? ==>
        Total(ParentSnapshot(n.snapshots, e.parent).value) + Consensus.BLOCK_SUBSIDY <= U64_MAX by
      {
        ParentSupplyBound(n, e.parent);
      }
      if ParentSnapshot(n.snapshots, e.parent).Ok? {
        var u := ParentSnapshot(n.snapshots, e.parent).value;
        forall block, height {:trigger Consensus.ApplyBlock(u, block, height)}
          ensures Consensus.ApplyBlock(u, block, height) != Err(Consensus.InvalidTransaction(InputValueOverflow))
        {
          Consensus.BlockNeverOverflows(u, block, height);
        }
      }
    }
  }

  lemma ParentSupplyBound(n: Node, parent: Option<Hash>)
    requires Consistent(n) && NextSubsidyFits(n)
    ensures ParentSnapshot(n.snapshots, parent).Ok? ==>
            Total(ParentSnapshot(n.snapshots, parent).value) + Consensus.BLOCK_SUBSIDY <= U64_MAX
  {
    hide Total, Consistent;
    CachedAreIndexed(n);
    if parent.None? {
      TotalEmpty();
    } else if parent.value in n.snapshots {
      SnapshotSupplyBound(n, parent.value);
    }
  }

  // ---- Balances ---------------------------------------------------------------------------

  ghost function Owned(u: Utxos, key: Hash): map<OutPoint, nat> {
    map o | o in u && u[o].output.lockingData == key :: u[o].output.value
  }

  /** The value locked to `key`. */
  ghost function Balance(u: Utxos, key: Hash): nat {
    Sum(Owned(u, key))
  }

  /** The unchecked sum of a balance cannot overflow while the supply fits. */
  lemma BalanceFits(n: Node, key: Hash)
    requires Consistent(n) && SupplyFits(n)
    ensures Balance(n.activeUtxos, key) <= U64_MAX
  {
    hide Consistent, SupplyFits;
    ActiveSupplyBound(n);
    SumMonotone(Owned(n.activeUtxos, key), Values(n.activeUtxos));
  }
}
