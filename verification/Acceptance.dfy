/** Exactly which blocks a node accepts. */
module Acceptance {
  import opened Primitives
  import opened Crypto
  import opened Types
  import opened Chain
  import opened Mempool
  import opened NodeState
  import opened Replay
  import opened BlockRules
  import Consensus
  import PowTarget

  /** A well-formed block that is known already, starts an empty index, or extends an indexed block
      within the range of the work counter. */
  ghost predicate Placeable(c: Index, b: Block) {
    && WellFormed(b)
    && (BlockHash(b) in c.entries
        || (if c.entries == map[] then b.header.prevBlockhash == DEFAULT_HASH
            else b.header.prevBlockhash in c.entries
                 && BlockWork(b).Ok?
                 && c.entries[b.header.prevBlockhash].cumulativeWork + BlockWork(b).value <= U128_MAX))
  }

  lemma WellFormedHasWork(b: Block)
    requires Consensus.ValidateBlock(b).Ok?
    ensures BlockWork(b).Ok?
  {
    hide PowTarget.FromCompact, PowTarget.Work;
  }

  lemma InsertSucceedsIff(c: Index, b: Block)
    ensures InsertBlock(c, b).1.Ok? <==> Placeable(c, b)
  {
    hide HeaderHash, WellFormed, Consensus.ValidateBlock, BlockWork;
    ValidateBlockIff(b);
    if WellFormed(b) {
      WellFormedHasWork(b);
    }
  }

  /** The block is in the index afterwards, and succeeds exactly when it has a snapshot. */
  lemma AcceptedHasSnapshot(n: Node, b: Block)
    requires Consistent(n) && InsertBlock(n.chain, b).1.Ok?
    ensures var (m, r) := AcceptBlock(n, b);
            BlockHash(b) in m.chain.entries && (r.Ok? <==> BlockHash(b) in m.snapshots)
  {
    hide HeaderHash, Consensus.ValidateBlock, BlockWork, EnsureSnapshot, EntryExplained, PoolInv, ActiveExplained, Tree;
    var h := BlockHash(b);
    if h in n.chain.entries {
      KnownBlockIsNoOp(n, b);
    } else {
      AcceptNew(n, b, NewEntry(n.chain, b).value);
    }
  }

  /** What the node must hold before the call: the block's own snapshot if the block is known, otherwise
      the parent's, and the block must apply to that. */
  ghost predicate Admits(n: Node, b: Block) {
    var h, prev := BlockHash(b), b.header.prevBlockhash;
    && Placeable(n.chain, b)
    && if h in n.chain.entries then h in n.snapshots
       else if n.chain.entries == map[] then Applicable(map[], b, 0)
       else prev in n.snapshots && Applicable(n.snapshots[prev], b, n.chain.entries[prev].height + 1)
  }

  lemma NewBlockSnapshotIff(n: Node, b: Block, e: ChainIndexEntry)
    requires Placeable(n.chain, b) && BlockHash(b) !in n.snapshots && BlockHash(b) !in n.chain.entries
    requires NewEntry(n.chain, b) == Ok(e)
    ensures EnsureSnapshot(Indexed(n, b, e), e.blockHash, e.parent, e.height).Ok? <==> Admits(n, b)
    ensures EnsureSnapshot(Indexed(n, b, e), e.blockHash, e.parent, e.height).Err? ==>
              !EnsureSnapshot(Indexed(n, b, e), e.blockHash, e.parent, e.height).error.ChainFailure?
  {
    hide HeaderHash, WellFormed, Applicable, Consensus.ApplyBlock, BlockWork;
    var u := if n.chain.entries == map[] then map[]
             else if b.header.prevBlockhash in n.snapshots then n.snapshots[b.header.prevBlockhash] else map[];
    WellFormedShape(b);
    ApplyBlockIff(u, b, e.height);
  }

  /** In every reachable state: a block the index cannot place changes nothing; any other block is stored,
      and it is accepted exactly when the node held what the block needs before the call. */
  lemma AcceptSucceedsIff(n: Node, b: Block)
    requires Consistent(n)
    ensures var (m, r) := AcceptBlock(n, b);
            && (r.Ok? <==> Admits(n, b))
            && (if Placeable(n.chain, b) then BlockHash(b) in m.blocks && (r.Err? ==> !r.error.ChainFailure?)
                else m == n && r.Err? && r.error.ChainFailure?)
  {
    hide HeaderHash, EnsureSnapshot, PoolInv, ActiveExplained, EntryExplained, Consensus.ValidateBlock, BlockWork, Tree,
      Placeable, Derived, Install;
    InsertSucceedsIff(n.chain, b);
    if Placeable(n.chain, b) {
      if BlockHash(b) in n.chain.entries {
        KnownBlockIsNoOp(n, b);
        PlacedErrors(n, b);
        PlaceableIsValid(n.chain, b);
      } else {
        var e := NewEntry(n.chain, b).value;
        AcceptNew(n, b, e);
        NewBlockSnapshotIff(n, b, e);
        NewEntryFits(n, b);
        InstallStores(Indexed(n, b, e), e.blockHash);
      }
    }
  }

  lemma PlaceableIsValid(c: Index, b: Block)
    requires Placeable(c, b)
    ensures Consensus.ValidateBlock(b).Ok?
  {
    hide WellFormed, Consensus.ValidateBlock, BlockWork, HeaderHash;
    ValidateBlockIff(b);
  }

  lemma PlacedErrors(n: Node, b: Block)
    requires InsertBlock(n.chain, b).1.Ok?
    ensures AcceptBlock(n, b).1.Err? ==> !AcceptBlock(n, b).1.error.ChainFailure?
  {
    hide HeaderHash, Consensus.ValidateBlock, Consensus.ApplyBlock, NewEntry, Install;
  }

  lemma InstallStores(n: Node, h: Hash)
    ensures forall snapshot :: Install(n, h, snapshot).blocks == n.blocks
  {
    hide PruneInvalid;
  }

  /** Equivalently, the stored blocks from the root to it replay. */
  lemma AcceptedPathReplays(n: Node, b: Block)
    requires Consistent(n) && Placeable(n.chain, b)
    ensures var (m, r) := AcceptBlock(n, b);
            && TreeExplained(m.chain, m.blocks) && BlockHash(b) in m.chain.entries
            && (r.Ok? <==> ReplayBlocks(PathBlocks(m.chain, m.blocks, BlockHash(b))).Ok?)
  {
    hide Placeable, HeaderHash, EnsureSnapshot, CacheExplained, PoolInv, ActiveExplained, EntryExplained, ReplayBlocks,
      InsertBlock;
    InsertSucceedsIff(n.chain, b);
    AcceptKeepsConsistent(n, b);
    AcceptedHasSnapshot(n, b);
    CacheRefinesReplay(AcceptBlock(n, b).0, BlockHash(b));
  }
}
