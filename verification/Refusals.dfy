/** Which error a block is refused with: the first rule it breaks, in the order the node checks them. */
module Refusals {
  import opened Primitives
  import opened Crypto
  import opened Types
  import opened Bytes
  import opened State
  import opened Chain
  import opened Mempool
  import opened NodeState
  import opened BlockRules
  import opened Authorisation
  import opened Acceptance
  import ActiveChain
  import Consensus
  import Merkle
  import PowTarget

  // ---- A block by itself ------------------------------------------------------------------

  /** The first rule a block breaks by itself. */
  ghost predicate FaultOf(b: Block, e: Consensus.ConsensusError) {
    match TargetValue(b.header.bits)
    case None => e == Consensus.InvalidPowTarget
    case Some(target) =>
      if BigEndian(BlockHash(b)) > target then e == Consensus.InsufficientProofOfWork
      else if b.transactions == [] then e == Consensus.EmptyBlock
      else if b.transactions[0].inputs != [] then e == Consensus.FirstTransactionNotCoinbase
      else if exists i :: 1 <= i < |b.transactions| && b.transactions[i].inputs == [] then
        e == Consensus.MultipleCoinbaseTransactions
      else b.header.merkleRoot != Merkle.MerkleRoot(b.transactions) && e == Consensus.BadMerkleRoot
  }

  lemma BlockErrorIsFirstFault(b: Block, e: Consensus.ConsensusError)
    ensures Consensus.ValidateBlock(b) == Err(e) <==> FaultOf(b, e)
  {
    hide PowTarget.FromCompact, PowTarget.IsMetBy, PowTarget.Mantissa, PowTarget.Exponent, PowTarget.IsNegative,
      BlockHash, Merkle.MerkleRoot, BigEndian, Pow256;
    PowTarget.FromCompactValue(b.header.bits);
    if PowTarget.FromCompact(b.header.bits).Some? {
      PowTarget.IsMetByIsNumeric(PowTarget.FromCompact(b.header.bits).value, BlockHash(b));
    }
  }

  // ---- The transactions of a block --------------------------------------------------------

  /** Transactions `k` up to `j` are acceptable where they stand, and the fees fit all the way. */
  ghost predicate CleanBetween(u: Utxos, txs: seq<Transaction>, height: nat, k: nat, j: nat) {
    && k <= j <= |txs|
    && (forall i :: k <= i < j ==> AcceptableAt(u, txs, height, i))
    && (forall i :: k <= i <= j ==> FeesAfter(u, txs, height, i) <= U64_MAX)
  }

  /** Transaction `j` is refused where it stands, or its fee makes the sum overflow. */
  ghost predicate FaultAt(u: Utxos, txs: seq<Transaction>, height: nat, j: nat, e: ValidationError)
    requires j < |txs|
  {
    || RefusedFor(StateAfter(u, txs, height, j), txs[j], e)
    || (AcceptableAt(u, txs, height, j) && FeesAfter(u, txs, height, j + 1) > U64_MAX && e == InputValueOverflow)
  }

  ghost predicate FirstFault(u: Utxos, txs: seq<Transaction>, height: nat, k: nat, e: ValidationError) {
    exists j :: k <= j < |txs| && CleanBetween(u, txs, height, k, j) && FaultAt(u, txs, height, j, e)
  }

  lemma FaultHere(u: Utxos, txs: seq<Transaction>, height: nat, k: nat, e: ValidationError)
    requires k < |txs| && FeesAfter(u, txs, height, k) <= U64_MAX
    ensures FaultAt(u, txs, height, k, e) ==> FirstFault(u, txs, height, k, e)
  {
    hide FaultAt, FeesAfter;
    assert CleanBetween(u, txs, height, k, k);
  }

  lemma FaultIsHereOrLater(u: Utxos, txs: seq<Transaction>, height: nat, k: nat, e: ValidationError)
    requires k < |txs| && FeesAfter(u, txs, height, k) <= U64_MAX
    ensures FirstFault(u, txs, height, k, e) <==>
            || FaultAt(u, txs, height, k, e)
            || (AcceptableAt(u, txs, height, k) && FeesAfter(u, txs, height, k + 1) <= U64_MAX
                && FirstFault(u, txs, height, k + 1, e))
  {
    hide FaultAt, FeesAfter, AcceptableAt;
    FaultHere(u, txs, height, k, e);
    if FirstFault(u, txs, height, k, e) && !FaultAt(u, txs, height, k, e) {
      var j :| k <= j < |txs| && CleanBetween(u, txs, height, k, j) && FaultAt(u, txs, height, j, e);
      assert k < j && CleanBetween(u, txs, height, k + 1, j);
    }
    if AcceptableAt(u, txs, height, k) && FirstFault(u, txs, height, k + 1, e) {
      var j :| k + 1 <= j < |txs| && CleanBetween(u, txs, height, k + 1, j) && FaultAt(u, txs, height, j, e);
      assert CleanBetween(u, txs, height, k, j);
    }
  }

  /** A transaction is refused with one error or is acceptable. */
  lemma RefusedOrAcceptable(u: Utxos, tx: Transaction, e: ValidationError)
    ensures Validate(u, tx) == Err(e) <==> RefusedFor(u, tx, e)
    ensures Validate(u, tx).Ok? <==> Acceptable(u, tx)
    ensures Validate(u, tx).Ok? ==> Validate(u, tx).value.fee == Fee(u, tx)
  {
    hide Validate, RefusedFor, Acceptable, Fee;
    ErrorIsFirstBroken(u, tx, e);
    ValidateIffAcceptable(u, tx);
  }

  lemma {:induction false} LoopErrorIff(u: Utxos, txs: seq<Transaction>, height: nat, k: nat, e: ValidationError)
    requires k <= |txs| && 0 <= FeesAfter(u, txs, height, k) <= U64_MAX
    ensures Consensus.ApplyTransactions(
              StateAfter(u, txs, height, k), txs[k..], height, FeesAfter(u, txs, height, k)) == Err(e)
            <==> FirstFault(u, txs, height, k, e)
    decreases |txs| - k
  {
    hide Acceptable, Validate, Fee, Apply, RefusedFor, FirstFault;
    if k < |txs| {
      var here := StateAfter(u, txs, height, k);
      assert txs[k..][0] == txs[k] && txs[k..][1..] == txs[k + 1..];
      RefusedOrAcceptable(here, txs[k], e);
      FaultIsHereOrLater(u, txs, height, k, e);
      if Acceptable(here, txs[k]) {
        AcceptableHasFee(here, txs[k]);
        if FeesAfter(u, txs, height, k + 1) <= U64_MAX {
          LoopErrorIff(u, txs, height, k + 1, e);
        }
      }
    } else {
      NoFaultAtEnd(u, txs, height, e);
      assert txs[k..] == [];
    }
  }

  lemma NoFaultAtEnd(u: Utxos, txs: seq<Transaction>, height: nat, e: ValidationError)
    ensures !FirstFault(u, txs, height, |txs|, e)
  {
  }

  // ---- Applying a block -------------------------------------------------------------------

  /** What is wrong with the coinbase when `fees` may be claimed. */
  ghost predicate CoinbaseFault(coinbase: Transaction, fees: int, e: Consensus.ConsensusError) {
    var claimed := OutputSum(coinbase.outputs);
    if 50 + fees > U64_MAX then e == Consensus.InvalidTransaction(InputValueOverflow)
    else if claimed > U64_MAX then e == Consensus.InvalidTransaction(OutputValueOverflow)
    else if claimed > 50 + fees then
      e.CoinbaseRewardTooLarge? && e.allowed == 50 + fees && e.actual == claimed
    else coinbase.outputs == [] && e == Consensus.InvalidTransaction(EmptyOutputs)
  }

  /** Why a block does not apply to `u`: a fault of its own, else its first faulty transaction after the
      coinbase, else the coinbase. */
  ghost predicate BlockFault(u: Utxos, b: Block, height: nat, e: Consensus.ConsensusError) {
    if !WellFormed(b) then FaultOf(b, e)
    else
      var rest := b.transactions[1..];
      if AcceptableFrom(u, rest, height, 0) && FeesAfter(u, rest, height, |rest|) <= U64_MAX
      then CoinbaseFault(b.transactions[0], FeesAfter(u, rest, height, |rest|), e)
      else e.InvalidTransaction? && FirstFault(u, rest, height, 0, e.error)
  }

  lemma CoinbaseError(u: Utxos, coinbase: Transaction, height: nat, fees: u64, e: Consensus.ConsensusError)
    requires coinbase.IsCoinbase()
    ensures Consensus.ApplyCoinbase(u, coinbase, height, fees) == Err(e) <==> CoinbaseFault(coinbase, fees, e)
  {
    hide Apply, OutputSum;
  }

  /** A block fails to apply with an error exactly when that error names its first fault. */
  lemma ApplyErrorIff(u: Utxos, b: Block, height: nat, e: Consensus.ConsensusError)
    ensures Consensus.ApplyBlock(u, b, height) == Err(e) <==> BlockFault(u, b, height, e)
  {
    hide WellFormed, Consensus.ValidateBlock, AcceptableFrom, Consensus.ApplyTransactions, Consensus.ApplyCoinbase,
      FaultOf, FirstFault, CoinbaseFault;
    ValidateBlockIff(b);
    BlockErrorIsFirstFault(b, e);
    if WellFormed(b) {
      WellFormedShape(b);
      var rest := b.transactions[1..];
      assert rest[0..] == rest;
      LoopIff(u, rest, height, 0);
      if Consensus.ApplyTransactions(u, rest, height, 0).Ok? {
        CoinbaseError(StateAfter(u, rest, height, |rest|), b.transactions[0], height,
                      Consensus.ApplyTransactions(u, rest, height, 0).value.1, e);
      } else if e.InvalidTransaction? {
        LoopErrorIff(u, rest, height, 0, e.error);
      }
    }
  }

  // ---- Indexing and accepting -------------------------------------------------------------

  /** Why the index refuses a block. */
  ghost predicate CannotPlace(c: Index, b: Block, e: ChainError) {
    var prev := b.header.prevBlockhash;
    if !WellFormed(b) then e.InvalidBlock? && FaultOf(b, e.error)
    else if BlockHash(b) in c.entries then false
    else if c.entries == map[] then prev != DEFAULT_HASH && e == GenesisHasParent
    else if prev !in c.entries then e == MissingParent(prev)
    else
      && BlockWork(b).Ok? && c.entries[prev].cumulativeWork + BlockWork(b).value > U128_MAX
      && e == WorkOverflow
  }

  lemma InsertErrorIff(c: Index, b: Block, e: ChainError)
    ensures InsertBlock(c, b).1 == Err(e) <==> CannotPlace(c, b, e)
  {
    hide HeaderHash, WellFormed, Consensus.ValidateBlock, BlockWork, FaultOf;
    ValidateBlockIff(b);
    if WellFormed(b) {
      WellFormedHasWork(b);
    } else if e.InvalidBlock? {
      BlockErrorIsFirstFault(b, e.error);
    }
  }

  /** Why the snapshot of `b` cannot be derived: the parent has none, or the block does not apply to it. */
  ghost predicate NotDerivable(
    snapshots: map<Hash, Utxos>, parent: Option<Hash>, b: Block, height: nat, e: NodeError) {
    match parent
    case None => e.ConsensusFailure? && BlockFault(map[], b, height, e.consensusError)
    case Some(p) =>
      if p !in snapshots then e == MissingParentState(p)
      else e.ConsensusFailure? && BlockFault(snapshots[p], b, height, e.consensusError)
  }

  /** Why a node refuses a block: the index does, or its snapshot cannot be derived. A known block without
      one is judged again by the stored block. */
  ghost predicate Refuses(n: Node, b: Block, e: NodeError) {
    var h, prev := BlockHash(b), b.header.prevBlockhash;
    if !Placeable(n.chain, b) then e.ChainFailure? && CannotPlace(n.chain, b, e.chainError)
    else if h in n.chain.entries then
      var entry := n.chain.entries[h];
      h !in n.snapshots && h in n.blocks && NotDerivable(n.snapshots, entry.parent, n.blocks[h], entry.height, e)
    else if n.chain.entries == map[] then NotDerivable(n.snapshots, None, b, 0, e)
    else NotDerivable(n.snapshots, Some(prev), b, n.chain.entries[prev].height + 1, e)
  }

  lemma SnapshotError(n: Node, h: Hash, parent: Option<Hash>, height: nat, e: NodeError)
    requires h in n.blocks && h !in n.snapshots
    ensures EnsureSnapshot(n, h, parent, height) == Err(e) <==>
            NotDerivable(n.snapshots, parent, n.blocks[h], height, e)
  {
    hide Consensus.ApplyBlock, BlockFault;
    if e.ConsensusFailure? {
      if parent.None? {
        ApplyErrorIff(map[], n.blocks[h], height, e.consensusError);
      } else if parent.value in n.snapshots {
        ApplyErrorIff(n.snapshots[parent.value], n.blocks[h], height, e.consensusError);
      }
    }
  }

  lemma UnplaceableError(n: Node, b: Block, e: NodeError)
    requires !Placeable(n.chain, b)
    ensures AcceptBlock(n, b).1 == Err(e) <==> e.ChainFailure? && CannotPlace(n.chain, b, e.chainError)
  {
    hide HeaderHash, InsertBlock, CannotPlace, Placeable, EnsureSnapshot;
    InsertSucceedsIff(n.chain, b);
    if e.ChainFailure? {
      InsertErrorIff(n.chain, b, e.chainError);
    }
  }

  lemma KnownError(n: Node, b: Block, e: NodeError)
    requires Consistent(n) && Placeable(n.chain, b) && BlockHash(b) in n.chain.entries
    ensures AcceptBlock(n, b).1 == Err(e) <==> Refuses(n, b, e)
  {
    hide HeaderHash, Placeable, Consensus.ValidateBlock, EnsureSnapshot, NotDerivable, Consistent, Install;
    PlaceableIsValid(n.chain, b);
    KnownIsStored(n, BlockHash(b));
    var entry := n.chain.entries[BlockHash(b)];
    EnsureCached(n, BlockHash(b), entry.parent, entry.height);
    if BlockHash(b) !in n.snapshots {
      SnapshotError(n, BlockHash(b), entry.parent, entry.height, e);
    }
  }

  lemma EnsureCached(n: Node, h: Hash, parent: Option<Hash>, height: nat)
    ensures h in n.snapshots ==> EnsureSnapshot(n, h, parent, height).Ok?
  {
  }

  lemma KnownIsStored(n: Node, h: Hash)
    requires Consistent(n) && h in n.chain.entries
    ensures h in n.blocks && n.chain.entries[h].blockHash == h
  {
    hide HeaderHash, Consensus.ValidateBlock, CacheExplained, ActiveExplained, PoolInv, EntryExplained;
    EntryKeyed(n.chain, h);
  }

  lemma NewError(n: Node, b: Block, e: NodeError)
    requires Consistent(n) && Placeable(n.chain, b) && BlockHash(b) !in n.chain.entries
    ensures AcceptBlock(n, b).1 == Err(e) <==> Refuses(n, b, e)
  {
    hide HeaderHash, WellFormed, Consensus.ValidateBlock, EnsureSnapshot, NotDerivable, Consistent, Install, BlockWork;
    InsertSucceedsIff(n.chain, b);
    CachedAreIndexed(n);
    ActiveChain.StoredAreIndexed(n);
    var entry := NewEntry(n.chain, b).value;
    AcceptNew(n, b, entry);
    SnapshotError(Indexed(n, b, entry), entry.blockHash, entry.parent, entry.height, e);
  }

  /** In every reachable state a block is refused with an error exactly when that error names the first
      reason. */
  lemma AcceptErrorIff(n: Node, b: Block, e: NodeError)
    requires Consistent(n)
    ensures AcceptBlock(n, b).1 == Err(e) <==> Refuses(n, b, e)
  {
    hide HeaderHash, Consistent, Placeable, AcceptBlock, NotDerivable, CannotPlace;
    if !Placeable(n.chain, b) {
      UnplaceableError(n, b, e);
    } else if BlockHash(b) in n.chain.entries {
      KnownError(n, b, e);
    } else {
      NewError(n, b, e);
    }
  }
}
