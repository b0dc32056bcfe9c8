/** The node: fork tree, stored blocks, one cached UTXO set per block, the active set and the pool. */
module NodeState {
  import opened Primitives
  import opened Crypto
  import opened Types
  import opened State
  import opened Chain
  import opened Mempool
  import opened Replay
  import Candidate
  import Consensus
  import PowTarget

  datatype NodeError =
    | ChainFailure(chainError: ChainError)
    | ConsensusFailure(consensusError: Consensus.ConsensusError)
    | FeeFailure(feeError: ValidationError)
    | MempoolFailure(mempoolError: MempoolError)
    | MissingIndexedBlock(hash: Hash)
    | MissingParentState(hash: Hash)

  datatype Node = Node(
    chain: Index,
    activeUtxos: Utxos,
    mempool: Pool,
    blocks: map<Hash, Block>,
    snapshots: map<Hash, Utxos>)

  function NewNode(): Node {
    Node(Chain.Empty(), map[], map[], map[], map[])
  }

  // ---- Accepting blocks -------------------------------------------------------------------

  /** The set to derive a block's snapshot from: its parent's snapshot, or nothing for the root. */
  function ParentSnapshot(snapshots: map<Hash, Utxos>, parent: Option<Hash>): Result<Utxos, NodeError> {
    match parent
    case None => Ok(map[])
    case Some(p) => if p in snapshots then Ok(snapshots[p]) else Err(MissingParentState(p))
  }

  /** The snapshot of block `h`: the cached one, or the block applied to its parent's. */
  function EnsureSnapshot(n: Node, h: Hash, parent: Option<Hash>, height: nat): Result<Utxos, NodeError> {
    if h in n.snapshots then Ok(n.snapshots[h])
    else
      match ParentSnapshot(n.snapshots, parent)
      case Err(e) => Err(e)
      case Ok(u) =>
        if h !in n.blocks then Err(MissingIndexedBlock(h))
        else
          match Consensus.ApplyBlock(u, n.blocks[h], height)
          case Err(e) => Err(ConsensusFailure(e))
          case Ok(v) => Ok(v)
  }

  /** Installs the snapshot of `h`, and switches the active set to it when `h` is the best tip. */
  function Install(n: Node, h: Hash, snapshot: Utxos): Node {
    var m := n.(snapshots := n.snapshots[h := snapshot]);
    if n.chain.bestTip == Some(h) then
      m.(activeUtxos := snapshot, mempool := PruneInvalid(n.mempool, snapshot))
    else m
  }

  /** Indexes `b`, stores it, derives its snapshot and possibly switches the active set. The index
      and the block store keep the block even when its transactions turn out invalid. */
  function AcceptBlock(n: Node, b: Block): (Node, Result<(), NodeError>) {
    var (chain, inserted) := InsertBlock(n.chain, b);
    match inserted
    case Err(e) => (n, Err(ChainFailure(e)))
    case Ok(entry) =>
      var h := entry.blockHash;
      var m := n.(chain := chain, blocks := if h in n.blocks then n.blocks else n.blocks[h := b]);
      match EnsureSnapshot(m, h, entry.parent, entry.height)
      case Err(e) => (m, Err(e))
      case Ok(snapshot) => (Install(m, h, snapshot), Ok(()))
  }

  function Submit(n: Node, tx: Transaction): (Node, Result<Hash, NodeError>) {
    var (pool, r) := SubmitTransaction(n.mempool, n.activeUtxos, tx);
    (n.(mempool := pool), match r case Ok(id) => Ok(id) case Err(e) => Err(MempoolFailure(e)))
  }

  // ---- What every reachable state satisfies -----------------------------------------------

  /** The stored block explains the index entry. */
  ghost predicate EntryExplained(c: Index, blocks: map<Hash, Block>, h: Hash)
    requires h in c.entries && h in blocks
  {
    var e, b := c.entries[h], blocks[h];
    && BlockHash(b) == h
    && Consensus.ValidateBlock(b).Ok?
    && BlockWork(b).Ok?
    && (e.parent.None? ==> b.header.prevBlockhash == DEFAULT_HASH && e.cumulativeWork == BlockWork(b).value)
    && (e.parent.Some? ==>
          && e.parent.value == b.header.prevBlockhash
          && e.parent.value in c.entries
          && e.cumulativeWork == c.entries[e.parent.value].cumulativeWork + BlockWork(b).value)
  }

  /** The snapshot a block should have, judged by its parent's. */
  ghost function Derived(
    c: Index, blocks: map<Hash, Block>, snapshots: map<Hash, Utxos>, h: Hash): Option<Utxos>
    requires h in c.entries && h in blocks
  {
    var e := c.entries[h];
    match ParentSnapshot(snapshots, e.parent)
    case Err(_) => None
    case Ok(u) =>
      match Consensus.ApplyBlock(u, blocks[h], e.height)
      case Err(_) => None
      case Ok(v) => Some(v)
  }

  function Lookup<K, V>(m: map<K, V>, k: K): Option<V> {
    if k in m then Some(m[k]) else None
  }

  ghost predicate ActiveExplained(n: Node) {
    && (n.chain.bestTip.Some? && n.chain.bestTip.value in n.snapshots ==>
          n.activeUtxos == n.snapshots[n.chain.bestTip.value])
    && (n.activeUtxos == map[] || exists h :: h in n.snapshots && n.activeUtxos == n.snapshots[h])
  }

  /** Index and block store describe the same tree. */
  ghost predicate TreeExplained(c: Index, blocks: map<Hash, Block>) {
    && Tree(c)
    && blocks.Keys == c.entries.Keys
    && forall h :: h in blocks ==> EntryExplained(c, blocks, h)
  }

  /** The cache holds exactly the snapshots that derive. */
  ghost predicate CacheExplained(c: Index, blocks: map<Hash, Block>, snapshots: map<Hash, Utxos>)
    requires blocks.Keys == c.entries.Keys
  {
    && snapshots.Keys <= c.entries.Keys
    && forall h :: h in blocks ==> Lookup(snapshots, h) == Derived(c, blocks, snapshots, h)
  }

  /** The invariant of all runs, including runs in which blocks were rejected. */
  ghost predicate Consistent(n: Node) {
    && TreeExplained(n.chain, n.blocks)
    && CacheExplained(n.chain, n.blocks, n.snapshots)
    && ActiveExplained(n)
    && PoolInv(n.mempool, n.activeUtxos)
  }

  lemma NewNodeConsistent()
    ensures Consistent(NewNode())
  {
  }

  // ---- A known block ----------------------------------------------------------------------

  lemma PruneKeepsValidPool(pool: Pool, u: Utxos)
    requires AllValid(pool, u)
    ensures PruneInvalid(pool, u) == pool
  {
  }

  lemma InstallCached(n: Node, h: Hash)
    requires ActiveExplained(n) && AllValid(n.mempool, n.activeUtxos) && h in n.snapshots
    ensures Install(n, h, n.snapshots[h]) == n
  {
    hide PruneInvalid;
    assert n.snapshots[h := n.snapshots[h]] == n.snapshots;
    PruneKeepsValidPool(n.mempool, n.activeUtxos);
  }

  lemma UnderivedFails(n: Node, h: Hash)
    requires h in n.chain.entries && h in n.blocks && h !in n.snapshots
    requires Lookup(n.snapshots, h) == Derived(n.chain, n.blocks, n.snapshots, h)
    ensures EnsureSnapshot(n, h, n.chain.entries[h].parent, n.chain.entries[h].height).Err?
  {
    hide Consensus.ApplyBlock;
  }

  /** Accepting a block whose hash is already known changes nothing, whether or not it is rejected. */
  lemma KnownBlockIsNoOp(n: Node, b: Block)
    requires Consistent(n) && BlockHash(b) in n.chain.entries
    ensures AcceptBlock(n, b).0 == n
    ensures AcceptBlock(n, b).1.Ok? <==> Consensus.ValidateBlock(b).Ok? && BlockHash(b) in n.snapshots
  {
    hide HeaderHash, Consensus.ApplyBlock, Consensus.ValidateBlock, Install, Derived, ActiveExplained, AllValid;
    var h := BlockHash(b);
    assert Linked(n.chain, h);
    if h in n.snapshots {
      InstallCached(n, h);
    } else {
      UnderivedFails(n, h);
    }
  }

  // ---- A new block ------------------------------------------------------------------------

  /** `n` with `b` indexed under `e` and stored, before any snapshot is derived. */
  ghost function Indexed(n: Node, b: Block, e: ChainIndexEntry): Node {
    n.(chain := AddEntry(n.chain, e), blocks := n.blocks[e.blockHash := b])
  }

  /** What is known about the entry of a block that may be indexed. */
  ghost predicate Fits(n: Node, b: Block, e: ChainIndexEntry) {
    && e.blockHash == BlockHash(b) && e.blockHash !in n.chain.entries
    && Consensus.ValidateBlock(b).Ok? && BlockWork(b).Ok?
    && if n.chain.entries == map[] then
         e.parent.None? && e.height == 0 && e.cumulativeWork == BlockWork(b).value
         && b.header.prevBlockhash == DEFAULT_HASH
       else
         var prev := b.header.prevBlockhash;
         && e.parent == Some(prev) && prev in n.chain.entries
         && e.height == n.chain.entries[prev].height + 1
         && e.cumulativeWork == n.chain.entries[prev].cumulativeWork + BlockWork(b).value
  }

  lemma NewEntryFits(n: Node, b: Block)
    requires BlockHash(b) !in n.chain.entries && Consensus.ValidateBlock(b).Ok?
    ensures NewEntry(n.chain, b).Ok? ==> Fits(n, b, NewEntry(n.chain, b).value)
  {
    hide HeaderHash, Consensus.ValidateBlock, PowTarget.FromCompact, PowTarget.Work;
  }

  lemma WorkIsPositive(b: Block)
    requires BlockWork(b).Ok?
    ensures BlockWork(b).value >= 1
  {
  }

  lemma EntryStillExplained(n: Node, b: Block, e: ChainIndexEntry, h: Hash)
    requires n.blocks.Keys == n.chain.entries.Keys && Fits(n, b, e)
    requires h in n.blocks ==> EntryExplained(n.chain, n.blocks, h)
    requires h in n.blocks || h == e.blockHash
    ensures EntryExplained(Indexed(n, b, e).chain, Indexed(n, b, e).blocks, h)
  {
    hide HeaderHash, Consensus.ValidateBlock, BlockWork, Overtakes;
  }

  lemma IndexedTreeExplained(n: Node, b: Block, e: ChainIndexEntry)
    requires TreeExplained(n.chain, n.blocks) && Fits(n, b, e)
    ensures TreeExplained(Indexed(n, b, e).chain, Indexed(n, b, e).blocks)
  {
    hide HeaderHash, Consensus.ValidateBlock, BlockWork, EntryExplained;
    WorkIsPositive(b);
    AddEntryKeepsTree(n.chain, e);
    forall h | h in Indexed(n, b, e).blocks
      ensures EntryExplained(Indexed(n, b, e).chain, Indexed(n, b, e).blocks, h)
    {
      EntryStillExplained(n, b, e, h);
    }
  }

  /** Adding a childless block and possibly its snapshot leaves all other derivations alone. */
  lemma DerivedUnaffected(n: Node, b: Block, e: ChainIndexEntry, snapshots: map<Hash, Utxos>, h: Hash)
    requires Tree(n.chain) && e.blockHash !in n.chain.entries && h in n.chain.entries && h in n.blocks
    requires forall g :: g != e.blockHash ==> Lookup(snapshots, g) == Lookup(n.snapshots, g)
    ensures Derived(Indexed(n, b, e).chain, Indexed(n, b, e).blocks, snapshots, h)
            == Derived(n.chain, n.blocks, n.snapshots, h)
  {
    hide Consensus.ApplyBlock;
    assert Linked(n.chain, h);
    var parent := n.chain.entries[h].parent;
    assert parent.Some? ==> Lookup(snapshots, parent.value) == Lookup(n.snapshots, parent.value);
  }

  lemma DerivedOfNew(n: Node, b: Block, e: ChainIndexEntry, snapshots: map<Hash, Utxos>)
    requires e.blockHash !in n.snapshots && e.parent != Some(e.blockHash)
    requires forall g :: g != e.blockHash ==> Lookup(snapshots, g) == Lookup(n.snapshots, g)
    ensures var m := Indexed(n, b, e);
            var ensured := EnsureSnapshot(m, e.blockHash, e.parent, e.height);
            Derived(m.chain, m.blocks, snapshots, e.blockHash)
            == if ensured.Ok? then Some(ensured.value) else None
  {
    hide Consensus.ApplyBlock;
    assert e.parent.Some? ==> Lookup(snapshots, e.parent.value) == Lookup(n.snapshots, e.parent.value);
  }

  /** How a new, indexable block is accepted: stored in any case, and given a snapshot if it derives. */
  lemma AcceptNew(n: Node, b: Block, e: ChainIndexEntry)
    requires n.blocks.Keys == n.chain.entries.Keys
    requires BlockHash(b) !in n.chain.entries && Consensus.ValidateBlock(b).Ok?
    requires NewEntry(n.chain, b) == Ok(e)
    ensures var m := Indexed(n, b, e);
            var ensured := EnsureSnapshot(m, e.blockHash, e.parent, e.height);
            AcceptBlock(n, b) == match ensured
                                 case Err(error) => (m, Err(error))
                                 case Ok(snapshot) => (Install(m, e.blockHash, snapshot), Ok(()))
  {
    hide HeaderHash, Consensus.ValidateBlock, PowTarget.FromCompact, PowTarget.Work, Consensus.ApplyBlock, Install;
  }

  lemma CacheAfter(n: Node, b: Block, e: ChainIndexEntry, snapshots: map<Hash, Utxos>)
    requires TreeExplained(n.chain, n.blocks) && CacheExplained(n.chain, n.blocks, n.snapshots) && Fits(n, b, e)
    requires var ensured := EnsureSnapshot(Indexed(n, b, e), e.blockHash, e.parent, e.height);
             snapshots == if ensured.Ok? then n.snapshots[e.blockHash := ensured.value] else n.snapshots
    ensures CacheExplained(Indexed(n, b, e).chain, Indexed(n, b, e).blocks, snapshots)
  {
    hide HeaderHash, Consensus.ValidateBlock, BlockWork, Derived, EnsureSnapshot, EntryExplained;
    var m := Indexed(n, b, e);
    forall h | h in m.blocks
      ensures Lookup(snapshots, h) == Derived(m.chain, m.blocks, snapshots, h)
    {
      if h == e.blockHash {
        DerivedOfNew(n, b, e, snapshots);
      } else {
        DerivedUnaffected(n, b, e, snapshots, h);
      }
    }
  }

  lemma RejectedActiveExplained(n: Node, b: Block, e: ChainIndexEntry)
    requires ActiveExplained(n) && e.blockHash !in n.snapshots
    ensures ActiveExplained(Indexed(n, b, e))
  {
    hide Overtakes;
  }

  lemma InstalledActiveExplained(n: Node, b: Block, e: ChainIndexEntry, snapshot: Utxos)
    requires ActiveExplained(n) && e.blockHash !in n.snapshots
    ensures ActiveExplained(Install(Indexed(n, b, e), e.blockHash, snapshot))
  {
    hide Overtakes, PruneInvalid;
    var m := Install(Indexed(n, b, e), e.blockHash, snapshot);
    assert e.blockHash in m.snapshots && m.snapshots[e.blockHash] == snapshot;
    if m.activeUtxos != snapshot && m.activeUtxos != map[] {
      var h :| h in n.snapshots && n.activeUtxos == n.snapshots[h];
      assert h in m.snapshots && m.snapshots[h] == n.activeUtxos;
    }
  }

  lemma InstalledPoolInv(n: Node, h: Hash, snapshot: Utxos)
    requires PoolInv(n.mempool, n.activeUtxos)
    ensures PoolInv(Install(n, h, snapshot).mempool, Install(n, h, snapshot).activeUtxos)
  {
    hide PruneInvalid, Shaped;
    PruneEstablishesInv(n.mempool, snapshot);
  }

  lemma AcceptNewKeepsConsistent(n: Node, b: Block, e: ChainIndexEntry)
    requires Consistent(n) && Fits(n, b, e) && NewEntry(n.chain, b) == Ok(e)
    ensures Consistent(AcceptBlock(n, b).0)
  {
    hide HeaderHash, Consensus.ValidateBlock, BlockWork, Derived, EnsureSnapshot, EntryExplained,
      Tree, PoolInv, ActiveExplained;
    AcceptNew(n, b, e);
    IndexedTreeExplained(n, b, e);
    var m := Indexed(n, b, e);
    var ensured := EnsureSnapshot(m, e.blockHash, e.parent, e.height);
    if ensured.Ok? {
      CacheAfter(n, b, e, n.snapshots[e.blockHash := ensured.value]);
      InstalledActiveExplained(n, b, e, ensured.value);
      InstalledPoolInv(m, e.blockHash, ensured.value);
    } else {
      CacheAfter(n, b, e, n.snapshots);
      RejectedActiveExplained(n, b, e);
    }
  }

  /** Accepting any block, also one that is rejected, keeps the invariant. */
  lemma AcceptKeepsConsistent(n: Node, b: Block)
    requires Consistent(n)
    ensures Consistent(AcceptBlock(n, b).0)
  {
    hide HeaderHash, Consensus.ValidateBlock, NewEntry, EnsureSnapshot, Consistent;
    if BlockHash(b) in n.chain.entries {
      KnownBlockIsNoOp(n, b);
    } else if Consensus.ValidateBlock(b).Ok? && NewEntry(n.chain, b).Ok? {
      NewEntryFits(n, b);
      AcceptNewKeepsConsistent(n, b, NewEntry(n.chain, b).value);
    }
  }

  lemma SubmitKeepsConsistent(n: Node, tx: Transaction)
    requires Consistent(n)
    ensures Consistent(Submit(n, tx).0)
  {
    hide SubmitTransaction, PoolInv, TreeExplained, CacheExplained;
    SubmitKeepsInv(n.mempool, n.activeUtxos, tx);
  }

  // ---- Mining -----------------------------------------------------------------------------

  datatype MiningRequest = MiningRequest(
    subsidy: u64, minerKey: Hash, uniqueness: u32, bits: u32, maxTransactions: nat)

  /** Adds up the fees of `txs`, each judged against `u`, with a checked addition. */
  function SumFees(u: Utxos, txs: seq<Transaction>, total: u64): Result<u64, ValidationError>
    decreases |txs|
  {
    if txs == [] then Ok(total)
    else
      match Validate(u, txs[0])
      case Err(e) => Err(e)
      case Ok(v) =>
        if total + v.fee > U64_MAX then Err(InputValueOverflow) else SumFees(u, txs[1..], total + v.fee)
  }

  /** The parent a new block is mined on. */
  function MiningParent(n: Node): Hash {
    match n.chain.bestTip
    case None => DEFAULT_HASH
    case Some(tip) => tip
  }

  /** The unsolved block for a request. Reward addition wraps, as an unchecked 64-bit addition does. */
  function MiningCandidate(n: Node, r: MiningRequest): Result<Block, ValidationError> {
    var txs := TransactionsOf(Collect(n.mempool, n.activeUtxos, r.maxTransactions));
    match SumFees(n.activeUtxos, txs, 0)
    case Err(e) => Err(e)
    case Ok(fees) =>
      var reward := Wrap64(r.subsidy + fees);
      Ok(Candidate.BuildCandidate(MiningParent(n), reward, r.minerKey, r.uniqueness, r.bits, txs))
  }

  /** Mines with the nonce the search found; a nonce that solves nothing is refused without effect. */
  function MineBlock(n: Node, r: MiningRequest, nonce: u32): (Node, Result<Hash, NodeError>) {
    match MiningCandidate(n, r)
    case Err(e) => (n, Err(FeeFailure(e)))
    case Ok(candidate) =>
      var b := Candidate.WithNonce(candidate, nonce);
      var (m, accepted) := AcceptBlock(n, b);
      match accepted
      case Err(e) => (m, Err(e))
      case Ok(_) =>
        var included := IdsOf(Collect(n.mempool, n.activeUtxos, r.maxTransactions));
        (m.(mempool := m.mempool - included), Ok(BlockHash(b)))
  }

  lemma RemoveKeepsConsistent(n: Node, ids: set<Hash>)
    requires Consistent(n)
    ensures Consistent(n.(mempool := n.mempool - ids))
  {
    hide TreeExplained, CacheExplained, PoolInv;
    RemovalKeepsInv(n.mempool, n.activeUtxos, ids);
  }

  lemma MineKeepsConsistent(n: Node, r: MiningRequest, nonce: u32)
    requires Consistent(n)
    ensures Consistent(MineBlock(n, r, nonce).0)
  {
    hide Consistent, AcceptBlock, MiningCandidate, Collect, HeaderHash;
    if MiningCandidate(n, r).Ok? {
      var b := Candidate.WithNonce(MiningCandidate(n, r).value, nonce);
      AcceptKeepsConsistent(n, b);
      var included := IdsOf(Collect(n.mempool, n.activeUtxos, r.maxTransactions));
      RemoveKeepsConsistent(AcceptBlock(n, b).0, included);
    }
  }

  // ---- Runs -------------------------------------------------------------------------------

  datatype Operation = AcceptOp(block: Block) | SubmitOp(tx: Transaction) | MineOp(request: MiningRequest, nonce: u32)

  function Step(n: Node, op: Operation): Node {
    match op
    case AcceptOp(b) => AcceptBlock(n, b).0
    case SubmitOp(tx) => Submit(n, tx).0
    case MineOp(r, nonce) => MineBlock(n, r, nonce).0
  }

  function RunFrom(n: Node, ops: seq<Operation>): Node {
    if ops == [] then n else Step(RunFrom(n, ops[..|ops| - 1]), ops[|ops| - 1])
  }

  /** The state after any sequence of operations on a new node. */
  function Run(ops: seq<Operation>): Node {
    RunFrom(NewNode(), ops)
  }

  lemma StepKeepsConsistent(n: Node, op: Operation)
    requires Consistent(n)
    ensures Consistent(Step(n, op))
  {
    hide Consistent, AcceptBlock, Submit, MineBlock;
    match op {
      case AcceptOp(b) => AcceptKeepsConsistent(n, b);
      case SubmitOp(tx) => SubmitKeepsConsistent(n, tx);
      case MineOp(r, nonce) => MineKeepsConsistent(n, r, nonce);
    }
  }

  lemma {:induction false} RunFromKeepsConsistent(n: Node, ops: seq<Operation>)
    requires Consistent(n)
    ensures Consistent(RunFrom(n, ops))
  {
    hide Consistent, Step;
    if ops != [] {
      RunFromKeepsConsistent(n, ops[..|ops| - 1]);
      StepKeepsConsistent(RunFrom(n, ops[..|ops| - 1]), ops[|ops| - 1]);
    }
  }

  /** Every run keeps the invariant, whatever is accepted, rejected, submitted or mined. */
  lemma RunsAreConsistent(ops: seq<Operation>)
    ensures Consistent(Run(ops))
  {
    hide Consistent, RunFrom;
    NewNodeConsistent();
    RunFromKeepsConsistent(NewNode(), ops);
  }

  // ---- The cache and replay ---------------------------------------------------------------

  /** The stored blocks from the root to `h`. */
  ghost function PathBlocks(c: Index, blocks: map<Hash, Block>, h: Hash): (bs: seq<Block>)
    requires Tree(c) && blocks.Keys == c.entries.Keys && h in c.entries
    ensures |bs| == c.entries[h].height + 1
    decreases c.entries[h].height
  {
    assert Linked(c, h);
    if c.entries[h].parent.None? then [blocks[h]]
    else PathBlocks(c, blocks, c.entries[h].parent.value) + [blocks[h]]
  }

  ghost function Succeeded<T, E>(r: Result<T, E>): Option<T> {
    match r
    case Ok(v) => Some(v)
    case Err(_) => None
  }

  lemma RootSnapshotIsReplay(c: Index, blocks: map<Hash, Block>, snapshots: map<Hash, Utxos>, h: Hash)
    requires h in c.entries && h in blocks && c.entries[h].parent.None? && c.entries[h].height == 0
    ensures Derived(c, blocks, snapshots, h) == Succeeded(ReplayBlocks([blocks[h]]))
  {
    hide ReplayBlocks, Consensus.ApplyBlock;
    ReplaySnoc([], blocks[h]);
    ReplayNothing();
    assert [] + [blocks[h]] == [blocks[h]];
  }

  lemma ChildSnapshotIsReplay(
    c: Index, blocks: map<Hash, Block>, snapshots: map<Hash, Utxos>, h: Hash, path: seq<Block>)
    requires h in c.entries && h in blocks && c.entries[h].parent.Some? && c.entries[h].height == |path|
    requires Lookup(snapshots, c.entries[h].parent.value) == Succeeded(ReplayBlocks(path))
    ensures Derived(c, blocks, snapshots, h) == Succeeded(ReplayBlocks(path + [blocks[h]]))
  {
    hide ReplayBlocks, Consensus.ApplyBlock;
    ReplaySnoc(path, blocks[h]);
  }

  /** The cache is replay: a block has a snapshot exactly when its path replays from genesis, and
      then the snapshot is the replayed set. No trace of other branches can be in it. */
  lemma {:induction false} CacheRefinesReplay(n: Node, h: Hash)
    requires Consistent(n) && h in n.chain.entries
    ensures Lookup(n.snapshots, h) == Succeeded(ReplayBlocks(PathBlocks(n.chain, n.blocks, h)))
    decreases n.chain.entries[h].height
  {
    hide ReplayBlocks, Derived, PoolInv, EntryExplained, ActiveExplained, Succeeded;
    var parent := n.chain.entries[h].parent;
    assert Linked(n.chain, h);
    assert Lookup(n.snapshots, h) == Derived(n.chain, n.blocks, n.snapshots, h);
    if parent.None? {
      RootSnapshotIsReplay(n.chain, n.blocks, n.snapshots, h);
    } else {
      CacheRefinesReplay(n, parent.value);
      ChildSnapshotIsReplay(n.chain, n.blocks, n.snapshots, h, PathBlocks(n.chain, n.blocks, parent.value));
    }
  }

  lemma ReplayNothing()
    ensures ReplayBlocks([]) == Ok(map[])
  {
  }

  lemma SnapshotsAreParentClosed(n: Node, h: Hash)
    requires Consistent(n) && h in n.snapshots && n.chain.entries[h].parent.Some?
    ensures n.chain.entries[h].parent.value in n.snapshots
  {
    hide Consensus.ApplyBlock, PoolInv, EntryExplained, ActiveExplained, Tree;
    assert Lookup(n.snapshots, h) == Derived(n.chain, n.blocks, n.snapshots, h);
  }

  ghost function WorkSum(bs: seq<Block>): nat {
    if bs == [] then 0
    else WorkSum(bs[..|bs| - 1]) + match BlockWork(bs[|bs| - 1]) { case Ok(w) => w case Err(_) => 0 }
  }

  /** The work of an entry is the work of all blocks on its path. */
  lemma {:induction false} CumulativeWorkIsPathSum(c: Index, blocks: map<Hash, Block>, h: Hash)
    requires TreeExplained(c, blocks) && h in c.entries
    ensures c.entries[h].cumulativeWork == WorkSum(PathBlocks(c, blocks, h))
    decreases c.entries[h].height
  {
    hide BlockWork, HeaderHash, Consensus.ValidateBlock;
    var e := c.entries[h];
    assert Linked(c, h) && EntryExplained(c, blocks, h);
    var path := PathBlocks(c, blocks, h);
    if e.parent.None? {
      assert path[..0] == [];
    } else {
      CumulativeWorkIsPathSum(c, blocks, e.parent.value);
      assert path[..|path| - 1] == PathBlocks(c, blocks, e.parent.value);
    }
  }

  /** In every reachable state: along the path of an accepted block every spend of an outpoint directly
      follows a creation of it, and the outpoint is in the snapshot exactly when its last event is a
      creation. */
  lemma SnapshotsNeverDoubleSpend(n: Node, h: Hash, o: OutPoint)
    requires Consistent(n) && Tree(n.chain) && n.blocks.Keys == n.chain.entries.Keys
    requires h in n.chain.entries && h in n.snapshots
    ensures var path := PathBlocks(n.chain, n.blocks, h);
            && (forall i :: 0 <= i < |path| ==> path[i].transactions != [])
            && Explains(History(path, o), n.snapshots[h], o)
  {
    hide Consistent, ReplayBlocks, Tree, PathBlocks, Explains, History;
    CacheRefinesReplay(n, h);
    NoDoubleSpend(PathBlocks(n.chain, n.blocks, h), o);
  }

  /** In every reachable state no snapshot holds more than 50 per block of its path. */
  lemma SnapshotSupplyBound(n: Node, h: Hash)
    requires Consistent(n) && h in n.snapshots
    ensures Total(n.snapshots[h]) <= 50 * (n.chain.entries[h].height + 1)
  {
    hide ReplayBlocks, Total, PoolInv, EntryExplained, ActiveExplained, CacheExplained;
    assert n.snapshots.Keys <= n.chain.entries.Keys by {
      assert CacheExplained(n.chain, n.blocks, n.snapshots);
      CachedAreIndexed(n);
    }
    CacheRefinesReplay(n, h);
    SupplyBound(PathBlocks(n.chain, n.blocks, h));
  }

  lemma CachedAreIndexed(n: Node)
    requires Consistent(n)
    ensures n.snapshots.Keys <= n.chain.entries.Keys
  {
  }
}
