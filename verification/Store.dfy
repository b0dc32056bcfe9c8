/** The persisted tables and what each save and load does to them. */
module Store {
  import opened Primitives
  import opened Crypto
  import opened Types
  import opened State
  import opened Chain
  import opened Mempool
  import opened NodeState
  import opened Provenance
  import opened TxIndex
  import opened Sorting
  import opened Bytes
  import opened Rebuild

  datatype StoreError =
    | NodeFailure(nodeError: NodeError)
    | MissingBlockForEntry(hash: Hash)
    | InvalidTransactionKey(hash: Hash)
    | RebuiltBestTipMismatch(rebuilt: Option<Hash>, persisted: Option<Hash>)
    | RebuiltUtxoMismatch
    | RebuiltMempoolMismatch

  datatype Tables = Tables(
    blocks: map<Hash, Block>,
    entries: map<Hash, ChainIndexEntry>,
    activeUtxos: Utxos,
    mempool: Pool,
    transactions: Rows,
    keys: Keys,
    bestTip: Option<Hash>)

  function EmptyTables(): Tables {
    Tables(map[], map[], map[], map[], map[], map[], None)
  }

  // ---- Pending transactions ---------------------------------------------------------------

  /** Upserts one pending transaction, resolving its inputs through the persisted rows. Rows of
      transactions it displaced stay behind. */
  function SaveMempoolTransaction(s: Tables, tx: Transaction): Tables {
    var id := Txid(tx);
    s.(mempool := s.mempool[id := tx],
       transactions := s.transactions[id := PendingRow(tx)],
       keys := (s.keys - {id})[id := EdgesOf(tx, FromRows(s.transactions))])
  }

  /** Rewrites the pool and the index from the node. */
  ghost function SaveMempoolState(s: Tables, n: Node): Tables
    requires TreeExplained(n.chain, n.blocks)
  {
    var built := BuildIndex(BestChain(n), n.mempool);
    s.(mempool := n.mempool, transactions := built.rows, keys := built.keys)
  }

  // ---- Accepted blocks --------------------------------------------------------------------

  /** Stores the block, its index entry and the current best tip. */
  function SaveBlockRecord(s: Tables, b: Block, e: ChainIndexEntry, bestTip: Option<Hash>): Tables {
    s.(blocks := s.blocks[e.blockHash := b], entries := s.entries[e.blockHash := e], bestTip := bestTip)
  }

  /** Deletes what is stored for the pending ids `stale`; confirmed rows stay. */
  function DeleteRows(s: Tables, stale: set<Hash>): Tables {
    s.(mempool := s.mempool - stale,
       transactions := map id | id in s.transactions && !(id in stale && s.transactions[id].status == Pending)
                         :: s.transactions[id],
       keys := s.keys - stale)
  }

  /** Drops persisted pending transactions that left the pool, with their rows and edges. */
  function DeleteStale(s: Tables, pool: Pool): Tables {
    DeleteRows(s, s.mempool.Keys - pool.Keys)
  }

  /** Outputs created by the first `k` transactions of a block. */
  function BlockOutputs(txs: seq<Transaction>, k: nat): map<OutPoint, TxOut>
    requires k <= |txs|
  {
    if k == 0 then map[] else BlockOutputs(txs, k - 1) + OutputsOf(txs[k - 1])
  }

  /** Block-local outputs first, persisted rows second. */
  function WithFallback(known: map<OutPoint, TxOut>, rows: Rows): OutPoint -> Option<TxOut> {
    o => if o in known then Some(known[o]) else LoadOutput(rows, o)
  }

  /** Replaces the rows of the first `k` transactions of a block by confirmed rows without edges. */
  function UpsertConfirmed(s: Tables, p: seq<Placed>, k: nat): Tables
    requires k <= |p|
  {
    if k == 0 then s
    else
      var before := UpsertConfirmed(s, p, k - 1);
      var id := Txid(p[k - 1].tx);
      before.(mempool := before.mempool - {id},
              transactions := before.transactions[id := ConfirmedRow(p[k - 1])],
              keys := before.keys - {id})
  }

  /** Inserts the edges of the first `k` transactions, resolved through `rows` as they were before. */
  function InsertConfirmedEdges(keys: Keys, rows: Rows, txs: seq<Transaction>, k: nat): Keys
    requires k <= |txs|
  {
    if k == 0 then keys
    else
      var before := InsertConfirmedEdges(keys, rows, txs, k - 1);
      var tx := txs[k - 1];
      before[Txid(tx) := Group(before, Txid(tx))
                         + EdgesOf(tx, WithFallback(BlockOutputs(txs, k - 1), rows))]
  }

  function SaveConfirmed(s: Tables, b: Block, e: ChainIndexEntry): Tables {
    var p := PlacedBlock(b, e.blockHash, e.height);
    var upserted := UpsertConfirmed(s, p, |p|);
    upserted.(keys := InsertConfirmedEdges(upserted.keys, s.transactions, b.transactions, |b.transactions|))
  }

  ghost predicate OnBestChain(n: Node, h: Hash)
    requires Tree(n.chain)
  {
    n.chain.bestTip.Some? && h in Path(n.chain, n.chain.bestTip.value)
  }

  ghost function SaveAcceptedBlock(s: Tables, n: Node, h: Hash): Tables
    requires TreeExplained(n.chain, n.blocks) && h in n.chain.entries
  {
    var recorded := SaveBlockRecord(s, n.blocks[h], n.chain.entries[h], n.chain.bestTip);
    if !OnBestChain(n, h) then recorded
    else SaveConfirmed(
           DeleteStale(recorded.(activeUtxos := n.activeUtxos), n.mempool), n.blocks[h], n.chain.entries[h])
  }

  /** Whether a saved block needs the pool and index tables rewritten. */
  function RequiresRefresh(n: Node, h: Hash, previousTip: Option<Hash>, previousIds: set<Hash>): bool {
    if h !in n.chain.entries then true
    else if n.chain.bestTip != Some(h) then false
    else if n.chain.entries[h].parent != previousTip then true
    else if h !in n.blocks then true
    else
      var txs := n.blocks[h].transactions;
      previousIds - n.mempool.Keys != set i | 1 <= i < |txs| :: Txid(txs[i])
  }

  /** Saves one accepted block, with a refresh where needed. */
  ghost function SaveAcceptedBlockState(
    s: Tables, n: Node, h: Hash, previousTip: Option<Hash>, previousIds: set<Hash>): Tables
    requires TreeExplained(n.chain, n.blocks) && h in n.chain.entries
  {
    var saved := SaveAcceptedBlock(s, n, h);
    if RequiresRefresh(n, h, previousTip, previousIds) then SaveMempoolState(saved, n) else saved
  }

  // ---- Full snapshots ---------------------------------------------------------------------

  /** Rewrites every table from the node. */
  ghost function SaveNodeState(n: Node): Tables
    requires TreeExplained(n.chain, n.blocks)
  {
    var built := BuildIndex(BestChain(n), n.mempool);
    Tables(n.blocks, n.chain.entries, n.activeUtxos, n.mempool, built.rows, built.keys, n.chain.bestTip)
  }

  /** Sort key of the replay order: by height, ties by hash. */
  function ReplayRank(entries: map<Hash, ChainIndexEntry>, h: Hash): nat {
    (if h in entries then entries[h].height else 0) * Pow256(32) + Rank(h)
  }

  function ReplayKey(entries: map<Hash, ChainIndexEntry>): Hash -> nat {
    h => ReplayRank(entries, h)
  }

  lemma ReplayKeyDistinguishes(entries: map<Hash, ChainIndexEntry>)
    ensures Distinguishes(ReplayKey(entries))
  {
    forall a: Hash, b: Hash | ReplayKey(entries)(a) == ReplayKey(entries)(b)
      ensures a == b
    {
      SameRankSameHash(entries, a, b);
    }
  }

  lemma SameRankSameHash(entries: map<Hash, ChainIndexEntry>, a: Hash, b: Hash)
    requires ReplayRank(entries, a) == ReplayRank(entries, b)
    ensures a == b
  {
    BigEndianBound(a);
    BigEndianBound(b);
    var x := if a in entries then entries[a].height else 0;
    var y := if b in entries then entries[b].height else 0;
    if x < y {
      LeadingByteDecides(x, y, Pow256(32), Rank(a), Rank(b));
    } else if y < x {
      LeadingByteDecides(y, x, Pow256(32), Rank(b), Rank(a));
    }
    RankInjective(a, b);
  }

  /** The replay order: by height, and on one height by the bytes of the hash. */
  lemma ReplaysByHeightThenHash(entries: map<Hash, ChainIndexEntry>, a: Hash, b: Hash)
    requires a in entries && b in entries
    ensures ReplayRank(entries, a) <= ReplayRank(entries, b) <==>
            entries[a].height < entries[b].height || (entries[a].height == entries[b].height && LexLe(a, b))
  {
    hide LexLe;
    RankIsByteOrder(a, b);
    BigEndianBound(a);
    BigEndianBound(b);
    if entries[a].height < entries[b].height {
      LeadingByteDecides(entries[a].height, entries[b].height, Pow256(32), Rank(a), Rank(b));
    } else if entries[b].height < entries[a].height {
      LeadingByteDecides(entries[b].height, entries[a].height, Pow256(32), Rank(b), Rank(a));
    }
  }

  /** Indexed hashes in replay order. */
  function ReplayOrder(entries: map<Hash, ChainIndexEntry>): (order: seq<Hash>)
    ensures Lists(order, entries.Keys, ReplayKey(entries))
  {
    ReplayKeyDistinguishes(entries);
    SortedBy(entries.Keys, ReplayKey(entries))
  }

  /** The stored blocks of `order`, or the first hash without one. */
  function LoadBlockList(blocks: map<Hash, Block>, order: seq<Hash>): Result<seq<Block>, StoreError> {
    if order == [] then Ok([])
    else
      match LoadBlockList(blocks, order[..|order| - 1])
      case Err(e) => Err(e)
      case Ok(front) =>
        var h := order[|order| - 1];
        if h in blocks then Ok(front + [blocks[h]]) else Err(MissingBlockForEntry(h))
  }

  /** The three comparisons of a rebuilt node with the persisted tables. */
  function CheckRebuilt(s: Tables, n: Node): Result<Node, StoreError> {
    if n.chain.bestTip != s.bestTip then Err(RebuiltBestTipMismatch(n.chain.bestTip, s.bestTip))
    else if n.activeUtxos != s.activeUtxos then Err(RebuiltUtxoMismatch)
    else if n.mempool != s.mempool then Err(RebuiltMempoolMismatch)
    else Ok(n)
  }

  /** A persisted pending transaction stored under another transaction's id. */
  predicate Miskeyed(pool: Pool, id: Hash) {
    id in pool && Txid(pool[id]) != id
  }

  /** One miskeyed row, if there is any. The database returns rows in no particular order; the lowest id
      stands for whichever comes first. */
  function FirstMiskeyed(pool: Pool): (first: Option<Hash>)
    ensures first.None? <==> forall id :: !Miskeyed(pool, id)
  {
    var bad := set id | id in pool && Miskeyed(pool, id);
    assert forall id :: Miskeyed(pool, id) <==> id in bad;
    if bad == {} then None else Some(Least(bad))
  }

  /** Replays the stored blocks, attaches the stored pool and checks the result. */
  function LoadNodeState(s: Tables): Result<Node, StoreError> {
    match LoadBlockList(s.blocks, ReplayOrder(s.entries))
    case Err(e) => Err(e)
    case Ok(bs) =>
      match FirstMiskeyed(s.mempool)
      case Some(id) => Err(InvalidTransactionKey(id))
      case None =>
        match FromPersisted(bs, s.mempool)
        case Err(e) => Err(NodeFailure(e))
        case Ok(n) => CheckRebuilt(s, n)
  }
}
