/** The store as a mutable object: rows deleted and upserted in place, refining the table functions. */
module SqliteStore {
  import opened Primitives
  import opened Crypto
  import opened Types
  import opened State
  import opened Sums
  import opened Chain
  import opened Mempool
  import opened NodeState
  import opened Provenance
  import opened TxIndex
  import opened Store
  import opened Persistence
  import opened Synchrony
  import opened Rebuild
  import opened LiveNode

  // ---- Walking the best chain -------------------------------------------------------------

  ghost function BestPath(n: Node): seq<Hash>
    requires Tree(n.chain)
  {
    if n.chain.bestTip.None? then [] else Path(n.chain, n.chain.bestTip.value)
  }

  lemma {:induction false} PathParents(c: Index, t: Hash, i: nat)
    requires Tree(c) && t in c.entries && i < |Path(c, t)|
    ensures Path(c, t)[i] in c.entries
    ensures c.entries[Path(c, t)[i]].parent == if i == 0 then None else Some(Path(c, t)[i - 1])
    decreases c.entries[t].height
  {
    hide Tree;
    HashPathUnfolds(c, t);
    if c.entries[t].parent.Some? && i < |Path(c, t)| - 1 {
      PathParents(c, c.entries[t].parent.value, i);
    }
  }

  ghost predicate EntryAt(c: Index, h: Hash, e: ChainIndexEntry) {
    h in c.entries && c.entries[h] == e
  }

  /** `entries` are the index entries of `path`, in order. */
  ghost predicate EntriesAlong(c: Index, path: seq<Hash>, entries: seq<ChainIndexEntry>) {
    |entries| == |path| && forall i :: 0 <= i < |entries| ==> EntryAt(c, path[i], entries[i])
  }

  /** `walked` holds the entries of `path` from its end backwards. */
  ghost predicate WalkedBack(c: Index, path: seq<Hash>, walked: seq<ChainIndexEntry>) {
    |walked| <= |path| && forall i :: 0 <= i < |walked| ==> EntryAt(c, path[|path| - 1 - i], walked[i])
  }

  lemma ReversedWalk(c: Index, path: seq<Hash>, walked: seq<ChainIndexEntry>, entries: seq<ChainIndexEntry>)
    requires WalkedBack(c, path, walked) && |walked| == |path| == |entries|
    requires forall i :: 0 <= i < |entries| ==> entries[i] == walked[|walked| - 1 - i]
    ensures EntriesAlong(c, path, entries)
  {
    hide EntryAt;
    forall i | 0 <= i < |entries|
      ensures EntryAt(c, path[i], entries[i])
    {
      var j := |walked| - 1 - i;
      assert EntryAt(c, path[|path| - 1 - j], walked[j]);
    }
  }

  lemma OneFurtherBack(c: Index, path: seq<Hash>, walked: seq<ChainIndexEntry>, e: ChainIndexEntry)
    requires WalkedBack(c, path, walked) && |walked| < |path|
    requires EntryAt(c, path[|path| - 1 - |walked|], e)
    ensures WalkedBack(c, path, walked + [e])
  {
    hide EntryAt;
  }

  /** The parent of `path[i]` is its predecessor; the first hash has none. */
  ghost predicate LinkAt(c: Index, path: seq<Hash>, i: nat)
    requires i < |path|
  {
    path[i] in c.entries && c.entries[path[i]].parent == if i == 0 then None else Some(path[i - 1])
  }

  ghost predicate Chained(c: Index, path: seq<Hash>) {
    forall i: nat :: i < |path| ==> LinkAt(c, path, i)
  }

  /** Follows parent links from the end of `path` to its start. */
  method FollowParents(c: Index, tip: Option<Hash>, ghost path: seq<Hash>) returns (walked: seq<ChainIndexEntry>)
    requires Chained(c, path) && tip == if path == [] then None else Some(path[|path| - 1])
    ensures |walked| == |path| && WalkedBack(c, path, walked)
  {
    hide WalkedBack;
    walked := [];
    var cursor := tip;
    NothingWalked(c, path);
    while cursor.Some?
      invariant |walked| <= |path| && WalkedBack(c, path, walked)
      invariant cursor == if |walked| < |path| then Some(path[|path| - 1 - |walked|]) else None
      decreases |path| - |walked|
    {
      assert LinkAt(c, path, |path| - 1 - |walked|);
      var entry := c.entries[cursor.value];
      OneFurtherBack(c, path, walked, entry);
      walked := walked + [entry];
      cursor := entry.parent;
    }
  }

  lemma BestPathChained(n: Node)
    requires TreeExplained(n.chain, n.blocks)
    ensures Chained(n.chain, BestPath(n))
  {
    hide EntryExplained, Tree, Path;
    forall i: nat | i < |BestPath(n)|
      ensures LinkAt(n.chain, BestPath(n), i)
    {
      TipEndsPath(n);
      PathParents(n.chain, n.chain.bestTip.value, i);
    }
  }

  /** The entries from the root to the tip. */
  method BestChainEntries(n: Node) returns (entries: seq<ChainIndexEntry>)
    requires TreeExplained(n.chain, n.blocks)
    ensures EntriesAlong(n.chain, BestPath(n), entries)
  {
    hide EntryExplained, Tree, Path, WalkedBack, EntriesAlong, Chained, BestPath;
    TipEndsPath(n);
    BestPathChained(n);
    var walked := FollowParents(n.chain, n.chain.bestTip, BestPath(n));
    entries := seq(|walked|, i requires 0 <= i < |walked| => walked[|walked| - 1 - i]);
    ReversedWalk(n.chain, BestPath(n), walked, entries);
  }

  lemma NothingWalked(c: Index, path: seq<Hash>)
    ensures WalkedBack(c, path, [])
  {
  }

  lemma TipEndsPath(n: Node)
    requires TreeExplained(n.chain, n.blocks)
    ensures n.chain.bestTip == if BestPath(n) == [] then None else Some(BestPath(n)[|BestPath(n)| - 1])
    ensures n.chain.bestTip.Some? ==> n.chain.bestTip.value in n.chain.entries
  {
    hide EntryExplained, Linked;
  }

  /** Transactions of the blocks along `path`, in order. */
  ghost function PlacedAlong(n: Node, path: seq<Hash>): seq<Placed>
    requires forall i :: 0 <= i < |path| ==> path[i] in n.chain.entries && path[i] in n.blocks
  {
    if path == [] then []
    else
      var h := path[|path| - 1];
      PlacedAlong(n, path[..|path| - 1]) + PlacedBlock(n.blocks[h], h, n.chain.entries[h].height)
  }

  lemma {:induction false} PlacedAlongPath(n: Node, t: Hash)
    requires Tree(n.chain) && n.blocks.Keys == n.chain.entries.Keys && t in n.chain.entries
    ensures PlacedAlong(n, Path(n.chain, t)) == PlacedPath(n.chain, n.blocks, t)
    decreases n.chain.entries[t].height
  {
    hide Tree;
    PathUnfolds(n.chain, n.blocks, t);
    HashPathUnfolds(n.chain, t);
    var path := Path(n.chain, t);
    if n.chain.entries[t].parent.Some? {
      PlacedAlongPath(n, n.chain.entries[t].parent.value);
      assert path[..|path| - 1] == Path(n.chain, n.chain.entries[t].parent.value);
    } else {
      assert path[..0] == [];
      assert PlacedAlong(n, []) == [];
    }
  }

  lemma BestPathPlaced(n: Node)
    requires TreeExplained(n.chain, n.blocks)
    ensures forall i :: 0 <= i < |BestPath(n)| ==> BestPath(n)[i] in n.chain.entries && BestPath(n)[i] in n.blocks
    ensures PlacedAlong(n, BestPath(n)) == BestChain(n)
  {
    hide EntryExplained, Linked, PlacedAlong, PlacedPath;
    TipEndsPath(n);
    if n.chain.bestTip.Some? {
      PlacedAlongPath(n, n.chain.bestTip.value);
    } else {
      NothingPlaced(n);
    }
  }

  lemma NothingPlaced(n: Node)
    ensures PlacedAlong(n, []) == []
  {
  }

  // ---- Building the index -----------------------------------------------------------------

  lemma AddChainSnoc(p: seq<Placed>, q: Placed)
    ensures AddChain(p + [q]) == AddIndexed(AddChain(p), Txid(q.tx), q.tx, ConfirmedRow(q))
  {
    hide AddIndexed, Txid;
    assert (p + [q])[..|p|] == p;
  }

  /** Indexes the transactions of one block after what `st` holds. */
  method IndexBlock(st: Built, b: Block, h: Hash, height: nat, ghost p: seq<Placed>) returns (r: Built)
    requires st == AddChain(p)
    ensures r == AddChain(p + PlacedBlock(b, h, height))
  {
    hide AddIndexed, Txid, AddChain;
    r := st;
    ghost var placed := PlacedBlock(b, h, height);
    assert p + placed[..0] == p;
    for i := 0 to |b.transactions|
      invariant r == AddChain(p + placed[..i])
    {
      var tx := b.transactions[i];
      AddChainSnoc(p + placed[..i], placed[i]);
      assert p + placed[..i + 1] == p + placed[..i] + [placed[i]];
      r := AddIndexed(r, Txid(tx), tx, ConfirmedRow(Placed(tx, h, height, i)));
    }
    assert placed[..|b.transactions|] == placed;
  }

  lemma PlacedAlongSnoc(n: Node, path: seq<Hash>, i: nat)
    requires i < |path| && forall j :: 0 <= j < |path| ==> path[j] in n.chain.entries && path[j] in n.blocks
    ensures PlacedAlong(n, path[..i + 1])
            == PlacedAlong(n, path[..i]) + PlacedBlock(n.blocks[path[i]], path[i], n.chain.entries[path[i]].height)
  {
    assert path[..i + 1][..i] == path[..i];
  }

  /** The full rebuild: best chain first, then the pool in id order. */
  method BuildTransactionIndex(n: Node) returns (built: Built)
    requires TreeExplained(n.chain, n.blocks)
    ensures built == BuildIndex(BestChain(n), n.mempool)
  {
    hide AddIndexed, Txid, AddChain, PlacedAlong, BestChain, EntryExplained, SortedEntries, AddPool, BestPath;
    var entries := BestChainEntries(n);
    ghost var path := BestPath(n);
    BestPathPlaced(n);
    built := Built(map[], map[], map[]);
    NothingIndexed();
    NothingPlaced(n);
    assert path[..0] == [];
    for i := 0 to |entries|
      invariant built == AddChain(PlacedAlong(n, path[..i]))
    {
      assert EntryAt(n.chain, path[i], entries[i]);
      EntryKeyed(n.chain, path[i]);
      PlacedAlongSnoc(n, path, i);
      var h := entries[i].blockHash;
      built := IndexBlock(built, n.blocks[h], h, entries[i].height, PlacedAlong(n, path[..i]));
    }
    assert path[..|entries|] == path;
    ghost var chainPart := built;
    var pending := SortedEntries(n.mempool);
    AddPoolNothing(chainPart);
    assert pending[..0] == [];
    for i := 0 to |pending|
      invariant built == AddPool(chainPart, pending[..i])
    {
      AddPoolSnoc(chainPart, pending, i);
      built := AddIndexed(built, pending[i].0, pending[i].1, PendingRow(pending[i].1));
    }
    assert pending[..|pending|] == pending;
  }

  lemma NothingIndexed()
    ensures AddChain([]) == Built(map[], map[], map[])
  {
  }

  lemma AddPoolNothing(st: Built)
    ensures AddPool(st, []) == st
  {
  }

  lemma AddPoolSnoc(st: Built, entries: seq<(Hash, Transaction)>, i: nat)
    requires i < |entries|
    ensures AddPool(st, entries[..i + 1])
            == AddIndexed(AddPool(st, entries[..i]), entries[i].0, entries[i].1, PendingRow(entries[i].1))
  {
    hide AddIndexed;
    assert entries[..i + 1][..i] == entries[..i];
  }

  // ---- Restoring a node -------------------------------------------------------------------

  /** Accepts `bs` one by one on a new node, then attaches and prunes the pool. */
  method Restore(bs: seq<Block>, pool: Pool) returns (r: Result<LiveNode, NodeError>)
    ensures match FromPersisted(bs, pool)
            case Ok(n) =>
              && r.Ok? && r.value.View() == n
              && fresh(r.value) && fresh(r.value.chain) && fresh(r.value.mempool)
            case Err(e) => r == Err(e)
  {
    hide AcceptBlock, Consistent, PruneInvalid;
    var node := new LiveNode();
    assert bs[..0] == [];
    for i := 0 to |bs|
      invariant fresh(node) && fresh(node.chain) && fresh(node.mempool) && node.Valid()
      invariant LoadBlocks(bs[..i]) == Ok(node.View())
    {
      assert bs[..i + 1][..i] == bs[..i] && bs[..i + 1][i] == bs[i];
      var accepted := node.Accept(bs[i]);
      if accepted.Err? {
        LoadFails(bs, i + 1);
        return Err(accepted.error);
      }
    }
    assert bs[..|bs|] == bs;
    node.mempool.transactions := pool;
    node.mempool.Prune(node.activeUtxos);
    return Ok(node);
  }

  /** A failure in a prefix is the result of the whole load. */
  lemma {:induction false} LoadFails(bs: seq<Block>, k: nat)
    requires k <= |bs| && LoadBlocks(bs[..k]).Err?
    ensures LoadBlocks(bs) == LoadBlocks(bs[..k])
    decreases |bs|
  {
    hide AcceptBlock;
    if k < |bs| {
      assert bs[..|bs| - 1][..k] == bs[..k];
      LoadFails(bs[..|bs| - 1], k);
    } else {
      assert bs[..k] == bs;
    }
  }

  /** Same size and every left entry found on the right. */
  predicate MapsMatch<K, V(==)>(left: map<K, V>, right: map<K, V>) {
    |left| == |right| && forall k :: k in left ==> k in right && right[k] == left[k]
  }

  /** The one-sided comparison of maps of equal size is equality. */
  lemma MapsMatchIsEquality<K, V>(left: map<K, V>, right: map<K, V>)
    ensures MapsMatch(left, right) <==> left == right
  {
    if MapsMatch(left, right) {
      SubsetCardinality(left.Keys, right.Keys);
    }
  }

  // ---- The store --------------------------------------------------------------------------

  class SqliteStore {
    var blocks: map<Hash, Block>
    var chainEntries: map<Hash, ChainIndexEntry>
    var activeUtxos: Utxos
    var mempoolTransactions: Pool
    var transactions: Rows
    var transactionKeys: Keys
    var bestTip: Option<Hash>

    function View(): Tables
      reads this
    {
      Tables(blocks, chainEntries, activeUtxos, mempoolTransactions, transactions, transactionKeys, bestTip)
    }

    constructor ()
      ensures View() == EmptyTables()
    {
      blocks, chainEntries, activeUtxos := map[], map[], map[];
      mempoolTransactions, transactions, transactionKeys := map[], map[], map[];
      bestTip := None;
    }

    method SaveMempoolTransaction(tx: Transaction)
      modifies this
      ensures View() == Store.SaveMempoolTransaction(old(View()), tx)
    {
      hide Txid, EdgesOf;
      var txid := Txid(tx);
      var edges := EdgesOf(tx, FromRows(transactions));
      mempoolTransactions := mempoolTransactions[txid := tx];
      transactions := transactions[txid := PendingRow(tx)];
      transactionKeys := transactionKeys - {txid};
      transactionKeys := transactionKeys[txid := edges];
    }

    /** Goes through the persisted pending ids and deletes the rows of those no longer pending. */
    method DeleteStaleRows(pool: Pool)
      modifies this`mempoolTransactions, this`transactions, this`transactionKeys
      ensures View() == DeleteStale(old(View()), pool)
    {
      ghost var s := View();
      ghost var stale: set<Hash> := {};
      var todo := mempoolTransactions.Keys;
      NothingDeleted(s);
      hide DeleteRows, DeleteStale;
      while todo != {}
        invariant todo <= s.mempool.Keys && Handled(s, pool, todo, stale)
        invariant View() == DeleteRows(s, stale)
        decreases |todo|
      {
        var txid :| txid in todo;
        HandledOneMore(s, pool, todo, stale, txid);
        if txid !in pool {
          DeleteOneMore(s, stale, txid);
          DeleteRow(txid);
          stale := stale + {txid};
        }
        todo := todo - {txid};
      }
      AllDeleted(s, pool, stale);
    }

    /** Deletes what is stored for one pending id. */
    method DeleteRow(txid: Hash)
      modifies this`mempoolTransactions, this`transactions, this`transactionKeys
      ensures View() == old(View()).(
                mempool := old(mempoolTransactions) - {txid},
                transactions := if txid in old(transactions) && old(transactions)[txid].status == Pending
                                then old(transactions) - {txid} else old(transactions),
                keys := old(transactionKeys) - {txid})
    {
      mempoolTransactions := mempoolTransactions - {txid};
      if txid in transactions && transactions[txid].status == Pending {
        transactions := transactions - {txid};
      }
      transactionKeys := transactionKeys - {txid};
    }

    method SaveConfirmedBlockTransactions(b: Block, e: ChainIndexEntry)
      modifies this`mempoolTransactions, this`transactions, this`transactionKeys
      ensures View() == SaveConfirmed(old(View()), b, e)
    {
      hide UpsertConfirmed, InsertConfirmedEdges, PlacedBlock, BlockOutputs, WithFallback, EdgesOf;
      var edges := BuildConfirmedEdges(b);
      ghost var rows := transactions;
      UpsertConfirmedRows(PlacedBlock(b, e.blockHash, e.height));
      InsertEdges(b.transactions, rows, edges);
    }

    /** Moves each transaction from the pending rows to the confirmed ones. */
    method UpsertConfirmedRows(placed: seq<Placed>)
      modifies this`mempoolTransactions, this`transactions, this`transactionKeys
      ensures View() == UpsertConfirmed(old(View()), placed, |placed|)
    {
      hide Txid;
      ghost var s := View();
      for i := 0 to |placed|
        invariant View() == UpsertConfirmed(s, placed, i)
      {
        var txid := Txid(placed[i].tx);
        mempoolTransactions := mempoolTransactions - {txid};
        transactions := transactions[txid := ConfirmedRow(placed[i])];
        transactionKeys := transactionKeys - {txid};
      }
    }

    method InsertEdges(txs: seq<Transaction>, ghost rows: Rows, edges: seq<seq<Edge>>)
      requires ResolvedEdges(txs, rows, edges) && |edges| == |txs|
      modifies this`transactionKeys
      ensures transactionKeys == InsertConfirmedEdges(old(transactionKeys), rows, txs, |txs|)
    {
      hide Txid, EdgesOf, BlockOutputs, WithFallback;
      ghost var keys := transactionKeys;
      for i := 0 to |txs|
        invariant transactionKeys == InsertConfirmedEdges(keys, rows, txs, i)
      {
        assert edges[i] == BlockEdges(txs, rows, i);
        var txid := Txid(txs[i]);
        transactionKeys := transactionKeys[txid := Group(transactionKeys, txid) + edges[i]];
      }
    }

    /** Resolves each input through earlier outputs of the block, then through the stored rows. */
    method BuildConfirmedEdges(b: Block) returns (edges: seq<seq<Edge>>)
      ensures |edges| == |b.transactions| && ResolvedEdges(b.transactions, transactions, edges)
    {
      hide EdgesOf, WithFallback, BlockEdges, ResolvedEdges, OutputsOf, BlockOutputs;
      edges := [];
      var known: map<OutPoint, TxOut> := map[];
      NothingResolved(b.transactions, transactions);
      for i := 0 to |b.transactions|
        invariant known == BlockOutputs(b.transactions, i)
        invariant |edges| == i && ResolvedEdges(b.transactions, transactions, edges)
      {
        var resolved := EdgesOf(b.transactions[i], WithFallback(known, transactions));
        OutputsSnoc(b.transactions, i);
        ResolvedIs(b.transactions, transactions, i);
        ResolvedSnoc(b.transactions, transactions, edges, resolved);
        edges := edges + [resolved];
        known := known + OutputsOf(b.transactions[i]);
      }
    }

    method SaveAcceptedBlock(n: Node, h: Hash)
      requires TreeExplained(n.chain, n.blocks) && h in n.chain.entries
      modifies this
      ensures View() == Store.SaveAcceptedBlock(old(View()), n, h)
    {
      hide EntryExplained, SaveConfirmed, DeleteStale, Path;
      EntryKeyed(n.chain, h);
      blocks := blocks[h := n.blocks[h]];
      chainEntries := chainEntries[h := n.chain.entries[h]];
      bestTip := n.chain.bestTip;
      var onBestChain := BestChainContains(n, h);
      if !onBestChain {
        return;
      }
      activeUtxos := n.activeUtxos;
      DeleteStaleRows(n.mempool);
      SaveConfirmedBlockTransactions(n.blocks[h], n.chain.entries[h]);
    }

    method SaveMempoolState(n: Node)
      requires TreeExplained(n.chain, n.blocks)
      modifies this`mempoolTransactions, this`transactions, this`transactionKeys
      ensures View() == Store.SaveMempoolState(old(View()), n)
    {
      hide TreeExplained, BuildIndex, BestChain;
      var built := BuildTransactionIndex(n);
      mempoolTransactions := n.mempool;
      transactions, transactionKeys := built.rows, built.keys;
    }

    method SaveAcceptedBlockState(n: Node, h: Hash, previousTip: Option<Hash>, previousIds: set<Hash>)
      requires TreeExplained(n.chain, n.blocks) && h in n.chain.entries
      modifies this
      ensures View() == Store.SaveAcceptedBlockState(old(View()), n, h, previousTip, previousIds)
    {
      hide TreeExplained, Store.SaveAcceptedBlock, Store.SaveMempoolState, RequiresRefresh;
      SaveAcceptedBlock(n, h);
      if RequiresRefresh(n, h, previousTip, previousIds) {
        SaveMempoolState(n);
      }
    }

    /** Rewrites every table. */
    method SaveNodeState(n: Node)
      requires TreeExplained(n.chain, n.blocks)
      modifies this
      ensures View() == Store.SaveNodeState(n)
    {
      hide EntryExplained, Tree, BuildIndex, BestChain;
      SaveRecords(n);
      activeUtxos, bestTip, mempoolTransactions := n.activeUtxos, n.chain.bestTip, n.mempool;
      var built := BuildTransactionIndex(n);
      transactions, transactionKeys := built.rows, built.keys;
    }

    /** Clears the block and index tables and inserts every record again. */
    method SaveRecords(n: Node)
      requires n.blocks.Keys == n.chain.entries.Keys
      modifies this`blocks, this`chainEntries
      ensures blocks == n.blocks && chainEntries == n.chain.entries
    {
      hide Without;
      EverythingRemoved(n.blocks);
      EverythingRemoved(n.chain.entries);
      blocks, chainEntries := map[], map[];
      var todo := n.chain.entries.Keys;
      while todo != {}
        invariant todo <= n.chain.entries.Keys
        invariant blocks == Without(n.blocks, todo) && chainEntries == Without(n.chain.entries, todo)
        decreases |todo|
      {
        var h :| h in todo;
        PutBack(n.blocks, todo, h);
        PutBack(n.chain.entries, todo, h);
        blocks := blocks[h := n.blocks[h]];
        chainEntries := chainEntries[h := n.chain.entries[h]];
        todo := todo - {h};
      }
      NothingRemoved(n.blocks);
      NothingRemoved(n.chain.entries);
    }

    /** Loads the stored blocks in (height, hash) order. */
    method LoadBlocksInHeightOrder() returns (r: Result<seq<Block>, StoreError>)
      ensures r == LoadBlockList(blocks, ReplayOrder(chainEntries))
      ensures r.Err? ==> r.error.MissingBlockForEntry?
    {
      hide ReplayOrder;
      var order := ReplayOrder(chainEntries);
      var loaded: seq<Block> := [];
      assert order[..0] == [];
      for i := 0 to |order|
        invariant LoadBlockList(blocks, order[..i]) == Ok(loaded)
      {
        assert order[..i + 1][..i] == order[..i] && order[..i + 1][i] == order[i];
        if order[i] !in blocks {
          MissingStops(blocks, order, i + 1);
          return Err(MissingBlockForEntry(order[i]));
        }
        loaded := loaded + [blocks[order[i]]];
      }
      assert order[..|order|] == order;
      return Ok(loaded);
    }

    /** Looks through the pool rows, in any order, for one stored under another id. */
    method FindMiskeyed() returns (bad: Option<Hash>)
      ensures match bad
              case Some(id) => Miskeyed(mempoolTransactions, id)
              case None => forall id :: !Miskeyed(mempoolTransactions, id)
    {
      hide Txid;
      var todo := mempoolTransactions.Keys;
      while todo != {}
        invariant todo <= mempoolTransactions.Keys
        invariant forall id :: Miskeyed(mempoolTransactions, id) ==> id in todo
        decreases |todo|
      {
        var txid :| txid in todo;
        if Txid(mempoolTransactions[txid]) != txid {
          return Some(txid);
        }
        todo := todo - {txid};
      }
      return None;
    }

    /** Replays the stored blocks and compares the result with the stored tip, set and pool. Of several
        miskeyed pool rows any one may be reported. */
    method LoadNodeState() returns (r: Result<LiveNode, StoreError>)
      ensures match Store.LoadNodeState(View())
              case Ok(n) =>
                && r.Ok? && r.value.View() == n
                && fresh(r.value) && fresh(r.value.chain) && fresh(r.value.mempool)
              case Err(InvalidTransactionKey(_)) =>
                r.Err? && r.error.InvalidTransactionKey? && Miskeyed(mempoolTransactions, r.error.hash)
              case Err(e) => r == Err(e)
    {
      hide LoadBlockList, ReplayOrder, FromPersisted, Miskeyed, FirstMiskeyed;
      var loaded := LoadBlocksInHeightOrder();
      if loaded.Err? {
        return Err(loaded.error);
      }
      var bad := FindMiskeyed();
      if bad.Some? {
        return Err(InvalidTransactionKey(bad.value));
      }
      var restored := Restore(loaded.value, mempoolTransactions);
      if restored.Err? {
        return Err(NodeFailure(restored.error));
      }
      var node := restored.value;
      MapsMatchIsEquality(node.activeUtxos, activeUtxos);
      MapsMatchIsEquality(node.mempool.transactions, mempoolTransactions);
      if node.chain.bestTip != bestTip {
        return Err(RebuiltBestTipMismatch(node.chain.bestTip, bestTip));
      }
      if !MapsMatch(node.activeUtxos, activeUtxos) {
        return Err(RebuiltUtxoMismatch);
      }
      if !MapsMatch(node.mempool.transactions, mempoolTransactions) {
        return Err(RebuiltMempoolMismatch);
      }
      return Ok(node);
    }
  }

  method BestChainContains(n: Node, h: Hash) returns (found: bool)
    requires TreeExplained(n.chain, n.blocks)
    ensures found <==> OnBestChain(n, h)
  {
    hide EntryExplained, Path, Linked;
    var entries := BestChainEntries(n);
    found := exists e :: e in entries && e.blockHash == h;
    ghost var path := BestPath(n);
    forall i | 0 <= i < |path|
      ensures entries[i].blockHash == path[i]
    {
      assert EntryAt(n.chain, path[i], entries[i]);
      EntryKeyed(n.chain, path[i]);
    }
    if found {
      var e :| e in entries && e.blockHash == h;
      var i :| 0 <= i < |entries| && entries[i] == e;
      assert path[i] == h;
    }
    if h in path {
      var i :| 0 <= i < |path| && path[i] == h;
      assert entries[i] in entries;
    }
  }

  lemma NothingDeleted(s: Tables)
    ensures DeleteRows(s, {}) == s
  {
    assert DeleteRows(s, {}).transactions == s.transactions;
    assert s.mempool - {} == s.mempool && s.keys - {} == s.keys;
  }

  /** `stale` are the ids outside `todo` that left the pool. */
  ghost predicate Handled(s: Tables, pool: Pool, todo: set<Hash>, stale: set<Hash>) {
    stale == s.mempool.Keys - pool.Keys - todo
  }

  lemma HandledOneMore(s: Tables, pool: Pool, todo: set<Hash>, stale: set<Hash>, id: Hash)
    requires Handled(s, pool, todo, stale) && id in todo && id in s.mempool
    ensures Handled(s, pool, todo - {id}, if id in pool then stale else stale + {id})
  {
  }

  lemma AllDeleted(s: Tables, pool: Pool, stale: set<Hash>)
    requires Handled(s, pool, {}, stale)
    ensures DeleteRows(s, stale) == DeleteStale(s, pool)
  {
    assert stale == s.mempool.Keys - pool.Keys;
  }

  lemma DeleteOneMore(s: Tables, stale: set<Hash>, id: Hash)
    ensures var before := DeleteRows(s, stale);
            DeleteRows(s, stale + {id})
            == before.(mempool := before.mempool - {id},
                       transactions := if id in before.transactions && before.transactions[id].status == Pending
                                       then before.transactions - {id} else before.transactions,
                       keys := before.keys - {id})
  {
    var before, after := DeleteRows(s, stale), DeleteRows(s, stale + {id});
    assert after.mempool == before.mempool - {id};
    assert after.keys == before.keys - {id};
    assert after.transactions
        == if id in before.transactions && before.transactions[id].status == Pending
           then before.transactions - {id} else before.transactions;
  }

  ghost predicate ResolvedEdges(txs: seq<Transaction>, rows: Rows, edges: seq<seq<Edge>>) {
    |edges| <= |txs| && forall i :: 0 <= i < |edges| ==> edges[i] == BlockEdges(txs, rows, i)
  }

  lemma NothingResolved(txs: seq<Transaction>, rows: Rows)
    ensures ResolvedEdges(txs, rows, []) && BlockOutputs(txs, 0) == map[]
  {
  }

  lemma OutputsSnoc(txs: seq<Transaction>, i: nat)
    requires i < |txs|
    ensures BlockOutputs(txs, i + 1) == BlockOutputs(txs, i) + OutputsOf(txs[i])
  {
    hide OutputsOf;
  }

  lemma ResolvedSnoc(txs: seq<Transaction>, rows: Rows, edges: seq<seq<Edge>>, e: seq<Edge>)
    requires ResolvedEdges(txs, rows, edges) && |edges| < |txs| && e == BlockEdges(txs, rows, |edges|)
    ensures ResolvedEdges(txs, rows, edges + [e])
  {
    hide BlockEdges;
  }

  lemma ResolvedIs(txs: seq<Transaction>, rows: Rows, i: nat)
    requires i < |txs|
    ensures BlockEdges(txs, rows, i) == EdgesOf(txs[i], WithFallback(BlockOutputs(txs, i), rows))
  {
  }

  ghost function Without<V>(m: map<Hash, V>, removed: set<Hash>): map<Hash, V> {
    m - removed
  }

  lemma PutBack<V>(m: map<Hash, V>, todo: set<Hash>, h: Hash)
    requires h in m && h in todo
    ensures Without(m, todo)[h := m[h]] == Without(m, todo - {h})
  {
  }

  lemma NothingRemoved<V>(m: map<Hash, V>)
    ensures Without(m, {}) == m
  {
  }

  lemma EverythingRemoved<V>(m: map<Hash, V>)
    ensures Without(m, m.Keys) == map[]
  {
  }

  lemma {:induction false} MissingStops(blocks: map<Hash, Block>, order: seq<Hash>, k: nat)
    requires k <= |order| && LoadBlockList(blocks, order[..k]).Err?
    ensures LoadBlockList(blocks, order) == LoadBlockList(blocks, order[..k])
    decreases |order|
  {
    if k < |order| {
      assert order[..|order| - 1][..k] == order[..k];
      MissingStops(blocks, order[..|order| - 1], k);
    } else {
      assert order[..k] == order;
    }
  }
}
