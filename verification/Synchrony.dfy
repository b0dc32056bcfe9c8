/** The tables along a run of the server. */
module Synchrony {
  import opened Primitives
  import opened Crypto
  import opened Types
  import opened State
  import opened Chain
  import opened Mempool
  import opened NodeState
  import opened ActiveChain
  import opened Provenance
  import opened TxIndex
  import opened Store
  import opened Persistence
  import opened Rebuild
  import Consensus

  /** No transaction id is repeated on the best chain, no pending transaction is shaped like a
      coinbase, and ids do not collide between the pool and the best chain. */
  ghost predicate Honest(n: Node) {
    && Settled(n)
    && UniqueIds(BestChain(n))
    && (forall id :: id in n.mempool ==> !n.mempool[id].IsCoinbase())
    && (forall t, id :: t in TxSet(BestChain(n)) && id in n.mempool && Txid(t) == id ==> t == n.mempool[id])
  }

  ghost predicate SubPool(a: Pool, b: Pool) {
    forall id :: id in a ==> id in b && a[id] == b[id]
  }

  lemma HonestExplained(n: Node)
    requires Honest(n)
    ensures TreeExplained(n.chain, n.blocks) && Settled(n) && PoolInv(n.mempool, n.activeUtxos)
    ensures Consistent(n) && TipApplied(n) && UniqueIds(BestChain(n))
  {
    hide TreeExplained, CacheExplained, ActiveExplained, PoolInv, UniqueIds;
    SettledTipApplied(n);
  }

  lemma PendingIsIndexable(ts: set<Transaction>, u: Utxos, tx: Transaction)
    requires Ledger(ts, u) && Validate(u, tx).Ok? && !tx.IsCoinbase()
    requires forall t :: t in ts && Txid(t) == Txid(tx) ==> t == tx
    ensures NewTo(tx, ts) && forall o :: o in Spent(tx.inputs) ==> CreatedBy(ts, o)
  {
    hide Txid, Validate;
    PendingIsNotConfirmed(ts, u, tx);
    SpentArePresent(u, tx);
    forall o | o in Spent(tx.inputs)
      ensures CreatedBy(ts, o)
    {
      assert Sourced(ts, u, o);
    }
  }

  /** In an honest state the index is well defined. */
  lemma HonestIsIndexable(n: Node)
    requires Honest(n) && TreeExplained(n.chain, n.blocks)
    ensures Indexable(BestChain(n), n.mempool)
  {
    hide Settled, TreeExplained, UniqueIds, InputsKnown, Ledger, BestChain, TxSet, Txid, NewTo, CreatedBy;
    HonestExplained(n);
    LedgerOfBestChain(n);
    forall id | id in n.mempool
      ensures Txid(n.mempool[id]) == id
      ensures NewTo(n.mempool[id], TxSet(BestChain(n)))
      ensures forall o :: o in Spent(n.mempool[id].inputs) ==> CreatedBy(TxSet(BestChain(n)), o)
    {
      PendingIsIndexable(TxSet(BestChain(n)), n.activeUtxos, n.mempool[id]);
    }
  }

  /** The tables of `n` with `pool` in place of its pool. */
  ghost function Snapshot(n: Node, pool: Pool): Tables
    requires TreeExplained(n.chain, n.blocks)
  {
    Tables(n.blocks, n.chain.entries, n.activeUtxos, pool,
           IndexRows(BestChain(n), pool), IndexKeys(BestChain(n), pool), n.chain.bestTip)
  }

  /** A full save writes the snapshot. */
  lemma SaveWritesSnapshot(n: Node)
    requires Honest(n) && TreeExplained(n.chain, n.blocks)
    ensures SaveNodeState(n) == Snapshot(n, n.mempool)
  {
    hide Honest, TreeExplained, BuildIndex, IndexRows, IndexKeys, BestChain, Indexable;
    HonestIsIndexable(n);
    BuildIsIndex(BestChain(n), n.mempool);
  }

  /** The tables are the snapshot of `n` for a pool that contains the pool of `n`. */
  ghost predicate Synced(s: Tables, n: Node)
    requires TreeExplained(n.chain, n.blocks)
  {
    && s == Snapshot(n, s.mempool)
    && SubPool(n.mempool, s.mempool) && KeyedById(s.mempool)
    && (forall id :: id in s.mempool ==> id !in ConfirmedRows(BestChain(n)))
  }

  lemma ExactIsSynced(n: Node)
    requires Honest(n) && TreeExplained(n.chain, n.blocks)
    ensures Synced(Snapshot(n, n.mempool), n)
  {
    hide Honest, TreeExplained, IndexRows, IndexKeys, BestChain, ConfirmedRows;
    HonestIsIndexable(n);
    PoolNotInChain(BestChain(n), n.mempool);
    IndexableIsKeyed(BestChain(n), n.mempool);
  }

  lemma IndexableIsKeyed(p: seq<Placed>, pool: Pool)
    requires Indexable(p, pool)
    ensures KeyedById(pool)
  {
    hide UniqueIds, InputsKnown, NewTo, CreatedBy;
  }

  // ---- Admitted transactions --------------------------------------------------------------

  lemma ChainRowsWin(p: seq<Placed>, pool: Pool, id: Hash)
    requires forall k :: k in pool ==> k !in ConfirmedRows(p)
    ensures id in ConfirmedRows(p) ==> Lookup(IndexRows(p, pool), id) == Lookup(ConfirmedRows(p), id)
  {
    hide ConfirmedRows;
  }

  /** The edges of a pending transaction saved alone are those the rebuild would give it. */
  lemma PendingEdges(p: seq<Placed>, pool: Pool, tx: Transaction)
    requires UniqueIds(p) && forall k :: k in pool ==> k !in ConfirmedRows(p)
    requires forall o :: o in Spent(tx.inputs) ==> CreatedBy(TxSet(p), o)
    ensures EdgesOf(tx, FromRows(IndexRows(p, pool))) == EdgesOf(tx, FromRows(ConfirmedRows(p)))
  {
    hide EdgesOf, ConfirmedRows, IndexRows, UniqueIds, CreatedBy, TxSet, Spent;
    assert p[..|p|] == p;
    forall o | o in Spent(tx.inputs)
      ensures FromRows(IndexRows(p, pool))(o) == FromRows(ConfirmedRows(p))(o)
    {
      ResolvesEarly(p, |p|, o);
      ChainRowsWin(p, pool, o.txid);
    }
    EdgesAgree(tx, FromRows(IndexRows(p, pool)), FromRows(ConfirmedRows(p)));
  }

  lemma AddPendingRow(p: seq<Placed>, pool: Pool, tx: Transaction, id: Hash)
    requires id !in ConfirmedRows(p)
    ensures IndexRows(p, pool[id := tx]) == IndexRows(p, pool)[id := PendingRow(tx)]
    ensures IndexKeys(p, pool[id := tx])
            == (IndexKeys(p, pool) - {id})[id := EdgesOf(tx, FromRows(ConfirmedRows(p)))]
  {
    hide EdgesOf, ConfirmedRows;
    assert IndexRows(p, pool[id := tx]) == IndexRows(p, pool)[id := PendingRow(tx)];
  }

  /** Saving an admitted transaction keeps the tables in step. */
  lemma PendingSaved(s: Tables, n: Node, m: Node, tx: Transaction)
    requires Honest(n) && Honest(m) && TreeExplained(n.chain, n.blocks) && Synced(s, n)
    requires m == n.(mempool := m.mempool)
    requires Txid(tx) in m.mempool && m.mempool[Txid(tx)] == tx
    requires forall id :: id in m.mempool && id != Txid(tx) ==> id in n.mempool && m.mempool[id] == n.mempool[id]
    ensures Synced(SaveMempoolTransaction(s, tx), m)
  {
    hide Txid, Honest, TreeExplained, EdgesOf, ConfirmedRows, IndexRows, IndexKeys, BestChain;
    HonestIsIndexable(m);
    SameChainSameIndex(n, m);
    var p, id := BestChain(n), Txid(tx);
    PoolNotInChain(p, m.mempool);
    IndexableInputs(p, m.mempool, id);
    PendingEdges(p, s.mempool, tx);
    AddPendingRow(p, s.mempool, tx, id);
  }

  lemma SameChainSameIndex(n: Node, m: Node)
    requires TreeExplained(n.chain, n.blocks) && m.chain == n.chain && m.blocks == n.blocks
    ensures BestChain(m) == BestChain(n)
  {
  }

  lemma IndexableInputs(p: seq<Placed>, pool: Pool, id: Hash)
    requires Indexable(p, pool) && id in pool
    ensures UniqueIds(p) && forall o :: o in Spent(pool[id].inputs) ==> CreatedBy(TxSet(p), o)
  {
    hide UniqueIds, InputsKnown, NewTo, CreatedBy, TxSet;
  }

  // ---- Stale rows -------------------------------------------------------------------------

  lemma StalePool(all: Pool, pool: Pool)
    requires SubPool(pool, all)
    ensures all - (all.Keys - pool.Keys) == pool
  {
  }

  lemma StaleRow(p: seq<Placed>, all: Pool, pool: Pool, id: Hash)
    requires SubPool(pool, all) && forall k :: k in all ==> k !in ConfirmedRows(p)
    ensures id in IndexRows(p, pool) <==>
            id in IndexRows(p, all)
            && !(id in all.Keys - pool.Keys && IndexRows(p, all)[id].status == Pending)
    ensures id in IndexRows(p, pool) <==> id in IndexRows(p, all) && id !in all.Keys - pool.Keys
    ensures id in IndexRows(p, pool) ==> IndexRows(p, pool)[id] == IndexRows(p, all)[id]
  {
    hide ConfirmedRows;
  }

  /** Deleting stale rows leaves exactly the index of the remaining pool. */
  lemma StaleDeleted(s: Tables, p: seq<Placed>, pool: Pool)
    requires s.transactions == IndexRows(p, s.mempool) && s.keys == IndexKeys(p, s.mempool)
    requires SubPool(pool, s.mempool) && forall id :: id in s.mempool ==> id !in ConfirmedRows(p)
    ensures DeleteStale(s, pool)
            == s.(mempool := pool, transactions := IndexRows(p, pool), keys := IndexKeys(p, pool))
  {
    hide EdgesOf, ConfirmedRows, IndexRows, SubPool;
    StalePool(s.mempool, pool);
    forall id
      ensures id in IndexRows(p, pool) <==>
              id in s.transactions
              && !(id in s.mempool.Keys - pool.Keys && s.transactions[id].status == Pending)
      ensures id in IndexRows(p, pool) <==> id in s.transactions && id !in s.mempool.Keys - pool.Keys
      ensures id in IndexRows(p, pool) ==> IndexRows(p, pool)[id] == s.transactions[id]
    {
      StaleRow(p, s.mempool, pool, id);
    }
    assert DeleteStale(s, pool).transactions == IndexRows(p, pool);
    assert DeleteStale(s, pool).keys == IndexKeys(p, pool);
  }

  // ---- The best chain after a block -------------------------------------------------------

  /** Adding a block leaves the paths of the others as they were. */
  lemma {:induction false} PathStable(c: Index, blocks: map<Hash, Block>, e: ChainIndexEntry, b: Block, g: Hash)
    requires Tree(c) && blocks.Keys == c.entries.Keys && g in c.entries && e.blockHash !in c.entries
    requires Tree(AddEntry(c, e))
    ensures PlacedPath(AddEntry(c, e), blocks[e.blockHash := b], g) == PlacedPath(c, blocks, g)
    ensures Path(AddEntry(c, e), g) == Path(c, g)
    decreases c.entries[g].height
  {
    hide Tree, Overtakes;
    PathUnfolds(c, blocks, g);
    PathUnfolds(AddEntry(c, e), blocks[e.blockHash := b], g);
    HashPathUnfolds(c, g);
    HashPathUnfolds(AddEntry(c, e), g);
    if c.entries[g].parent.Some? {
      PathStable(c, blocks, e, b, c.entries[g].parent.value);
    }
  }

  lemma HashPathUnfolds(c: Index, g: Hash)
    requires Tree(c) && g in c.entries
    ensures match c.entries[g].parent
            case None => Path(c, g) == [g]
            case Some(p) => p in c.entries && Path(c, g) == Path(c, p) + [g]
  {
    assert Linked(c, g);
  }

  lemma {:induction false} PathSegment(c: Index, blocks: map<Hash, Block>, t: Hash, h: Hash)
    returns (pre: seq<Placed>, post: seq<Placed>)
    requires Tree(c) && blocks.Keys == c.entries.Keys && t in c.entries && h in Path(c, t)
    ensures h in c.entries && c.entries[h].blockHash == h
    ensures PlacedPath(c, blocks, t) == Around(pre, blocks[h], c.entries[h], post)
    decreases c.entries[t].height
  {
    hide Tree;
    PathUnfolds(c, blocks, t);
    HashPathUnfolds(c, t);
    EntryKeyed(c, t);
    var here := PlacedBlock(blocks[t], t, c.entries[t].height);
    if h == t {
      pre := if c.entries[t].parent.None? then [] else PlacedPath(c, blocks, c.entries[t].parent.value);
      post := [];
      assert pre + here + [] == pre + here;
    } else {
      var rest;
      pre, rest := PathSegment(c, blocks, c.entries[t].parent.value, h);
      post := rest + here;
      assert pre + PlacedBlock(blocks[h], h, c.entries[h].height) + rest + here
          == pre + PlacedBlock(blocks[h], h, c.entries[h].height) + (rest + here);
    }
  }


  lemma BestPathSegment(n: Node, h: Hash) returns (pre: seq<Placed>, post: seq<Placed>)
    requires TreeExplained(n.chain, n.blocks) && OnBestChain(n, h)
    ensures h in n.chain.entries && h in n.blocks && n.chain.entries[h].blockHash == h
    ensures BestChain(n) == Around(pre, n.blocks[h], n.chain.entries[h], post)
  {
    hide EntryExplained, Around, PlacedPath;
    pre, post := PathSegment(n.chain, n.blocks, n.chain.bestTip.value, h);
  }

  // ---- Saved blocks -----------------------------------------------------------------------

  /** How an accepted block changed the node: not at all, or by one new entry. */
  ghost predicate Accepted(n: Node, m: Node, h: Hash) {
    && SubPool(m.mempool, n.mempool)
    && h in m.chain.entries
    && if h in n.chain.entries then m == n.(mempool := m.mempool)
       else
         && h in m.blocks && m.chain.entries[h].blockHash == h
         && m.chain == AddEntry(n.chain, m.chain.entries[h]) && m.blocks == n.blocks[h := m.blocks[h]]
         && (m.chain.bestTip != Some(h) ==> m.activeUtxos == n.activeUtxos)
  }

  lemma AcceptIsAccepted(n: Node, b: Block)
    requires Settled(n) && AcceptBlock(n, b).1.Ok?
    ensures Accepted(n, AcceptBlock(n, b).0, BlockHash(b))
  {
    hide HeaderHash, Consensus.ValidateBlock, NewEntry, EnsureSnapshot, Consistent, Validate;
    if BlockHash(b) in n.chain.entries {
      KnownBlockIsNoOp(n, b);
    } else {
      StoredAreIndexed(n);
      if Consensus.ValidateBlock(b).Ok? && NewEntry(n.chain, b).Ok? {
        NewEntryHash(n, b);
        AcceptNew(n, b, NewEntry(n.chain, b).value);
      }
    }
  }

  lemma AcceptedStored(n: Node, m: Node, h: Hash)
    requires TreeExplained(m.chain, m.blocks) && Accepted(n, m, h)
    ensures h in m.chain.entries && h in m.blocks && Tree(m.chain)
  {
    hide EntryExplained, Tree;
  }

  /** Recording the block brings the chain tables up to date. */
  lemma RecordUpdatesChain(s: Tables, n: Node, m: Node, h: Hash)
    requires TreeExplained(n.chain, n.blocks) && TreeExplained(m.chain, m.blocks) && Accepted(n, m, h)
    requires s.blocks == n.blocks && s.entries == n.chain.entries
    ensures SaveBlockRecord(s, m.blocks[h], m.chain.entries[h], m.chain.bestTip)
            == s.(blocks := m.blocks, entries := m.chain.entries, bestTip := m.chain.bestTip)
  {
    hide EntryExplained, Overtakes, SubPool;
    EntryKeyed(m.chain, h);
    if h in n.chain.entries {
      assert n.blocks[h := n.blocks[h]] == n.blocks;
      assert n.chain.entries[h := n.chain.entries[h]] == n.chain.entries;
    }
  }

  lemma SameTipSameChain(n: Node, m: Node, h: Hash)
    requires TreeExplained(n.chain, n.blocks) && TreeExplained(m.chain, m.blocks) && Accepted(n, m, h)
    requires h in n.chain.entries || m.chain.bestTip != Some(h)
    ensures BestChain(m) == BestChain(n) && m.chain.bestTip == n.chain.bestTip && m.activeUtxos == n.activeUtxos
    ensures h !in n.chain.entries ==> !OnBestChain(m, h)
  {
    hide EntryExplained, SubPool, PlacedPath, Path, Linked;
    if h !in n.chain.entries {
      assert m.chain.bestTip == n.chain.bestTip;
      if n.chain.bestTip.Some? {
        PathStable(n.chain, n.blocks, m.chain.entries[h], m.blocks[h], n.chain.bestTip.value);
        PathIsIndexed(n.chain, n.chain.bestTip.value, h);
      }
    }
  }

  lemma PathIsIndexed(c: Index, t: Hash, h: Hash)
    requires Tree(c) && t in c.entries && h !in c.entries
    ensures h !in Path(c, t)
  {
  }

  /** A new tip on the old tip appends its block to the best chain. */
  lemma ExtensionAppends(n: Node, m: Node, h: Hash)
    requires TreeExplained(n.chain, n.blocks) && TreeExplained(m.chain, m.blocks) && Accepted(n, m, h)
    requires h !in n.chain.entries && m.chain.bestTip == Some(h) && m.chain.entries[h].parent == n.chain.bestTip
    ensures BestChain(m) == Around(BestChain(n), m.blocks[h], m.chain.entries[h], [])
  {
    hide EntryExplained, SubPool, PlacedPath, Linked, Overtakes;
    PathUnfolds(m.chain, m.blocks, h);
    var here := PlacedBlock(m.blocks[h], h, m.chain.entries[h].height);
    if n.chain.bestTip.Some? {
      PathStable(n.chain, n.blocks, m.chain.entries[h], m.blocks[h], n.chain.bestTip.value);
    }
    assert BestChain(n) + here + [] == BestChain(n) + here;
  }

  /** Rows and edges outside the new block are the same with and without it. */
  lemma ExtensionKeepsOthers(p: seq<Placed>, b: Block, e: ChainIndexEntry, pool: Pool, s: Tables)
    requires Indexable(p, pool) && Indexable(Around(p, b, e, []), pool)
    requires s.mempool == pool && s.transactions == IndexRows(p, pool) && s.keys == IndexKeys(p, pool)
    ensures OthersIndexed(s, b, Around(p, b, e, []), pool)
  {
    hide Txid, EdgesOf, ConfirmedRows, Indexable, Around, IndexRows;
    var q := Around(p, b, e, []);
    forall id
      ensures id in IndexRows(p, pool) ==> id in IndexRows(q, pool)
      ensures id in IndexRows(q, pool) && !InBlock(b, id) ==>
                Lookup(IndexRows(p, pool), id) == Some(IndexRows(q, pool)[id])
    {
      ExtensionRow(p, b, e, pool, id);
    }
    forall id | id in IndexRows(q, pool) && !InBlock(b, id)
      ensures Lookup(IndexKeys(p, pool), id) == Some(IndexKeys(q, pool)[id])
    {
      ExtensionEdges(p, b, e, pool, id);
    }
  }

  lemma {:induction false} RowsOfConcat(p: seq<Placed>, q: seq<Placed>)
    ensures ConfirmedRows(p + q) == ConfirmedRows(p) + ConfirmedRows(q)
    decreases |q|
  {
    hide Txid;
    if q == [] {
      assert p + q == p;
      assert ConfirmedRows(p) + map[] == ConfirmedRows(p);
    } else {
      var n := |q| - 1;
      RowsOfConcat(p, q[..n]);
      assert (p + q)[..|p + q| - 1] == p + q[..n];
    }
  }

  lemma ExtensionRow(p: seq<Placed>, b: Block, e: ChainIndexEntry, pool: Pool, id: Hash)
    ensures id in IndexRows(p, pool) ==> id in IndexRows(Around(p, b, e, []), pool)
    ensures id in IndexRows(Around(p, b, e, []), pool) && !InBlock(b, id) ==>
              Lookup(IndexRows(p, pool), id) == Some(IndexRows(Around(p, b, e, []), pool)[id])
  {
    hide Txid, ConfirmedRows, InBlock;
    var pb := PlacedBlock(b, e.blockHash, e.height);
    assert p + pb + [] == p + pb;
    RowsOfConcat(p, pb);
    BlockRowsAreInBlock(b, e, id);
  }

  /** Inputs of an indexed transaction were created on the chain it is indexed with. */
  lemma IndexedInputs(p: seq<Placed>, pool: Pool, id: Hash, o: OutPoint)
    requires Indexable(p, pool) && id in IndexRows(p, pool)
    requires o in Spent(IndexRows(p, pool)[id].transaction.inputs)
    ensures CreatedBy(TxSet(p), o)
  {
    hide Txid, ConfirmedRows, CreatedBy, TxSet, Spent;
    if id !in pool {
      ConfirmedRowsKeys(p, id);
      var i :| 0 <= i < |p| && Txid(p[i].tx) == id;
      ConfirmedRowsLookup(p, i);
      TxSetPrefix(p, i);
      CreatedByMore(TxSet(p[..i]), TxSet(p), o);
    }
  }

  lemma TxSetPrefix(p: seq<Placed>, i: nat)
    requires i <= |p|
    ensures TxSet(p[..i]) <= TxSet(p)
  {
    forall t | t in TxSet(p[..i])
      ensures t in TxSet(p)
    {
      var j :| 0 <= j < i && p[..i][j].tx == t;
      assert p[j].tx == t;
    }
  }

  lemma ExtensionEdges(p: seq<Placed>, b: Block, e: ChainIndexEntry, pool: Pool, id: Hash)
    requires Indexable(p, pool) && Indexable(Around(p, b, e, []), pool)
    requires id in IndexRows(Around(p, b, e, []), pool) && !InBlock(b, id)
    ensures Lookup(IndexKeys(p, pool), id) == Some(IndexKeys(Around(p, b, e, []), pool)[id])
  {
    hide Txid, EdgesOf, ConfirmedRows, Around, IndexRows, CreatedBy, TxSet, Spent, InBlock, UniqueIds, InputsKnown,
      NewTo;
    var q := Around(p, b, e, []);
    ExtensionRow(p, b, e, pool, id);
    var tx := IndexRows(p, pool)[id].transaction;
    AroundPrefix(p, b, e);
    forall o | o in Spent(tx.inputs)
      ensures FromRows(ConfirmedRows(p))(o) == FromRows(ConfirmedRows(q))(o)
    {
      IndexedInputs(p, pool, id, o);
      ResolvesEarly(q, |p|, o);
    }
    EdgesAgree(tx, FromRows(ConfirmedRows(p)), FromRows(ConfirmedRows(q)));
  }

  lemma AroundPrefix(p: seq<Placed>, b: Block, e: ChainIndexEntry)
    ensures |p| <= |Around(p, b, e, [])| && Around(p, b, e, [])[..|p|] == p
  {
  }

  lemma SubPoolIndexable(p: seq<Placed>, pool: Pool, sub: Pool)
    requires Indexable(p, pool) && SubPool(sub, pool)
    ensures Indexable(p, sub)
  {
    hide UniqueIds, InputsKnown, NewTo, CreatedBy, TxSet, Spent, Txid;
  }

  lemma SubPoolTransitive(a: Pool, b: Pool, c: Pool)
    requires SubPool(a, b) && SubPool(b, c)
    ensures SubPool(a, c)
  {
  }

  /** The chain tables and the index after the block was recorded and stale rows deleted. */
  lemma AfterStale(s: Tables, n: Node, m: Node, h: Hash)
    requires Honest(n) && TreeExplained(n.chain, n.blocks) && Synced(s, n)
    requires TreeExplained(m.chain, m.blocks) && Accepted(n, m, h)
    ensures var recorded := SaveBlockRecord(s, m.blocks[h], m.chain.entries[h], m.chain.bestTip);
            DeleteStale(recorded.(activeUtxos := m.activeUtxos), m.mempool)
            == Tables(m.blocks, m.chain.entries, m.activeUtxos, m.mempool,
                      IndexRows(BestChain(n), m.mempool), IndexKeys(BestChain(n), m.mempool), m.chain.bestTip)
  {
    hide Honest, TreeExplained, BestChain, IndexRows, IndexKeys, DeleteStale, ConfirmedRows, SaveBlockRecord;
    AcceptedStored(n, m, h);
    RecordUpdatesChain(s, n, m, h);
    SubPoolTransitive(m.mempool, n.mempool, s.mempool);
    var recorded := SaveBlockRecord(s, m.blocks[h], m.chain.entries[h], m.chain.bestTip);
    StaleDeleted(recorded.(activeUtxos := m.activeUtxos), BestChain(n), m.mempool);
  }

  /** Saving a best-chain block without a refresh writes the snapshot. */
  lemma IncrementalSave(s: Tables, n: Node, m: Node, h: Hash)
    requires Honest(n) && Honest(m) && TreeExplained(n.chain, n.blocks) && TreeExplained(m.chain, m.blocks)
    requires Synced(s, n) && Accepted(n, m, h) && OnBestChain(m, h)
    requires h !in n.chain.entries ==> m.chain.bestTip == Some(h) && m.chain.entries[h].parent == n.chain.bestTip
    ensures SaveAcceptedBlock(s, m, h) == Snapshot(m, m.mempool)
  {
    hide Honest, TreeExplained, BestChain, IndexRows, IndexKeys, DeleteStale, SaveConfirmed, SaveBlockRecord, Around,
      Indexable, OthersIndexed, Accepted, OnBestChain, Synced, AddEntry;
    AcceptedStored(n, m, h);
    AfterStale(s, n, m, h);
    HonestIsIndexable(n);
    HonestIsIndexable(m);
    var recorded := SaveBlockRecord(s, m.blocks[h], m.chain.entries[h], m.chain.bestTip);
    var cleared := DeleteStale(recorded.(activeUtxos := m.activeUtxos), m.mempool);
    if h !in n.chain.entries {
      ExtensionAppends(n, m, h);
      AcceptedSubPool(n, m, h);
      SubPoolIndexable(BestChain(n), n.mempool, m.mempool);
      ExtensionKeepsOthers(BestChain(n), m.blocks[h], m.chain.entries[h], m.mempool, cleared);
      ConfirmedSaved(cleared, BestChain(n), m.blocks[h], m.chain.entries[h], [], m.mempool);
    } else {
      SameTipSameChain(n, m, h);
      var pre, post := BestPathSegment(m, h);
      AllIndexed(cleared, m.blocks[h], BestChain(m), m.mempool);
      ConfirmedSaved(cleared, pre, m.blocks[h], m.chain.entries[h], post, m.mempool);
    }
  }

  lemma AcceptedSubPool(n: Node, m: Node, h: Hash)
    requires Accepted(n, m, h)
    ensures SubPool(m.mempool, n.mempool)
  {
  }

  lemma AllIndexed(s: Tables, b: Block, p: seq<Placed>, pool: Pool)
    requires s.mempool == pool && s.transactions == IndexRows(p, pool) && s.keys == IndexKeys(p, pool)
    ensures OthersIndexed(s, b, p, pool)
  {
    hide EdgesOf, ConfirmedRows, IndexRows, InBlock;
  }

  /** A refresh after a block that is the best tip equals a full save, whatever the index held and
      whatever ids are repeated. */
  lemma RefreshedSave(s: Tables, n: Node, m: Node, h: Hash)
    requires TreeExplained(n.chain, n.blocks) && TreeExplained(m.chain, m.blocks)
    requires s.blocks == n.blocks && s.entries == n.chain.entries && Accepted(n, m, h)
    requires m.chain.bestTip == Some(h)
    ensures SaveMempoolState(SaveAcceptedBlock(s, m, h), m) == SaveNodeState(m)
  {
    hide TreeExplained, BestChain, IndexRows, IndexKeys, BuildIndex, SaveBlockRecord, Accepted, Path;
    AcceptedStored(n, m, h);
    RecordUpdatesChain(s, n, m, h);
    TipOnBestChain(m, h);
    var recorded := SaveBlockRecord(s, m.blocks[h], m.chain.entries[h], m.chain.bestTip);
    var cleared := DeleteStale(recorded.(activeUtxos := m.activeUtxos), m.mempool);
    ConfirmedKeepsChain(cleared, m.blocks[h], m.chain.entries[h]);
  }

  lemma TipOnBestChain(n: Node, h: Hash)
    requires TreeExplained(n.chain, n.blocks) && n.chain.bestTip == Some(h)
    ensures OnBestChain(n, h)
  {
    hide EntryExplained, Linked;
    var path := Path(n.chain, h);
    assert path[|path| - 1] == h;
  }

  lemma ConfirmedKeepsChain(s: Tables, b: Block, e: ChainIndexEntry)
    ensures SaveConfirmed(s, b, e).blocks == s.blocks && SaveConfirmed(s, b, e).entries == s.entries
    ensures SaveConfirmed(s, b, e).activeUtxos == s.activeUtxos && SaveConfirmed(s, b, e).bestTip == s.bestTip
  {
    hide InsertConfirmedEdges, Txid, ConfirmedRows;
    var p := PlacedBlock(b, e.blockHash, e.height);
    UpsertOutcome(s, p, |p|);
  }

  lemma NoRefreshMeansExtension(m: Node, h: Hash, previousTip: Option<Hash>, previousIds: set<Hash>)
    requires h in m.chain.entries && !RequiresRefresh(m, h, previousTip, previousIds)
    ensures m.chain.bestTip == Some(h) ==> m.chain.entries[h].parent == previousTip
  {
    hide Txid;
  }

  /** A block off the best chain only adds its record. */
  lemma SideBranchSaved(s: Tables, n: Node, m: Node, h: Hash)
    requires TreeExplained(n.chain, n.blocks) && TreeExplained(m.chain, m.blocks)
    requires Synced(s, n) && Accepted(n, m, h) && !OnBestChain(m, h)
    ensures Synced(SaveAcceptedBlock(s, m, h), m)
  {
    hide TreeExplained, BestChain, IndexRows, IndexKeys, SaveBlockRecord, OnBestChain, ConfirmedRows, AddEntry, Tree;
    if m.chain.bestTip == Some(h) {
      TipOnBestChain(m, h);
    }
    RecordUpdatesChain(s, n, m, h);
    SameTipSameChain(n, m, h);
    SubPoolTransitive(m.mempool, n.mempool, s.mempool);
  }

  /** A saved block keeps the tables in step; on the best chain it makes them the full snapshot. */
  lemma BlockSaved(s: Tables, n: Node, m: Node, h: Hash)
    requires Honest(n) && Honest(m) && TreeExplained(n.chain, n.blocks) && TreeExplained(m.chain, m.blocks)
    requires Synced(s, n) && Accepted(n, m, h)
    ensures var after := SaveAcceptedBlockState(s, m, h, n.chain.bestTip, n.mempool.Keys);
            Synced(after, m) && (OnBestChain(m, h) ==> after == SaveNodeState(m))
  {
    hide Honest, TreeExplained, BestChain, IndexRows, IndexKeys, RequiresRefresh, SaveAcceptedBlock, SaveMempoolState,
      SaveNodeState, AddEntry, OnBestChain, ConfirmedRows, Tree;
    AcceptedStored(n, m, h);
    SaveWritesSnapshot(m);
    ExactIsSynced(m);
    if RequiresRefresh(m, h, n.chain.bestTip, n.mempool.Keys) {
      RefreshTip(m, h, n.chain.bestTip, n.mempool.Keys);
      RefreshedSave(s, n, m, h);
    } else {
      NoRefreshMeansExtension(m, h, n.chain.bestTip, n.mempool.Keys);
      if OnBestChain(m, h) {
        if h !in n.chain.entries && m.chain.bestTip != Some(h) {
          SameTipSameChain(n, m, h);
        }
        IncrementalSave(s, n, m, h);
      } else {
        SideBranchSaved(s, n, m, h);
      }
    }
  }

  lemma RefreshTip(m: Node, h: Hash, previousTip: Option<Hash>, previousIds: set<Hash>)
    requires h in m.chain.entries && RequiresRefresh(m, h, previousTip, previousIds)
    ensures m.chain.bestTip == Some(h)
  {
    hide Txid;
  }
}
