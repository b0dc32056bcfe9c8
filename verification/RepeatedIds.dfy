/** What a repeated transaction id does to the index: the incremental save keeps the last row, the full
    rebuild keeps the first. */
module RepeatedIds {
  import opened Primitives
  import opened Crypto
  import opened Types
  import opened State
  import opened Chain
  import opened Mempool
  import opened NodeState
  import opened ActiveChain
  import opened Provenance
  import opened TxIndex
  import opened Store
  import opened Persistence
  import opened Synchrony
  import opened BlockRules
  import opened Rebuild
  import opened MiningLoop
  import opened Ties
  import Consensus

  /** `i` is the first place of its id. */
  ghost predicate IsFirst(p: seq<Placed>, i: nat) {
    i < |p| && forall k :: 0 <= k < i ==> Txid(p[k].tx) != Txid(p[i].tx)
  }

  /** `i` is the last place of its id. */
  ghost predicate IsLast(p: seq<Placed>, i: nat) {
    i < |p| && forall k :: i < k < |p| ==> Txid(p[k].tx) != Txid(p[i].tx)
  }

  /** The rebuild keeps the first row of an id. */
  lemma {:induction false} RebuildKeepsFirst(p: seq<Placed>, i: nat)
    requires IsFirst(p, i)
    ensures Lookup(AddChain(p).rows, Txid(p[i].tx)) == Some(ConfirmedRow(p[i]))
  {
    hide Txid, EdgesOf;
    var n := |p| - 1;
    if i < n {
      RebuildKeepsFirst(p[..n], i);
    } else {
      NoEarlierRow(p[..n], Txid(p[n].tx));
    }
  }

  lemma {:induction false} NoEarlierRow(p: seq<Placed>, id: Hash)
    requires forall k :: 0 <= k < |p| ==> Txid(p[k].tx) != id
    ensures id !in AddChain(p).rows
  {
    hide Txid, EdgesOf;
    if p != [] {
      NoEarlierRow(p[..|p| - 1], id);
    }
  }

  lemma {:induction false} PoolKeepsRow(st: Built, entries: seq<(Hash, Transaction)>, id: Hash)
    requires id in st.rows
    ensures Lookup(AddPool(st, entries).rows, id) == Lookup(st.rows, id)
  {
    hide Txid, EdgesOf;
    if entries != [] {
      PoolKeepsRow(st, entries[..|entries| - 1], id);
    }
  }

  /** Upserts keep the last row of an id. */
  lemma {:induction false} UpsertsKeepLast(p: seq<Placed>, i: nat)
    requires IsLast(p, i)
    ensures Lookup(ConfirmedRows(p), Txid(p[i].tx)) == Some(ConfirmedRow(p[i]))
  {
    hide Txid;
    var n := |p| - 1;
    if i < n {
      UpsertsKeepLast(p[..n], i);
    }
  }

  lemma {:induction false} FirstPlace(p: seq<Placed>, a: nat) returns (i: nat)
    requires a < |p|
    ensures i <= a && IsFirst(p, i) && Txid(p[i].tx) == Txid(p[a].tx)
  {
    hide Txid;
    if k :| 0 <= k < a && Txid(p[k].tx) == Txid(p[a].tx) {
      i := FirstPlace(p, k);
    } else {
      i := a;
    }
  }

  lemma {:induction false} LastPlace(p: seq<Placed>, a: nat) returns (i: nat)
    requires a < |p|
    ensures a <= i && IsLast(p, i) && Txid(p[i].tx) == Txid(p[a].tx)
    decreases |p| - a
  {
    hide Txid;
    if k :| a < k < |p| && Txid(p[k].tx) == Txid(p[a].tx) {
      i := LastPlace(p, k);
    } else {
      i := a;
    }
  }

  lemma {:induction false} PlacedInIndexed(c: Index, blocks: map<Hash, Block>, h: Hash, i: nat)
    requires Tree(c) && blocks.Keys == c.entries.Keys && h in c.entries && i < |PlacedPath(c, blocks, h)|
    ensures PlacedPath(c, blocks, h)[i].blockHash in c.entries
    decreases c.entries[h].height
  {
    hide Tree, PlacedPath;
    PathUnfolds(c, blocks, h);
    var parent := c.entries[h].parent;
    if parent.Some? && i < |PlacedPath(c, blocks, parent.value)| {
      PlacedInIndexed(c, blocks, parent.value, i);
    }
  }

  lemma ChainInIndexed(n: Node, i: nat)
    requires TreeExplained(n.chain, n.blocks) && i < |BestChain(n)|
    ensures BestChain(n)[i].blockHash in n.chain.entries
  {
    hide PlacedPath, EntryExplained, Linked;
    PlacedInIndexed(n.chain, n.blocks, n.chain.bestTip.value, i);
  }

  /** The row a full save writes for the transaction in the first of several places of its id. */
  lemma FullRow(n: Node, i: nat)
    requires TreeExplained(n.chain, n.blocks) && IsFirst(BestChain(n), i)
    ensures Lookup(SaveNodeState(n).transactions, Txid(BestChain(n)[i].tx)) == Some(ConfirmedRow(BestChain(n)[i]))
  {
    hide TreeExplained, BestChain, Txid, IsFirst, SortedEntries, AddChain, AddPool;
    var p := BestChain(n);
    IsFirstInRange(p, i);
    RebuildKeepsFirst(p, i);
    PoolKeepsRow(AddChain(p), SortedEntries(n.mempool), Txid(p[i].tx));
  }

  lemma IsFirstInRange(p: seq<Placed>, i: nat)
    requires IsFirst(p, i)
    ensures i < |p|
  {
  }

  /** The row an incremental save writes for the transaction in the last of several places in the block. */
  lemma IncrementalRow(s: Tables, b: Block, e: ChainIndexEntry, i: nat)
    requires IsLast(PlacedBlock(b, e.blockHash, e.height), i)
    ensures i < |b.transactions|
    ensures Lookup(SaveConfirmed(s, b, e).transactions, Txid(b.transactions[i]))
            == Some(ConfirmedRow(Placed(b.transactions[i], e.blockHash, e.height, i)))
  {
    hide InsertConfirmedEdges, Txid, ConfirmedRows, UpsertConfirmed;
    var p := PlacedBlock(b, e.blockHash, e.height);
    UpsertOutcome(s, p, |p|);
    assert p[..|p|] == p;
    UpsertsKeepLast(p, i);
  }

  /** An extension of the best chain of `n` by block `h`, giving `m`. */
  ghost predicate ExtendsBest(n: Node, m: Node, h: Hash) {
    && Accepted(n, m, h) && h !in n.chain.entries && m.chain.bestTip == Some(h)
    && m.chain.entries[h].parent == n.chain.bestTip
  }

  /** With a repeated id, the two saves disagree on its row. */
  lemma RepeatedIdSplits(s: Tables, n: Node, m: Node, h: Hash)
    requires TreeExplained(n.chain, n.blocks) && TreeExplained(m.chain, m.blocks) && ExtendsBest(n, m, h)
    requires UniqueIds(BestChain(n)) && !UniqueIds(BestChain(m)) && h in m.blocks
    ensures SaveConfirmed(s, m.blocks[h], m.chain.entries[h]).transactions != SaveNodeState(m).transactions
  {
    hide TreeExplained, BestChain, Txid, SaveNodeState, SaveConfirmed, Accepted, IsFirst, IsLast, PlacedPath, Tree;
    ExtensionAppends(n, m, h);
    ExtendedEntry(n, m, h);
    var b, e, pre, p := m.blocks[h], m.chain.entries[h], BestChain(n), BestChain(m);
    var block := PlacedBlock(b, e.blockHash, e.height);
    assert p == pre + block;
    var a, c :| 0 <= a < c < |p| && Txid(p[a].tx) == Txid(p[c].tx);
    assert c >= |pre|;
    var first := FirstPlace(p, a);
    var last := LastPlace(block, c - |pre|);
    IsFirstInRange(p, first);
    FullRow(m, first);
    IncrementalRow(s, b, e, last);
    if first < |pre| {
      ChainInIndexed(n, first);
    }
  }

  lemma ExtendedEntry(n: Node, m: Node, h: Hash)
    requires ExtendsBest(n, m, h)
    ensures h in m.chain.entries && m.chain.entries[h].blockHash == h
  {
    hide AddEntry, SubPool;
  }

  lemma SavedRows(s: Tables, m: Node, h: Hash) returns (before: Tables)
    requires TreeExplained(m.chain, m.blocks) && h in m.chain.entries && OnBestChain(m, h)
    ensures SaveAcceptedBlock(s, m, h) == SaveConfirmed(before, m.blocks[h], m.chain.entries[h])
  {
    hide SaveConfirmed, DeleteStale, SaveBlockRecord, EntryExplained, OnBestChain, Tree;
    var recorded := SaveBlockRecord(s, m.blocks[h], m.chain.entries[h], m.chain.bestTip);
    before := DeleteStale(recorded.(activeUtxos := m.activeUtxos), m.mempool);
  }

  /** Everything an honest state asks for except unique ids. */
  ghost predicate HonestPool(n: Node)
    requires TreeExplained(n.chain, n.blocks)
  {
    && Settled(n)
    && (forall id :: id in n.mempool ==> !n.mempool[id].IsCoinbase())
    && (forall t, id :: t in TxSet(BestChain(n)) && id in n.mempool && Txid(t) == id ==> t == n.mempool[id])
  }

  /** No id of the block is on the chain yet, and none is repeated in the block. */
  ghost predicate BringsNewIds(p: seq<Placed>, b: Block) {
    && DistinctIds(b.transactions)
    && forall i, j :: 0 <= i < |p| && 0 <= j < |b.transactions| ==> Txid(p[i].tx) != Txid(b.transactions[j])
  }

  lemma NewIdsIff(p: seq<Placed>, b: Block, h: Hash, height: nat)
    requires UniqueIds(p)
    ensures UniqueIds(p + PlacedBlock(b, h, height)) <==> BringsNewIds(p, b)
  {
    hide Txid;
    var q := p + PlacedBlock(b, h, height);
    if UniqueIds(q) {
      forall i, j | 0 <= i < |p| && 0 <= j < |b.transactions|
        ensures Txid(p[i].tx) != Txid(b.transactions[j])
      {
        assert q[i] == p[i] && q[|p| + j].tx == b.transactions[j];
      }
      forall i, j | 0 <= i < j < |b.transactions|
        ensures Txid(b.transactions[i]) != Txid(b.transactions[j])
      {
        assert q[|p| + i].tx == b.transactions[i] && q[|p| + j].tx == b.transactions[j];
      }
    }
  }

  /** Saving an extension without a refresh equals a full save exactly when the block brings only new
      ids. A repeated coinbase, which the ledger allows, is the case that fails. */
  lemma IncrementalSaveIff(s: Tables, n: Node, m: Node, h: Hash)
    requires Honest(n) && TreeExplained(n.chain, n.blocks) && TreeExplained(m.chain, m.blocks)
    requires Synced(s, n) && ExtendsBest(n, m, h) && HonestPool(m) && h in m.blocks
    ensures SaveAcceptedBlock(s, m, h) == SaveNodeState(m) <==> BringsNewIds(BestChain(n), m.blocks[h])
  {
    hide TreeExplained, BestChain, Txid, SaveNodeState, SaveConfirmed, SaveAcceptedBlock, Accepted, Synced, UniqueIds,
      BringsNewIds, Settled, OnBestChain, TxSet;
    ExtensionAppends(n, m, h);
    ExtendedEntry(n, m, h);
    assert Around(BestChain(n), m.blocks[h], m.chain.entries[h], [])
        == BestChain(n) + PlacedBlock(m.blocks[h], h, m.chain.entries[h].height);
    NewIdsIff(BestChain(n), m.blocks[h], h, m.chain.entries[h].height);
    TipOnBestChain(m, h);
    if UniqueIds(BestChain(m)) {
      assert Honest(m);
      IncrementalSave(s, n, m, h);
      SaveWritesSnapshot(m);
    } else {
      var before := SavedRows(s, m, h);
      RepeatedIdSplits(before, n, m, h);
    }
  }

  /** The save the server makes, with its refresh decision: it equals a full save exactly when it
      refreshes or the block brings only new ids. */
  lemma BlockSaveIff(s: Tables, n: Node, m: Node, h: Hash)
    requires Honest(n) && TreeExplained(n.chain, n.blocks) && TreeExplained(m.chain, m.blocks)
    requires Synced(s, n) && ExtendsBest(n, m, h) && HonestPool(m) && h in m.chain.entries && h in m.blocks
    ensures SaveAcceptedBlockState(s, m, h, n.chain.bestTip, n.mempool.Keys) == SaveNodeState(m) <==>
            || RequiresRefresh(m, h, n.chain.bestTip, n.mempool.Keys)
            || BringsNewIds(BestChain(n), m.blocks[h])
  {
    hide TreeExplained, BestChain, SaveNodeState, SaveAcceptedBlock, SaveMempoolState, Accepted, BringsNewIds,
      RequiresRefresh, HonestPool, Honest, IndexRows, IndexKeys, ConfirmedRows;
    if RequiresRefresh(m, h, n.chain.bestTip, n.mempool.Keys) {
      RefreshedSave(s, n, m, h);
    } else {
      IncrementalSaveIff(s, n, m, h);
    }
  }

  // ---- A repeated coinbase ----------------------------------------------------------------

  /** Creating outputs again that were created before leaves every valid transaction valid. */
  lemma RecreationKeepsValid(ts: set<Transaction>, u: Utxos, c: Transaction, height: nat, tx: Transaction)
    requires Ledger(ts, u) && c in ts && c.IsCoinbase() && Validate(u, tx).Ok?
    requires forall t :: t in ts && Txid(t) == Txid(c) ==> t == c
    ensures Validate(Apply(u, c, height), tx).Ok?
  {
    hide Txid, Validate;
    SpentArePresent(u, tx);
    forall o | o in Spent(tx.inputs)
      ensures o in u && o in Apply(u, c, height) && Apply(u, c, height)[o].output == u[o].output
    {
      assert Sourced(ts, u, o);
    }
    ValidateDependsOnInputs(u, Apply(u, c, height), tx);
  }

  lemma UniqueInChain(p: seq<Placed>, c: Transaction)
    requires UniqueIds(p) && c in TxSet(p)
    ensures forall t :: t in TxSet(p) && Txid(t) == Txid(c) ==> t == c
  {
    hide Txid;
    var i :| 0 <= i < |p| && p[i].tx == c;
    forall t | t in TxSet(p) && Txid(t) == Txid(c)
      ensures t == c
    {
      var j :| 0 <= j < |p| && p[j].tx == t;
      assert i == j;
    }
  }

  /** The chain after the repeated coinbase has the same transactions. */
  lemma SameTransactions(p: seq<Placed>, b: Block, h: Hash, height: nat, c: Transaction)
    requires b.transactions == [c] && c in TxSet(p)
    ensures TxSet(p + PlacedBlock(b, h, height)) == TxSet(p)
    ensures !BringsNewIds(p, b)
  {
    hide Txid;
    var q := p + PlacedBlock(b, h, height);
    var i :| 0 <= i < |p| && p[i].tx == c;
    assert b.transactions[0] == c;
    forall t | t in TxSet(q)
      ensures t in TxSet(p)
    {
      var j :| 0 <= j < |q| && q[j].tx == t;
      assert j < |p| ==> p[j].tx == t;
    }
    forall t | t in TxSet(p)
      ensures t in TxSet(q)
    {
      var j :| 0 <= j < |p| && p[j].tx == t;
      assert q[j] == p[j];
    }
  }

  /** A block on the tip that only repeats a coinbase of the best chain is accepted, becomes the tip and
      leaves the pool alone. */
  lemma RepeatedCoinbaseAccepted(n: Node, t: Hash, b: Block, c: Transaction)
    requires Honest(n) && TreeExplained(n.chain, n.blocks) && Contends(n, t, b)
    requires b.transactions == [c] && c in TxSet(BestChain(n))
    ensures AcceptBlock(n, b).1.Ok? && Settled(AcceptBlock(n, b).0)
    ensures AcceptBlock(n, b).0.chain.bestTip == Some(BlockHash(b)) && AcceptBlock(n, b).0.mempool == n.mempool
    ensures AcceptBlock(n, b).0.chain == AddEntry(n.chain, EntryOn(n, t, b))
  {
    hide TreeExplained, BestChain, Txid, Ledger, TxSet, UniqueIds, InputsKnown, Settled, Consistent, AcceptBlock,
      HeaderHash, Consensus.ApplyBlock, Consensus.ValidateBlock, BlockWork, Validate, PruneInvalid, AddEntry, Apply;
    HonestExplained(n);
    LedgerOfBestChain(n);
    SelfKeepsParent(n, t, b);
    ContenderAccepted(n, t, b, n);
    CoinbaseBlockEffect(n, t, b, c);
    TipBlockAccepted(n, b);
    var after := Consensus.ApplyBlock(n.activeUtxos, b, NextHeight(n)).value;
    UniqueInChain(BestChain(n), c);
    ConsistentPool(n);
    forall id | id in n.mempool
      ensures Validate(after, n.mempool[id]).Ok?
    {
      RecreationKeepsValid(TxSet(BestChain(n)), n.activeUtxos, c, NextHeight(n), n.mempool[id]);
    }
    PruneKeepsValidPool(n.mempool, after);
  }

  lemma CoinbaseBlockEffect(n: Node, t: Hash, b: Block, c: Transaction)
    requires Consistent(n) && TipApplied(n) && Contends(n, t, b) && b.transactions == [c]
    ensures Consensus.ValidateBlock(b).Ok? && c.IsCoinbase()
    ensures b.header.prevBlockhash == MiningParent(n) && BestWork(n.chain) + BlockWork(b).value <= U128_MAX
    ensures Consensus.ApplyBlock(n.activeUtxos, b, NextHeight(n)) == Ok(Apply(n.activeUtxos, c, NextHeight(n)))
  {
    hide Consistent, HeaderHash, Consensus.ValidateBlock, Consensus.ApplyBlock, BlockWork, WellFormed, Applicable,
      TargetValue, Apply;
    ActiveIsBestChain(n);
    WellFormedShape(b);
    ValidateBlockIff(b);
    ApplyBlockIff(n.activeUtxos, b, NextHeight(n));
    assert b.transactions[1..] == [];
    assert StateAfter(n.activeUtxos, [], NextHeight(n), 0) == n.activeUtxos;
  }

  lemma NothingRemovedNothingIncluded(n: Node, m: Node, h: Hash, c: Transaction)
    requires ExtendsBest(n, m, h) && h in m.blocks && m.blocks[h].transactions == [c] && m.mempool == n.mempool
    ensures !RequiresRefresh(m, h, n.chain.bestTip, n.mempool.Keys)
  {
    hide Txid, AddEntry, SubPool;
    assert (set i | 1 <= i < |m.blocks[h].transactions| :: Txid(m.blocks[h].transactions[i])) == {};
    assert n.mempool.Keys - m.mempool.Keys == {};
  }

  lemma ExtensionByAccept(n: Node, t: Hash, b: Block)
    requires Settled(n) && Contends(n, t, b) && AcceptBlock(n, b).1.Ok?
    requires AcceptBlock(n, b).0.chain == AddEntry(n.chain, EntryOn(n, t, b))
    requires AcceptBlock(n, b).0.chain.bestTip == Some(BlockHash(b))
    ensures ExtendsBest(n, AcceptBlock(n, b).0, BlockHash(b))
    ensures BlockHash(b) in AcceptBlock(n, b).0.blocks && AcceptBlock(n, b).0.blocks[BlockHash(b)] == b
  {
    hide Settled, AcceptBlock, HeaderHash, WellFormed, Applicable, BlockWork, SubPool, Overtakes;
    AcceptIsAccepted(n, b);
    SettledParts(n);
    AcceptedIsStored(n, b);
  }

  /** The failing input: such a block is saved without a refresh, and the tables then differ from a full
      save. */
  lemma RepeatedCoinbaseSplits(s: Tables, n: Node, t: Hash, b: Block, c: Transaction)
    requires Honest(n) && TreeExplained(n.chain, n.blocks) && Synced(s, n) && Contends(n, t, b)
    requires b.transactions == [c] && c in TxSet(BestChain(n))
    ensures var (m, r) := AcceptBlock(n, b);
            var h := BlockHash(b);
            && r.Ok? && TreeExplained(m.chain, m.blocks) && h in m.chain.entries && m.mempool == n.mempool
            && !RequiresRefresh(m, h, n.chain.bestTip, n.mempool.Keys)
            && SaveAcceptedBlockState(s, m, h, n.chain.bestTip, n.mempool.Keys) != SaveNodeState(m)
  {
    hide TreeExplained, BestChain, Txid, TxSet, UniqueIds, Settled, Consistent, AcceptBlock, HeaderHash, AddEntry,
      SaveAcceptedBlockState, SaveNodeState, RequiresRefresh, Accepted, Contends, BringsNewIds, Synced, EntryOn;
    HonestExplained(n);
    RepeatedCoinbaseAccepted(n, t, b, c);
    ExtensionByAccept(n, t, b);
    var m, h := AcceptBlock(n, b).0, BlockHash(b);
    SettledExplained(m);
    ExtendedEntry(n, m, h);
    NothingRemovedNothingIncluded(n, m, h, c);
    ExtensionAppends(n, m, h);
    assert Around(BestChain(n), b, m.chain.entries[h], [])
        == BestChain(n) + PlacedBlock(b, h, m.chain.entries[h].height);
    SameTransactions(BestChain(n), b, h, m.chain.entries[h].height, c);
    assert HonestPool(m);
    BlockSaveIff(s, n, m, h);
  }
}
