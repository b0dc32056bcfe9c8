/** Incremental saves against the full rebuild: after every block saved on the best chain the tables
    are exactly what a full snapshot would write, and in between only extra pending rows remain. */
module Persistence {
  import opened Primitives
  import opened Crypto
  import opened Types
  import opened State
  import opened Replay
  import opened Mempool
  import opened NodeState
  import opened Provenance
  import opened TxIndex
  import opened Store

  // ---- Saving the transactions of one block -----------------------------------------------

  lemma RowsSnoc(p: seq<Placed>, k: nat)
    requires 0 < k <= |p|
    ensures ConfirmedRows(p[..k]) == ConfirmedRows(p[..k - 1])[Txid(p[k - 1].tx) := ConfirmedRow(p[k - 1])]
  {
    hide Txid;
    assert p[..k][..k - 1] == p[..k - 1] && p[..k][k - 1] == p[k - 1];
  }

  lemma NothingChanges<V>(m: map<Hash, V>)
    ensures m - {} == m && m + map[] == m
  {
  }

  lemma {:induction false} UpsertOutcome(s: Tables, p: seq<Placed>, k: nat)
    requires k <= |p|
    ensures var ids := ConfirmedRows(p[..k]).Keys;
            UpsertConfirmed(s, p, k)
            == s.(mempool := s.mempool - ids,
                  transactions := s.transactions + ConfirmedRows(p[..k]),
                  keys := s.keys - ids)
  {
    hide Txid, ConfirmedRows;
    if k == 0 {
      assert p[..0] == [];
      NoRows();
      NothingChanges(s.mempool);
      NothingChanges(s.keys);
      NothingChanges(s.transactions);
    } else {
      UpsertOutcome(s, p, k - 1);
      RowsSnoc(p, k);
      var rows, id := ConfirmedRows(p[..k - 1]), Txid(p[k - 1].tx);
      UnionUpdate(s.transactions, rows, id, ConfirmedRow(p[k - 1]));
      RemoveAlso(s.mempool, rows.Keys, id);
      RemoveAlso(s.keys, rows.Keys, id);
    }
  }

  lemma NoRows()
    ensures ConfirmedRows([]) == map[]
  {
  }

  lemma RemoveAlso<V>(m: map<Hash, V>, ids: set<Hash>, id: Hash)
    ensures (m - ids) - {id} == m - (ids + {id})
  {
  }

  ghost predicate DistinctIds(txs: seq<Transaction>) {
    forall i, j :: 0 <= i < j < |txs| ==> Txid(txs[i]) != Txid(txs[j])
  }

  /** The edges stored for transaction `i` of a block. */
  ghost function BlockEdges(txs: seq<Transaction>, rows: Rows, i: nat): seq<Edge>
    requires i < |txs|
  {
    EdgesOf(txs[i], WithFallback(BlockOutputs(txs, i), rows))
  }

  lemma {:induction false} InsertOutcome(keys: Keys, rows: Rows, txs: seq<Transaction>, k: nat)
    requires k <= |txs| && DistinctIds(txs)
    requires forall i :: 0 <= i < |txs| ==> Txid(txs[i]) !in keys
    ensures var after := InsertConfirmedEdges(keys, rows, txs, k);
            && (forall i :: 0 <= i < k ==> Lookup(after, Txid(txs[i])) == Some(BlockEdges(txs, rows, i)))
            && (forall id :: (forall i :: 0 <= i < k ==> Txid(txs[i]) != id) ==> Lookup(after, id) == Lookup(keys, id))
  {
    hide Txid, EdgesOf, BlockOutputs, WithFallback;
    if k > 0 {
      InsertOutcome(keys, rows, txs, k - 1);
      var before := InsertConfirmedEdges(keys, rows, txs, k - 1);
      var id := Txid(txs[k - 1]);
      assert Lookup(before, id) == Lookup(keys, id);
      assert [] + BlockEdges(txs, rows, k - 1) == BlockEdges(txs, rows, k - 1);
      assert InsertConfirmedEdges(keys, rows, txs, k) == before[id := BlockEdges(txs, rows, k - 1)];
      hide BlockEdges, InsertConfirmedEdges, Group;
    }
  }

  lemma {:induction false} BlockOutputsLookup(txs: seq<Transaction>, k: nat, i: nat, o: OutPoint)
    requires i < k <= |txs| && DistinctIds(txs) && Creates(txs[i], o)
    ensures Lookup(BlockOutputs(txs, k), o) == Some(txs[i].outputs[o.vout])
  {
    hide Txid;
    if i < k - 1 {
      BlockOutputsLookup(txs, k - 1, i, o);
      assert o !in OutputsOf(txs[k - 1]);
    }
  }

  lemma {:induction false} BlockOutputsIds(txs: seq<Transaction>, k: nat, o: OutPoint)
    requires k <= |txs| && forall i :: 0 <= i < k ==> Txid(txs[i]) != o.txid
    ensures o !in BlockOutputs(txs, k)
  {
    hide Txid, OutputsOf;
    if k > 0 {
      BlockOutputsIds(txs, k - 1, o);
      OutputsCarryId(txs[k - 1], o);
    }
  }

  lemma OutputsCarryId(tx: Transaction, o: OutPoint)
    ensures o in OutputsOf(tx) ==> o.txid == Txid(tx)
  {
    hide Txid;
  }

  /** The parts of a chain around one block. */
  ghost function Around(pre: seq<Placed>, b: Block, e: ChainIndexEntry, post: seq<Placed>): seq<Placed> {
    pre + PlacedBlock(b, e.blockHash, e.height) + post
  }

  ghost predicate InBlock(b: Block, id: Hash) {
    exists i :: 0 <= i < |b.transactions| && Txid(b.transactions[i]) == id
  }

  /** Everything but the rows of block `b` is indexed as it should be, and nothing else is there. */
  ghost predicate OthersIndexed(s: Tables, b: Block, p: seq<Placed>, pool: Pool) {
    && s.mempool == pool
    && s.transactions.Keys <= IndexRows(p, pool).Keys && s.keys.Keys <= IndexRows(p, pool).Keys
    && (forall id :: id in IndexRows(p, pool) && !InBlock(b, id) ==>
          && Lookup(s.transactions, id) == Some(IndexRows(p, pool)[id])
          && Lookup(s.keys, id) == Some(IndexKeys(p, pool)[id]))
  }

  lemma AroundAt(pre: seq<Placed>, b: Block, e: ChainIndexEntry, post: seq<Placed>, i: nat)
    requires i < |b.transactions|
    ensures |pre| + i < |Around(pre, b, e, post)|
    ensures Around(pre, b, e, post)[|pre| + i] == Placed(b.transactions[i], e.blockHash, e.height, i)
    ensures Around(pre, b, e, post)[..|pre| + i] == pre + PlacedBlock(b, e.blockHash, e.height)[..i]
  {
  }

  lemma BlockIdsDistinct(pre: seq<Placed>, b: Block, e: ChainIndexEntry, post: seq<Placed>)
    requires UniqueIds(Around(pre, b, e, post))
    ensures DistinctIds(b.transactions)
  {
    hide Txid, Around;
    forall i, j | 0 <= i < j < |b.transactions|
      ensures Txid(b.transactions[i]) != Txid(b.transactions[j])
    {
      AroundAt(pre, b, e, post, i);
      AroundAt(pre, b, e, post, j);
    }
  }

  lemma FindCreator(p: seq<Placed>, k: nat, o: OutPoint) returns (j: nat)
    requires k < |p| && InputsKnown(p) && o in Spent(p[k].tx.inputs)
    ensures j < k && Creates(p[j].tx, o)
  {
    hide Txid, Spent;
    var t :| t in TxSet(p[..k]) && Creates(t, o);
    j :| 0 <= j < k && p[..k][j].tx == t;
  }

  ghost predicate RowsOutside(rows: Rows, b: Block, p: seq<Placed>) {
    forall id :: id in ConfirmedRows(p) && !InBlock(b, id) ==> Lookup(rows, id) == Some(ConfirmedRows(p)[id])
  }

  lemma OutsideBlock(pre: seq<Placed>, b: Block, e: ChainIndexEntry, post: seq<Placed>, j: nat)
    requires UniqueIds(Around(pre, b, e, post)) && j < |pre|
    ensures forall k :: 0 <= k < |b.transactions| ==> Txid(b.transactions[k]) != Txid(Around(pre, b, e, post)[j].tx)
  {
    hide Txid, Around;
    PreAt(pre, b, e, post, j);
    forall k | 0 <= k < |b.transactions|
      ensures Txid(b.transactions[k]) != Txid(Around(pre, b, e, post)[j].tx)
    {
      AroundAt(pre, b, e, post, k);
    }
  }

  lemma PreAt(pre: seq<Placed>, b: Block, e: ChainIndexEntry, post: seq<Placed>, j: nat)
    requires j < |pre|
    ensures j < |Around(pre, b, e, post)| && Around(pre, b, e, post)[j] == pre[j]
  {
  }

  /** An input of transaction `i` resolves, block-local outputs first and persisted rows second, as
      it does in the whole chain. */
  lemma InputResolves(
    rows: Rows, pre: seq<Placed>, b: Block, e: ChainIndexEntry, post: seq<Placed>, i: nat, o: OutPoint)
    requires var p := Around(pre, b, e, post); UniqueIds(p) && InputsKnown(p) && RowsOutside(rows, b, p)
    requires i < |b.transactions| && o in Spent(b.transactions[i].inputs)
    ensures WithFallback(BlockOutputs(b.transactions, i), rows)(o)
            == LoadOutput(ConfirmedRows(Around(pre, b, e, post)), o)
  {
    hide Txid, ConfirmedRows, Spent, Around, UniqueIds, InputsKnown, BlockOutputs, DistinctIds;
    var p, txs := Around(pre, b, e, post), b.transactions;
    AroundAt(pre, b, e, post, i);
    var j := FindCreator(p, |pre| + i, o);
    ConfirmedRowsLookup(p, j);
    if j >= |pre| {
      AroundAt(pre, b, e, post, j - |pre|);
      BlockIdsDistinct(pre, b, e, post);
      BlockOutputsLookup(txs, i, j - |pre|, o);
    } else {
      OutsideBlock(pre, b, e, post, j);
      BlockOutputsIds(txs, i, o);
      assert !InBlock(b, o.txid);
    }
  }

  lemma BlockEdgesAreIndexed(
    rows: Rows, pre: seq<Placed>, b: Block, e: ChainIndexEntry, post: seq<Placed>, i: nat)
    requires var p := Around(pre, b, e, post); UniqueIds(p) && InputsKnown(p) && RowsOutside(rows, b, p)
    requires i < |b.transactions|
    ensures BlockEdges(b.transactions, rows, i)
            == EdgesOf(b.transactions[i], FromRows(ConfirmedRows(Around(pre, b, e, post))))
  {
    hide Txid, ConfirmedRows, Around, UniqueIds, InputsKnown, EdgesOf, BlockOutputs, RowsOutside;
    var f, g := WithFallback(BlockOutputs(b.transactions, i), rows), FromRows(ConfirmedRows(Around(pre, b, e, post)));
    forall o | o in Spent(b.transactions[i].inputs)
      ensures f(o) == g(o)
    {
      InputResolves(rows, pre, b, e, post, i, o);
    }
    EdgesAgree(b.transactions[i], f, g);
  }

  lemma BlockRowsAreInBlock(b: Block, e: ChainIndexEntry, id: Hash)
    ensures id in ConfirmedRows(PlacedBlock(b, e.blockHash, e.height)) <==> InBlock(b, id)
  {
    hide Txid, ConfirmedRows;
    var pb := PlacedBlock(b, e.blockHash, e.height);
    ConfirmedRowsKeys(pb, id);
    assert forall i :: 0 <= i < |pb| ==> pb[i].tx == b.transactions[i];
  }

  lemma PlacedBlockUnique(pre: seq<Placed>, b: Block, e: ChainIndexEntry, post: seq<Placed>)
    requires UniqueIds(Around(pre, b, e, post))
    ensures UniqueIds(PlacedBlock(b, e.blockHash, e.height))
  {
    hide Txid, Around, UniqueIds;
    BlockIdsDistinct(pre, b, e, post);
    UniqueFromDistinct(b, e);
  }

  lemma UniqueFromDistinct(b: Block, e: ChainIndexEntry)
    requires DistinctIds(b.transactions)
    ensures UniqueIds(PlacedBlock(b, e.blockHash, e.height))
  {
    hide Txid;
  }

  /** The row of a block transaction, in the block and in the whole chain. */
  lemma BlockRowIsIndexed(pre: seq<Placed>, b: Block, e: ChainIndexEntry, post: seq<Placed>, pool: Pool, i: nat)
    requires Indexable(Around(pre, b, e, post), pool) && i < |b.transactions|
    ensures var id := Txid(b.transactions[i]);
            var p := Around(pre, b, e, post);
            && id !in pool
            && Lookup(ConfirmedRows(PlacedBlock(b, e.blockHash, e.height)), id) == Lookup(ConfirmedRows(p), id)
            && Lookup(IndexRows(p, pool), id) == Lookup(ConfirmedRows(p), id)
            && Lookup(ConfirmedRows(p), id)
               == Some(ConfirmedRow(Placed(b.transactions[i], e.blockHash, e.height, i)))
  {
    hide Txid, ConfirmedRows, Around, UniqueIds, InputsKnown, CreatedBy;
    var p := Around(pre, b, e, post);
    AroundAt(pre, b, e, post, i);
    PlacedBlockUnique(pre, b, e, post);
    ConfirmedRowsLookup(PlacedBlock(b, e.blockHash, e.height), i);
    ConfirmedRowsLookup(p, |pre| + i);
    var id := Txid(b.transactions[i]);
    assert b.transactions[i] in TxSet(p) by {
      assert p[|pre| + i].tx == b.transactions[i];
    }
    assert id !in pool;
  }

  lemma RowsCombine(s: Tables, pre: seq<Placed>, b: Block, e: ChainIndexEntry, post: seq<Placed>, pool: Pool)
    requires Indexable(Around(pre, b, e, post), pool) && OthersIndexed(s, b, Around(pre, b, e, post), pool)
    ensures s.transactions + ConfirmedRows(PlacedBlock(b, e.blockHash, e.height))
            == IndexRows(Around(pre, b, e, post), pool)
    ensures s.mempool - ConfirmedRows(PlacedBlock(b, e.blockHash, e.height)).Keys == s.mempool
  {
    hide Txid, ConfirmedRows, Around, Indexable, IndexRows, IndexKeys;
    var p, rows := Around(pre, b, e, post), ConfirmedRows(PlacedBlock(b, e.blockHash, e.height));
    forall id
      ensures id in rows <==> InBlock(b, id)
      ensures id in rows ==> id !in pool && Lookup(rows, id) == Lookup(IndexRows(p, pool), id)
    {
      BlockRowsAreInBlock(b, e, id);
      if i :| 0 <= i < |b.transactions| && Txid(b.transactions[i]) == id {
        BlockRowIsIndexed(pre, b, e, post, pool, i);
      }
    }
    SameLookups(s.transactions + rows, IndexRows(p, pool));
  }

  lemma SameLookups<V>(a: map<Hash, V>, b: map<Hash, V>)
    requires forall id :: Lookup(a, id) == Lookup(b, id)
    ensures a == b
  {
    forall id
      ensures id in a <==> id in b
      ensures id in a ==> a[id] == b[id]
    {
      assert Lookup(a, id) == Lookup(b, id);
    }
  }

  lemma OutsideFromOthers(s: Tables, b: Block, p: seq<Placed>, pool: Pool)
    requires Indexable(p, pool) && OthersIndexed(s, b, p, pool)
    ensures RowsOutside(s.transactions, b, p)
  {
    hide Txid, ConfirmedRows, IndexKeys, InBlock;
    forall id | id in ConfirmedRows(p) && !InBlock(b, id)
      ensures Lookup(s.transactions, id) == Some(ConfirmedRows(p)[id])
    {
      PoolNotInChain(p, pool);
      assert id in IndexRows(p, pool);
    }
  }

  lemma PoolNotInChain(p: seq<Placed>, pool: Pool)
    requires Indexable(p, pool)
    ensures forall id :: id in pool ==> id !in ConfirmedRows(p)
  {
    hide Txid, ConfirmedRows, UniqueIds, InputsKnown, CreatedBy, NewTo;
    forall id | id in pool
      ensures id !in ConfirmedRows(p)
    {
      NewToChainRows(pool[id], p);
    }
  }

  lemma KeysCombine(
    s: Tables, keys: Keys, pre: seq<Placed>, b: Block, e: ChainIndexEntry, post: seq<Placed>, pool: Pool)
    requires Indexable(Around(pre, b, e, post), pool) && OthersIndexed(s, b, Around(pre, b, e, post), pool)
    requires keys == s.keys - ConfirmedRows(PlacedBlock(b, e.blockHash, e.height)).Keys
    ensures InsertConfirmedEdges(keys, s.transactions, b.transactions, |b.transactions|)
            == IndexKeys(Around(pre, b, e, post), pool)
  {
    hide Txid, ConfirmedRows, Around, IndexRows, UniqueIds, InputsKnown, NewTo, CreatedBy, EdgesOf, DistinctIds,
      InsertConfirmedEdges, BlockEdges, RowsOutside, PlacedBlock;
    var p, txs := Around(pre, b, e, post), b.transactions;
    BlockIdsDistinct(pre, b, e, post);
    forall id
      ensures id in ConfirmedRows(PlacedBlock(b, e.blockHash, e.height)) <==> InBlock(b, id)
    {
      BlockRowsAreInBlock(b, e, id);
    }
    assert forall i :: 0 <= i < |txs| ==> InBlock(b, Txid(txs[i]));
    InsertOutcome(keys, s.transactions, txs, |txs|);
    OutsideFromOthers(s, b, p, pool);
    var after := InsertConfirmedEdges(keys, s.transactions, txs, |txs|);
    forall id
      ensures Lookup(after, id) == Lookup(IndexKeys(p, pool), id)
    {
      if i :| 0 <= i < |txs| && Txid(txs[i]) == id {
        BlockRowIsIndexed(pre, b, e, post, pool, i);
        BlockEdgesAreIndexed(s.transactions, pre, b, e, post, i);
      } else {
        assert !InBlock(b, id);
        assert Lookup(after, id) == Lookup(keys, id);
      }
    }
    SameLookups(after, IndexKeys(p, pool));
  }

  /** Saving the transactions of a best-chain block completes the index. */
  lemma ConfirmedSaved(s: Tables, pre: seq<Placed>, b: Block, e: ChainIndexEntry, post: seq<Placed>, pool: Pool)
    requires Indexable(Around(pre, b, e, post), pool) && OthersIndexed(s, b, Around(pre, b, e, post), pool)
    ensures SaveConfirmed(s, b, e)
            == s.(transactions := IndexRows(Around(pre, b, e, post), pool),
                  keys := IndexKeys(Around(pre, b, e, post), pool))
  {
    hide Txid, ConfirmedRows, Around, IndexRows, IndexKeys, Indexable, OthersIndexed, UpsertConfirmed,
      InsertConfirmedEdges;
    var pb := PlacedBlock(b, e.blockHash, e.height);
    UpsertOutcome(s, pb, |pb|);
    assert pb[..|pb|] == pb;
    RowsCombine(s, pre, b, e, post, pool);
    KeysCombine(s, s.keys - ConfirmedRows(pb).Keys, pre, b, e, post, pool);
  }
}
