/** Which error a load fails with, for any tables. */
module Loading {
  import opened Primitives
  import opened Crypto
  import opened Types
  import opened Mempool
  import opened NodeState
  import opened Rebuild
  import opened Sorting
  import opened Store

  ghost predicate AllStored(blocks: map<Hash, Block>, order: seq<Hash>) {
    forall i :: 0 <= i < |order| ==> order[i] in blocks
  }

  ghost function StoredBlocks(blocks: map<Hash, Block>, order: seq<Hash>): (bs: seq<Block>)
    requires AllStored(blocks, order)
    ensures |bs| == |order| && forall i :: 0 <= i < |order| ==> bs[i] == blocks[order[i]]
  {
    seq(|order|, i requires 0 <= i < |order| => blocks[order[i]])
  }

  /** `h` is the first hash of `order` without a stored block. */
  ghost predicate FirstMissing(blocks: map<Hash, Block>, order: seq<Hash>, h: Hash) {
    exists i :: 0 <= i < |order| && order[i] == h && h !in blocks && AllStored(blocks, order[..i])
  }

  /** The list holds the stored blocks in order, or names the first hash without one. */
  lemma {:induction false} ListIsStoredBlocks(blocks: map<Hash, Block>, order: seq<Hash>)
    ensures AllStored(blocks, order) ==> LoadBlockList(blocks, order) == Ok(StoredBlocks(blocks, order))
    ensures !AllStored(blocks, order) ==>
              && LoadBlockList(blocks, order).Err? && LoadBlockList(blocks, order).error.MissingBlockForEntry?
              && FirstMissing(blocks, order, LoadBlockList(blocks, order).error.hash)
  {
    if order != [] {
      var n := |order| - 1;
      ListIsStoredBlocks(blocks, order[..n]);
      assert forall i :: 0 <= i < n ==> order[..n][i] == order[i];
      if AllStored(blocks, order[..n]) {
        if order[n] in blocks {
          assert StoredBlocks(blocks, order) == StoredBlocks(blocks, order[..n]) + [blocks[order[n]]];
        }
      } else {
        MissingEarlier(blocks, order, LoadBlockList(blocks, order[..n]).error.hash);
      }
    }
  }

  lemma MissingEarlier(blocks: map<Hash, Block>, order: seq<Hash>, h: Hash)
    requires order != [] && FirstMissing(blocks, order[..|order| - 1], h)
    ensures FirstMissing(blocks, order, h)
  {
    var front := order[..|order| - 1];
    var i :| 0 <= i < |front| && front[i] == h && h !in blocks && AllStored(blocks, front[..i]);
    assert front[..i] == order[..i];
  }

  lemma FirstMissingIsUnique(blocks: map<Hash, Block>, order: seq<Hash>, g: Hash, h: Hash)
    requires FirstMissing(blocks, order, g) && FirstMissing(blocks, order, h)
    ensures g == h
  {
    var i :| 0 <= i < |order| && order[i] == g && g !in blocks && AllStored(blocks, order[..i]);
    var j :| 0 <= j < |order| && order[j] == h && h !in blocks && AllStored(blocks, order[..j]);
  }

  /** `h` is the lowest id under which another transaction is stored. */
  ghost predicate LowestMiskeyed(pool: Pool, h: Hash) {
    Miskeyed(pool, h) && forall id :: Miskeyed(pool, id) ==> Rank(h) <= Rank(id)
  }

  lemma FirstMiskeyedIs(pool: Pool, h: Hash)
    ensures FirstMiskeyed(pool) == Some(h) <==> LowestMiskeyed(pool, h)
  {
    hide Txid, Rank;
    var bad := set id | id in pool && Miskeyed(pool, id);
    assert forall id :: Miskeyed(pool, id) <==> id in bad;
    if bad != {} {
      LeastIsLowest(bad);
      if LowestMiskeyed(pool, h) {
        RankInjective(h, Least(bad));
      }
    }
  }

  /** How a rebuilt node differs from the persisted tables, the tip compared first. */
  ghost predicate Differs(s: Tables, n: Node, e: StoreError) {
    if n.chain.bestTip != s.bestTip then e == RebuiltBestTipMismatch(n.chain.bestTip, s.bestTip)
    else if n.activeUtxos != s.activeUtxos then e == RebuiltUtxoMismatch
    else n.mempool != s.mempool && e == RebuiltMempoolMismatch
  }

  /** Why tables with replay order `order` do not load: an entry without a block, a pending transaction under
      another id, blocks that do not replay, or a rebuilt node that differs. */
  ghost predicate LoadFault(s: Tables, order: seq<Hash>, e: StoreError) {
    if !AllStored(s.blocks, order) then e.MissingBlockForEntry? && FirstMissing(s.blocks, order, e.hash)
    else if exists id :: Miskeyed(s.mempool, id) then
      e.InvalidTransactionKey? && LowestMiskeyed(s.mempool, e.hash)
    else
      match FromPersisted(StoredBlocks(s.blocks, order), s.mempool)
      case Err(x) => e == NodeFailure(x)
      case Ok(n) => Differs(s, n, e)
  }

  /** Tables fail to load with an error exactly when that error names the first thing wrong with them. */
  lemma LoadErrorIff(s: Tables, e: StoreError)
    ensures LoadNodeState(s) == Err(e) <==> LoadFault(s, ReplayOrder(s.entries), e)
  {
    hide ReplayOrder, LoadBlockList, FromPersisted, Miskeyed, LowestMiskeyed, FirstMiskeyed, FirstMissing, AllStored;
    var order := ReplayOrder(s.entries);
    ListIsStoredBlocks(s.blocks, order);
    if AllStored(s.blocks, order) {
      if e.InvalidTransactionKey? {
        FirstMiskeyedIs(s.mempool, e.hash);
      }
    } else if e.MissingBlockForEntry? && FirstMissing(s.blocks, order, e.hash) {
      FirstMissingIsUnique(s.blocks, order, e.hash, LoadBlockList(s.blocks, order).error.hash);
    }
  }
}
