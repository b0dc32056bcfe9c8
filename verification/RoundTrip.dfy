/** Saving a node and loading it back. */
module RoundTrip {
  import opened Primitives
  import opened Crypto
  import opened Types
  import opened State
  import opened Chain
  import opened Mempool
  import opened NodeState
  import opened ActiveChain
  import opened Agreement
  import opened Sorting
  import opened Bytes
  import opened Rebuild
  import opened Store
  import Consensus

  // ---- The replay order is parent-first ---------------------------------------------------

  lemma LowerComesFirst(entries: map<Hash, ChainIndexEntry>, a: Hash, b: Hash)
    requires a in entries && b in entries && entries[a].height < entries[b].height
    ensures ReplayRank(entries, a) < ReplayRank(entries, b)
  {
    BigEndianBound(a);
    LeadingByteDecides(entries[a].height, entries[b].height, Pow256(32), Rank(a), Rank(b));
  }

  lemma OrderIndex(entries: map<Hash, ChainIndexEntry>, h: Hash) returns (i: nat)
    requires h in entries
    ensures i < |ReplayOrder(entries)| && ReplayOrder(entries)[i] == h
  {
    hide ReplayRank;
    assert h in ReplayOrder(entries);
    i :| 0 <= i < |ReplayOrder(entries)| && ReplayOrder(entries)[i] == h;
  }

  lemma OrderIsAscending(entries: map<Hash, ChainIndexEntry>, i: nat, j: nat)
    requires i < |ReplayOrder(entries)| && j < |ReplayOrder(entries)|
    ensures i < j <==> ReplayRank(entries, ReplayOrder(entries)[i]) < ReplayRank(entries, ReplayOrder(entries)[j])
    ensures ReplayOrder(entries)[i] in entries
  {
    hide ReplayRank;
    var order := ReplayOrder(entries);
    assert order[i] in order;
    assert ReplayKey(entries)(order[i]) == ReplayRank(entries, order[i]);
    assert ReplayKey(entries)(order[j]) == ReplayRank(entries, order[j]);
  }

  lemma {:induction false} LoadedList(blocks: map<Hash, Block>, order: seq<Hash>)
    requires forall i :: 0 <= i < |order| ==> order[i] in blocks
    ensures LoadBlockList(blocks, order).Ok?
    ensures var bs := LoadBlockList(blocks, order).value;
            |bs| == |order| && forall i :: 0 <= i < |bs| ==> bs[i] == blocks[order[i]]
  {
    if order != [] {
      var n := |order| - 1;
      LoadedList(blocks, order[..n]);
      assert forall i :: 0 <= i < n ==> order[i] == order[..n][i];
    }
  }

  /** The blocks of `n` in replay order. */
  ghost function Replayed(n: Node): seq<Block>
    requires n.blocks.Keys == n.chain.entries.Keys
  {
    var order := ReplayOrder(n.chain.entries);
    assert forall i :: 0 <= i < |order| ==> order[i] in order;
    seq(|order|, i requires 0 <= i < |order| => n.blocks[order[i]])
  }

  lemma ReplayedIsLoaded(n: Node)
    requires n.blocks.Keys == n.chain.entries.Keys
    ensures LoadBlockList(n.blocks, ReplayOrder(n.chain.entries)) == Ok(Replayed(n))
  {
    hide ReplayOrder;
    var order := ReplayOrder(n.chain.entries);
    assert forall i :: 0 <= i < |order| ==> order[i] in order;
    LoadedList(n.blocks, order);
    assert LoadBlockList(n.blocks, order).value == Replayed(n);
  }

  lemma ReplayedHash(n: Node, i: nat)
    requires Consistent(n) && n.blocks.Keys == n.chain.entries.Keys && i < |Replayed(n)|
    ensures BlockHash(Replayed(n)[i]) == ReplayOrder(n.chain.entries)[i]
    ensures ReplayOrder(n.chain.entries)[i] in n.chain.entries
    ensures Replayed(n)[i] == n.blocks[ReplayOrder(n.chain.entries)[i]]
  {
    hide HeaderHash, Consensus.ValidateBlock, BlockWork, CacheExplained, ActiveExplained, PoolInv, ReplayOrder, Tree;
    var order := ReplayOrder(n.chain.entries);
    assert order[i] in order;
    assert EntryExplained(n.chain, n.blocks, order[i]);
  }

  lemma ReplayedEnumerates(n: Node)
    requires Consistent(n) && n.blocks.Keys == n.chain.entries.Keys
    ensures Enumerates(Replayed(n), n)
  {
    hide HeaderHash, Consistent, Replayed, ReplayOrder;
    var bs, order := Replayed(n), ReplayOrder(n.chain.entries);
    ReplayedLength(n);
    forall i | 0 <= i < |bs|
      ensures BlockHash(bs[i]) in n.blocks && n.blocks[BlockHash(bs[i])] == bs[i]
    {
      ReplayedHash(n, i);
    }
    forall i, j | 0 <= i < j < |bs|
      ensures BlockHash(bs[i]) != BlockHash(bs[j])
    {
      ReplayedHash(n, i);
      ReplayedHash(n, j);
      OrderIsAscending(n.chain.entries, i, j);
    }
    forall h | h in n.blocks
      ensures h in HashesOf(bs)
    {
      var i := OrderIndex(n.chain.entries, h);
      ReplayedHash(n, i);
      assert BlockHash(bs[i]) == h;
    }
  }

  lemma ReplayedLength(n: Node)
    requires n.blocks.Keys == n.chain.entries.Keys
    ensures |Replayed(n)| == |ReplayOrder(n.chain.entries)|
  {
    hide ReplayOrder;
  }

  lemma ParentData(n: Node, h: Hash)
    requires Consistent(n) && h in n.chain.entries
    ensures h in n.blocks
    ensures match n.chain.entries[h].parent
            case None => n.blocks[h].header.prevBlockhash == DEFAULT_HASH
            case Some(p) =>
              && p == n.blocks[h].header.prevBlockhash && p in n.chain.entries
              && n.chain.entries[p].height < n.chain.entries[h].height
  {
    hide HeaderHash, Consensus.ValidateBlock, BlockWork, CacheExplained, ActiveExplained, PoolInv;
    assert EntryExplained(n.chain, n.blocks, h) && Linked(n.chain, h);
  }

  lemma FirstReplayedIsRoot(n: Node)
    requires Consistent(n) && n.blocks.Keys == n.chain.entries.Keys && Replayed(n) != []
    ensures ReplayOrder(n.chain.entries) != []
    ensures IsRoot(n.chain, ReplayOrder(n.chain.entries)[0])
  {
    hide Consistent, Replayed, ReplayOrder, ReplayRank;
    ReplayedLength(n);
    var order := ReplayOrder(n.chain.entries);
    OrderIsAscending(n.chain.entries, 0, 0);
    ParentData(n, order[0]);
    if n.chain.entries[order[0]].parent.Some? {
      var p := n.chain.entries[order[0]].parent.value;
      LowerComesFirst(n.chain.entries, p, order[0]);
      var i := OrderIndex(n.chain.entries, p);
      OrderIsAscending(n.chain.entries, i, 0);
    }
  }

  lemma HashInPrefix(bs: seq<Block>, j: nat, i: nat)
    requires j < i <= |bs|
    ensures BlockHash(bs[j]) in HashesOf(bs[..i])
  {
    hide HeaderHash;
    assert bs[..i][j] == bs[j];
  }

  lemma ReplayedParentFirst(n: Node)
    requires Consistent(n) && n.blocks.Keys == n.chain.entries.Keys
    ensures ParentFirst(Replayed(n))
  {
    hide HeaderHash, Consistent, Replayed, ReplayOrder, ReplayRank, HashesOf;
    var bs, order, entries := Replayed(n), ReplayOrder(n.chain.entries), n.chain.entries;
    ReplayedLength(n);
    if bs != [] {
      FirstReplayedIsRoot(n);
      ReplayedHash(n, 0);
      ParentData(n, order[0]);
    }
    forall i | 0 < i < |bs|
      ensures bs[i].header.prevBlockhash in HashesOf(bs[..i])
    {
      ReplayedHash(n, i);
      OrderIsAscending(entries, 0, i);
      ParentData(n, order[i]);
      OneRoot(n, order[0], order[i]);
      var p := entries[order[i]].parent.value;
      LowerComesFirst(entries, p, order[i]);
      var j := OrderIndex(entries, p);
      OrderIsAscending(entries, j, i);
      ReplayedHash(n, j);
      HashInPrefix(bs, j, i);
    }
  }

  lemma OneRoot(n: Node, g: Hash, h: Hash)
    requires Consistent(n) && IsRoot(n.chain, g) && h in n.chain.entries && g != h
    ensures n.chain.entries[h].parent.Some?
  {
    hide EntryExplained, CacheExplained, ActiveExplained, PoolInv, Linked;
    assert IsRoot(n.chain, h) ==> g == h;
  }

  // ---- The rebuilt tip --------------------------------------------------------------------

  ghost function WorkAt(r: Node, bs: seq<Block>, i: nat): nat
    requires i < |bs|
  {
    var h := BlockHash(bs[i]);
    if h in r.chain.entries then r.chain.entries[h].cumulativeWork else 0
  }

  /** `t` is the first of the heaviest among the first `k` blocks. */
  ghost predicate FirstHeaviest(r: Node, bs: seq<Block>, k: nat, t: nat)
    requires k <= |bs|
  {
    && t < k
    && (forall j :: 0 <= j < k ==> WorkAt(r, bs, j) <= WorkAt(r, bs, t))
    && (forall j :: 0 <= j < t ==> WorkAt(r, bs, j) < WorkAt(r, bs, t))
  }

  /** The tip moves to the accepted block exactly when that has strictly more work. */
  lemma TipAfter(n: Node, r: Node, h: Hash)
    requires Settled(n) && Settled(r) && Compatible(n, r)
    requires h in r.chain.entries && h !in n.chain.entries && Ready(n, r, h) && h in r.blocks
    requires n.chain.bestTip.Some? ==> n.chain.bestTip.value in r.chain.entries
    ensures AcceptBlock(n, r.blocks[h]).0.chain.bestTip ==
            if n.chain.bestTip.Some?
               && r.chain.entries[h].cumulativeWork <= r.chain.entries[n.chain.bestTip.value].cumulativeWork
            then n.chain.bestTip else Some(h)
  {
    hide Settled, Consistent, Tree, Compatible, Ready, AcceptBlock;
    SettledParts(n);
    SettledParts(r);
    AcceptTransfers(n, r, h);
    EntryKeyed(r.chain, h);
    TipKnown(n);
    if n.chain.bestTip.Some? {
      AgreeAt(n, r, n.chain.bestTip.value);
    }
  }

  lemma TipKnown(n: Node)
    requires Settled(n)
    ensures n.chain.bestTip.Some? ==> n.chain.bestTip.value in n.chain.entries
  {
    hide EntryExplained, CacheExplained, ActiveExplained, PoolInv, Linked;
  }

  lemma {:induction false} LoadedTip(r: Node, bs: seq<Block>, k: nat) returns (t: nat)
    requires Settled(r) && Enumerates(bs, r) && ParentFirst(bs) && 0 < k <= |bs|
    ensures LoadBlocks(bs[..k]).Ok? && FirstHeaviest(r, bs, k, t)
    ensures LoadBlocks(bs[..k]).value.chain.bestTip == Some(BlockHash(bs[t]))
  {
    hide HeaderHash, Settled, Compatible, Ready, AcceptBlock, LoadBlocks, ParentFirst, HashesOf;
    BuildsAll(r, bs, k - 1);
    BuildsAll(r, bs, k);
    var n, h := LoadBlocks(bs[..k - 1]).value, BlockHash(bs[k - 1]);
    NextIsReady(r, bs, k - 1, n);
    LoadLast(bs, k - 1);
    if k == 1 {
      assert bs[..0] == [];
      NothingLoaded();
      TipAfter(n, r, h);
      t := 0;
    } else {
      var s := LoadedTip(r, bs, k - 1);
      HashesKnown(r, bs, s);
      TipAfter(n, r, h);
      t := if r.chain.entries[h].cumulativeWork <= r.chain.entries[BlockHash(bs[s])].cumulativeWork
           then s else k - 1;
    }
  }

  lemma NothingLoaded()
    ensures LoadBlocks([]) == Ok(NewNode())
  {
  }

  lemma HashesKnown(r: Node, bs: seq<Block>, i: nat)
    requires Settled(r) && Enumerates(bs, r) && i < |bs|
    ensures BlockHash(bs[i]) in r.chain.entries
  {
    hide HeaderHash, Settled;
    SettledParts(r);
  }

  /** Among the heaviest blocks the best tip comes first in replay order. */
  ghost predicate TipIsFirst(n: Node) {
    n.chain.bestTip.Some? ==>
      forall h :: Heaviest(n.chain, h) ==>
        ReplayRank(n.chain.entries, n.chain.bestTip.value) <= ReplayRank(n.chain.entries, h)
  }

  lemma UniqueTipIsFirst(n: Node)
    requires Settled(n) && UniqueHeaviest(n.chain)
    ensures TipIsFirst(n)
  {
    hide EntryExplained, CacheExplained, ActiveExplained, PoolInv, Linked, ReplayRank;
    assert n.chain.bestTip.Some? ==> Heaviest(n.chain, n.chain.bestTip.value);
  }

  /** The tip the replay arrives at: the first heaviest block in replay order. */
  lemma ReplayedTip(n: Node, t: nat)
    requires Settled(n) && n.blocks.Keys == n.chain.entries.Keys
    requires t < |Replayed(n)| && FirstHeaviest(n, Replayed(n), |Replayed(n)|, t)
    ensures Heaviest(n.chain, BlockHash(Replayed(n)[t]))
    ensures forall h :: Heaviest(n.chain, h) ==>
              ReplayRank(n.chain.entries, BlockHash(Replayed(n)[t])) <= ReplayRank(n.chain.entries, h)
  {
    hide HeaderHash, Consistent, Replayed, ReplayOrder, ReplayRank;
    var bs, entries := Replayed(n), n.chain.entries;
    ReplayedLength(n);
    ReplayedHash(n, t);
    forall h | h in entries
      ensures entries[h].cumulativeWork <= entries[BlockHash(bs[t])].cumulativeWork
      ensures entries[h].cumulativeWork == entries[BlockHash(bs[t])].cumulativeWork ==>
                ReplayRank(entries, BlockHash(bs[t])) <= ReplayRank(entries, h)
    {
      var j := OrderIndex(entries, h);
      ReplayedHash(n, j);
      assert WorkAt(n, bs, j) == entries[h].cumulativeWork;
      OrderIsAscending(entries, j, t);
    }
  }

  lemma FirstIsUnique(n: Node, a: Hash, b: Hash)
    requires ReplayRank(n.chain.entries, a) == ReplayRank(n.chain.entries, b)
    ensures a == b
  {
    SameRankSameHash(n.chain.entries, a, b);
  }

  /** Replaying the stored blocks restores the node up to its pool exactly when the tip comes first
      among the heaviest blocks; otherwise it arrives at another tip. */
  lemma ReplayRestores(n: Node)
    requires Settled(n)
    ensures n.blocks.Keys == n.chain.entries.Keys && LoadBlocks(Replayed(n)).Ok?
    ensures var m := LoadBlocks(Replayed(n)).value;
            if TipIsFirst(n) then m == n.(mempool := map[]) else m.chain.bestTip != n.chain.bestTip
  {
    hide HeaderHash, Settled, Replayed, LoadBlocks, Enumerates, ParentFirst, ReplayRank, UniqueHeaviest, TipIsFirst,
      Heaviest;
    SettledParts(n);
    var bs := Replayed(n);
    ReplayedEnumerates(n);
    ReplayedParentFirst(n);
    RebuildsFromAnyOrder(n, bs);
    var m := LoadBlocks(bs).value;
    if bs == [] {
      ReplayedNothing(n);
      NothingLoaded();
    } else {
      assert bs[..|bs|] == bs;
      var t := LoadedTip(n, bs, |bs|);
      ReplayedTip(n, t);
      FirstTipIff(n, BlockHash(bs[t]));
      if TipIsFirst(n) {
        SameTip(m, n);
      }
    }
  }

  /** The first heaviest block is the best tip exactly when the best tip comes first. */
  lemma FirstTipIff(n: Node, first: Hash)
    requires Settled(n) && Heaviest(n.chain, first)
    requires forall h :: Heaviest(n.chain, h) ==>
               ReplayRank(n.chain.entries, first) <= ReplayRank(n.chain.entries, h)
    ensures TipIsFirst(n) <==> n.chain.bestTip == Some(first)
  {
    hide Settled, ReplayRank;
    TipIsHeaviest(n);
    if TipIsFirst(n) {
      FirstIsUnique(n, first, n.chain.bestTip.value);
    }
  }

  lemma ReplayedNothing(n: Node)
    requires Settled(n) && n.blocks.Keys == n.chain.entries.Keys && Replayed(n) == []
    ensures n.(mempool := map[]) == NewNode() && TipIsFirst(n)
  {
    hide EntryExplained, PoolInv, Linked, ReplayOrder, CacheExplained;
    ReplayedLength(n);
    assert |n.chain.entries.Keys| == 0;
    SettledTipApplied(n);
    ActiveIsBestChain(n);
  }

  lemma SameTip(m: Node, n: Node)
    requires Settled(m) && Settled(n) && m.chain.bestTip == n.chain.bestTip
    requires m.chain.entries == n.chain.entries && m.blocks == n.blocks && m.snapshots == n.snapshots
    requires m.mempool == map[]
    ensures m == n.(mempool := map[])
  {
    hide Settled, Heaviest;
    TipIsHeaviest(m);
    TipIsHeaviest(n);
  }

  // ---- Loading ----------------------------------------------------------------------------

  /** The tables hold the chain of `n` and a pool keyed by id. */
  ghost predicate Holds(s: Tables, n: Node) {
    && s.blocks == n.blocks && s.entries == n.chain.entries && s.activeUtxos == n.activeUtxos
    && s.bestTip == n.chain.bestTip && KeyedById(s.mempool)
  }

  /** Loading succeeds exactly when the replay picks the saved tip and every persisted pending
      transaction is still valid; the loaded node is then the saved chain with the persisted pool. */
  lemma LoadOutcome(s: Tables, n: Node)
    requires Settled(n) && Holds(s, n)
    ensures LoadNodeState(s).Ok? <==> TipIsFirst(n) && AllValid(s.mempool, n.activeUtxos)
    ensures LoadNodeState(s).Ok? ==> LoadNodeState(s).value == n.(mempool := s.mempool)
    ensures !TipIsFirst(n) ==> LoadNodeState(s).error.RebuiltBestTipMismatch?
    ensures TipIsFirst(n) && !AllValid(s.mempool, n.activeUtxos) ==> LoadNodeState(s) == Err(RebuiltMempoolMismatch)
  {
    hide Settled, LoadBlocks, TipIsFirst, Replayed, LoadBlockList, ReplayOrder, Txid, Validate, PruneInvalid;
    ReplayRestores(n);
    ReplayedIsLoaded(n);
    PruneKeepsAllIff(s.mempool, n.activeUtxos);
    assert FirstMiskeyed(s.mempool).None?;
  }

  lemma PruneKeepsAllIff(pool: Pool, u: Utxos)
    ensures PruneInvalid(pool, u) == pool <==> AllValid(pool, u)
  {
    hide Validate;
    if PruneInvalid(pool, u) == pool {
      forall id | id in pool
        ensures Validate(u, pool[id]).Ok?
      {
        assert id in PruneInvalid(pool, u);
      }
    }
  }

  /** The tables of a node with a failed block never load. */
  lemma LoadOfUnsettled(s: Tables, n: Node)
    requires Consistent(n) && !Settled(n) && Holds(s, n)
    ensures LoadNodeState(s).Err? && LoadNodeState(s).error.NodeFailure?
  {
    hide Consistent, Settled, LoadBlocks, Replayed, LoadBlockList, ReplayOrder, Txid, PruneInvalid, Enumerates,
      ParentFirst, Tree;
    StoredAreIndexed(n);
    ReplayedIsLoaded(n);
    ReplayedEnumerates(n);
    ReplayedParentFirst(n);
    if LoadBlocks(Replayed(n)).Ok? {
      LoadsOnlySettled(n, Replayed(n));
    }
    assert FirstMiskeyed(s.mempool).None?;
  }

  /** Save and load are inverse on a reachable node exactly when none of its blocks failed and its tip
      comes first among the heaviest blocks in (height, hash) order. With a failed block the replay
      reports its error; otherwise loading reports a best-tip mismatch. */
  lemma SaveLoadRoundTrip(n: Node)
    requires Consistent(n) && TreeExplained(n.chain, n.blocks)
    ensures LoadNodeState(SaveNodeState(n)) == Ok(n) <==> Settled(n) && TipIsFirst(n)
    ensures !Settled(n) ==> LoadNodeState(SaveNodeState(n)).Err? && LoadNodeState(SaveNodeState(n)).error.NodeFailure?
    ensures Settled(n) && !TipIsFirst(n) ==>
      LoadNodeState(SaveNodeState(n)).Err? && LoadNodeState(SaveNodeState(n)).error.RebuiltBestTipMismatch?
    ensures Settled(n) && UniqueHeaviest(n.chain) ==> TipIsFirst(n)
  {
    hide TreeExplained, CacheExplained, ActiveExplained, TipIsFirst, UniqueHeaviest, LoadNodeState, Validate, Txid,
      Settled;
    if Settled(n) {
      LoadOutcome(SaveNodeState(n), n);
      if UniqueHeaviest(n.chain) {
        UniqueTipIsFirst(n);
      }
    } else {
      LoadOfUnsettled(SaveNodeState(n), n);
    }
  }
}
