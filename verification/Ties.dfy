/** Two equally heavy blocks on one tip: which order of arrival survives a restart. */
module Ties {
  import opened Primitives
  import opened Crypto
  import opened Types
  import opened Sorting
  import opened Chain
  import opened Mempool
  import opened NodeState
  import opened ActiveChain
  import opened BlockRules
  import opened Acceptance
  import opened Rebuild
  import opened Store
  import opened RoundTrip
  import Consensus

  /** A new block on the best tip `t` of `n`, judged before it arrives. */
  ghost predicate Contends(n: Node, t: Hash, b: Block) {
    && n.chain.bestTip == Some(t) && t in n.chain.entries && t in n.snapshots
    && BlockHash(b) !in n.chain.entries && b.header.prevBlockhash == t
    && WellFormed(b) && BlockWork(b).Ok?
    && n.chain.entries[t].cumulativeWork + BlockWork(b).value <= U128_MAX
    && Applicable(n.snapshots[t], b, n.chain.entries[t].height + 1)
  }

  ghost function EntryOn(n: Node, t: Hash, b: Block): ChainIndexEntry
    requires t in n.chain.entries && BlockWork(b).Ok?
    requires n.chain.entries[t].cumulativeWork + BlockWork(b).value <= U128_MAX
  {
    var parent := n.chain.entries[t];
    ChainIndexEntry(BlockHash(b), parent.height + 1, parent.cumulativeWork + BlockWork(b).value, Some(t))
  }

  /** `m` extends `n` by blocks other than `b`, so `b` finds its parent there unchanged. */
  ghost predicate KeepsParent(n: Node, t: Hash, b: Block, m: Node)
    requires t in n.chain.entries && t in n.snapshots
  {
    && BlockHash(b) !in m.chain.entries
    && t in m.chain.entries && m.chain.entries[t] == n.chain.entries[t]
    && t in m.snapshots && m.snapshots[t] == n.snapshots[t]
  }

  lemma ContenderFits(n: Node, t: Hash, b: Block, m: Node)
    requires Contends(n, t, b) && KeepsParent(n, t, b, m)
    ensures Placeable(m.chain, b) && Admits(m, b) && NewEntry(m.chain, b) == Ok(EntryOn(n, t, b))
    ensures EntryOn(n, t, b).blockHash == BlockHash(b) && BlockHash(b) !in m.chain.entries
  {
    hide HeaderHash, WellFormed, Applicable, BlockWork;
  }

  /** A contender is accepted by every such `m`, and filed next to whatever else is there. */
  lemma ContenderAccepted(n: Node, t: Hash, b: Block, m: Node)
    requires Contends(n, t, b) && Settled(m) && KeepsParent(n, t, b, m)
    ensures AcceptBlock(m, b).1.Ok? && Settled(AcceptBlock(m, b).0)
    ensures AcceptBlock(m, b).0.chain == AddEntry(m.chain, EntryOn(n, t, b))
    ensures forall h :: h in m.snapshots ==> Lookup(AcceptBlock(m, b).0.snapshots, h) == Lookup(m.snapshots, h)
  {
    hide HeaderHash, WellFormed, Applicable, Consistent, BlockWork, Consensus.ValidateBlock, EnsureSnapshot,
      AcceptBlock, AddEntry, Placeable, Admits, KeepsParent, NewEntry, EntryOn, PruneInvalid, Tree;
    SettledParts(m);
    ContenderFits(n, t, b, m);
    AcceptSucceedsIff(m, b);
    AcceptKeepsSettled(m, b);
    PlaceableIsValid(m.chain, b);
    AcceptNew(m, b, EntryOn(n, t, b));
  }

  lemma TipHasMostWork(n: Node, h: Hash)
    requires Settled(n) && h in n.chain.entries
    ensures n.chain.bestTip.Some? && n.chain.bestTip.value in n.chain.entries
    ensures n.chain.entries[h].cumulativeWork <= n.chain.entries[n.chain.bestTip.value].cumulativeWork
  {
    hide Settled;
    TipIsHeaviest(n);
  }

  /** The index after `a` and then `b`: the tip is `a`, and the heaviest blocks are `a` and `b`. */
  lemma FirstSeenStays(n: Node, t: Hash, a: Block, b: Block, m: Node)
    requires Settled(n) && Contends(n, t, a) && Contends(n, t, b)
    requires BlockHash(a) != BlockHash(b) && BlockWork(a) == BlockWork(b)
    requires m.chain == AddEntry(AddEntry(n.chain, EntryOn(n, t, a)), EntryOn(n, t, b))
    ensures m.chain.bestTip == Some(BlockHash(a))
    ensures BlockHash(a) in m.chain.entries && m.chain.entries[BlockHash(a)] == EntryOn(n, t, a)
    ensures BlockHash(b) in m.chain.entries && m.chain.entries[BlockHash(b)] == EntryOn(n, t, b)
    ensures forall h :: Heaviest(m.chain, h) <==> h == BlockHash(a) || h == BlockHash(b)
  {
    hide HeaderHash, WellFormed, Applicable, Consistent, Settled, Consensus.ValidateBlock, BlockWork;
    assert BlockWork(a).value >= 1 by {
      WorkIsPositive(a);
    }
    forall h | h in n.chain.entries
      ensures n.chain.entries[h].cumulativeWork <= n.chain.entries[t].cumulativeWork
    {
      TipHasMostWork(n, h);
    }
  }

  lemma SameHeightByHash(entries: map<Hash, ChainIndexEntry>, g: Hash, h: Hash)
    requires g in entries && h in entries && entries[g].height == entries[h].height
    ensures ReplayRank(entries, g) <= ReplayRank(entries, h) <==> Rank(g) <= Rank(h)
  {
    hide Rank;
  }

  lemma RanksDiffer(g: Hash, h: Hash)
    requires g != h
    ensures Rank(g) != Rank(h)
  {
    if Rank(g) == Rank(h) {
      RankInjective(g, h);
    }
  }

  ghost predicate Reloads(m: Node) {
    TreeExplained(m.chain, m.blocks) && LoadNodeState(SaveNodeState(m)) == Ok(m)
  }

  /** Two contenders of equal work: both are accepted and the first one seen stays the tip. The node
      survives a restart if that one has the smaller hash. If it has the larger hash, the replay picks the
      other one and loading fails with a best-tip mismatch. */
  lemma TieReloadsIff(n: Node, t: Hash, a: Block, b: Block)
    requires Settled(n) && Contends(n, t, a) && Contends(n, t, b)
    requires BlockHash(a) != BlockHash(b) && BlockWork(a) == BlockWork(b)
    ensures AcceptBlock(n, a).1.Ok? && AcceptBlock(AcceptBlock(n, a).0, b).1.Ok?
    ensures var m := AcceptBlock(AcceptBlock(n, a).0, b).0;
            && Settled(m) && TreeExplained(m.chain, m.blocks) && m.chain.bestTip == Some(BlockHash(a))
            && (TipIsFirst(m) <==> Rank(BlockHash(a)) < Rank(BlockHash(b)))
            && (Reloads(m) <==> Rank(BlockHash(a)) < Rank(BlockHash(b)))
            && (!Reloads(m) ==> LoadNodeState(SaveNodeState(m)).Err?
                                && LoadNodeState(SaveNodeState(m)).error.RebuiltBestTipMismatch?)
  {
    hide HeaderHash, Consistent, Settled, AcceptBlock, LoadNodeState, SaveNodeState, ReplayRank, Heaviest, WellFormed,
      Applicable, BlockWork, TreeExplained, EntryOn, Rank, AddEntry;
    SelfKeepsParent(n, t, a);
    ContenderAccepted(n, t, a, n);
    var first := AcceptBlock(n, a).0;
    FirstKeepsParent(n, t, a, b, first);
    ContenderAccepted(n, t, b, first);
    var m := AcceptBlock(first, b).0;
    FirstSeenStays(n, t, a, b, m);
    EqualHeights(n, t, a, b);
    SameHeightByHash(m.chain.entries, BlockHash(a), BlockHash(b));
    RanksDiffer(BlockHash(a), BlockHash(b));
    SettledExplained(m);
    SaveLoadRoundTrip(m);
  }

  lemma EqualHeights(n: Node, t: Hash, a: Block, b: Block)
    requires Contends(n, t, a) && Contends(n, t, b)
    ensures EntryOn(n, t, a).height == EntryOn(n, t, b).height
  {
    hide HeaderHash, WellFormed, Applicable, BlockWork;
  }

  lemma SettledExplained(m: Node)
    requires Settled(m)
    ensures Consistent(m) && TreeExplained(m.chain, m.blocks)
  {
    hide TreeExplained;
  }

  lemma SelfKeepsParent(n: Node, t: Hash, a: Block)
    requires Contends(n, t, a)
    ensures KeepsParent(n, t, a, n)
  {
    hide HeaderHash, WellFormed, Applicable, BlockWork;
  }

  lemma FirstKeepsParent(n: Node, t: Hash, a: Block, b: Block, first: Node)
    requires Contends(n, t, a) && Contends(n, t, b) && BlockHash(a) != BlockHash(b)
    requires first.chain == AddEntry(n.chain, EntryOn(n, t, a))
    requires forall h :: h in n.snapshots ==> Lookup(first.snapshots, h) == Lookup(n.snapshots, h)
    ensures KeepsParent(n, t, b, first)
  {
    hide HeaderHash, WellFormed, Applicable, BlockWork, Overtakes;
    assert Lookup(first.snapshots, t) == Lookup(n.snapshots, t);
  }

  /** Of the two orders of arrival exactly one survives a restart. */
  lemma ExactlyOneOrderReloads(n: Node, t: Hash, a: Block, b: Block)
    requires Settled(n) && Contends(n, t, a) && Contends(n, t, b)
    requires BlockHash(a) != BlockHash(b) && BlockWork(a) == BlockWork(b)
    ensures Reloads(AcceptBlock(AcceptBlock(n, a).0, b).0) <==> !Reloads(AcceptBlock(AcceptBlock(n, b).0, a).0)
  {
    hide Settled, Contends, AcceptBlock, Reloads, HeaderHash, Rank, BlockWork, LoadNodeState, SaveNodeState, TipIsFirst,
      TreeExplained;
    TieReloadsIff(n, t, a, b);
    TieReloadsIff(n, t, b, a);
    RanksDiffer(BlockHash(a), BlockHash(b));
  }
}
