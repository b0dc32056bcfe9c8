/** Two nodes that share a root and no hash collision agree on every block both know, and either
    accepts a block of the other as soon as it has the parent. */
module Agreement {
  import opened Primitives
  import opened Crypto
  import opened Types
  import opened State
  import opened Chain
  import opened Mempool
  import opened NodeState
  import opened ActiveChain
  import Consensus
  import PowTarget

  /** Common hashes name common blocks: no collision between the two stores. */
  ghost predicate SameBlocks(n: Node, r: Node) {
    forall h :: h in n.blocks && h in r.blocks ==> n.blocks[h] == r.blocks[h]
  }

  ghost predicate SameRoot(n: Node, r: Node) {
    forall g, h :: IsRoot(n.chain, g) && IsRoot(r.chain, h) ==> g == h
  }

  ghost predicate Compatible(n: Node, r: Node) {
    SameBlocks(n, r) && SameRoot(n, r)
  }

  lemma {:induction false} RootOf(c: Index, h: Hash) returns (root: Hash)
    requires Tree(c) && h in c.entries
    ensures IsRoot(c, root)
    decreases c.entries[h].height
  {
    assert Linked(c, h);
    if c.entries[h].parent.None? {
      root := h;
    } else {
      root := RootOf(c, c.entries[h].parent.value);
    }
  }

  lemma RootsCoincide(n: Node, r: Node, h: Hash)
    requires Tree(n.chain) && Tree(r.chain) && SameRoot(n, r)
    requires h in n.chain.entries && h in r.chain.entries
    ensures IsRoot(n.chain, h) <==> IsRoot(r.chain, h)
  {
    var g := RootOf(n.chain, h);
    var k := RootOf(r.chain, h);
  }

  lemma ParentsCoincide(n: Node, r: Node, h: Hash)
    requires Consistent(n) && Consistent(r) && Compatible(n, r)
    requires h in n.chain.entries && h in r.chain.entries
    ensures n.chain.entries[h].parent == r.chain.entries[h].parent
    ensures n.chain.entries[h].parent.Some? ==>
      && n.chain.entries[h].parent.value in n.chain.entries
      && n.chain.entries[h].parent.value in r.chain.entries
      && n.chain.entries[n.chain.entries[h].parent.value].height < n.chain.entries[h].height
  {
    hide HeaderHash, Consensus.ValidateBlock, BlockWork, CacheExplained, PoolInv, ActiveExplained;
    RootsCoincide(n, r, h);
    assert Linked(n.chain, h) && Linked(r.chain, h);
    assert EntryExplained(n.chain, n.blocks, h) && EntryExplained(r.chain, r.blocks, h);
  }

  lemma EntriesCoincide(n: Node, r: Node, h: Hash)
    requires TreeExplained(n.chain, n.blocks) && TreeExplained(r.chain, r.blocks)
    requires h in n.chain.entries && h in r.chain.entries && n.blocks[h] == r.blocks[h]
    requires n.chain.entries[h].parent == r.chain.entries[h].parent
    requires n.chain.entries[h].parent.Some? ==>
      var p := n.chain.entries[h].parent.value;
      p in n.chain.entries && p in r.chain.entries && n.chain.entries[p] == r.chain.entries[p]
    ensures n.chain.entries[h] == r.chain.entries[h]
  {
    hide HeaderHash, Consensus.ValidateBlock, BlockWork;
    assert Linked(n.chain, h) && Linked(r.chain, h);
    assert EntryExplained(n.chain, n.blocks, h) && EntryExplained(r.chain, r.blocks, h);
  }

  lemma SnapshotsCoincide(n: Node, r: Node, h: Hash)
    requires Consistent(n) && Consistent(r)
    requires h in n.chain.entries && h in r.chain.entries && n.blocks[h] == r.blocks[h]
    requires n.chain.entries[h] == r.chain.entries[h]
    requires n.chain.entries[h].parent.Some? ==>
      Lookup(n.snapshots, n.chain.entries[h].parent.value) == Lookup(r.snapshots, n.chain.entries[h].parent.value)
    ensures Lookup(n.snapshots, h) == Lookup(r.snapshots, h)
  {
    hide Consensus.ApplyBlock, EntryExplained, PoolInv, ActiveExplained;
    assert Lookup(n.snapshots, h) == Derived(n.chain, n.blocks, n.snapshots, h);
    assert Lookup(r.snapshots, h) == Derived(r.chain, r.blocks, r.snapshots, h);
  }

  /** Entries and snapshots are determined by the blocks: where both nodes know a block, they agree,
      also on whether it has a snapshot. */
  lemma {:induction false} AgreeAt(n: Node, r: Node, h: Hash)
    requires Consistent(n) && Consistent(r) && Compatible(n, r)
    requires h in n.chain.entries && h in r.chain.entries
    ensures n.chain.entries[h] == r.chain.entries[h]
    ensures Lookup(n.snapshots, h) == Lookup(r.snapshots, h)
    decreases n.chain.entries[h].height
  {
    hide TreeExplained, CacheExplained, ActiveExplained, PoolInv, SameRoot;
    StoredAreIndexed(n);
    StoredAreIndexed(r);
    ParentsCoincide(n, r, h);
    var parent := n.chain.entries[h].parent;
    if parent.Some? {
      AgreeAt(n, r, parent.value);
    }
    EntriesCoincide(n, r, h);
    SnapshotsCoincide(n, r, h);
  }

  /** `n` knows the parent of block `h` of `r`, or is empty and `h` is the root. */
  ghost predicate Ready(n: Node, r: Node, h: Hash)
    requires h in r.chain.entries
  {
    var parent := r.chain.entries[h].parent;
    if n.chain.entries == map[] then parent.None? else parent.Some? && parent.value in n.chain.entries
  }

  lemma EntryTransfers(n: Node, r: Node, h: Hash)
    requires Consistent(n) && Consistent(r) && Compatible(n, r)
    requires h in r.chain.entries && h !in n.chain.entries && Ready(n, r, h)
    ensures NewEntry(n.chain, r.blocks[h]) == Ok(r.chain.entries[h])
    ensures BlockHash(r.blocks[h]) == h && Consensus.ValidateBlock(r.blocks[h]).Ok?
  {
    hide HeaderHash, Consensus.ValidateBlock, PowTarget.FromCompact, PowTarget.Work, PoolInv,
      CacheExplained, ActiveExplained;
    assert Linked(r.chain, h) && EntryExplained(r.chain, r.blocks, h);
    var parent := r.chain.entries[h].parent;
    if parent.Some? {
      AgreeAt(n, r, parent.value);
    }
  }

  lemma SnapshotTransfers(n: Node, r: Node, h: Hash)
    requires Consistent(n) && Consistent(r) && Compatible(n, r)
    requires h in r.chain.entries && h in r.snapshots && h !in n.chain.entries && Ready(n, r, h)
    ensures var e := r.chain.entries[h];
            EnsureSnapshot(Indexed(n, r.blocks[h], e), h, e.parent, e.height) == Ok(r.snapshots[h])
  {
    hide HeaderHash, Consensus.ValidateBlock, BlockWork, Consensus.ApplyBlock, PoolInv, ActiveExplained;
    var e := r.chain.entries[h];
    assert Linked(r.chain, h);
    if e.parent.Some? {
      AgreeAt(n, r, e.parent.value);
    }
    assert Lookup(r.snapshots, h) == Derived(r.chain, r.blocks, r.snapshots, h);
  }

  /** The transfer step: `n` accepts any block `h` that `r` accepted, and files it exactly as `r` does,
      whatever else either of them rejected. */
  lemma AcceptTransfers(n: Node, r: Node, h: Hash)
    requires Consistent(n) && Consistent(r) && Compatible(n, r)
    requires h in r.chain.entries && h in r.snapshots && h !in n.chain.entries && Ready(n, r, h)
    ensures h in r.blocks && AcceptBlock(n, r.blocks[h]).1.Ok?
    ensures var m := AcceptBlock(n, r.blocks[h]).0;
            && Consistent(m) && (Settled(n) ==> Settled(m))
            && m.chain == AddEntry(n.chain, r.chain.entries[h])
            && m.blocks == n.blocks[h := r.blocks[h]]
            && m.snapshots == n.snapshots[h := r.snapshots[h]]
            && (n.mempool == map[] ==> m.mempool == map[])
  {
    hide HeaderHash, Consensus.ValidateBlock, NewEntry, EnsureSnapshot, Consistent, SameBlocks, SameRoot, AddEntry,
      PruneInvalid, Ready;
    StoredAreIndexed(n);
    StoredAreIndexed(r);
    EntryTransfers(n, r, h);
    EntryKeyed(r.chain, h);
    AcceptNew(n, r.blocks[h], r.chain.entries[h]);
    SnapshotTransfers(n, r, h);
    AcceptKeepsConsistent(n, r.blocks[h]);
    if Settled(n) {
      AcceptKeepsSettled(n, r.blocks[h]);
    }
    PruneEmpty(r.snapshots[h]);
  }

  lemma PruneEmpty(u: Utxos)
    ensures PruneInvalid(map[], u) == map[]
  {
  }

  lemma TransferKeepsCompatible(n: Node, r: Node, h: Hash, m: Node)
    requires Consistent(n) && Consistent(r) && Compatible(n, r)
    requires h in r.chain.entries && h !in n.chain.entries && Ready(n, r, h)
    requires m.chain == AddEntry(n.chain, r.chain.entries[h]) && m.blocks == n.blocks[h := r.blocks[h]]
    ensures Compatible(m, r)
  {
    hide PoolInv, CacheExplained, ActiveExplained, EntryExplained, Overtakes;
    EntryKeyed(r.chain, h);
    forall g, k | IsRoot(m.chain, g) && IsRoot(r.chain, k)
      ensures g == k
    {
      if g != h {
        assert IsRoot(n.chain, g);
      } else {
        assert IsRoot(r.chain, h);
      }
    }
  }
}
