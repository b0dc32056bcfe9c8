/** The tables in every run of the server, also when blocks are rejected, and what a restart makes of
    them. */
module AllRuns {
  import opened Primitives
  import opened Crypto
  import opened Types
  import opened State
  import opened Sums
  import opened Sorting
  import opened Chain
  import opened Mempool
  import opened NodeState
  import opened ActiveChain
  import opened Rebuild
  import opened Provenance
  import opened TxIndex
  import opened Store
  import opened Persistence
  import opened Synchrony
  import opened RoundTrip
  import opened Server
  import Consensus
  import Candidate

  // ---- What an accepted block changes -----------------------------------------------------

  /** `m` knows everything `n` knows, under the same entry and block. */
  ghost predicate Grows(n: Node, m: Node) {
    && (forall h :: h in n.chain.entries ==> h in m.chain.entries && m.chain.entries[h] == n.chain.entries[h])
    && (forall h :: h in n.blocks ==> h in m.blocks && m.blocks[h] == n.blocks[h])
  }

  lemma NewBlockGrows(n: Node, b: Block, e: ChainIndexEntry)
    requires n.blocks.Keys == n.chain.entries.Keys && e.blockHash == BlockHash(b) && BlockHash(b) !in n.chain.entries
    ensures Grows(n, Indexed(n, b, e))
    ensures BlockHash(b) in Indexed(n, b, e).chain.entries && BlockHash(b) in Indexed(n, b, e).blocks
    ensures Indexed(n, b, e).chain.entries[BlockHash(b)] == e && Indexed(n, b, e).snapshots == n.snapshots
  {
    hide HeaderHash, Overtakes;
  }

  /** A block extends index and store; it gets a snapshot exactly when it is accepted. */
  lemma AcceptGrows(n: Node, b: Block)
    requires Consistent(n)
    ensures var (m, r) := AcceptBlock(n, b);
            && Grows(n, m)
            && m.snapshots.Keys == n.snapshots.Keys + (if r.Ok? then {BlockHash(b)} else {})
            && (r.Ok? ==> BlockHash(b) in m.chain.entries && BlockHash(b) in m.blocks
                          && m.chain.entries[BlockHash(b)].blockHash == BlockHash(b))
  {
    hide HeaderHash, Consensus.ValidateBlock, NewEntry, EnsureSnapshot, Consistent, Install, AddEntry, Tree, Indexed;
    StoredAreIndexed(n);
    RefusedInsertKeepsIndex(n.chain, b);
    if BlockHash(b) in n.chain.entries {
      KnownBlockIsNoOp(n, b);
      EntryKeyed(n.chain, BlockHash(b));
      assert AcceptBlock(n, b).1.Ok? ==> n.snapshots.Keys == n.snapshots.Keys + {BlockHash(b)};
    } else if Consensus.ValidateBlock(b).Ok? && NewEntry(n.chain, b).Ok? {
      var e := NewEntry(n.chain, b).value;
      AcceptNew(n, b, e);
      NewEntryHash(n, b);
      NewBlockGrows(n, b, e);
      var ensured := EnsureSnapshot(Indexed(n, b, e), e.blockHash, e.parent, e.height);
      if ensured.Ok? {
        InstallKeys(Indexed(n, b, e), e.blockHash, ensured.value);
      }
    }
  }

  // ---- What a save changes ----------------------------------------------------------------

  /** A block save adds one record, notes the tip, and never invents a pending transaction. */
  lemma SaveAddsRecord(s: Tables, m: Node, h: Hash, previousTip: Option<Hash>, previousIds: set<Hash>)
    requires TreeExplained(m.chain, m.blocks) && h in m.chain.entries && h in m.blocks
    requires m.chain.entries[h].blockHash == h
    ensures var after := SaveAcceptedBlockState(s, m, h, previousTip, previousIds);
            && after.blocks == s.blocks[h := m.blocks[h]]
            && after.entries == s.entries[h := m.chain.entries[h]]
            && after.bestTip == m.chain.bestTip
            && (SubPool(after.mempool, s.mempool) || after.mempool == m.mempool)
  {
    hide TreeExplained, OnBestChain, BuildIndex, BestChain, RequiresRefresh, SaveConfirmed, SubPool;
    var e := m.chain.entries[h];
    var recorded := SaveBlockRecord(s, m.blocks[h], e, m.chain.bestTip).(activeUtxos := m.activeUtxos);
    var cleared := DeleteStale(recorded, m.mempool);
    ConfirmedKeepsChain(cleared, m.blocks[h], e);
    ConfirmedShrinksPool(cleared, m.blocks[h], e);
    StaleShrinksPool(recorded, m.mempool);
    SubPoolTransitive(SaveConfirmed(cleared, m.blocks[h], e).mempool, cleared.mempool, s.mempool);
    SubPoolReflexive(s.mempool);
  }

  lemma SubPoolReflexive(pool: Pool)
    ensures SubPool(pool, pool)
  {
  }

  lemma StaleShrinksPool(s: Tables, pool: Pool)
    ensures SubPool(DeleteStale(s, pool).mempool, s.mempool)
  {
  }

  lemma ConfirmedShrinksPool(s: Tables, b: Block, e: ChainIndexEntry)
    ensures SubPool(SaveConfirmed(s, b, e).mempool, s.mempool)
  {
    hide InsertConfirmedEdges, Txid, ConfirmedRows, UpsertConfirmed;
    var p := PlacedBlock(b, e.blockHash, e.height);
    UpsertOutcome(s, p, |p|);
  }

  // ---- The records of every run -----------------------------------------------------------

  /** The stored records are exactly those of the accepted blocks, and the persisted pool is keyed by id. */
  ghost predicate HoldsAccepted(v: ServerState) {
    && v.tables.entries == Restrict(v.node.chain.entries, v.node.snapshots.Keys)
    && v.tables.blocks == Restrict(v.node.blocks, v.node.snapshots.Keys)
    && KeyedById(v.tables.mempool)
  }

  lemma RestrictGrows<V>(m: map<Hash, V>, w: map<Hash, V>, keys: set<Hash>)
    requires keys <= m.Keys && forall h :: h in m ==> h in w && w[h] == m[h]
    ensures Restrict(w, keys) == Restrict(m, keys)
    ensures forall h :: h in w ==> Restrict(w, keys + {h}) == Restrict(m, keys)[h := w[h]]
  {
  }

  lemma SubPoolKeyed(a: Pool, b: Pool)
    requires SubPool(a, b) && KeyedById(b)
    ensures KeyedById(a)
  {
    hide Txid;
  }

  lemma BlockKeepsRecords(v: ServerState, b: Block, w: ServerState)
    requires Consistent(v.node) && HoldsAccepted(v)
    requires var m := AcceptBlock(v.node, b).0;
             w.node.chain == m.chain && w.node.blocks == m.blocks && w.node.snapshots == m.snapshots
    requires Consistent(w.node)
    requires w.tables == if AcceptBlock(v.node, b).1.Ok? then PersistBlock(v.node, w.node, v.tables, BlockHash(b))
                         else v.tables
    ensures HoldsAccepted(w)
  {
    hide Consistent, AcceptBlock, TreeExplained, HeaderHash, KeyedById, SaveAcceptedBlockState, Restrict, SubPool, Tree;
    var n := v.node;
    AcceptGrows(n, b);
    CachedAreIndexed(n);
    StoredAreIndexed(n);
    ConsistentExplained(w.node);
    RestrictGrows(n.chain.entries, w.node.chain.entries, n.snapshots.Keys);
    RestrictGrows(n.blocks, w.node.blocks, n.snapshots.Keys);
    if AcceptBlock(n, b).1.Ok? {
      SaveAddsRecord(v.tables, w.node, BlockHash(b), n.chain.bestTip, n.mempool.Keys);
      ConsistentPool(w.node);
      InvParts(w.node.mempool, w.node.activeUtxos);
      if SubPool(w.tables.mempool, v.tables.mempool) {
        SubPoolKeyed(w.tables.mempool, v.tables.mempool);
      }
    } else {
      assert n.snapshots.Keys + {} == n.snapshots.Keys;
    }
  }

  lemma MessageKeepsRecords(v: ServerState, message: Message)
    requires Consistent(v.node) && HoldsAccepted(v)
    ensures HoldsAccepted(Handle(v, message))
  {
    hide Consistent, AcceptBlock, TreeExplained, HeaderHash, PersistBlock, Restrict, Txid, EdgesOf, SubmitTransaction,
      MiningCandidate, Collect;
    var n, w := v.node, Handle(v, message);
    match message {
      case AnnounceTx(tx) =>
        SubmitKeepsChain(n, tx);
      case AnnounceBlock(b) =>
        BlockKeepsRecords(v, b, w);
      case MinePending(r, nonce) =>
        if MiningCandidate(n, r).Ok? {
          BlockKeepsRecords(v, Candidate.WithNonce(MiningCandidate(n, r).value, nonce), w);
        }
    }
  }

  /** In every run, whatever is rejected, the stored blocks and entries are exactly those of the accepted
      blocks. */
  lemma {:induction false} TablesHoldAccepted(messages: seq<Message>)
    ensures HoldsAccepted(ServerRun(messages))
  {
    hide Handle, HoldsAccepted, Consistent;
    if messages == [] {
      NothingStored();
    } else {
      TablesHoldAccepted(messages[..|messages| - 1]);
      MessageKeepsRecords(ServerRun(messages[..|messages| - 1]), messages[|messages| - 1]);
    }
  }

  lemma NothingStored()
    ensures HoldsAccepted(ServerRun([]))
  {
  }

  // ---- The accepted part of a node --------------------------------------------------------

  ghost function WorkIn(entries: map<Hash, ChainIndexEntry>, h: Hash): u128 {
    if h in entries then entries[h].cumulativeWork else 0
  }

  /** The hashes with the most work. */
  ghost function HeaviestSet(entries: map<Hash, ChainIndexEntry>): set<Hash> {
    set h | h in entries && forall g :: g in entries ==> WorkIn(entries, g) <= WorkIn(entries, h)
  }

  lemma HeaviestExists(entries: map<Hash, ChainIndexEntry>)
    requires entries != map[]
    ensures HeaviestSet(entries) != {}
  {
    var key: Hash -> nat := h => U128_MAX - WorkIn(entries, h);
    assert entries.Keys != {};
    LeastExists(entries.Keys, key);
    var x :| IsLeastBy(entries.Keys, key, x);
    assert forall g :: g in entries ==> key(x) <= key(g);
    assert x in HeaviestSet(entries);
  }

  /** The first heaviest hash in replay order. */
  ghost function FirstTip(entries: map<Hash, ChainIndexEntry>): (tip: Option<Hash>)
    ensures tip.None? <==> entries == map[]
    ensures tip.Some? ==> tip.value in HeaviestSet(entries)
    ensures tip.Some? ==> forall h :: h in HeaviestSet(entries) ==>
                            ReplayRank(entries, tip.value) <= ReplayRank(entries, h)
  {
    if entries == map[] then None
    else
      HeaviestExists(entries);
      ReplayKeyDistinguishes(entries);
      var x := LeastBy(HeaviestSet(entries), ReplayKey(entries));
      assert forall h :: h in HeaviestSet(entries) ==> ReplayKey(entries)(x) <= ReplayKey(entries)(h);
      Some(x)
  }

  ghost function AcceptedEntries(n: Node): map<Hash, ChainIndexEntry> {
    Restrict(n.chain.entries, n.snapshots.Keys)
  }

  /** `n` without the blocks that failed, on the tip that a replay of the others arrives at. */
  ghost function AcceptedPart(n: Node): Node {
    var tip := FirstTip(AcceptedEntries(n));
    Node(
      Index(AcceptedEntries(n), tip),
      if tip.Some? && tip.value in n.snapshots then n.snapshots[tip.value] else map[],
      map[],
      Restrict(n.blocks, n.snapshots.Keys),
      n.snapshots)
  }

  lemma HeaviestIs(c: Index, h: Hash)
    ensures h in HeaviestSet(c.entries) <==> Heaviest(c, h)
  {
    if h in HeaviestSet(c.entries) {
      forall g | g in c.entries
        ensures c.entries[g].cumulativeWork <= c.entries[h].cumulativeWork
      {
        assert WorkIn(c.entries, g) <= WorkIn(c.entries, h);
      }
    }
  }

  lemma PartLinked(n: Node, h: Hash)
    requires Consistent(n) && h in n.snapshots && h in n.chain.entries
    ensures var c := AcceptedPart(n).chain;
            && h in c.entries && c.entries[h] == n.chain.entries[h] && Linked(c, h)
            && (IsRoot(c, h) ==> IsRoot(n.chain, h))
  {
    hide Consistent, FirstTip;
    StoredAreIndexed(n);
    assert Linked(n.chain, h);
    if n.chain.entries[h].parent.Some? {
      SnapshotsAreParentClosed(n, h);
    }
  }

  lemma PartIsTree(n: Node)
    requires Consistent(n)
    ensures Tree(AcceptedPart(n).chain)
  {
    hide Consistent, FirstTip, Linked, IsRoot, HeaviestSet, Heaviest, AcceptedPart;
    StoredAreIndexed(n);
    CachedAreIndexed(n);
    PartRecords(n);
    var c := AcceptedPart(n).chain;
    forall h | h in c.entries
      ensures Linked(c, h) && (IsRoot(c, h) ==> IsRoot(n.chain, h))
    {
      PartLinked(n, h);
    }
    forall h | IsRoot(c, h)
      ensures h in c.entries
    {
      RootIsIndexed(c, h);
    }
    if c.bestTip.Some? {
      HeaviestIs(c, c.bestTip.value);
    }
  }

  lemma RootIsIndexed(c: Index, h: Hash)
    requires IsRoot(c, h)
    ensures h in c.entries
  {
  }

  lemma PartEntry(n: Node, h: Hash)
    requires Consistent(n) && h in n.snapshots && h in n.chain.entries && h in n.blocks
    ensures var p := AcceptedPart(n);
            h in p.chain.entries && h in p.blocks && EntryExplained(p.chain, p.blocks, h)
  {
    hide FirstTip, HeaderHash, Consensus.ValidateBlock, BlockWork, PoolInv, ActiveExplained, CacheExplained, Tree;
    assert EntryExplained(n.chain, n.blocks, h);
    if n.chain.entries[h].parent.Some? {
      SnapshotsAreParentClosed(n, h);
    }
  }

  lemma PartSnapshot(n: Node, h: Hash)
    requires Consistent(n) && h in n.snapshots && h in n.chain.entries && h in n.blocks
    ensures var p := AcceptedPart(n);
            && h in p.chain.entries && h in p.blocks
            && Lookup(p.snapshots, h) == Derived(p.chain, p.blocks, p.snapshots, h)
  {
    hide FirstTip, Consensus.ApplyBlock, PoolInv, ActiveExplained, TreeExplained;
    assert Lookup(n.snapshots, h) == Derived(n.chain, n.blocks, n.snapshots, h) by {
      StoredAreIndexed(n);
    }
  }

  /** It is a settled node, and its tip comes first among its heaviest blocks. */
  lemma PartIsSettled(n: Node)
    requires Consistent(n)
    ensures Settled(AcceptedPart(n)) && TipIsFirst(AcceptedPart(n))
  {
    hide Consistent, FirstTip, Tree, EntryExplained, Derived, HeaviestSet, Heaviest, ReplayRank, Validate;
    var p := AcceptedPart(n);
    StoredAreIndexed(n);
    CachedAreIndexed(n);
    PartIsTree(n);
    assert p.chain.entries.Keys == n.snapshots.Keys && p.blocks.Keys == n.snapshots.Keys;
    forall h | h in p.blocks
      ensures EntryExplained(p.chain, p.blocks, h)
      ensures Lookup(p.snapshots, h) == Derived(p.chain, p.blocks, p.snapshots, h)
    {
      PartEntry(n, h);
      PartSnapshot(n, h);
    }
    forall h
      ensures h in HeaviestSet(p.chain.entries) <==> Heaviest(p.chain, h)
    {
      HeaviestIs(p.chain, h);
    }
    PartIsConsistent(p);
  }

  lemma PartIsConsistent(p: Node)
    requires TreeExplained(p.chain, p.blocks) && CacheExplained(p.chain, p.blocks, p.snapshots) && p.mempool == map[]
    requires p.chain.entries.Keys == p.snapshots.Keys
    requires p.activeUtxos == if p.chain.bestTip.Some? && p.chain.bestTip.value in p.snapshots
                              then p.snapshots[p.chain.bestTip.value] else map[]
    ensures Settled(p)
  {
    hide Tree, EntryExplained, Derived, Validate;
  }

  // ---- Restarts of every run --------------------------------------------------------------

  lemma LoadOfPart(s: Tables, p: Node)
    requires Settled(p) && TipIsFirst(p) && p.mempool == map[] && KeyedById(s.mempool)
    requires s.blocks == p.blocks && s.entries == p.chain.entries
    ensures LoadNodeState(s) == CheckRebuilt(s, p.(mempool := PruneInvalid(s.mempool, p.activeUtxos)))
  {
    hide Settled, LoadBlocks, TipIsFirst, Replayed, LoadBlockList, ReplayOrder, Txid, Validate, PruneInvalid,
      CheckRebuilt;
    ReplayRestores(p);
    ReplayedIsLoaded(p);
    assert FirstMiskeyed(s.mempool).None?;
  }

  /** A restart in any run: the stored blocks always replay, to the accepted part of the node. It succeeds
      exactly when that part has the persisted tip and active set and every persisted pending transaction
      is valid for it; the first of the three that fails is the one reported. */
  lemma RestartOfAnyRun(messages: seq<Message>)
    ensures var v := ServerRun(messages);
            var p := AcceptedPart(v.node);
            && Settled(p)
            && LoadNodeState(v.tables) ==
               if p.chain.bestTip != v.tables.bestTip
               then Err(RebuiltBestTipMismatch(p.chain.bestTip, v.tables.bestTip))
               else if p.activeUtxos != v.tables.activeUtxos then Err(RebuiltUtxoMismatch)
               else if !AllValid(v.tables.mempool, p.activeUtxos) then Err(RebuiltMempoolMismatch)
               else Ok(p.(mempool := v.tables.mempool))
  {
    hide ServerRun, AcceptedPart, LoadNodeState, Settled, Consistent, TipIsFirst, Validate, PruneInvalid, AllValid;
    var v := ServerRun(messages);
    TablesHoldAccepted(messages);
    PartIsSettled(v.node);
    PartRecords(v.node);
    LoadOfPart(v.tables, AcceptedPart(v.node));
    PruneKeepsAllIff(v.tables.mempool, AcceptedPart(v.node).activeUtxos);
  }

  lemma PartRecords(n: Node)
    ensures var p := AcceptedPart(n);
            && p.mempool == map[] && p.blocks == Restrict(n.blocks, n.snapshots.Keys)
            && p.chain.entries == Restrict(n.chain.entries, n.snapshots.Keys)
            && p.chain.bestTip == FirstTip(p.chain.entries)
            && (p.chain.bestTip.Some? ==> p.chain.bestTip.value in n.snapshots)
  {
    hide FirstTip;
    FirstTipStored(AcceptedEntries(n));
  }

  lemma FirstTipStored(entries: map<Hash, ChainIndexEntry>)
    ensures FirstTip(entries).Some? ==> FirstTip(entries).value in entries
  {
    hide FirstTip;
  }

  lemma SavedNotesTip(v: ServerState, message: Message)
    requires Consistent(v.node) && SavedBlock(v.node, message).Some?
    ensures Handle(v, message).tables.bestTip == Handle(v, message).node.chain.bestTip
  {
    hide Consistent, AcceptBlock, TreeExplained, HeaderHash, SaveAcceptedBlockState, MiningCandidate, Collect, Grows;
    var n, m := v.node, Handle(v, message).node;
    ConsistentExplained(m);
    match message {
      case AnnounceBlock(b) =>
        AcceptGrows(n, b);
        SaveAddsRecord(v.tables, m, BlockHash(b), n.chain.bestTip, n.mempool.Keys);
      case MinePending(r, nonce) =>
        MineOutcomeParts(n, r, nonce);
        var b := Candidate.WithNonce(MiningCandidate(n, r).value, nonce);
        AcceptGrows(n, b);
        SaveAddsRecord(v.tables, m, BlockHash(b), n.chain.bestTip, n.mempool.Keys);
    }
  }

  /** The failing case: a block saved while the best tip is a failed block persists a tip that is not
      stored, and a restart fails with a best-tip mismatch. */
  lemma SaveUnderFailedTip(messages: seq<Message>)
    requires messages != [] && !TipApplied(ServerRun(messages).node)
    requires SavedBlock(ServerRun(messages[..|messages| - 1]).node, messages[|messages| - 1]).Some?
    ensures var v := ServerRun(messages);
            && v.tables.bestTip.Some? && v.tables.bestTip.value !in v.tables.blocks
            && LoadNodeState(v.tables)
               == Err(RebuiltBestTipMismatch(FirstTip(v.tables.entries), v.tables.bestTip))
  {
    hide Handle, SavedBlock, LoadNodeState, FirstTip, Consistent, Settled, AllValid;
    var v := ServerRun(messages);
    SavedNotesTip(ServerRun(messages[..|messages| - 1]), messages[|messages| - 1]);
    TablesHoldAccepted(messages);
    RestartOfAnyRun(messages);
    PartRecords(v.node);
  }
}
