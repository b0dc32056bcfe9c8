/** Catching up with a peer: walk back from its tip to a known block, then accept parent-first. */
module Sync {
  import opened Primitives
  import opened Crypto
  import opened Types
  import opened Chain
  import opened Mempool
  import opened NodeState
  import opened ActiveChain
  import opened Agreement
  import opened LiveNode
  import Consensus

  /** A peer in any reachable state that serves blocks from its own store. */
  ghost predicate Serves(r: Node) {
    Consistent(r) && DEFAULT_HASH !in r.chain.entries
  }

  /** The blocks from `h` back to the first one `n` knows, newest first. */
  function Missing(n: Node, r: Node, h: Hash): seq<Block>
    requires TreeExplained(r.chain, r.blocks) && h in r.chain.entries && DEFAULT_HASH !in r.chain.entries
    decreases r.chain.entries[h].height
  {
    if h in n.blocks then []
    else
      var b := r.blocks[h];
      ParentOnServer(r, h);
      if b.header.prevBlockhash == DEFAULT_HASH then [b] else [b] + Missing(n, r, b.header.prevBlockhash)
  }

  lemma ParentOnServer(r: Node, h: Hash)
    requires TreeExplained(r.chain, r.blocks) && h in r.chain.entries && DEFAULT_HASH !in r.chain.entries
    ensures var prev := r.blocks[h].header.prevBlockhash;
            if prev == DEFAULT_HASH then r.chain.entries[h].parent.None?
            else r.chain.entries[h].parent == Some(prev) && prev in r.chain.entries
                 && r.chain.entries[prev].height + 1 == r.chain.entries[h].height
  {
    hide HeaderHash, Consensus.ValidateBlock, BlockWork;
    assert Linked(r.chain, h) && EntryExplained(r.chain, r.blocks, h);
  }

  /** Applies one fetched block unless it is already stored. */
  function AcceptFetched(n: Node, b: Block): (Node, Result<(), NodeError>) {
    if BlockHash(b) in n.blocks then (n, Ok(())) else AcceptBlock(n, b)
  }

  /** Accepts a newest-first list from its end, stopping at the first failure. */
  function AcceptReversed(n: Node, missing: seq<Block>): (Node, Result<(), NodeError>)
    decreases |missing|
  {
    if missing == [] then (n, Ok(()))
    else
      match AcceptFetched(n, missing[|missing| - 1])
      case (m, Err(e)) => (m, Err(e))
      case (m, Ok(_)) => AcceptReversed(m, missing[..|missing| - 1])
  }

  /** One sync pass against `r`. */
  function SyncFrom(n: Node, r: Node): (Node, Result<(), NodeError>)
    requires Serves(r)
  {
    match r.chain.bestTip
    case None => (n, Ok(()))
    case Some(tip) =>
      TipIsIndexed(r);
      AcceptReversed(n, Missing(n, r, tip))
  }

  lemma TipIsIndexed(r: Node)
    requires Consistent(r)
    ensures TreeExplained(r.chain, r.blocks)
    ensures r.chain.bestTip.Some? ==> r.chain.bestTip.value in r.chain.entries
  {
    hide EntryExplained, CacheExplained, ActiveExplained, PoolInv;
  }

  // ---- The walk always succeeds -----------------------------------------------------------

  lemma {:induction false} AcceptReversedCons(n: Node, b: Block, rest: seq<Block>)
    requires AcceptReversed(n, rest).1.Ok?
    ensures AcceptReversed(n, [b] + rest) == AcceptFetched(AcceptReversed(n, rest).0, b)
    decreases |rest|
  {
    hide AcceptFetched;
    var all := [b] + rest;
    if rest == [] {
      assert all == [b] && all[..0] == [];
      var r := AcceptFetched(n, b);
      assert r.1.Ok? ==> r.1.value == ();
    } else {
      var last := rest[|rest| - 1];
      assert all[|all| - 1] == last && all[..|all| - 1] == [b] + rest[..|rest| - 1];
      AcceptReversedCons(AcceptFetched(n, last).0, b, rest[..|rest| - 1]);
    }
  }

  /** What `n` knew about `h` is unchanged in `m`. */
  ghost predicate Kept(n: Node, m: Node, h: Hash)
    requires h in n.chain.entries
  {
    && h in m.chain.entries && m.chain.entries[h] == n.chain.entries[h]
    && Lookup(m.snapshots, h) == Lookup(n.snapshots, h)
  }

  /** `h` came from `r`, is no higher than `height`, is filed as in `r` and has a snapshot. */
  ghost predicate Fetched(r: Node, height: int, m: Node, h: Hash)
    requires h in m.chain.entries
  {
    && h in r.chain.entries && m.chain.entries[h] == r.chain.entries[h]
    && r.chain.entries[h].height <= height && h in m.snapshots
  }

  /** `m` is `n` together with blocks of `r` no higher than `height`, filed as in `r`. */
  ghost predicate Absorbed(n: Node, r: Node, height: int, m: Node) {
    && Consistent(m) && Compatible(m, r)
    && (forall h :: h in n.chain.entries ==> Kept(n, m, h))
    && (forall h :: h in m.chain.entries && h !in n.chain.entries ==> Fetched(r, height, m, h))
    && (m.chain.bestTip == n.chain.bestTip || (m.chain.bestTip.Some? && m.chain.bestTip.value !in n.chain.entries))
  }

  /** The two nodes can meet: the local one is empty or has the same root. */
  ghost predicate CanMeet(n: Node, r: Node) {
    n.chain.entries == map[] || exists h :: IsRoot(n.chain, h) && IsRoot(r.chain, h)
  }

  lemma AbsorbOne(n: Node, r: Node, h: Hash, m: Node)
    requires Consistent(r) && h in r.chain.entries && h in r.snapshots && h !in n.chain.entries
    requires Absorbed(n, r, r.chain.entries[h].height - 1, m) && Ready(m, r, h)
    ensures h in r.blocks && AcceptBlock(m, r.blocks[h]).1.Ok?
    ensures Absorbed(n, r, r.chain.entries[h].height, AcceptBlock(m, r.blocks[h]).0)
    ensures h in AcceptBlock(m, r.blocks[h]).0.chain.entries
  {
    hide Consistent, Compatible, Ready, AcceptBlock, Overtakes, Tree;
    assert h !in m.chain.entries;
    KnownBlocks(r);
    EntryKeyed(r.chain, h);
    AcceptTransfers(m, r, h);
    var after := AcceptBlock(m, r.blocks[h]).0;
    TransferKeepsCompatible(m, r, h, after);
    forall g | g in n.chain.entries
      ensures Kept(n, after, g)
    {
      assert Kept(n, m, g);
    }
    forall g | g in after.chain.entries && g !in n.chain.entries
      ensures Fetched(r, r.chain.entries[h].height, after, g)
    {
      assert g != h ==> Fetched(r, r.chain.entries[h].height - 1, m, g);
    }
  }

  lemma KnownBlocks(n: Node)
    requires Consistent(n)
    ensures n.blocks.Keys == n.chain.entries.Keys && Tree(n.chain) && n.snapshots.Keys <= n.chain.entries.Keys
    ensures forall h :: h in n.blocks ==> BlockHash(n.blocks[h]) == h
  {
    hide HeaderHash, Consensus.ValidateBlock, BlockWork, Derived, ActiveExplained, PoolInv, Tree;
  }

  lemma AbsorbNothing(n: Node, r: Node, height: int)
    requires Consistent(n) && Compatible(n, r)
    ensures Absorbed(n, r, height, n)
  {
  }

  /** Where the walk stops on the server's root, the local node was empty. */
  lemma RootMeansEmpty(n: Node, r: Node, h: Hash)
    requires Consistent(n) && CanMeet(n, r) && Tree(r.chain)
    requires h in r.chain.entries && h !in n.blocks && IsRoot(r.chain, h)
    ensures n.chain.entries == map[]
  {
    hide CacheExplained, ActiveExplained, PoolInv, EntryExplained;
    assert forall root :: IsRoot(n.chain, root) && IsRoot(r.chain, root) ==> root == h;
  }

  lemma RootIsReady(n: Node, r: Node, h: Hash)
    requires Consistent(n) && CanMeet(n, r) && Tree(r.chain)
    requires h in r.chain.entries && h !in n.blocks && r.chain.entries[h].parent.None?
    ensures Ready(n, r, h)
  {
    hide Consistent, CanMeet;
    assert IsRoot(r.chain, h);
    RootMeansEmpty(n, r, h);
  }

  lemma ChildIsReady(r: Node, h: Hash, m: Node)
    requires h in r.chain.entries && r.chain.entries[h].parent.Some?
    requires r.chain.entries[h].parent.value in m.chain.entries
    ensures Ready(m, r, h)
  {
  }

  /** The block above what was absorbed is not known yet, so it is really accepted. */
  lemma NextIsFetched(n: Node, r: Node, h: Hash, m: Node)
    requires Consistent(r) && h in r.chain.entries && h in r.blocks && h !in n.chain.entries
    requires Absorbed(n, r, r.chain.entries[h].height - 1, m)
    ensures h !in m.chain.entries && AcceptFetched(m, r.blocks[h]) == AcceptBlock(m, r.blocks[h])
  {
    hide Consistent, Compatible, AcceptBlock, HeaderHash;
    KnownBlocks(m);
    KnownBlocks(r);
    assert h in m.chain.entries ==> Fetched(r, r.chain.entries[h].height - 1, m, h);
  }

  lemma AcceptReady(n: Node, r: Node, h: Hash, m: Node)
    requires Consistent(r) && h in r.chain.entries && h in r.blocks && h in r.snapshots && h !in n.chain.entries
    requires Absorbed(n, r, r.chain.entries[h].height - 1, m) && Ready(m, r, h)
    ensures AcceptFetched(m, r.blocks[h]).1.Ok?
    ensures Absorbed(n, r, r.chain.entries[h].height, AcceptFetched(m, r.blocks[h]).0)
    ensures h in AcceptFetched(m, r.blocks[h]).0.chain.entries
  {
    hide Consistent, Absorbed, Ready, AcceptBlock, HeaderHash, AcceptFetched;
    NextIsFetched(n, r, h, m);
    AbsorbOne(n, r, h, m);
  }

  lemma AcceptReversedNothing(n: Node)
    ensures AcceptReversed(n, []) == (n, Ok(()))
  {
  }

  /** Walking back from any block the server accepted, and accepting parent-first, never fails, files
      the blocks as the server does, and ends with that block known. */
  lemma {:induction false} WalkSucceeds(n: Node, r: Node, h: Hash)
    requires Consistent(n) && Serves(r) && Compatible(n, r) && CanMeet(n, r)
    requires h in r.chain.entries && h in r.snapshots && TreeExplained(r.chain, r.blocks)
    ensures AcceptReversed(n, Missing(n, r, h)).1.Ok?
    ensures Absorbed(n, r, r.chain.entries[h].height, AcceptReversed(n, Missing(n, r, h)).0)
    ensures h in AcceptReversed(n, Missing(n, r, h)).0.chain.entries
    decreases r.chain.entries[h].height
  {
    hide Consistent, Compatible, AcceptBlock, TreeExplained, AcceptFetched, Absorbed, CanMeet, AcceptReversed, Tree;
    KnownBlocks(n);
    KnownBlocks(r);
    ParentOnServer(r, h);
    var b := r.blocks[h];
    var prev := b.header.prevBlockhash;
    AbsorbNothing(n, r, r.chain.entries[h].height);
    AcceptReversedNothing(n);
    if h !in n.blocks {
      if prev == DEFAULT_HASH {
        AbsorbNothing(n, r, r.chain.entries[h].height - 1);
        AcceptReversedCons(n, b, []);
        RootIsReady(n, r, h);
        AcceptReady(n, r, h, n);
        assert [b] + [] == [b];
      } else {
        SnapshotsAreParentClosed(r, h);
        WalkSucceeds(n, r, prev);
        var m := AcceptReversed(n, Missing(n, r, prev)).0;
        AcceptReversedCons(n, b, Missing(n, r, prev));
        ChildIsReady(r, h, m);
        AcceptReady(n, r, h, m);
      }
    }
  }

  // ---- Convergence ------------------------------------------------------------------------

  lemma CompatibleCanMeet(n: Node, r: Node, h: Hash)
    requires Tree(n.chain) && Tree(r.chain) && SameRoot(n, r) && h in r.chain.entries
    ensures CanMeet(n, r)
  {
    if n.chain.entries != map[] {
      var g :| g in n.chain.entries;
      var a := RootOf(n.chain, g);
      var b := RootOf(r.chain, h);
    }
  }

  function Max(a: nat, b: nat): nat {
    if a < b then b else a
  }

  lemma EntryWithinBest(c: Index, h: Hash)
    requires Tree(c) && h in c.entries
    ensures c.entries[h].cumulativeWork <= BestWork(c)
    ensures c.bestTip.Some? && c.bestTip.value in c.entries
    ensures BestWork(c) == c.entries[c.bestTip.value].cumulativeWork
  {
    hide Linked;
  }

  lemma AbsorbedBestWork(n: Node, r: Node, tip: Hash, m: Node)
    requires Consistent(n) && Consistent(r) && r.chain.bestTip == Some(tip) && tip in r.chain.entries
    requires Absorbed(n, r, r.chain.entries[tip].height, m) && tip in m.chain.entries
    ensures BestWork(m.chain) == Max(BestWork(n.chain), BestWork(r.chain))
  {
    hide Consistent, Compatible, Tree, BestWork;
    KnownBlocks(n);
    KnownBlocks(r);
    KnownBlocks(m);
    AgreeAt(m, r, tip);
    EntryWithinBest(m.chain, tip);
    EntryWithinBest(r.chain, tip);
    var best := m.chain.bestTip.value;
    if best in n.chain.entries {
      EntryWithinBest(n.chain, best);
      assert Kept(n, m, best);
    } else {
      assert Fetched(r, r.chain.entries[tip].height, m, best);
      EntryWithinBest(r.chain, best);
    }
    if n.chain.bestTip.Some? && n.chain.bestTip.value in n.chain.entries {
      assert Kept(n, m, n.chain.bestTip.value);
      EntryWithinBest(n.chain, n.chain.bestTip.value);
      EntryWithinBest(m.chain, n.chain.bestTip.value);
    } else {
      NoTipNoWork(n.chain);
    }
  }

  lemma NoTipNoWork(c: Index)
    requires !(c.bestTip.Some? && c.bestTip.value in c.entries)
    ensures BestWork(c) == 0
  {
  }

  lemma AbsorbedSettles(n: Node, r: Node, height: int, m: Node)
    requires Consistent(n) && Absorbed(n, r, height, m)
    ensures Settled(n) ==> Settled(m)
    ensures TipApplied(n) ==> TipApplied(m)
    ensures forall h :: h in m.chain.entries ==> h in n.chain.entries || h in r.chain.entries
  {
    hide Consistent, Compatible, Tree, TreeExplained;
    KnownBlocks(m);
    TipIsIndexed(m);
    TipIsIndexed(n);
    forall h | h in m.chain.entries
      ensures if h in n.chain.entries then Kept(n, m, h) else h in m.snapshots && h in r.chain.entries
    {
      assert h !in n.chain.entries ==> Fetched(r, height, m, h);
    }
  }

  /** Convergence: against a peer with a compatible history whose tip was accepted, the pass succeeds,
      and afterwards the local best work is the larger of the two. The local node may have rejected
      blocks before. */
  lemma SyncConverges(n: Node, r: Node)
    requires Consistent(n) && Serves(r) && TipApplied(r) && Compatible(n, r)
    ensures SyncFrom(n, r).1.Ok?
    ensures var m := SyncFrom(n, r).0;
            && Consistent(m) && Compatible(m, r)
            && (Settled(n) ==> Settled(m)) && (TipApplied(n) ==> TipApplied(m))
            && (forall h :: h in m.chain.entries ==> h in n.chain.entries || h in r.chain.entries)
            && BestWork(m.chain) == Max(BestWork(n.chain), BestWork(r.chain))
  {
    hide Consistent, Settled, Compatible, TreeExplained, AcceptReversed, Missing, CanMeet, Tree;
    TipIsIndexed(r);
    if r.chain.bestTip.Some? {
      var tip := r.chain.bestTip.value;
      CanMeetWhenCompatible(n, r, tip);
      WalkSucceeds(n, r, tip);
      var m := AcceptReversed(n, Missing(n, r, tip)).0;
      AbsorbedBestWork(n, r, tip, m);
      AbsorbedSettles(n, r, r.chain.entries[tip].height, m);
    } else {
      NoTipNoWork(r.chain);
    }
  }

  lemma CanMeetWhenCompatible(n: Node, r: Node, h: Hash)
    requires Consistent(n) && Consistent(r) && Compatible(n, r) && h in r.chain.entries
    ensures CanMeet(n, r)
  {
    hide Consistent, CanMeet;
    KnownBlocks(n);
    KnownBlocks(r);
    CompatibleCanMeet(n, r, h);
  }

  /** Two nodes that sync in both directions end with the same best work. */
  lemma SyncBothWays(n: Node, r: Node)
    requires Serves(n) && Serves(r) && TipApplied(n) && TipApplied(r) && Compatible(n, r)
    ensures var m := SyncFrom(n, r).0;
            && Serves(m)
            && SyncFrom(r, m).1.Ok?
            && BestWork(SyncFrom(r, m).0.chain) == BestWork(m.chain)
  {
    hide Consistent, Settled, SyncFrom;
    SyncConverges(n, r);
    var m := SyncFrom(n, r).0;
    assert Compatible(r, m);
    SyncConverges(r, m);
  }

  // ---- Strangers --------------------------------------------------------------------------

  lemma {:induction false} CommonBlockMeansCommonRoot(n: Node, r: Node, h: Hash)
    requires Consistent(n) && Consistent(r) && SameBlocks(n, r)
    requires DEFAULT_HASH !in n.chain.entries && DEFAULT_HASH !in r.chain.entries
    requires h in n.chain.entries && h in r.chain.entries
    ensures exists g :: IsRoot(n.chain, g) && IsRoot(r.chain, g)
    decreases r.chain.entries[h].height
  {
    hide Consistent;
    KnownBlocks(n);
    KnownBlocks(r);
    TipIsIndexed(n);
    TipIsIndexed(r);
    ParentOnServer(n, h);
    ParentOnServer(r, h);
    if r.chain.entries[h].parent.None? {
      assert IsRoot(n.chain, h) && IsRoot(r.chain, h);
    } else {
      CommonBlockMeansCommonRoot(n, r, r.chain.entries[h].parent.value);
    }
  }

  lemma {:induction false} WalkReachesRoot(n: Node, r: Node, h: Hash) returns (g: Hash)
    requires Serves(r) && TreeExplained(r.chain, r.blocks) && h in r.chain.entries
    requires forall k :: k in r.chain.entries ==> k !in n.blocks
    ensures Missing(n, r, h) != [] && IsRoot(r.chain, g) && g in r.blocks
    ensures Missing(n, r, h)[|Missing(n, r, h)| - 1] == r.blocks[g]
    ensures r.blocks[g].header.prevBlockhash == DEFAULT_HASH
    decreases r.chain.entries[h].height
  {
    hide Consistent, EntryExplained, Tree;
    ParentOnServer(r, h);
    var prev := r.blocks[h].header.prevBlockhash;
    if prev == DEFAULT_HASH {
      g := h;
    } else {
      g := WalkReachesRoot(n, r, prev);
    }
  }

  lemma StrangeRootRefused(n: Node, b: Block)
    requires Consensus.ValidateBlock(b).Ok? && BlockWork(b).Ok? && BlockHash(b) !in n.chain.entries
    requires n.chain.entries != map[] && DEFAULT_HASH !in n.chain.entries
    requires b.header.prevBlockhash == DEFAULT_HASH
    ensures AcceptBlock(n, b) == (n, Err(ChainFailure(MissingParent(DEFAULT_HASH))))
  {
    hide HeaderHash, Consensus.ValidateBlock, BlockWork, EnsureSnapshot;
  }

  lemma StoredIsValid(r: Node, g: Hash)
    requires Consistent(r) && g in r.blocks
    ensures BlockHash(r.blocks[g]) == g && Consensus.ValidateBlock(r.blocks[g]).Ok? && BlockWork(r.blocks[g]).Ok?
  {
    hide HeaderHash, Consensus.ValidateBlock, BlockWork, CacheExplained, ActiveExplained, PoolInv, Tree;
    assert EntryExplained(r.chain, r.blocks, g);
  }

  /** A node with another root refuses the peer's root first and is left as it was. */
  lemma StrangersAreRefused(n: Node, r: Node)
    requires Consistent(n) && Serves(r) && SameBlocks(n, r) && DEFAULT_HASH !in n.chain.entries
    requires r.chain.bestTip.Some? && !CanMeet(n, r)
    ensures SyncFrom(n, r) == (n, Err(ChainFailure(MissingParent(DEFAULT_HASH))))
  {
    hide Consistent, TreeExplained, Missing, HeaderHash, AcceptBlock, Consensus.ValidateBlock, BlockWork;
    TipIsIndexed(r);
    KnownBlocks(n);
    forall k | k in r.chain.entries
      ensures k !in n.blocks
    {
      if k in n.blocks {
        CommonBlockMeansCommonRoot(n, r, k);
      }
    }
    var g := WalkReachesRoot(n, r, r.chain.bestTip.value);
    StoredIsValid(r, g);
    StrangeRootRefused(n, r.blocks[g]);
  }

  // ---- Rejected tips ----------------------------------------------------------------------

  lemma {:induction false} EarlierSucceeded(n: Node, b: Block, rest: seq<Block>)
    requires AcceptReversed(n, [b] + rest).1.Ok?
    ensures AcceptReversed(n, rest).1.Ok?
    decreases |rest|
  {
    hide AcceptFetched;
    if rest != [] {
      var all := [b] + rest;
      var last := rest[|rest| - 1];
      assert all[|all| - 1] == last && all[..|all| - 1] == [b] + rest[..|rest| - 1];
      EarlierSucceeded(AcceptFetched(n, last).0, b, rest[..|rest| - 1]);
    }
  }

  /** A fetched block that is accepted was accepted by the peer. */
  lemma AcceptedAlsoThere(r: Node, h: Hash, m: Node)
    requires Consistent(m) && Consistent(r) && Compatible(m, r)
    requires h in r.chain.entries && h in r.blocks && h !in m.chain.entries && Ready(m, r, h)
    requires AcceptBlock(m, r.blocks[h]).1.Ok?
    ensures h in r.snapshots
  {
    hide HeaderHash, Consensus.ValidateBlock, NewEntry, EnsureSnapshot, Consistent, Compatible, AddEntry, Ready, Tree;
    KnownBlocks(m);
    EntryTransfers(m, r, h);
    AcceptNew(m, r.blocks[h], r.chain.entries[h]);
    KnownBlocks(r);
    EntryKeyed(r.chain, h);
    var after := AcceptBlock(m, r.blocks[h]).0;
    AcceptKeepsConsistent(m, r.blocks[h]);
    TransferKeepsCompatible(m, r, h, after);
    AddedIsIndexed(m.chain, r.chain.entries[h]);
    AgreeAt(after, r, h);
  }

  lemma AddedIsIndexed(c: Index, e: ChainIndexEntry)
    ensures e.blockHash in AddEntry(c, e).entries
  {
  }

  /** A walk that succeeds ends at a block the peer accepted, unless it had nothing to fetch. */
  lemma {:induction false} WalkNeedsSnapshot(n: Node, r: Node, h: Hash)
    requires Consistent(n) && Serves(r) && Compatible(n, r) && CanMeet(n, r)
    requires h in r.chain.entries && h !in n.blocks && TreeExplained(r.chain, r.blocks)
    requires AcceptReversed(n, Missing(n, r, h)).1.Ok?
    ensures h in r.snapshots
    decreases r.chain.entries[h].height
  {
    hide Consistent, Compatible, AcceptBlock, TreeExplained, AcceptFetched, Absorbed, CanMeet, AcceptReversed, Tree,
      Ready;
    KnownBlocks(n);
    KnownBlocks(r);
    ParentOnServer(r, h);
    var b := r.blocks[h];
    var height: int := r.chain.entries[h].height;
    var prev := b.header.prevBlockhash;
    AcceptReversedNothing(n);
    if prev == DEFAULT_HASH {
      AbsorbNothing(n, r, height - 1);
      AcceptReversedCons(n, b, []);
      assert [b] + [] == [b];
      RootIsReady(n, r, h);
      NextIsFetched(n, r, h, n);
      AcceptedAlsoThere(r, h, n);
    } else {
      EarlierSucceeded(n, b, Missing(n, r, prev));
      AcceptReversedCons(n, b, Missing(n, r, prev));
      var m := AcceptReversed(n, Missing(n, r, prev)).0;
      if prev in n.blocks {
        AbsorbNothing(n, r, height - 1);
      } else {
        WalkNeedsSnapshot(n, r, prev);
        WalkSucceeds(n, r, prev);
      }
      AbsorbedParts(n, r, height - 1, m);
      ChildIsReady(r, h, m);
      NextIsFetched(n, r, h, m);
      AcceptedAlsoThere(r, h, m);
    }
  }

  lemma AbsorbedParts(n: Node, r: Node, height: int, m: Node)
    requires Absorbed(n, r, height, m)
    ensures Consistent(m) && Compatible(m, r)
    ensures forall h :: h in n.chain.entries ==> h in m.chain.entries
  {
    hide Consistent, Compatible;
    forall h | h in n.chain.entries
      ensures h in m.chain.entries
    {
      assert Kept(n, m, h);
    }
  }

  /** Given no hash collision, a pass between any two reachable nodes succeeds exactly when there is
      nothing to fetch, or the peer accepted its own tip and the local node is empty or has the same
      root. */
  lemma SyncSucceedsIff(n: Node, r: Node)
    requires Consistent(n) && Serves(r) && SameBlocks(n, r) && DEFAULT_HASH !in n.chain.entries
    ensures SyncFrom(n, r).1.Ok? <==>
            || r.chain.bestTip.None?
            || r.chain.bestTip.value in n.blocks
            || (r.chain.bestTip.value in r.snapshots && CanMeet(n, r))
  {
    hide Consistent, SameBlocks, CanMeet, AcceptReversed, TreeExplained;
    TipIsIndexed(r);
    if r.chain.bestTip.Some? {
      var tip := r.chain.bestTip.value;
      if tip in n.blocks {
        AcceptReversedNothing(n);
      } else if !CanMeet(n, r) {
        StrangersAreRefused(n, r);
      } else {
        MeetingIsCompatible(n, r);
        if tip in r.snapshots {
          WalkSucceeds(n, r, tip);
        } else if AcceptReversed(n, Missing(n, r, tip)).1.Ok? {
          WalkNeedsSnapshot(n, r, tip);
        }
      }
    }
  }

  lemma MeetingIsCompatible(n: Node, r: Node)
    requires Consistent(n) && Consistent(r) && SameBlocks(n, r) && CanMeet(n, r)
    ensures Compatible(n, r)
  {
    hide Consistent, SameBlocks;
    KnownBlocks(n);
    KnownBlocks(r);
  }

  // ---- The loop ---------------------------------------------------------------------------

  /** Fetches the missing segment from a serving peer and applies it parent-first. */
  method SyncToAdvertisedTip(local: LiveNode, remote: Node, advertised: Option<Hash>)
    returns (r: Result<(), NodeError>)
    requires local.Valid() && Serves(remote) && TreeExplained(remote.chain, remote.blocks)
    requires advertised.Some? ==> advertised.value in remote.chain.entries
    modifies local, local.chain, local.mempool
    ensures local.Valid()
    ensures var missing := if advertised.None? then [] else Missing(old(local.View()), remote, advertised.value);
            (local.View(), r) == AcceptReversed(old(local.View()), missing)
  {
    hide Consistent, AcceptBlock, TreeExplained, HeaderHash, Serves;
    if advertised.None? {
      return Ok(());
    }
    var missing := CollectMissing(local, remote, advertised.value);
    var i := |missing|;
    assert missing[..i] == missing;
    while i > 0
      invariant 0 <= i <= |missing| && local.Valid()
      invariant AcceptReversed(old(local.View()), missing) == AcceptReversed(local.View(), missing[..i])
    {
      i := i - 1;
      var b := missing[i];
      assert missing[..i + 1][i] == b && missing[..i + 1][..i] == missing[..i];
      if BlockHash(b) !in local.blocks {
        var accepted := local.Accept(b);
        if accepted.Err? {
          return accepted;
        }
      }
    }
    return Ok(());
  }

  /** Walks back from `tip`; a serving peer has every block asked for, and the height of the
      requested block bounds the walk. */
  method CollectMissing(local: LiveNode, remote: Node, tip: Hash) returns (missing: seq<Block>)
    requires local.Valid() && Serves(remote) && TreeExplained(remote.chain, remote.blocks)
    requires tip in remote.chain.entries
    ensures missing == Missing(local.View(), remote, tip)
  {
    hide Consistent, HeaderHash, EntryExplained, Tree;
    missing := [];
    var next := tip;
    while next !in local.blocks
      invariant next in remote.chain.entries
      invariant Missing(local.View(), remote, tip) == missing + Missing(local.View(), remote, next)
      decreases remote.chain.entries[next].height
    {
      var block := remote.blocks[next];
      ParentOnServer(remote, next);
      missing := missing + [block];
      if block.header.prevBlockhash == DEFAULT_HASH {
        return;
      }
      next := block.header.prevBlockhash;
    }
    assert missing + [] == missing;
  }
}
