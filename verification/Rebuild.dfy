/** Rebuilding a node from its blocks: the order does not matter as long as parents come first. */
module Rebuild {
  import opened Primitives
  import opened Crypto
  import opened Types
  import opened State
  import opened Chain
  import opened Mempool
  import opened NodeState
  import opened ActiveChain
  import opened Agreement
  import Consensus

  /** Accepts `bs` in order on a new node, stopping at the first failure. */
  function LoadBlocks(bs: seq<Block>): Result<Node, NodeError> {
    if bs == [] then Ok(NewNode())
    else
      match LoadBlocks(bs[..|bs| - 1])
      case Err(e) => Err(e)
      case Ok(n) =>
        match AcceptBlock(n, bs[|bs| - 1])
        case (m, Ok(_)) => Ok(m)
        case (_, Err(e)) => Err(e)
  }

  /** Rebuilds a node from persisted blocks and attaches the persisted pool, pruned. */
  function FromPersisted(bs: seq<Block>, pool: Pool): Result<Node, NodeError> {
    match LoadBlocks(bs)
    case Err(e) => Err(e)
    case Ok(n) => Ok(n.(mempool := PruneInvalid(pool, n.activeUtxos)))
  }

  function HashesOf(bs: seq<Block>): set<Hash> {
    set i | 0 <= i < |bs| :: BlockHash(bs[i])
  }

  ghost predicate DistinctHashes(bs: seq<Block>) {
    forall i, j :: 0 <= i < j < |bs| ==> BlockHash(bs[i]) != BlockHash(bs[j])
  }

  /** The first block is a genesis block, and every other block comes after its parent. */
  ghost predicate ParentFirst(bs: seq<Block>) {
    && (bs != [] ==> bs[0].header.prevBlockhash == DEFAULT_HASH)
    && forall i :: 0 < i < |bs| ==> bs[i].header.prevBlockhash in HashesOf(bs[..i])
  }

  /** `bs` lists the stored blocks of `r`, each once. */
  ghost predicate Enumerates(bs: seq<Block>, r: Node) {
    && DistinctHashes(bs)
    && HashesOf(bs) == r.blocks.Keys
    && forall i :: 0 <= i < |bs| ==> BlockHash(bs[i]) in r.blocks && r.blocks[BlockHash(bs[i])] == bs[i]
  }

  lemma PrefixHash(bs: seq<Block>, k: nat, h: Hash) returns (j: nat)
    requires k <= |bs| && h in HashesOf(bs[..k])
    ensures j < k && BlockHash(bs[j]) == h
  {
    hide HeaderHash;
    j :| 0 <= j < k && BlockHash(bs[..k][j]) == h;
  }

  lemma HashesSnoc(bs: seq<Block>, k: nat)
    requires k < |bs|
    ensures HashesOf(bs[..k + 1]) == HashesOf(bs[..k]) + {BlockHash(bs[k])}
  {
    hide HeaderHash;
    var a, b := bs[..k + 1], bs[..k];
    forall h | h in HashesOf(a)
      ensures h in HashesOf(b) + {BlockHash(bs[k])}
    {
      var i :| 0 <= i < k + 1 && BlockHash(a[i]) == h;
      assert i < k ==> b[i] == a[i];
    }
    forall h | h in HashesOf(b)
      ensures h in HashesOf(a)
    {
      var i :| 0 <= i < k && BlockHash(b[i]) == h;
      assert a[i] == b[i];
    }
    assert a[k] == bs[k];
  }

  // ---- The first block is the root --------------------------------------------------------

  /** Below the height of the first block nothing precedes the root, since all ancestors come first. */
  lemma {:induction false} NothingBeforeRoot(r: Node, bs: seq<Block>, root: nat, i: nat)
    requires Consistent(r) && Enumerates(bs, r) && ParentFirst(bs)
    requires root < |bs| && i < |bs| && IsRoot(r.chain, BlockHash(bs[root]))
    requires BlockHash(bs[i]) in r.chain.entries && BlockHash(bs[0]) in r.chain.entries
    requires r.chain.entries[BlockHash(bs[i])].height < r.chain.entries[BlockHash(bs[0])].height
    ensures root <= i
    decreases r.chain.entries[BlockHash(bs[i])].height
  {
    hide HeaderHash, Consensus.ValidateBlock, BlockWork, CacheExplained, ActiveExplained, PoolInv;
    var h := BlockHash(bs[i]);
    assert Linked(r.chain, h) && EntryExplained(r.chain, r.blocks, h);
    if r.chain.entries[h].parent.None? {
      assert IsRoot(r.chain, h);
    } else {
      var j := PrefixHash(bs, i, bs[i].header.prevBlockhash);
      NothingBeforeRoot(r, bs, root, j);
    }
  }

  lemma IndexOf(bs: seq<Block>, h: Hash) returns (i: nat)
    requires h in HashesOf(bs)
    ensures i < |bs| && BlockHash(bs[i]) == h
  {
    hide HeaderHash;
    i :| 0 <= i < |bs| && BlockHash(bs[i]) == h;
  }

  /** A parent-first listing starts with the root, even if some block hashed to the default hash. */
  lemma FirstIsRoot(r: Node, bs: seq<Block>)
    requires Consistent(r) && Enumerates(bs, r) && ParentFirst(bs) && bs != []
    ensures BlockHash(bs[0]) in r.chain.entries && IsRoot(r.chain, BlockHash(bs[0]))
  {
    hide HeaderHash, Consensus.ValidateBlock, BlockWork, CacheExplained, ActiveExplained, PoolInv;
    var first := BlockHash(bs[0]);
    assert first in HashesOf(bs);
    var root := RootOf(r.chain, first);
    var k := IndexOf(bs, root);
    assert Linked(r.chain, first) && EntryExplained(r.chain, r.blocks, first);
    assert EntryExplained(r.chain, r.blocks, root);
    if r.chain.entries[first].parent.Some? {
      var z := PrefixHash(bs, k, DEFAULT_HASH);
      NothingBeforeRoot(r, bs, k, z);
    }
  }

  // ---- Rebuilding -------------------------------------------------------------------------

  /** What the prefix `bs[..k]` has built so far. */
  ghost predicate Builds(r: Node, bs: seq<Block>, k: nat)
    requires k <= |bs|
  {
    && LoadBlocks(bs[..k]).Ok?
    && var n := LoadBlocks(bs[..k]).value;
       Settled(n) && Compatible(n, r) && n.chain.entries.Keys == HashesOf(bs[..k]) && n.mempool == map[]
  }

  lemma NextIsReady(r: Node, bs: seq<Block>, k: nat, n: Node)
    requires Settled(r) && Enumerates(bs, r) && ParentFirst(bs) && k < |bs|
    requires n.chain.entries.Keys == HashesOf(bs[..k])
    ensures var h := BlockHash(bs[k]);
            h in r.chain.entries && h !in n.chain.entries && Ready(n, r, h)
  {
    hide HeaderHash, Consensus.ValidateBlock, BlockWork, CacheExplained, ActiveExplained, PoolInv, HashesOf;
    var h := BlockHash(bs[k]);
    FirstIsRoot(r, bs);
    assert EntryExplained(r.chain, r.blocks, h);
    if h in HashesOf(bs[..k]) {
      var j := PrefixHash(bs, k, h);
    }
    NoHashesOfNothing(bs);
    if k > 0 {
      assert !IsRoot(r.chain, h);
      assert bs[k].header.prevBlockhash in n.chain.entries;
    }
  }

  lemma NoHashesOfNothing(bs: seq<Block>)
    ensures HashesOf(bs[..0]) == {}
  {
  }

  lemma LoadSnoc(bs: seq<Block>, k: nat)
    requires k < |bs| && LoadBlocks(bs[..k]).Ok? && AcceptBlock(LoadBlocks(bs[..k]).value, bs[k]).1.Ok?
    ensures LoadBlocks(bs[..k + 1]) == Ok(AcceptBlock(LoadBlocks(bs[..k]).value, bs[k]).0)
  {
    hide AcceptBlock;
    assert bs[..k + 1][..k] == bs[..k] && bs[..k + 1][k] == bs[k];
  }

  lemma BuildsNext(r: Node, bs: seq<Block>, k: nat)
    requires Settled(r) && Enumerates(bs, r) && ParentFirst(bs) && k < |bs| && Builds(r, bs, k)
    ensures Builds(r, bs, k + 1)
  {
    hide HeaderHash, HashesOf, Settled, Consistent, Tree, Compatible, Ready, AcceptBlock, LoadBlocks, ParentFirst,
      Overtakes;
    var n := LoadBlocks(bs[..k]).value;
    var h := BlockHash(bs[k]);
    NextIsReady(r, bs, k, n);
    SettledParts(n);
    SettledParts(r);
    AcceptTransfers(n, r, h);
    TransferKeepsCompatible(n, r, h, AcceptBlock(n, bs[k]).0);
    LoadSnoc(bs, k);
    HashesSnoc(bs, k);
    EntryKeyed(r.chain, h);
  }

  lemma BuildsNothing(r: Node, bs: seq<Block>)
    ensures Builds(r, bs, 0)
  {
    hide HeaderHash, Settled;
    assert bs[..0] == [];
    NewNodeSettled();
  }

  lemma {:induction false} BuildsAll(r: Node, bs: seq<Block>, k: nat)
    requires Settled(r) && Enumerates(bs, r) && ParentFirst(bs) && k <= |bs|
    ensures Builds(r, bs, k)
  {
    hide HeaderHash, Settled, Enumerates, ParentFirst, Builds;
    if k == 0 {
      BuildsNothing(r, bs);
    } else {
      BuildsAll(r, bs, k - 1);
      BuildsNext(r, bs, k - 1);
    }
  }

  /** Exactly one block has the most work. */
  ghost predicate UniqueHeaviest(c: Index) {
    forall g, h :: Heaviest(c, g) && Heaviest(c, h) ==> g == h
  }

  lemma SameEverywhere(n: Node, r: Node)
    requires Settled(n) && Settled(r) && Compatible(n, r) && n.chain.entries.Keys == r.chain.entries.Keys
    ensures n.chain.entries == r.chain.entries && n.blocks == r.blocks && n.snapshots == r.snapshots
  {
    hide Consistent, SameRoot, Tree, Settled;
    SettledParts(n);
    SettledParts(r);
    forall h | h in n.chain.entries
      ensures n.chain.entries[h] == r.chain.entries[h] && n.snapshots[h] == r.snapshots[h]
    {
      AgreeAt(n, r, h);
    }
  }

  lemma SameTipAndActive(n: Node, r: Node)
    requires Settled(n) && Settled(r) && n.chain.entries == r.chain.entries && n.snapshots == r.snapshots
    requires UniqueHeaviest(r.chain)
    ensures n.chain == r.chain && n.activeUtxos == r.activeUtxos
  {
    hide Settled, Heaviest;
    TipIsHeaviest(n);
    TipIsHeaviest(r);
    if n.chain.bestTip.Some? {
      SameHeaviest(n.chain, r.chain, n.chain.bestTip.value);
    }
  }

  lemma SameHeaviest(c: Index, d: Index, h: Hash)
    requires c.entries == d.entries && Heaviest(c, h)
    ensures Heaviest(d, h)
  {
  }

  lemma TipIsHeaviest(n: Node)
    requires Settled(n)
    ensures n.chain.bestTip.None? <==> n.chain.entries == map[]
    ensures match n.chain.bestTip
            case None => n.activeUtxos == map[]
            case Some(t) => Heaviest(n.chain, t) && t in n.snapshots && n.activeUtxos == n.snapshots[t]
  {
    hide CacheExplained, PoolInv, EntryExplained, Linked, IsRoot;
    SettledTipApplied(n);
    ActiveIsBestChain(n);
  }

  /** Any parent-first listing of the blocks of a settled node rebuilds its index, block store and
      snapshots; and its tip and active set too when the heaviest block is unique. */
  lemma RebuildsFromAnyOrder(r: Node, bs: seq<Block>)
    requires Settled(r) && Enumerates(bs, r) && ParentFirst(bs)
    ensures LoadBlocks(bs).Ok? && Settled(LoadBlocks(bs).value)
    ensures var n := LoadBlocks(bs).value;
            && n.chain.entries == r.chain.entries && n.blocks == r.blocks && n.snapshots == r.snapshots
            && n.mempool == map[]
            && (UniqueHeaviest(r.chain) ==> n.chain == r.chain && n.activeUtxos == r.activeUtxos)
  {
    hide HeaderHash, Settled, HashesOf, LoadBlocks, Compatible, UniqueHeaviest;
    BuildsAll(r, bs, |bs|);
    assert bs[..|bs|] == bs;
    var n := LoadBlocks(bs).value;
    SettledParts(r);
    SameEverywhere(n, r);
    if UniqueHeaviest(r.chain) {
      SameTipAndActive(n, r);
    }
  }

  lemma SettledParts(n: Node)
    requires Settled(n)
    ensures Consistent(n) && Tree(n.chain)
    ensures n.blocks.Keys == n.chain.entries.Keys && n.snapshots.Keys == n.chain.entries.Keys
  {
    hide Consistent;
    StoredAreIndexed(n);
  }

  // ---- Order independence -----------------------------------------------------------------

  lemma {:induction false} LoadedSettles(bs: seq<Block>)
    requires LoadBlocks(bs).Ok?
    ensures Settled(LoadBlocks(bs).value)
  {
    hide Settled, AcceptBlock;
    if bs == [] {
      NewNodeSettled();
    } else {
      LoadedSettles(bs[..|bs| - 1]);
      AcceptKeepsSettled(LoadBlocks(bs[..|bs| - 1]).value, bs[|bs| - 1]);
    }
  }

  lemma AcceptedIsStored(n: Node, b: Block)
    requires Consistent(n) && AcceptBlock(n, b).1.Ok? && BlockHash(b) !in n.blocks
    ensures AcceptBlock(n, b).0.blocks == n.blocks[BlockHash(b) := b]
  {
    hide HeaderHash, Consensus.ValidateBlock, NewEntry, EnsureSnapshot, Consistent, Install;
    StoredAreIndexed(n);
    if Consensus.ValidateBlock(b).Ok? && NewEntry(n.chain, b).Ok? {
      var e := NewEntry(n.chain, b).value;
      AcceptNew(n, b, e);
      NewEntryHash(n, b);
      var ensured := EnsureSnapshot(Indexed(n, b, e), e.blockHash, e.parent, e.height);
      InstallKeys(Indexed(n, b, e), e.blockHash, ensured.value);
    }
  }

  lemma NewEntryHash(n: Node, b: Block)
    requires NewEntry(n.chain, b).Ok?
    ensures NewEntry(n.chain, b).value.blockHash == BlockHash(b)
  {
  }

  lemma EnumeratesSnoc(bs: seq<Block>, k: nat, n: Node, m: Node)
    requires k < |bs| && DistinctHashes(bs) && Enumerates(bs[..k], n)
    requires m.blocks == n.blocks[BlockHash(bs[k]) := bs[k]]
    ensures Enumerates(bs[..k + 1], m)
  {
    hide HeaderHash, HashesOf;
    HashesSnoc(bs, k);
    forall i | 0 <= i < k + 1
      ensures BlockHash(bs[i]) in m.blocks && m.blocks[BlockHash(bs[i])] == bs[i]
    {
      assert i < k ==> bs[..k][i] == bs[i];
    }
  }

  lemma NewToPrefix(bs: seq<Block>, k: nat)
    requires k < |bs| && DistinctHashes(bs)
    ensures BlockHash(bs[k]) !in HashesOf(bs[..k])
  {
    hide HeaderHash, HashesOf;
    if BlockHash(bs[k]) in HashesOf(bs[..k]) {
      var j := PrefixHash(bs, k, BlockHash(bs[k]));
    }
  }

  /** Loading distinct blocks stores exactly those blocks. */
  lemma {:induction false} LoadedEnumerates(bs: seq<Block>, k: nat)
    requires LoadBlocks(bs).Ok? && DistinctHashes(bs) && k <= |bs|
    ensures LoadBlocks(bs[..k]).Ok? && Enumerates(bs[..k], LoadBlocks(bs[..k]).value)
  {
    hide HeaderHash, AcceptBlock, Settled, HashesOf, LoadBlocks;
    LoadPrefix(bs, k);
    if k == 0 {
      EnumeratesNothing(bs);
    } else {
      LoadedEnumerates(bs, k - 1);
      var n := LoadBlocks(bs[..k - 1]).value;
      LoadedSettles(bs[..k - 1]);
      SettledParts(n);
      NewToPrefix(bs, k - 1);
      LoadLast(bs, k - 1);
      AcceptedIsStored(n, bs[k - 1]);
      EnumeratesSnoc(bs, k - 1, n, LoadBlocks(bs[..k]).value);
    }
  }

  lemma EnumeratesNothing(bs: seq<Block>)
    ensures LoadBlocks(bs[..0]).Ok? && Enumerates(bs[..0], LoadBlocks(bs[..0]).value)
  {
    assert bs[..0] == [];
  }

  lemma LoadLast(bs: seq<Block>, k: nat)
    requires k < |bs| && LoadBlocks(bs[..k + 1]).Ok?
    ensures LoadBlocks(bs[..k]).Ok?
    ensures AcceptBlock(LoadBlocks(bs[..k]).value, bs[k]).1.Ok?
    ensures LoadBlocks(bs[..k + 1]) == Ok(AcceptBlock(LoadBlocks(bs[..k]).value, bs[k]).0)
  {
    hide AcceptBlock;
    assert bs[..k + 1][..k] == bs[..k] && bs[..k + 1][k] == bs[k];
  }

  lemma {:induction false} LoadPrefix(bs: seq<Block>, k: nat)
    requires LoadBlocks(bs).Ok? && k <= |bs|
    ensures LoadBlocks(bs[..k]).Ok?
    decreases |bs|
  {
    hide AcceptBlock;
    if k < |bs| {
      LoadPrefix(bs[..|bs| - 1], k);
      assert bs[..|bs| - 1][..k] == bs[..k];
    } else {
      assert bs[..k] == bs;
    }
  }

  lemma SameListSameRoot(m: Node, r: Node, bs: seq<Block>)
    requires Consistent(m) && Consistent(r) && Enumerates(bs, m) && Enumerates(bs, r) && ParentFirst(bs) && bs != []
    ensures Compatible(m, r)
  {
    hide HeaderHash, Consistent, ParentFirst, HashesOf, DistinctHashes;
    StoredAreIndexed(m);
    StoredAreIndexed(r);
    FirstIsRoot(m, bs);
    FirstIsRoot(r, bs);
    forall h | h in m.blocks && h in r.blocks
      ensures m.blocks[h] == r.blocks[h]
    {
      var i := IndexOf(bs, h);
    }
  }

  /** Only a settled node can be rebuilt: a block that failed once fails in every order. */
  lemma LoadsOnlySettled(r: Node, bs: seq<Block>)
    requires Consistent(r) && Enumerates(bs, r) && ParentFirst(bs) && LoadBlocks(bs).Ok?
    ensures Settled(r)
  {
    hide HeaderHash, Settled, Consistent, LoadBlocks, ParentFirst, Compatible, HashesOf, DistinctHashes;
    LoadedSettles(bs);
    EnumeratesDistinct(bs, r);
    LoadedEnumerates(bs, |bs|);
    assert bs[..|bs|] == bs;
    var m := LoadBlocks(bs).value;
    SettledParts(m);
    StoredAreIndexed(r);
    CachedAreIndexed(r);
    forall h | h in r.chain.entries
      ensures h in r.snapshots
    {
      var i := IndexOf(bs, h);
      SameListSameRoot(m, r, bs);
      AgreeAt(m, r, h);
    }
    SettledFromParts(r);
  }

  lemma EnumeratesDistinct(bs: seq<Block>, r: Node)
    requires Enumerates(bs, r)
    ensures DistinctHashes(bs)
  {
  }

  lemma SettledFromParts(n: Node)
    requires Consistent(n) && n.snapshots.Keys == n.chain.entries.Keys
    ensures Settled(n)
  {
  }

  lemma SameSetEnumerates(a: seq<Block>, b: seq<Block>, r: Node)
    requires Enumerates(a, r) && DistinctHashes(b) && forall block :: block in a <==> block in b
    ensures Enumerates(b, r)
  {
    hide HeaderHash;
    forall i | 0 <= i < |b|
      ensures BlockHash(b[i]) in r.blocks && r.blocks[BlockHash(b[i])] == b[i]
    {
      assert b[i] in b;
      var j :| 0 <= j < |a| && a[j] == b[i];
    }
    forall h | h in HashesOf(a)
      ensures h in HashesOf(b)
    {
      var j := IndexOf(a, h);
      assert a[j] in a;
      var i :| 0 <= i < |b| && b[i] == a[j];
    }
  }

  /** Order independence: if a set of blocks with distinct hashes is accepted in one order, it is
      accepted in every parent-first order, with the same index, blocks and snapshots, and the
      whole node is the same when the heaviest block is unique. */
  lemma OrderIndependence(a: seq<Block>, b: seq<Block>)
    requires LoadBlocks(a).Ok? && DistinctHashes(a)
    requires DistinctHashes(b) && (forall block :: block in a <==> block in b) && ParentFirst(b)
    ensures LoadBlocks(b).Ok?
    ensures var m, n := LoadBlocks(a).value, LoadBlocks(b).value;
            && m.chain.entries == n.chain.entries && m.blocks == n.blocks && m.snapshots == n.snapshots
            && (UniqueHeaviest(m.chain) ==> m == n)
  {
    hide HeaderHash, Settled, LoadBlocks, UniqueHeaviest, Enumerates, ParentFirst, DistinctHashes;
    LoadedSettles(a);
    LoadedEnumerates(a, |a|);
    assert a[..|a|] == a;
    var m := LoadBlocks(a).value;
    SameSetEnumerates(a, b, m);
    RebuildsFromAnyOrder(m, b);
    LoadedHasNoPool(a);
  }

  lemma {:induction false} LoadedHasNoPool(bs: seq<Block>)
    requires LoadBlocks(bs).Ok?
    ensures LoadBlocks(bs).value.mempool == map[]
  {
    hide EnsureSnapshot, InsertBlock, Validate;
    if bs != [] {
      LoadedHasNoPool(bs[..|bs| - 1]);
    }
  }
}
