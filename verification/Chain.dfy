/** The fork tree: every known block with parent, height and cumulative work, and the heaviest tip. */
module Chain {
  import opened Primitives
  import opened Crypto
  import opened Types
  import Consensus
  import PowTarget

  datatype ChainError =
    | InvalidBlock(error: Consensus.ConsensusError)
    | MissingParent(hash: Hash)
    | GenesisHasParent
    | WorkOverflow

  datatype Index = Index(entries: map<Hash, ChainIndexEntry>, bestTip: Option<Hash>)

  function Empty(): Index {
    Index(map[], None)
  }

  function BlockWork(b: Block): Result<u128, ChainError> {
    match PowTarget.FromCompact(b.header.bits)
    case None => Err(InvalidBlock(Consensus.InvalidPowTarget))
    case Some(target) => Ok(PowTarget.Work(target))
  }

  /** The entry a block not yet indexed would get: linked to its parent, or the root of an empty index. */
  function NewEntry(c: Index, b: Block): Result<ChainIndexEntry, ChainError> {
    match BlockWork(b)
    case Err(e) => Err(e)
    case Ok(work) =>
      var prev := b.header.prevBlockhash;
      if c.entries == map[] then
        if prev != DEFAULT_HASH then Err(GenesisHasParent)
        else Ok(ChainIndexEntry(BlockHash(b), 0, work, None))
      else if prev !in c.entries then Err(MissingParent(prev))
      else if c.entries[prev].cumulativeWork + work > U128_MAX then Err(WorkOverflow)
      else Ok(ChainIndexEntry(
                BlockHash(b), c.entries[prev].height + 1, c.entries[prev].cumulativeWork + work, Some(prev)))
  }

  /** A candidate becomes the tip when it has strictly more work than the current tip. */
  predicate Overtakes(c: Index, candidate: ChainIndexEntry) {
    c.bestTip.Some? && c.bestTip.value in c.entries ==>
      candidate.cumulativeWork > c.entries[c.bestTip.value].cumulativeWork
  }

  function AddEntry(c: Index, e: ChainIndexEntry): Index {
    Index(c.entries[e.blockHash := e], if Overtakes(c, e) then Some(e.blockHash) else c.bestTip)
  }

  function InsertBlock(c: Index, b: Block): (Index, Result<ChainIndexEntry, ChainError>) {
    match Consensus.ValidateBlock(b)
    case Err(e) => (c, Err(InvalidBlock(e)))
    case Ok(_) =>
      if BlockHash(b) in c.entries then (c, Ok(c.entries[BlockHash(b)]))
      else
        match NewEntry(c, b)
        case Err(e) => (c, Err(e))
        case Ok(e) => (AddEntry(c, e), Ok(e))
  }

  lemma RefusedInsertKeepsIndex(c: Index, b: Block)
    ensures InsertBlock(c, b).1.Err? ==> InsertBlock(c, b).0 == c
  {
  }

  // ---- The tree ---------------------------------------------------------------------------

  ghost predicate Linked(c: Index, h: Hash)
    requires h in c.entries
  {
    var e := c.entries[h];
    && e.blockHash == h
    && (e.parent.None? ==> e.height == 0)
    && (e.parent.Some? ==>
          && e.parent.value in c.entries
          && e.height == c.entries[e.parent.value].height + 1
          && e.cumulativeWork > c.entries[e.parent.value].cumulativeWork)
  }

  ghost predicate IsRoot(c: Index, h: Hash) {
    h in c.entries && c.entries[h].parent.None?
  }

  ghost predicate Heaviest(c: Index, h: Hash) {
    h in c.entries && forall g :: g in c.entries ==> c.entries[g].cumulativeWork <= c.entries[h].cumulativeWork
  }

  /** A single-rooted tree whose heights and work grow along parent links, with a heaviest tip. */
  ghost predicate Tree(c: Index) {
    && (forall h :: h in c.entries ==> Linked(c, h))
    && (forall g, h :: IsRoot(c, g) && IsRoot(c, h) ==> g == h)
    && (c.bestTip.None? <==> c.entries == map[])
    && (c.bestTip.Some? ==> Heaviest(c, c.bestTip.value))
  }

  lemma EntryKeyed(c: Index, h: Hash)
    requires Tree(c) && h in c.entries
    ensures c.entries[h].blockHash == h
  {
    assert Linked(c, h);
  }

  lemma AddEntryKeepsTree(c: Index, e: ChainIndexEntry)
    requires Tree(c) && e.blockHash !in c.entries
    requires if c.entries == map[] then e.parent.None? && e.height == 0 else
               && e.parent.Some? && e.parent.value in c.entries
               && e.height == c.entries[e.parent.value].height + 1
               && e.cumulativeWork > c.entries[e.parent.value].cumulativeWork
    ensures Tree(AddEntry(c, e))
  {
    var d := AddEntry(c, e);
    forall h | h in d.entries
      ensures Linked(d, h)
    {
      assert h != e.blockHash ==> Linked(c, h);
    }
    forall g, h | IsRoot(d, g) && IsRoot(d, h)
      ensures g == h
    {
      assert c.entries != map[] ==> IsRoot(c, g) && IsRoot(c, h);
    }
    assert e.blockHash in d.entries;
  }

  /** Insertion keeps the tree; the best work never decreases, and the tip moves only to strictly
      more work. */
  lemma InsertKeepsTree(c: Index, b: Block)
    requires Tree(c)
    ensures var d := InsertBlock(c, b).0;
            && Tree(d)
            && (forall h :: h in c.entries ==> h in d.entries && d.entries[h] == c.entries[h])
            && (c.bestTip.Some? ==> d.bestTip.Some? && BestWork(d) >= BestWork(c))
            && (c.bestTip.Some? && d.bestTip != c.bestTip ==> BestWork(d) > BestWork(c))
  {
    hide PowTarget.FromCompact, PowTarget.Work, HeaderHash, Consensus.ValidateBlock;
    if Consensus.ValidateBlock(b).Ok? && BlockHash(b) !in c.entries && NewEntry(c, b).Ok? {
      AddEntryKeepsTree(c, NewEntry(c, b).value);
    }
  }

  /** The target of `b` is so much smaller than that of `a` that it counts for strictly more work. */
  predicate Harder(b: Block, a: Block) {
    match (PowTarget.FromCompact(b.header.bits), PowTarget.FromCompact(a.header.bits))
    case (Some(small), Some(large)) =>
      PowTarget.Leading(small) < PowTarget.Leading(large)
      && (PowTarget.Leading(small) > 0 ==> PowTarget.Leading(large) + 1 >= 2 * (PowTarget.Leading(small) + 1))
    case _ => false
  }

  lemma HarderHasMoreWork(b: Block, a: Block)
    requires Harder(b, a)
    ensures BlockWork(a).Ok? && BlockWork(b).Ok? && BlockWork(b).value > BlockWork(a).value
  {
    hide PowTarget.FromCompact, PowTarget.Work, PowTarget.Leading, PowTarget.Trailing;
    var small, large := PowTarget.FromCompact(b.header.bits).value, PowTarget.FromCompact(a.header.bits).value;
    PowTarget.ExpandableIsOrdinary(small);
    PowTarget.ExpandableIsOrdinary(large);
    if PowTarget.Leading(small) > 0 {
      PowTarget.HalvedTargetHasMoreWork(small, large);
    } else {
      PowTarget.SmallTargetHasMoreWork(small, large);
    }
  }

  /** Of two new blocks on the tip, the one with the harder target becomes the tip, whichever comes
      first. */
  lemma HarderSiblingWins(c: Index, a: Block, b: Block)
    requires Tree(c) && c.bestTip == Some(a.header.prevBlockhash) && c.bestTip == Some(b.header.prevBlockhash)
    requires Consensus.ValidateBlock(a).Ok? && Consensus.ValidateBlock(b).Ok?
    requires BlockHash(a) !in c.entries && BlockHash(b) !in c.entries && BlockHash(a) != BlockHash(b)
    requires Harder(b, a) && BestWork(c) + BlockWork(b).value <= U128_MAX
    ensures InsertBlock(InsertBlock(c, a).0, b).0.bestTip == Some(BlockHash(b))
    ensures InsertBlock(InsertBlock(c, b).0, a).0.bestTip == Some(BlockHash(b))
  {
    hide Consensus.ValidateBlock, HeaderHash, BlockWork, Harder;
    HarderHasMoreWork(b, a);
  }

  function BestWork(c: Index): nat {
    if c.bestTip.Some? && c.bestTip.value in c.entries then c.entries[c.bestTip.value].cumulativeWork else 0
  }

  // ---- Branch heads -----------------------------------------------------------------------

  ghost predicate HasChild(c: Index, h: Hash) {
    exists g :: g in c.entries && c.entries[g].parent == Some(h)
  }

  /** The blocks without a known child. */
  ghost function Heads(c: Index): set<Hash> {
    set h | h in c.entries && !HasChild(c, h)
  }

  /** The best tip is always a branch head. */
  lemma BestTipIsHead(c: Index)
    requires Tree(c) && c.bestTip.Some?
    ensures c.bestTip.value in Heads(c)
  {
    forall g | g in c.entries
      ensures c.entries[g].parent != c.bestTip
    {
      assert Linked(c, g);
    }
  }

  lemma NewEntryHasNoChild(c: Index, e: ChainIndexEntry)
    requires Tree(c) && e.blockHash !in c.entries && e.parent != Some(e.blockHash)
    ensures !HasChild(AddEntry(c, e), e.blockHash)
  {
    forall g | g in AddEntry(c, e).entries
      ensures AddEntry(c, e).entries[g].parent != Some(e.blockHash)
    {
      assert g != e.blockHash ==> Linked(c, g);
    }
  }

  lemma ChildrenAfterAdd(c: Index, e: ChainIndexEntry, h: Hash)
    requires e.blockHash !in c.entries
    ensures HasChild(AddEntry(c, e), h) <==> HasChild(c, h) || e.parent == Some(h)
  {
    var d := AddEntry(c, e);
    if HasChild(c, h) {
      var g :| g in c.entries && c.entries[g].parent == Some(h);
      assert g in d.entries && d.entries[g] == c.entries[g];
    }
    if e.parent == Some(h) {
      assert e.blockHash in d.entries && d.entries[e.blockHash].parent == Some(h);
    }
  }

  /** A block on a non-empty index adds a branch exactly when its parent already had a child. */
  lemma BranchCountStep(c: Index, e: ChainIndexEntry)
    requires Tree(c) && e.blockHash !in c.entries
    requires e.parent.Some? && e.parent.value in c.entries
    ensures |Heads(AddEntry(c, e))| ==
            |Heads(c)| + if HasChild(c, e.parent.value) then 1 else 0
  {
    var p := e.parent.value;
    NewEntryHasNoChild(c, e);
    forall h
      ensures HasChild(AddEntry(c, e), h) <==> HasChild(c, h) || h == p
    {
      ChildrenAfterAdd(c, e, h);
    }
    assert Heads(AddEntry(c, e)) == (Heads(c) - {p}) + {e.blockHash};
  }

  /** So inserting a new block into a non-empty index raises the branch count by one exactly when the
      block it builds on already had a child, and leaves it alone otherwise. */
  lemma BranchCountOfInsert(c: Index, b: Block)
    requires Tree(c) && c.entries != map[] && BlockHash(b) !in c.entries
    ensures var d := InsertBlock(c, b).0;
            |Heads(d)| == |Heads(c)| + if InsertBlock(c, b).1.Ok? && HasChild(c, b.header.prevBlockhash) then 1 else 0
  {
    hide Tree, Consensus.ValidateBlock, BlockWork, HeaderHash, Heads, HasChild, AddEntry;
    if InsertBlock(c, b).1.Ok? {
      BranchCountStep(c, InsertBlock(c, b).1.value);
    }
  }

  lemma GenesisIsOnlyHead(e: ChainIndexEntry)
    requires e.parent.None?
    ensures Heads(AddEntry(Empty(), e)) == {e.blockHash}
  {
    forall h
      ensures !HasChild(AddEntry(Empty(), e), h)
    {
      ChildrenAfterAdd(Empty(), e, h);
    }
  }

  // ---- Paths ------------------------------------------------------------------------------

  /** The hashes from the root to `h`. */
  ghost function Path(c: Index, h: Hash): (p: seq<Hash>)
    requires Tree(c) && h in c.entries
    ensures |p| == c.entries[h].height + 1
    ensures p[|p| - 1] == h
    ensures forall i :: 0 <= i < |p| ==> p[i] in c.entries && c.entries[p[i]].height == i
    decreases c.entries[h].height
  {
    assert Linked(c, h);
    if c.entries[h].parent.None? then [h] else Path(c, c.entries[h].parent.value) + [h]
  }

  // ---- The mutable index ------------------------------------------------------------------

  class ChainIndex {
    var entries: map<Hash, ChainIndexEntry>
    var bestTip: Option<Hash>

    function View(): Index
      reads this
    {
      Index(entries, bestTip)
    }

    ghost predicate Valid()
      reads this
    {
      Tree(View())
    }

    constructor ()
      ensures View() == Empty() && Valid()
    {
      entries := map[];
      bestTip := None;
    }

    /** Validates `b` in isolation, links it to its parent and updates the best tip. */
    method Insert(b: Block) returns (r: Result<ChainIndexEntry, ChainError>)
      requires Valid()
      modifies this
      ensures (View(), r) == InsertBlock(old(View()), b)
      ensures Valid()
    {
      hide PowTarget.FromCompact, PowTarget.Work, HeaderHash, Consensus.ValidateBlock;
      InsertKeepsTree(View(), b);
      var valid := Consensus.ValidateBlock(b);
      if valid.Err? {
        return Err(InvalidBlock(valid.error));
      }
      var blockHash := BlockHash(b);
      if blockHash in entries {
        return Ok(entries[blockHash]);
      }
      var entry := NewEntry(View(), b);
      if entry.Err? {
        return Err(entry.error);
      }
      entries := entries[blockHash := entry.value];
      UpdateBestTip(blockHash);
      return entry;
    }

    /** Moves the tip to `candidate` when it has strictly more work; both lookups are safe. */
    method UpdateBestTip(candidate: Hash)
      requires candidate in entries
      requires bestTip.Some? ==> bestTip.value in entries
      modifies this`bestTip
      ensures bestTip ==
        if old(bestTip).Some? && entries[candidate].cumulativeWork <= entries[old(bestTip).value].cumulativeWork
        then old(bestTip) else Some(candidate)
    {
      var shouldReplace :=
        match bestTip
        case None => true
        case Some(current) => entries[candidate].cumulativeWork > entries[current].cumulativeWork;
      if shouldReplace {
        bestTip := Some(candidate);
      }
    }

    /** Counts the indexed blocks that are nobody's parent. */
    method BranchCount() returns (n: nat)
      ensures n == |Heads(View())|
    {
      var nonHeads: set<Hash> := {};
      var todo := entries.Keys;
      while todo != {}
        invariant todo <= entries.Keys
        invariant forall h :: h in nonHeads <==>
          exists g :: g in entries.Keys - todo && entries[g].parent == Some(h)
        decreases |todo|
      {
        var g :| g in todo;
        ghost var before := nonHeads;
        if entries[g].parent.Some? {
          nonHeads := nonHeads + {entries[g].parent.value};
        }
        assert entries.Keys - (todo - {g}) == (entries.Keys - todo) + {g};
        todo := todo - {g};
      }
      assert entries.Keys - todo == entries.Keys;
      var heads := set h | h in entries && h !in nonHeads;
      assert heads == Heads(View());
      n := |heads|;
    }
  }
}
