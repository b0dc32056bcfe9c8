/** What a restart loads, at any point of a clean history. */
module Restarts {
  import opened Primitives
  import opened Crypto
  import opened Types
  import opened State
  import opened Chain
  import opened Mempool
  import opened NodeState
  import opened ActiveChain
  import opened Rebuild
  import opened Provenance
  import opened TxIndex
  import opened Store
  import opened Synchrony
  import opened RoundTrip
  import opened MiningLoop
  import opened Server
  import Candidate
  import Consensus
  import PowTarget
  import Sums

  /** The message saved a block of the best chain. */
  ghost predicate SavesBest(v: ServerState, message: Message)
    requires Consistent(v.node)
  {
    var w := Handle(v, message).node;
    var saved := SavedBlock(v.node, message);
    ConsistentExplained(w);
    saved.Some? && OnBestChain(w, saved.value)
  }

  // ---- Messages that save nothing on the best chain ---------------------------------------

  lemma OffBestSave(s: Tables, n: Node, m: Node, h: Hash)
    requires Consistent(m) && TreeExplained(m.chain, m.blocks) && !OnBestChain(m, h)
    ensures PersistBlock(n, m, s, h).mempool == s.mempool && m.chain.bestTip != Some(h)
  {
    hide Consistent, TreeExplained, OnBestChain, Txid, SaveConfirmed, DeleteStale, BuildIndex, BestChain;
    if m.chain.bestTip == Some(h) {
      TipOnBestChain(m, h);
    }
  }

  lemma OffTipKeepsPool(n: Node, b: Block)
    requires AcceptBlock(n, b).1.Ok? && AcceptBlock(n, b).0.chain.bestTip != Some(BlockHash(b))
    requires n.chain.entries.Keys == n.blocks.Keys && Tree(n.chain)
    ensures AcceptBlock(n, b).0.mempool == n.mempool
  {
    hide HeaderHash, Consensus.ValidateBlock, BlockWork, EnsureSnapshot, PruneInvalid, Tree;
    if BlockHash(b) in n.chain.entries {
      EntryKeyed(n.chain, BlockHash(b));
    }
  }

  lemma AcceptedOffTip(n: Node, m: Node, h: Hash)
    requires Accepted(n, m, h) && m.chain.bestTip != Some(h)
    ensures m.activeUtxos == n.activeUtxos
  {
    hide AddEntry, SubPool;
  }

  /** Such a message changes neither the active set nor the persisted pool; an announced block does not
      change the pool either. */
  lemma HandledOffBest(v: ServerState, message: Message)
    requires Consistent(v.node) && Settled(v.node) && CleanMessage(v.node, message)
    requires !message.AnnounceTx? && !SavesBest(v, message)
    ensures var w := Handle(v, message);
            && w.tables.mempool == v.tables.mempool && w.node.activeUtxos == v.node.activeUtxos
            && (message.AnnounceBlock? ==> w.node.mempool == v.node.mempool)
  {
    hide Consistent, Settled, TreeExplained, AcceptBlock, MineBlock, PersistBlock, OnBestChain, Accepted, HeaderHash,
      Tree;
    var n, m := v.node, Handle(v, message).node;
    SettledParts(n);
    ConsistentExplained(m);
    match message {
      case AnnounceBlock(b) =>
        if AcceptBlock(n, b).1.Ok? {
          AcceptIsAccepted(n, b);
          OffBestSave(v.tables, n, m, BlockHash(b));
          AcceptedOffTip(n, m, BlockHash(b));
          OffTipKeepsPool(n, b);
        } else {
          FailedAcceptKeepsNode(n, b);
        }
      case MinePending(request, nonce) =>
        if MineBlock(n, request, nonce).1.Ok? {
          var h := MineBlock(n, request, nonce).1.value;
          MinedIsAccepted(n, request, nonce);
          OffBestSave(v.tables, n, m, h);
          AcceptedOffTip(n, m, h);
        } else {
          FailedMineKeepsNode(n, request, nonce);
        }
    }
  }

  // ---- The persisted pool stays valid -----------------------------------------------------

  lemma SyncedIsKeyed(v: ServerState)
    requires InStep(v)
    ensures KeyedById(v.tables.mempool) && SubPool(v.node.mempool, v.tables.mempool)
  {
    hide TreeExplained, Snapshot, ConfirmedRows, BestChain;
  }

  lemma SubmittedStaysValid(v: ServerState, tx: Transaction)
    requires Consistent(v.node) && InStep(v) && CleanMessage(v.node, AnnounceTx(tx))
    requires AllValid(v.tables.mempool, v.node.activeUtxos)
    ensures var w := Handle(v, AnnounceTx(tx)); AllValid(w.tables.mempool, w.node.activeUtxos)
  {
    hide Txid, Validate, Consistent, InStep, PoolInv, EdgesOf, SubmitTransaction, FollowsPolicy;
    var n := v.node;
    ConsistentPool(n);
    SyncedIsKeyed(v);
    SubmitKeepsChain(n, tx);
    RefusedSubmitKeepsNode(n, tx);
    if Submit(n, tx).1.Ok? {
      var effect := SubmitEffect(n.mempool, n.activeUtxos, tx);
      InsertKeepsValid(v.tables.mempool, n.activeUtxos, tx);
    } else if Submit(n, tx).1 == Err(MempoolFailure(DuplicateTransaction(Txid(tx)))) {
      InvParts(n.mempool, n.activeUtxos);
      InsertKeepsValid(v.tables.mempool, n.activeUtxos, tx);
    }
  }

  lemma FullSavePool(n: Node)
    requires TreeExplained(n.chain, n.blocks)
    ensures SaveNodeState(n).mempool == n.mempool
  {
    hide TreeExplained, BuildIndex, BestChain;
  }

  /** Although it may hold transactions that left the pool, every persisted one is still valid. */
  lemma {:induction false} PersistedStaysValid(messages: seq<Message>)
    requires CleanHistory(messages)
    ensures AllValid(ServerRun(messages).tables.mempool, ServerRun(messages).node.activeUtxos)
  {
    hide Honest, CleanMessage, InStep, Handle, CleanHistory, AllValid, SavesBest, Consistent;
    if messages == [] {
      NothingPersisted();
    } else {
      CleanParts(messages);
      var front, last := messages[..|messages| - 1], messages[|messages| - 1];
      var v, w := ServerRun(front), ServerRun(messages);
      TablesStayInStep(front);
      PersistedStaysValid(front);
      HonestExplained(v.node);
      if last.AnnounceTx? {
        SubmittedStaysValid(v, last.tx);
      } else if SavesBest(v, last) {
        SavedExactly(v, last);
        ConsistentPool(w.node);
        InvParts(w.node.mempool, w.node.activeUtxos);
      } else {
        HandledOffBest(v, last);
      }
    }
  }

  lemma NothingPersisted()
    ensures AllValid(ServerRun([]).tables.mempool, ServerRun([]).node.activeUtxos)
  {
  }

  lemma SavedExactly(v: ServerState, message: Message)
    requires Consistent(v.node) && InStep(v) && CleanMessage(v.node, message) && SavesBest(v, message)
    requires Honest(v.node) && Honest(Handle(v, message).node)
    ensures Handle(v, message).tables.mempool == Handle(v, message).node.mempool
  {
    hide Honest, CleanMessage, InStep, Handle, Consistent, TreeExplained, OnBestChain, SavedBlock, SaveNodeState;
    TxSavesNoBlock(v.node, message);
    BlockHandled(v, message);
    FullSavePool(Handle(v, message).node);
  }

  // ---- Restarts ---------------------------------------------------------------------------

  lemma SyncedHolds(v: ServerState)
    requires InStep(v)
    ensures Holds(v.tables, v.node)
  {
    hide TreeExplained, IndexRows, IndexKeys, BestChain, ConfirmedRows;
  }

  /** At any point of a clean history a restart succeeds exactly when the tip comes first among the
      heaviest, and then loads the node with the persisted pool. So it loads exactly the running node
      when, moreover, the persisted pool is the pool. */
  lemma RestartOutcome(messages: seq<Message>)
    requires CleanHistory(messages)
    ensures var v := ServerRun(messages);
            && (LoadNodeState(v.tables).Ok? <==> TipIsFirst(v.node))
            && (TipIsFirst(v.node) ==> LoadNodeState(v.tables) == Ok(v.node.(mempool := v.tables.mempool)))
            && (LoadNodeState(v.tables) == Ok(v.node) <==>
                  TipIsFirst(v.node) && v.tables.mempool == v.node.mempool)
            && (!TipIsFirst(v.node) ==> LoadNodeState(v.tables).error.RebuiltBestTipMismatch?)
  {
    hide Honest, CleanHistory, InStep, ServerRun, LoadNodeState, TipIsFirst, AllValid, Consistent;
    var v := ServerRun(messages);
    CleanParts(messages);
    HonestExplained(v.node);
    TablesStayInStep(messages);
    PersistedStaysValid(messages);
    SyncedHolds(v);
    LoadOutcome(v.tables, v.node);
  }

  // ---- Displaced transactions -------------------------------------------------------------

  /** A transaction that was pending before the message is not pending after it. */
  ghost predicate Displaces(v: ServerState, message: Message)
    requires Consistent(v.node)
  {
    exists id :: id in v.node.mempool && id !in Handle(v, message).node.mempool
  }

  /** Since the last block saved on the best chain some message displaced a transaction. */
  ghost predicate DisplacedSince(messages: seq<Message>) {
    messages != []
    && var front, last := messages[..|messages| - 1], messages[|messages| - 1];
       var v := ServerRun(front);
       !SavesBest(v, last) && (DisplacedSince(front) || Displaces(v, last))
  }

  /** No hash collision: an announced transaction whose id is persisted as pending is that transaction,
      and no stored block has the hash of a mined one. */
  ghost predicate Collisionless(v: ServerState, message: Message) {
    match message
    case AnnounceTx(tx) => Txid(tx) in v.tables.mempool ==> v.tables.mempool[Txid(tx)] == tx
    case AnnounceBlock(_) => true
    case MinePending(r, nonce) =>
      && DEFAULT_HASH !in v.node.chain.entries
      && (MiningCandidate(v.node, r).Ok? ==>
            NoCollision(v.node, Candidate.WithNonce(MiningCandidate(v.node, r).value, nonce)))
  }

  ghost predicate CollisionlessRun(messages: seq<Message>) {
    messages != [] ==>
      var front := messages[..|messages| - 1];
      CollisionlessRun(front) && Collisionless(ServerRun(front), messages[|messages| - 1])
  }

  /** Why a persisted transaction outside the pool cannot simply come back: the pool is full or claims
      one of its inputs. */
  ghost predicate Blocked(persisted: Pool, pool: Pool, id: Hash)
    requires id in persisted
  {
    || |pool| == MAX_MEMPOOL_TRANSACTIONS
    || exists j :: j in pool && Conflicts(persisted[id], pool[j])
  }

  ghost predicate LeftoversBlocked(persisted: Pool, pool: Pool) {
    forall id :: id in persisted && id !in pool ==> Blocked(persisted, pool, id)
  }

  lemma ConflictsSymmetric(a: Transaction, b: Transaction)
    ensures Conflicts(a, b) <==> Conflicts(b, a)
  {
  }

  /** One leftover after a submission with the given effect. */
  lemma BlockedAfter(persisted: Pool, pool: Pool, u: Utxos, tx: Transaction, effect: Effect, y: Hash)
    requires |pool| <= MAX_MEMPOOL_TRANSACTIONS && SubPool(pool, persisted)
    requires Txid(tx) !in pool && FollowsPolicy(pool, u, tx, effect) && LeftoversBlocked(persisted, pool)
    requires y in persisted && y != Txid(tx) && y !in pool - Leavers(effect)
    ensures y in persisted[Txid(tx) := tx]
    ensures Blocked(persisted[Txid(tx) := tx], (pool - Leavers(effect))[Txid(tx) := tx], y)
  {
    hide Txid, FeeOf, Conflicts, IsVictim;
    var after := (pool - Leavers(effect))[Txid(tx) := tx];
    SizeAfter(pool, u, tx, effect);
    assert Txid(tx) in after && after[Txid(tx)] == tx;
    if effect.Replaced? && y == effect.displaced {
      assert y in ConflictingIds(pool, tx);
      ConflictsSymmetric(tx, pool[y]);
    } else if |pool| < MAX_MEMPOOL_TRANSACTIONS && y !in pool {
      assert Blocked(persisted, pool, y);
      var j :| j in pool && Conflicts(persisted[y], pool[j]);
      if j in Leavers(effect) {
        SameInputsConflict(persisted[y], pool[j], tx);
      } else {
        assert j in after && after[j] == pool[j];
      }
    }
  }

  lemma SameInputsConflict(a: Transaction, b: Transaction, c: Transaction)
    requires Conflicts(a, b) && Spent(b.inputs) == Spent(c.inputs)
    ensures Conflicts(a, c)
  {
  }

  lemma SizeAfter(pool: Pool, u: Utxos, tx: Transaction, effect: Effect)
    requires FollowsPolicy(pool, u, tx, effect) && Txid(tx) !in pool
    ensures Leavers(effect) <= pool.Keys
    ensures |(pool - Leavers(effect))[Txid(tx) := tx]| == |pool| + 1 - |Leavers(effect)|
    ensures |pool| == MAX_MEMPOOL_TRANSACTIONS ==> |Leavers(effect)| == 1
    ensures effect.Evicted? ==> |pool| == MAX_MEMPOOL_TRANSACTIONS
  {
    hide Txid, FeeOf, Conflicts, Spent, IsVictim;
    assert effect.Replaced? ==> effect.displaced in ConflictingIds(pool, tx);
    assert Leavers(effect) <= pool.Keys;
    assert (pool - Leavers(effect)).Keys == pool.Keys - Leavers(effect);
    InsertCardinality(pool - Leavers(effect), Txid(tx), tx);
  }

  lemma StrictSubPool(pool: Pool, persisted: Pool) returns (y: Hash)
    requires SubPool(pool, persisted) && persisted != pool
    ensures y in persisted && y !in pool
  {
    assert persisted.Keys <= pool.Keys ==> persisted == pool;
    y :| y in persisted && y !in pool;
  }

  /** The pools differ after an accepted submission exactly when they differed before or something was
      displaced: a leftover cannot come back without displacing another. */
  lemma SubmitLeftovers(persisted: Pool, pool: Pool, u: Utxos, tx: Transaction, effect: Effect)
    requires |pool| <= MAX_MEMPOOL_TRANSACTIONS && SubPool(pool, persisted)
    requires Txid(tx) !in pool && FollowsPolicy(pool, u, tx, effect) && LeftoversBlocked(persisted, pool)
    requires Txid(tx) in persisted ==> persisted[Txid(tx)] == tx
    ensures var after := (pool - Leavers(effect))[Txid(tx) := tx];
            && LeftoversBlocked(persisted[Txid(tx) := tx], after)
            && (persisted[Txid(tx) := tx] == after <==> persisted == pool && Leavers(effect) == {})
  {
    hide Txid, FeeOf, Conflicts, IsVictim, Blocked;
    var id, after := Txid(tx), (pool - Leavers(effect))[Txid(tx) := tx];
    forall y | y in persisted[id := tx] && y !in after
      ensures Blocked(persisted[id := tx], after, y)
    {
      BlockedAfter(persisted, pool, u, tx, effect, y);
    }
    SizeAfter(pool, u, tx, effect);
    if Leavers(effect) != {} {
      var x :| x in Leavers(effect);
      assert x in persisted[id := tx] && x !in after;
    } else {
      assert pool - {} == pool;
      if persisted != pool {
        var y := StrictSubPool(pool, persisted);
        if y == id {
          AddedIsNotBlocked(persisted, pool, u, tx);
        }
        assert y in persisted[id := tx] && y !in after;
      }
    }
  }

  lemma AddedIsNotBlocked(persisted: Pool, pool: Pool, u: Utxos, tx: Transaction)
    requires FollowsPolicy(pool, u, tx, Added) && Txid(tx) in persisted && persisted[Txid(tx)] == tx
    ensures !Blocked(persisted, pool, Txid(tx))
  {
    hide Txid, Conflicts;
    forall j | j in pool
      ensures !Conflicts(tx, pool[j])
    {
      assert j !in ConflictingIds(pool, tx);
    }
  }

  lemma SubmissionHandled(v: ServerState, tx: Transaction)
    requires Consistent(v.node) && InStep(v) && CleanMessage(v.node, AnnounceTx(tx))
    requires Collisionless(v, AnnounceTx(tx)) && LeftoversBlocked(v.tables.mempool, v.node.mempool)
    ensures var w := Handle(v, AnnounceTx(tx));
            && LeftoversBlocked(w.tables.mempool, w.node.mempool)
            && (w.tables.mempool == w.node.mempool <==>
                  v.tables.mempool == v.node.mempool && !Displaces(v, AnnounceTx(tx)))
  {
    hide Txid, Validate, Consistent, InStep, PoolInv, EdgesOf, SubmitTransaction, FollowsPolicy, LeftoversBlocked;
    var n, persisted := v.node, v.tables.mempool;
    ConsistentPool(n);
    InvParts(n.mempool, n.activeUtxos);
    SyncedIsKeyed(v);
    SubmitKeepsChain(n, tx);
    RefusedSubmitKeepsNode(n, tx);
    if Submit(n, tx).1.Ok? {
      var effect := SubmitEffect(n.mempool, n.activeUtxos, tx);
      SubmitLeftovers(persisted, n.mempool, n.activeUtxos, tx, effect);
      SizeAfter(n.mempool, n.activeUtxos, tx, effect);
      var after := (n.mempool - Leavers(effect))[Txid(tx) := tx];
      assert forall id :: id in n.mempool && id !in after <==> id in Leavers(effect);
    } else if Submit(n, tx).1 == Err(MempoolFailure(DuplicateTransaction(Txid(tx)))) {
      assert persisted[Txid(tx) := tx] == persisted;
    }
  }

  lemma InsertedFits(c: Index, b: Block)
    requires Tree(c) && InsertBlock(c, b).1.Ok? && BlockHash(b) !in c.entries
    requires b.header.prevBlockhash == match c.bestTip { case None => DEFAULT_HASH case Some(t) => t }
    ensures Consensus.ValidateBlock(b).Ok? && BlockWork(b).Ok? && BestWork(c) + BlockWork(b).value <= U128_MAX
    ensures NewEntry(c, b).Ok?
  {
    hide Consensus.ValidateBlock, HeaderHash, Linked, IsRoot, PowTarget.FromCompact, PowTarget.Work;
  }

  /** A mined block is always saved on the best chain. */
  lemma MinedSavesBest(v: ServerState, r: MiningRequest, nonce: u32)
    requires Consistent(v.node) && Settled(v.node) && Collisionless(v, MinePending(r, nonce))
    requires MineBlock(v.node, r, nonce).1.Ok?
    ensures SavesBest(v, MinePending(r, nonce))
  {
    hide Consistent, Settled, MiningCandidate, Collect, HeaderHash, TreeExplained, Tree, NewEntry, EnsureSnapshot,
      PruneInvalid, AddEntry, Consensus.ValidateBlock, BlockWork, BestWork, PersistBlock, OnBestChain, NoCollision;
    var n := v.node;
    MineOutcomeParts(n, r, nonce);
    var b := Candidate.WithNonce(MiningCandidate(n, r).value, nonce);
    CandidateParent(n, r, nonce);
    TipBlockIsNew(n, b);
    StoredAreIndexed(n);
    InsertedFits(n.chain, b);
    TipEntry(n, b);
    AcceptNew(n, b, NewEntry(n.chain, b).value);
    var m := MineBlock(n, r, nonce).0;
    MineKeepsConsistent(n, r, nonce);
    ConsistentExplained(m);
    TipOnBestChain(m, BlockHash(b));
  }

  lemma SamePoolsNothingLeft(pool: Pool)
    ensures LeftoversBlocked(pool, pool)
  {
  }

  /** Persisted and running pool are equal exactly when nothing was displaced since the last block saved
      on the best chain. */
  lemma {:induction false} PoolsEqualIff(messages: seq<Message>)
    requires CleanHistory(messages) && CollisionlessRun(messages)
    ensures var v := ServerRun(messages);
            && LeftoversBlocked(v.tables.mempool, v.node.mempool)
            && (v.tables.mempool == v.node.mempool <==> !DisplacedSince(messages))
  {
    hide Honest, CleanMessage, InStep, Handle, CleanHistory, SavesBest, Consistent, LeftoversBlocked, Collisionless,
      Displaces, Settled;
    if messages == [] {
      SamePoolsNothingLeft(map[]);
    } else {
      CleanParts(messages);
      var front, last := messages[..|messages| - 1], messages[|messages| - 1];
      var v, w := ServerRun(front), ServerRun(messages);
      TablesStayInStep(front);
      PoolsEqualIff(front);
      HonestExplained(v.node);
      if last.AnnounceTx? {
        TxSavesNothing(v, last);
        SubmissionHandled(v, last.tx);
      } else if SavesBest(v, last) {
        SavedExactly(v, last);
        SamePoolsNothingLeft(w.node.mempool);
      } else {
        BlockLeavesPools(v, last);
      }
    }
  }

  lemma TxSavesNothing(v: ServerState, message: Message)
    requires Consistent(v.node) && message.AnnounceTx?
    ensures !SavesBest(v, message)
  {
    hide Consistent, Handle, OnBestChain;
  }

  lemma BlockLeavesPools(v: ServerState, message: Message)
    requires Consistent(v.node) && Settled(v.node) && CleanMessage(v.node, message) && Collisionless(v, message)
    requires !message.AnnounceTx? && !SavesBest(v, message)
    ensures Handle(v, message).tables.mempool == v.tables.mempool
    ensures Handle(v, message).node.mempool == v.node.mempool && !Displaces(v, message)
  {
    hide Consistent, Settled, SavesBest, MineBlock, AcceptBlock, Collisionless, PersistBlock;
    HandledOffBest(v, message);
    if message.MinePending? {
      if MineBlock(v.node, message.request, message.nonce).1.Ok? {
        MinedSavesBest(v, message.request, message.nonce);
      } else {
        FailedMineKeepsNode(v.node, message.request, message.nonce);
      }
    }
  }

  /** A pool with leftovers breaks the pool's own rules. */
  lemma LeftoversBreakShape(persisted: Pool, pool: Pool)
    requires SubPool(pool, persisted) && persisted != pool && LeftoversBlocked(persisted, pool)
    ensures !Shaped(persisted)
  {
    hide Txid, Conflicts;
    var y := StrictSubPool(pool, persisted);
    assert Blocked(persisted, pool, y);
    if |pool| == MAX_MEMPOOL_TRANSACTIONS {
      Sums.SubsetCardinality(pool.Keys, persisted.Keys);
    } else {
      var j :| j in pool && Conflicts(persisted[y], pool[j]);
      assert j in persisted && persisted[j] == pool[j] && y != j;
    }
  }

  /** Restarts between blocks: a restart restores the running node exactly when the tip comes first among
      the heaviest and nothing was displaced since the last block saved on the best chain. If something
      was, the loaded pool holds conflicting or too many transactions. */
  lemma RestartRestoresIff(messages: seq<Message>)
    requires CleanHistory(messages) && CollisionlessRun(messages)
    ensures var v := ServerRun(messages);
            && (LoadNodeState(v.tables) == Ok(v.node) <==> TipIsFirst(v.node) && !DisplacedSince(messages))
            && (TipIsFirst(v.node) && DisplacedSince(messages) ==>
                  LoadNodeState(v.tables).Ok? && !Shaped(LoadNodeState(v.tables).value.mempool))
  {
    hide Honest, CleanHistory, CollisionlessRun, InStep, ServerRun, LoadNodeState, TipIsFirst, Shaped, DisplacedSince,
      Consistent, LeftoversBlocked;
    var v := ServerRun(messages);
    RestartOutcome(messages);
    PoolsEqualIff(messages);
    TablesStayInStep(messages);
    SyncedIsKeyed(v);
    if DisplacedSince(messages) {
      LeftoversBreakShape(v.tables.mempool, v.node.mempool);
    }
  }

  // ---- One submission on freshly saved tables ---------------------------------------------

  lemma DisplacementBreaksPool(pool: Pool, u: Utxos, tx: Transaction, effect: Effect)
    requires FollowsPolicy(pool, u, tx, effect) && Txid(tx) !in pool
    ensures Leavers(effect) == {} <==> (pool - Leavers(effect))[Txid(tx) := tx] == pool[Txid(tx) := tx]
    ensures Leavers(effect) != {} ==> !Shaped(pool[Txid(tx) := tx])
  {
    hide Txid, FeeOf, Spent;
    var all := pool[Txid(tx) := tx];
    match effect {
      case Added =>
        assert pool - {} == pool;
      case Replaced(displaced) =>
        assert displaced in ConflictingIds(pool, tx);
        assert displaced in all && Txid(tx) in all && Conflicts(all[Txid(tx)], all[displaced]);
        assert displaced !in (pool - {displaced})[Txid(tx) := tx];
      case Evicted(victim) =>
        InsertCardinality(pool, Txid(tx), tx);
        assert victim in all && victim !in (pool - {victim})[Txid(tx) := tx];
    }
  }

  /** The same for one submission to any settled node right after a full save, with its effect named. */
  lemma RestartAfterSubmission(n: Node, tx: Transaction) returns (effect: Effect)
    requires Settled(n) && TreeExplained(n.chain, n.blocks) && TipIsFirst(n) && Submit(n, tx).1.Ok?
    ensures FollowsPolicy(n.mempool, n.activeUtxos, tx, effect)
    ensures var loaded := LoadNodeState(SaveMempoolTransaction(SaveNodeState(n), tx));
            && loaded.Ok?
            && (loaded == Ok(Submit(n, tx).0) <==> Leavers(effect) == {})
            && (Leavers(effect) != {} ==> !Shaped(loaded.value.mempool))
  {
    hide Txid, Validate, TreeExplained, TipIsFirst, LoadNodeState, SubmitTransaction, FollowsPolicy, Settled,
      BuildIndex, Shaped, AllValid, KeyedById;
    SettledParts(n);
    ConsistentPool(n);
    effect := SubmitEffect(n.mempool, n.activeUtxos, tx);
    InvParts(n.mempool, n.activeUtxos);
    InsertKeepsValid(n.mempool, n.activeUtxos, tx);
    DisplacementBreaksPool(n.mempool, n.activeUtxos, tx, effect);
    LoadOutcome(SaveMempoolTransaction(SaveNodeState(n), tx), n);
  }
}
