/** Whole runs of the server: node and tables together, and what a restart would load. */
module Server {
  import opened Primitives
  import opened Crypto
  import opened Types
  import opened State
  import opened Chain
  import opened Mempool
  import opened NodeState
  import opened ActiveChain
  import opened Provenance
  import opened TxIndex
  import opened Store
  import opened Synchrony
  import opened RoundTrip
  import Consensus
  import Candidate

  datatype ServerState = ServerState(node: Node, tables: Tables)

  datatype Message =
    | AnnounceTx(tx: Transaction)
    | AnnounceBlock(block: Block)
    | MinePending(request: MiningRequest, nonce: u32)

  lemma ConsistentExplained(n: Node)
    requires Consistent(n)
    ensures TreeExplained(n.chain, n.blocks)
  {
    hide TreeExplained;
  }

  /** Persists a block that was just accepted as `h`. */
  ghost function PersistBlock(before: Node, after: Node, tables: Tables, h: Hash): Tables
    requires Consistent(after)
  {
    ConsistentExplained(after);
    if h in after.chain.entries
    then SaveAcceptedBlockState(tables, after, h, before.chain.bestTip, before.mempool.Keys) else tables
  }

  /** One handled message: the node changes first, and what was accepted is persisted. A transaction
      already pending is persisted again. */
  ghost function Handle(v: ServerState, message: Message): (w: ServerState)
    requires Consistent(v.node)
    ensures Consistent(w.node)
  {
    match message
    case AnnounceTx(tx) =>
      SubmitKeepsConsistent(v.node, tx);
      var (m, r) := Submit(v.node, tx);
      if r.Ok? || r == Err(MempoolFailure(DuplicateTransaction(Txid(tx))))
      then ServerState(m, SaveMempoolTransaction(v.tables, tx)) else ServerState(m, v.tables)
    case AnnounceBlock(b) =>
      AcceptKeepsConsistent(v.node, b);
      var (m, r) := AcceptBlock(v.node, b);
      if r.Ok? then ServerState(m, PersistBlock(v.node, m, v.tables, BlockHash(b))) else ServerState(m, v.tables)
    case MinePending(request, nonce) =>
      MineKeepsConsistent(v.node, request, nonce);
      var (m, r) := MineBlock(v.node, request, nonce);
      if r.Ok? then ServerState(m, PersistBlock(v.node, m, v.tables, r.value)) else ServerState(m, v.tables)
  }

  /** The state after `messages`, from a new node with empty tables. */
  ghost function ServerRun(messages: seq<Message>): (v: ServerState)
    ensures Consistent(v.node)
  {
    NewNodeConsistent();
    if messages == [] then ServerState(NewNode(), EmptyTables())
    else Handle(ServerRun(messages[..|messages| - 1]), messages[|messages| - 1])
  }

  function OperationOf(message: Message): Operation {
    match message
    case AnnounceTx(tx) => SubmitOp(tx)
    case AnnounceBlock(b) => AcceptOp(b)
    case MinePending(request, nonce) => MineOp(request, nonce)
  }

  /** The message does not index a block that fails the UTXO check, and an announced transaction whose
      id is pending is the pending one. */
  ghost predicate CleanMessage(n: Node, message: Message) {
    && CleanStep(n, OperationOf(message))
    && (message.AnnounceTx? && Txid(message.tx) in n.mempool ==> n.mempool[Txid(message.tx)] == message.tx)
  }

  /** Every state on the way is honest and every message clean. */
  ghost predicate CleanHistory(messages: seq<Message>) {
    && Honest(ServerRun(messages).node)
    && (messages != [] ==>
          var front := messages[..|messages| - 1];
          CleanHistory(front) && CleanMessage(ServerRun(front).node, messages[|messages| - 1]))
  }

  // ---- One message ------------------------------------------------------------------------

  ghost predicate InStep(v: ServerState) {
    TreeExplained(v.node.chain, v.node.blocks) && Synced(v.tables, v.node)
  }

  /** The block a message saved, if any. */
  ghost function SavedBlock(n: Node, message: Message): Option<Hash> {
    match message
    case AnnounceTx(_) => None
    case AnnounceBlock(b) => if AcceptBlock(n, b).1.Ok? then Some(BlockHash(b)) else None
    case MinePending(request, nonce) =>
      match MineBlock(n, request, nonce).1
      case Ok(h) => Some(h)
      case Err(_) => None
  }

  lemma AdmittedSubPool(n: Node, tx: Transaction)
    requires PoolInv(n.mempool, n.activeUtxos) && Submit(n, tx).1.Ok?
    ensures var pool := Submit(n, tx).0.mempool;
            && Txid(tx) in pool && pool[Txid(tx)] == tx
            && forall id :: id in pool && id != Txid(tx) ==> id in n.mempool && pool[id] == n.mempool[id]
  {
    hide Txid, SubmitTransaction, PoolInv, FollowsPolicy;
    var effect := SubmitEffect(n.mempool, n.activeUtxos, tx);
  }

  lemma RefusedSubmitKeepsNode(n: Node, tx: Transaction)
    ensures Submit(n, tx).1.Err? ==> Submit(n, tx).0 == n
    ensures Submit(n, tx).1 == Err(MempoolFailure(DuplicateTransaction(Txid(tx)))) ==> Txid(tx) in n.mempool
  {
    hide Txid, Validate, Displaced;
  }

  lemma TxHandled(v: ServerState, tx: Transaction)
    requires Consistent(v.node) && InStep(v) && CleanMessage(v.node, AnnounceTx(tx))
    requires Honest(v.node) && Honest(Handle(v, AnnounceTx(tx)).node)
    ensures InStep(Handle(v, AnnounceTx(tx)))
  {
    hide Txid, Honest, TreeExplained, Consistent, Synced, SaveMempoolTransaction, Submit;
    var n, m, r := v.node, Submit(v.node, tx).0, Submit(v.node, tx).1;
    HonestExplained(n);
    SubmitKeepsChain(n, tx);
    RefusedSubmitKeepsNode(n, tx);
    if r.Ok? {
      AdmittedSubPool(n, tx);
      PendingSaved(v.tables, n, m, tx);
    } else if r == Err(MempoolFailure(DuplicateTransaction(Txid(tx)))) {
      PendingSaved(v.tables, n, n, tx);
    }
  }

  lemma SubmitKeepsChain(n: Node, tx: Transaction)
    ensures Submit(n, tx).0 == n.(mempool := Submit(n, tx).0.mempool)
  {
    hide SubmitTransaction;
  }

  lemma BlockPersisted(n: Node, m: Node, tables: Tables, h: Hash)
    requires Consistent(m) && Honest(n) && Honest(m) && TreeExplained(n.chain, n.blocks)
    requires Synced(tables, n) && Accepted(n, m, h)
    ensures TreeExplained(m.chain, m.blocks) && Synced(PersistBlock(n, m, tables, h), m)
    ensures OnBestChain(m, h) ==> PersistBlock(n, m, tables, h) == SaveNodeState(m)
  {
    hide Honest, TreeExplained, Consistent, Synced, SaveAcceptedBlockState, SaveNodeState, OnBestChain, AddEntry;
    ConsistentExplained(m);
    AcceptedStored(n, m, h);
    BlockSaved(tables, n, m, h);
  }

  lemma FailedAcceptKeepsNode(n: Node, b: Block)
    requires AcceptBlock(n, b).1.Err? && AcceptBlock(n, b).1.error.ChainFailure?
    ensures AcceptBlock(n, b).0 == n
  {
    hide HeaderHash, EnsureSnapshot, Consensus.ValidateBlock, NewEntry, Install;
    var inserted := InsertBlock(n.chain, b).1;
    if inserted.Ok? {
      SnapshotErrors(
        n.(chain := InsertBlock(n.chain, b).0,
           blocks := if inserted.value.blockHash in n.blocks then n.blocks
                     else n.blocks[inserted.value.blockHash := b]),
        inserted.value);
    }
  }

  /** What a successful mining step did, in terms of an accepted block. */
  lemma MinedIsAccepted(n: Node, request: MiningRequest, nonce: u32)
    requires Settled(n) && MineBlock(n, request, nonce).1.Ok?
    ensures Accepted(n, MineBlock(n, request, nonce).0, MineBlock(n, request, nonce).1.value)
  {
    hide Settled, AcceptBlock, MiningCandidate, Collect, HeaderHash, AddEntry;
    var b := Candidate.WithNonce(MiningCandidate(n, request).value, nonce);
    AcceptIsAccepted(n, b);
    MineOutcomeParts(n, request, nonce);
    ShrinkPool(n, AcceptBlock(n, b).0, MineBlock(n, request, nonce).0, BlockHash(b));
  }

  lemma MineOutcomeParts(n: Node, request: MiningRequest, nonce: u32)
    requires MineBlock(n, request, nonce).1.Ok?
    ensures MiningCandidate(n, request).Ok?
    ensures var b := Candidate.WithNonce(MiningCandidate(n, request).value, nonce);
            var m := AcceptBlock(n, b).0;
            && AcceptBlock(n, b).1.Ok? && MineBlock(n, request, nonce).1 == Ok(BlockHash(b))
            && MineBlock(n, request, nonce).0 == m.(mempool := MineBlock(n, request, nonce).0.mempool)
            && SubPool(MineBlock(n, request, nonce).0.mempool, m.mempool)
  {
    hide AcceptBlock, MiningCandidate, Collect, HeaderHash;
  }

  lemma ShrinkPool(n: Node, m: Node, k: Node, h: Hash)
    requires Accepted(n, m, h) && k == m.(mempool := k.mempool) && SubPool(k.mempool, m.mempool)
    ensures Accepted(n, k, h)
  {
    hide AddEntry;
  }

  lemma FailedMineKeepsNode(n: Node, request: MiningRequest, nonce: u32)
    requires MineBlock(n, request, nonce).1.Err? && CleanStep(n, MineOp(request, nonce))
    ensures MineBlock(n, request, nonce).0 == n
  {
    hide AcceptBlock, MiningCandidate, Collect, HeaderHash;
    if MiningCandidate(n, request).Ok? {
      var b := Candidate.WithNonce(MiningCandidate(n, request).value, nonce);
      AcceptErrors(n, b);
      FailedAcceptKeepsNode(n, b);
    }
  }

  lemma BlockHandled(v: ServerState, message: Message)
    requires Consistent(v.node) && InStep(v) && CleanMessage(v.node, message) && !message.AnnounceTx?
    requires Honest(v.node) && Honest(Handle(v, message).node)
    ensures InStep(Handle(v, message))
    ensures var w := Handle(v, message);
            var saved := SavedBlock(v.node, message);
            TreeExplained(w.node.chain, w.node.blocks)
            && (saved.Some? && OnBestChain(w.node, saved.value) ==> w.tables == SaveNodeState(w.node))
  {
    hide Honest, TreeExplained, Consistent, Synced, AcceptBlock, MineBlock, PersistBlock, SaveNodeState, OnBestChain,
      Accepted, HeaderHash;
    var n := v.node;
    HonestExplained(n);
    match message {
      case AnnounceBlock(b) =>
        var m := AcceptBlock(n, b).0;
        if AcceptBlock(n, b).1.Ok? {
          AcceptIsAccepted(n, b);
          BlockPersisted(n, m, v.tables, BlockHash(b));
        } else {
          FailedAcceptKeepsNode(n, b);
        }
      case MinePending(request, nonce) =>
        var m := MineBlock(n, request, nonce).0;
        if MineBlock(n, request, nonce).1.Ok? {
          MinedIsAccepted(n, request, nonce);
          BlockPersisted(n, m, v.tables, MineBlock(n, request, nonce).1.value);
        } else {
          FailedMineKeepsNode(n, request, nonce);
        }
    }
  }

  // ---- Whole runs -------------------------------------------------------------------------

  lemma StartInStep()
    ensures InStep(ServerState(NewNode(), EmptyTables()))
  {
    hide EdgesOf;
    var n := NewNode();
    assert BestChain(n) == [];
    assert IndexRows([], map[]) == map[];
  }

  lemma CleanParts(messages: seq<Message>)
    requires CleanHistory(messages)
    ensures Honest(ServerRun(messages).node)
    ensures messages != [] ==>
              && CleanHistory(messages[..|messages| - 1])
              && CleanMessage(ServerRun(messages[..|messages| - 1]).node, messages[|messages| - 1])
              && Honest(ServerRun(messages[..|messages| - 1]).node)
  {
    hide Honest, CleanMessage, ServerRun;
  }

  /** Along every clean history the tables stay in step: the chain tables equal the node's, the
      persisted pool contains the pending one, and the index is that of the persisted pool. */
  lemma {:induction false} TablesStayInStep(messages: seq<Message>)
    requires CleanHistory(messages)
    ensures InStep(ServerRun(messages))
  {
    hide Honest, CleanMessage, InStep, Handle, CleanHistory;
    if messages == [] {
      StartInStep();
    } else {
      CleanParts(messages);
      var front, last := messages[..|messages| - 1], messages[|messages| - 1];
      TablesStayInStep(front);
      if last.AnnounceTx? {
        TxHandled(ServerRun(front), last.tx);
      } else {
        BlockHandled(ServerRun(front), last);
      }
    }
  }

  /** Incremental saves equal the full save: whenever the last message saved a block of the best
      chain, extension or reorganisation, the tables are exactly what a full save would write, and a
      restart loads exactly the running node if and only if its tip comes first among the heaviest. */
  lemma IncrementalEqualsFull(messages: seq<Message>)
    requires CleanHistory(messages) && messages != []
    requires var saved := SavedBlock(ServerRun(messages[..|messages| - 1]).node, messages[|messages| - 1]);
             var n := ServerRun(messages).node;
             TreeExplained(n.chain, n.blocks) && saved.Some? && OnBestChain(n, saved.value)
    ensures var v := ServerRun(messages);
            && v.tables == SaveNodeState(v.node)
            && (LoadNodeState(v.tables) == Ok(v.node) <==> TipIsFirst(v.node))
  {
    hide Honest, CleanMessage, Handle, CleanHistory, TreeExplained, OnBestChain, SaveNodeState, LoadNodeState,
      TipIsFirst, Synced, SavedBlock;
    CleanParts(messages);
    var front, last := messages[..|messages| - 1], messages[|messages| - 1];
    TablesStayInStep(front);
    TxSavesNoBlock(ServerRun(front).node, last);
    BlockHandled(ServerRun(front), last);
    var n := ServerRun(messages).node;
    HonestExplained(n);
    SaveLoadRoundTrip(n);
  }

  lemma TxSavesNoBlock(n: Node, message: Message)
    ensures SavedBlock(n, message).Some? ==> !message.AnnounceTx?
  {
  }
}
