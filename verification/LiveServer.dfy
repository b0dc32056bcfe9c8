/** The server as a mutable object: a node and its store, changed message by message. */
module LiveServer {
  import opened Primitives
  import opened Crypto
  import opened Types
  import opened Mempool
  import opened NodeState
  import opened LiveNode
  import opened SqliteStore
  import opened Server
  import Store

  class LiveServer {
    const node: LiveNode
    const store: SqliteStore

    ghost function View(): ServerState
      reads node, node.chain, node.mempool, store
    {
      ServerState(node.View(), store.View())
    }

    ghost predicate Valid()
      reads node, node.chain, node.mempool
    {
      node.Valid()
    }

    constructor ()
      ensures Valid() && View() == ServerRun([])
      ensures fresh(node) && fresh(node.chain) && fresh(node.mempool) && fresh(store)
    {
      node := new LiveNode();
      store := new SqliteStore();
    }

    /** Queues an announced transaction and persists it, also when it was pending already. */
    method HandleTx(tx: Transaction)
      requires Valid()
      modifies node.mempool, store
      ensures Valid() && View() == Handle(old(View()), AnnounceTx(tx))
    {
      hide Submit, Consistent, Store.SaveMempoolTransaction;
      var r := node.SubmitTransaction(tx);
      if r.Ok? || r == Err(MempoolFailure(DuplicateTransaction(Txid(tx)))) {
        store.SaveMempoolTransaction(tx);
      }
    }

    /** Accepts an announced block and persists its effects; a rejected block is not persisted. */
    method HandleBlock(b: Block)
      requires Valid()
      modifies node, node.chain, node.mempool, store
      ensures Valid() && View() == Handle(old(View()), AnnounceBlock(b))
    {
      hide AcceptBlock, Consistent, Store.SaveAcceptedBlockState;
      var before := node.View();
      var r := node.Accept(b);
      if r.Ok? {
        Persist(before, BlockHash(b));
      }
    }

    /** Mines the pending transactions into a block and persists it. */
    method HandleMinePending(request: MiningRequest, nonce: u32)
      requires Valid()
      modifies node, node.chain, node.mempool, store
      ensures Valid() && View() == Handle(old(View()), MinePending(request, nonce))
    {
      hide MineBlock, Consistent, Store.SaveAcceptedBlockState;
      var before := node.View();
      var r := node.Mine(request, nonce);
      if r.Ok? {
        Persist(before, r.value);
      }
    }

    /** Takes a block from the background miner, unless the best tip has moved on meanwhile. */
    method HandleMinedCandidate(b: Block)
      requires Valid()
      modifies node, node.chain, node.mempool, store
      ensures Valid()
      ensures View() == if b.header.prevBlockhash == MiningParent(old(node.View()))
                        then Handle(old(View()), AnnounceBlock(b)) else old(View())
    {
      hide Handle, Consistent;
      if b.header.prevBlockhash == MiningParent(node.View()) {
        HandleBlock(b);
      }
    }

    method Persist(before: Node, h: Hash)
      requires Valid()
      modifies store
      ensures View() == old(View()).(tables := PersistBlock(before, node.View(), old(store.View()), h))
    {
      hide Consistent, Store.SaveAcceptedBlockState;
      ConsistentExplained(node.View());
      if h in node.View().chain.entries {
        store.SaveAcceptedBlockState(node.View(), h, before.chain.bestTip, before.mempool.Keys);
      }
    }
  }
}
