/** In an honest state the pool can always be mined. */
module HonestMining {
  import opened Primitives
  import opened Crypto
  import opened Types
  import opened State
  import opened Chain
  import opened Mempool
  import opened NodeState
  import opened ActiveChain
  import opened Provenance
  import opened MiningLoop
  import opened Synchrony
  import Consensus

  /** An entry whose id belongs to a transaction new to the chain cannot exist. */
  lemma NewIsFresh(ts: set<Transaction>, u: Utxos, tx: Transaction)
    requires Ledger(ts, u) && NewTo(tx, ts)
    ensures FreshOutputs(u, tx)
  {
    hide Txid;
    forall o | o in u
      ensures o.txid != Txid(tx)
    {
      assert Sourced(ts, u, o);
    }
  }

  /** Pending transactions of an honest state are no coinbases and overwrite nothing. */
  lemma HonestPoolIsFresh(n: Node, id: Hash)
    requires Honest(n) && TreeExplained(n.chain, n.blocks) && id in n.mempool
    ensures !n.mempool[id].IsCoinbase() && FreshOutputs(n.activeUtxos, n.mempool[id])
  {
    hide Settled, TreeExplained, UniqueIds, InputsKnown, Ledger, BestChain, TxSet, Txid, NewTo, FreshOutputs, Validate;
    HonestExplained(n);
    LedgerOfBestChain(n);
    var ts := TxSet(BestChain(n));
    PendingIsIndexable(ts, n.activeUtxos, n.mempool[id]);
    NewIsFresh(ts, n.activeUtxos, n.mempool[id]);
  }

  lemma HonestIsMineable(n: Node, maxCount: nat)
    requires Honest(n) && TreeExplained(n.chain, n.blocks)
    ensures Mineable(n.mempool, n.activeUtxos, maxCount)
  {
    hide Honest, TreeExplained, FreshOutputs, Chosen;
    ChosenArePending(n.mempool, maxCount);
    forall i | 0 <= i < |Chosen(n.mempool, maxCount)|
      ensures !Chosen(n.mempool, maxCount)[i].1.IsCoinbase()
      ensures FreshOutputs(n.activeUtxos, Chosen(n.mempool, maxCount)[i].1)
    {
      HonestPoolIsFresh(n, Chosen(n.mempool, maxCount)[i].0);
    }
  }

  /** From an honest state no assumption about the pool is left: a solved block whose coinbase id is new
      to the chain is accepted, becomes the tip, and takes exactly its transactions out of the pool. */
  lemma HonestMiningCloses(n: Node, r: MiningRequest, nonce: u32, b: Block)
    requires Honest(n) && TreeExplained(n.chain, n.blocks) && NextSubsidyFits(n) && DEFAULT_HASH !in n.chain.entries
    requires Solves(n, r, nonce, b) && r.subsidy <= Consensus.BLOCK_SUBSIDY && NoCollision(n, b)
    requires b.transactions != [] && NewTo(b.transactions[0], TxSet(BestChain(n)))
    requires BlockWork(b).Ok? && BestWork(n.chain) + BlockWork(b).value <= U128_MAX
    ensures var (m, result) := MineBlock(n, r, nonce);
            && result == Ok(BlockHash(b)) && Settled(m) && m.chain.bestTip == Some(BlockHash(b))
            && m.mempool == n.mempool - IdsOf(Chosen(n.mempool, r.maxTransactions))
  {
    hide Settled, TreeExplained, UniqueIds, InputsKnown, Ledger, BestChain, TxSet, Txid, NewTo, FreshOutputs, MineBlock,
      Solves, NextSubsidyFits, Mineable, Chosen, BlockWork, HeaderHash, Consensus.ApplyBlock, OutputSum, NoCollision;
    HonestExplained(n);
    HonestIsMineable(n, r.maxTransactions);
    LedgerOfBestChain(n);
    NewIsFresh(TxSet(BestChain(n)), n.activeUtxos, b.transactions[0]);
    MiningClosesTheLoop(n, r, nonce, b);
  }
}
