/** The node as a mutable object, step by step; each operation refines its specification function. */
module LiveNode {
  import opened Primitives
  import opened Crypto
  import opened Types
  import opened State
  import opened Sums
  import opened Chain
  import opened Mempool
  import opened NodeState
  import opened ActiveChain
  import Consensus
  import Candidate

  class LiveNode {
    const chain: ChainIndex
    const mempool: TransactionPool
    var activeUtxos: Utxos
    var blocks: map<Hash, Block>
    var utxoSnapshots: map<Hash, Utxos>

    function View(): Node
      reads this, chain, mempool
    {
      Node(chain.View(), activeUtxos, mempool.transactions, blocks, utxoSnapshots)
    }

    ghost predicate Valid()
      reads this, chain, mempool
    {
      Consistent(View())
    }

    constructor ()
      ensures Valid() && View() == NewNode() && fresh(chain) && fresh(mempool)
    {
      chain := new ChainIndex();
      mempool := new TransactionPool();
      activeUtxos := map[];
      blocks := map[];
      utxoSnapshots := map[];
      new;
      NewNodeConsistent();
    }

    /** Materialises the snapshot of `blockHash` from its parent's, unless it is cached. */
    method MaterialiseSnapshot(blockHash: Hash, parent: Option<Hash>, height: nat)
      returns (r: Result<(), NodeError>)
      modifies this`utxoSnapshots
      ensures match EnsureSnapshot(old(View()), blockHash, parent, height)
              case Ok(snapshot) => r.Ok? && utxoSnapshots == old(utxoSnapshots)[blockHash := snapshot]
              case Err(e) => r == Err(e) && utxoSnapshots == old(utxoSnapshots)
    {
      hide Consensus.ApplyBlock;
      if blockHash in utxoSnapshots {
        assert utxoSnapshots == utxoSnapshots[blockHash := utxoSnapshots[blockHash]];
        return Ok(());
      }
      if parent.Some? && parent.value !in utxoSnapshots {
        return Err(MissingParentState(parent.value));
      }
      var utxos := new UtxoSet(if parent.None? then map[] else utxoSnapshots[parent.value]);
      if blockHash !in blocks {
        return Err(MissingIndexedBlock(blockHash));
      }
      var applied := Consensus.ApplyBlockTo(utxos, blocks[blockHash], height);
      if applied.Err? {
        return Err(ConsensusFailure(applied.error));
      }
      utxoSnapshots := utxoSnapshots[blockHash := utxos.entries];
      return Ok(());
    }

    /** Indexes and stores `b`, derives its snapshot, and switches the active set and prunes the pool
        when `b` becomes the best tip. */
    method Accept(b: Block) returns (r: Result<(), NodeError>)
      requires Valid()
      modifies this, chain, mempool
      ensures (View(), r) == AcceptBlock(old(View()), b)
      ensures Valid()
    {
      hide Consensus.ApplyBlock, InsertBlock, EnsureSnapshot, Consistent, PruneInvalid;
      AcceptKeepsConsistent(View(), b);
      StoredAreIndexed(View());
      var entry := chain.Insert(b);
      if entry.Err? {
        RefusedInsertKeepsIndex(old(View()).chain, b);
        return Err(ChainFailure(entry.error));
      }
      var blockHash := entry.value.blockHash;
      if blockHash !in blocks {
        blocks := blocks[blockHash := b];
      }
      var ensured := MaterialiseSnapshot(blockHash, entry.value.parent, entry.value.height);
      if ensured.Err? {
        return Err(ensured.error);
      }
      if chain.bestTip == Some(blockHash) {
        activeUtxos := utxoSnapshots[blockHash];
        mempool.Prune(activeUtxos);
      }
      return Ok(());
    }

    /** Queues a transaction. The invariant gives the pool the validity its fee lookups rely on. */
    method SubmitTransaction(tx: Transaction) returns (r: Result<Hash, NodeError>)
      requires Valid()
      modifies mempool
      ensures (View(), r) == Submit(old(View()), tx)
      ensures Valid()
    {
      hide Mempool.SubmitTransaction, TreeExplained, CacheExplained, ActiveExplained, Shaped, Validate;
      SubmitKeepsConsistent(View(), tx);
      var submitted := mempool.Submit(activeUtxos, tx);
      match submitted {
        case Ok(id) => return Ok(id);
        case Err(e) => return Err(MempoolFailure(e));
      }
    }

    /** Assembles a block from the pool on the best tip, solves it with `nonce`, and accepts it. */
    method Mine(request: MiningRequest, nonce: u32) returns (r: Result<Hash, NodeError>)
      requires Valid()
      modifies this, chain, mempool
      ensures (View(), r) == MineBlock(old(View()), request, nonce)
      ensures Valid()
    {
      hide Collect, SumFees, AcceptBlock, HeaderHash, Consistent, Candidate.BuildCandidate;
      MineKeepsConsistent(View(), request, nonce);
      var pending := mempool.CollectValid(activeUtxos, request.maxTransactions);
      var txs := TransactionsOf(pending);
      var totalFees := AddFees(txs);
      if totalFees.Err? {
        return Err(FeeFailure(totalFees.error));
      }
      var prev := if chain.bestTip.Some? then chain.bestTip.value else DEFAULT_HASH;
      var reward := Wrap64(request.subsidy + totalFees.value);
      var candidate := Candidate.BuildCandidate(
        prev, reward, request.minerKey, request.uniqueness, request.bits, txs);
      var b := Candidate.WithNonce(candidate, nonce);
      var accepted := Accept(b);
      if accepted.Err? {
        return Err(accepted.error);
      }
      mempool.RemoveMany(IdsOf(pending));
      return Ok(BlockHash(b));
    }

    method AddFees(txs: seq<Transaction>) returns (r: Result<u64, ValidationError>)
      ensures r == SumFees(activeUtxos, txs, 0)
    {
      hide Validate;
      var total: u64 := 0;
      for i := 0 to |txs|
        invariant SumFees(activeUtxos, txs, 0) == SumFees(activeUtxos, txs[i..], total)
      {
        assert txs[i..][0] == txs[i] && txs[i..][1..] == txs[i + 1..];
        var v := Validate(activeUtxos, txs[i]);
        if v.Err? {
          return Err(v.error);
        }
        if total + v.value.fee > U64_MAX {
          return Err(InputValueOverflow);
        }
        total := total + v.value.fee;
      }
      return Ok(total);
    }

    /** Adds up what is locked to `owner` without checking the sum, which wraps at 64 bits. It is exact
        while the supply fits. */
    method BalanceForKey(owner: Hash) returns (total: u64)
      requires Valid()
      ensures total == Wrap64(Balance(activeUtxos, owner))
      ensures SupplyFits(View()) ==> total == Balance(activeUtxos, owner)
    {
      hide Consistent, SupplyFits, Sum, Restrict, Wrap64, Owned;
      if SupplyFits(View()) {
        BalanceFits(View(), owner);
        WrapIsExact(Balance(activeUtxos, owner));
      }
      WrapIsExact(0);
      ghost var owned, exact: nat := Owned(activeUtxos, owner), 0;
      OwnedWithin(activeUtxos, owner);
      RestrictEnds(owned, activeUtxos.Keys);
      var todo := activeUtxos.Keys;
      total := 0;
      while todo != {}
        invariant todo <= activeUtxos.Keys
        invariant total == Wrap64(exact) && exact + Sum(Restrict(owned, todo)) == Sum(owned)
        decreases |todo|
      {
        var o :| o in todo;
        RestrictStep(owned, todo, o);
        OwnedAt(activeUtxos, owner, o);
        if activeUtxos[o].output.lockingData == owner {
          WrapAdds(exact, activeUtxos[o].output.value);
          exact := exact + activeUtxos[o].output.value;
          total := Wrap64(total + activeUtxos[o].output.value);
        }
        todo := todo - {o};
      }
    }
  }

  lemma OwnedWithin(u: Utxos, key: Hash)
    ensures Owned(u, key).Keys <= u.Keys
  {
  }

  lemma OwnedAt(u: Utxos, key: Hash, o: OutPoint)
    requires o in u
    ensures o in Owned(u, key) <==> u[o].output.lockingData == key
    ensures o in Owned(u, key) ==> Owned(u, key)[o] == u[o].output.value
  {
  }
}
