/** Mining closes the loop: what the pool admits can be mined, and the mined block is accepted. */
module MiningLoop {
  import opened Primitives
  import opened Crypto
  import opened Types
  import opened State
  import opened Chain
  import opened Mempool
  import opened NodeState
  import opened ActiveChain
  import opened BlockRules
  import opened Acceptance
  import Merkle
  import Consensus
  import Candidate
  import PowTarget

  // ---- Independent transactions -----------------------------------------------------------

  /** The entries `tx` spends are the same in `w` as in `u`. */
  ghost predicate Untouched(u: Utxos, w: Utxos, tx: Transaction) {
    forall o :: o in Spent(tx.inputs) ==> o in u && o in w && w[o].output == u[o].output
  }

  ghost predicate FreshOutputs(u: Utxos, tx: Transaction) {
    forall o :: o in u ==> !(o.txid == Txid(tx) && o.vout < |tx.outputs|)
  }

  /** Each transaction is valid against `u` on its own, none shares an input with another, and no
      output lands on an existing entry. */
  ghost predicate Independent(u: Utxos, txs: seq<Transaction>) {
    && (forall i :: 0 <= i < |txs| ==> Validate(u, txs[i]).Ok? && FreshOutputs(u, txs[i]))
    && (forall i, j :: 0 <= i < j < |txs| ==> !Conflicts(txs[i], txs[j]))
  }

  ghost predicate AllUntouched(u: Utxos, w: Utxos, txs: seq<Transaction>) {
    forall i :: 0 <= i < |txs| ==> Untouched(u, w, txs[i])
  }

  lemma UntouchedValidatesAlike(u: Utxos, w: Utxos, tx: Transaction)
    requires Untouched(u, w, tx)
    ensures Validate(w, tx) == Validate(u, tx)
  {
    hide Validate;
    ValidateDependsOnInputs(u, w, tx);
  }

  lemma ApplyKeepsUntouched(u: Utxos, w: Utxos, a: Transaction, b: Transaction, height: nat)
    requires Untouched(u, w, b) && !Conflicts(a, b) && FreshOutputs(u, a)
    ensures Untouched(u, Apply(w, a, height), b)
  {
    hide Txid;
  }

  lemma IndependentTail(u: Utxos, txs: seq<Transaction>)
    requires Independent(u, txs) && txs != []
    ensures Independent(u, txs[1..])
  {
    hide Validate, Conflicts, FreshOutputs;
  }

  lemma ApplyHeadKeepsUntouched(u: Utxos, w: Utxos, txs: seq<Transaction>, height: nat)
    requires Independent(u, txs) && txs != [] && AllUntouched(u, w, txs)
    ensures AllUntouched(u, Apply(w, txs[0], height), txs[1..])
  {
    hide Validate, Conflicts, FreshOutputs, Untouched, Apply;
    forall i | 0 <= i < |txs[1..]|
      ensures Untouched(u, Apply(w, txs[0], height), txs[1..][i])
    {
      ApplyKeepsUntouched(u, w, txs[0], txs[i + 1], height);
    }
  }

  /** Fees recomputed one by one on the running set are the fees against the original set. */
  lemma {:induction false} SequentialFees(u: Utxos, w: Utxos, txs: seq<Transaction>, height: nat, fees: u64)
    requires Independent(u, txs) && AllUntouched(u, w, txs)
    ensures match SumFees(u, txs, fees)
            case Ok(total) =>
              && Consensus.ApplyTransactions(w, txs, height, fees).Ok?
              && Consensus.ApplyTransactions(w, txs, height, fees).value.1 == total
            case Err(e) =>
              && e == InputValueOverflow
              && Consensus.ApplyTransactions(w, txs, height, fees) == Err(e)
    decreases |txs|
  {
    hide Validate, Conflicts, FreshOutputs, Untouched, Apply;
    if txs != [] {
      UntouchedValidatesAlike(u, w, txs[0]);
      IndependentTail(u, txs);
      ApplyHeadKeepsUntouched(u, w, txs, height);
      if fees + Validate(u, txs[0]).value.fee <= U64_MAX {
        SequentialFees(u, Apply(w, txs[0], height), txs[1..], height, fees + Validate(u, txs[0]).value.fee);
      }
    }
  }

  /** A transaction that conflicts with none of `txs` keeps its inputs while they are applied. */
  lemma {:induction false} BystanderUntouched(
    u: Utxos, w: Utxos, txs: seq<Transaction>, height: nat, fees: u64, tx: Transaction)
    requires Independent(u, txs) && Untouched(u, w, tx)
    requires forall i :: 0 <= i < |txs| ==> !Conflicts(txs[i], tx)
    requires Consensus.ApplyTransactions(w, txs, height, fees).Ok?
    ensures Untouched(u, Consensus.ApplyTransactions(w, txs, height, fees).value.0, tx)
    decreases |txs|
  {
    hide Validate, Conflicts, FreshOutputs, Untouched, Apply;
    if txs != [] {
      IndependentTail(u, txs);
      ApplyKeepsUntouched(u, w, txs[0], tx, height);
      BystanderUntouched(
        u, Apply(w, txs[0], height), txs[1..], height, fees + Validate(w, txs[0]).value.fee, tx);
    }
  }

  ghost function Front<T>(s: seq<T>, maxCount: nat): seq<T> {
    if |s| <= maxCount then s else s[..maxCount]
  }

  lemma FrontTail<T>(s: seq<T>, maxCount: nat)
    requires s != [] && maxCount > 0
    ensures Front(s, maxCount) == [s[0]] + Front(s[1..], maxCount - 1)
    ensures Front(s, maxCount)[1..] == Front(s[1..], maxCount - 1)
  {
  }

  /** While the front is independent, selection takes it whole, whatever comes after it. */
  lemma {:induction false} SelectTakesFront(u: Utxos, w: Utxos, entries: seq<(Hash, Transaction)>, maxCount: nat)
    requires Independent(u, TransactionsOf(Front(entries, maxCount)))
    requires AllUntouched(u, w, TransactionsOf(Front(entries, maxCount)))
    ensures Select(w, entries, maxCount) == Front(entries, maxCount)
    decreases |entries|
  {
    hide Validate, Conflicts, FreshOutputs, Untouched, Apply;
    if entries != [] && maxCount > 0 {
      FrontTail(entries, maxCount);
      var txs := TransactionsOf(Front(entries, maxCount));
      UntouchedValidatesAlike(u, w, txs[0]);
      IndependentTail(u, txs);
      ApplyHeadKeepsUntouched(u, w, txs, 0);
      assert txs[1..] == TransactionsOf(Front(entries[1..], maxCount - 1));
      SelectTakesFront(u, Apply(w, txs[0], 0), entries[1..], maxCount - 1);
    }
  }

  // ---- The candidate ----------------------------------------------------------------------

  /** The first `maxCount` pending transactions in id order. */
  ghost function Chosen(pool: Pool, maxCount: nat): seq<(Hash, Transaction)> {
    Front(SortedEntries(pool), maxCount)
  }

  /** None of the first `maxCount` pending transactions is shaped like a coinbase or would overwrite an
      entry. */
  ghost predicate Mineable(pool: Pool, u: Utxos, maxCount: nat) {
    forall i :: 0 <= i < |Chosen(pool, maxCount)| ==>
      !Chosen(pool, maxCount)[i].1.IsCoinbase() && FreshOutputs(u, Chosen(pool, maxCount)[i].1)
  }

  lemma PoolIsIndependent(pool: Pool, u: Utxos, entries: seq<(Hash, Transaction)>)
    requires PoolInv(pool, u) && forall i :: 0 <= i < |entries| ==> FreshOutputs(u, entries[i].1)
    requires forall i :: 0 <= i < |entries| ==> entries[i].0 in pool && entries[i].1 == pool[entries[i].0]
    requires forall i, j :: 0 <= i < j < |entries| ==> entries[i].0 != entries[j].0
    ensures Independent(u, TransactionsOf(entries))
  {
    hide Validate, Conflicts, FreshOutputs;
    var txs := TransactionsOf(entries);
    forall i, j | 0 <= i < j < |txs|
      ensures !Conflicts(txs[i], txs[j])
    {
      assert entries[i].0 != entries[j].0;
    }
  }

  lemma ValidIsUntouched(u: Utxos, txs: seq<Transaction>)
    requires Independent(u, txs)
    ensures AllUntouched(u, u, txs)
  {
    hide Validate, Conflicts, FreshOutputs;
    forall i | 0 <= i < |txs|
      ensures Untouched(u, u, txs[i])
    {
      SpentArePresent(u, txs[i]);
    }
  }

  /** Selection takes pending transactions in id order up to the limit, skipping none. */
  lemma CollectSkipsNothing(pool: Pool, u: Utxos, maxCount: nat)
    requires PoolInv(pool, u) && Mineable(pool, u, maxCount)
    ensures Collect(pool, u, maxCount) == Chosen(pool, maxCount)
    ensures Independent(u, TransactionsOf(Chosen(pool, maxCount)))
  {
    hide PoolInv, Independent, AllUntouched, SortedEntries, FreshOutputs;
    var chosen := Chosen(pool, maxCount);
    PoolIsIndependent(pool, u, chosen);
    ValidIsUntouched(u, TransactionsOf(chosen));
    SelectTakesFront(u, u, SortedEntries(pool), maxCount);
  }

  lemma FeesNeverOverflow(u: Utxos, txs: seq<Transaction>)
    requires Independent(u, txs) && Total(u) + Consensus.BLOCK_SUBSIDY <= U64_MAX
    requires forall i :: 0 <= i < |txs| ==> !txs[i].IsCoinbase()
    ensures SumFees(u, txs, 0).Ok? && SumFees(u, txs, 0).value <= Total(u)
  {
    hide Total, Independent, AllUntouched, SumFees, Consensus.ApplyTransactions;
    ValidIsUntouched(u, txs);
    SequentialFees(u, u, txs, 0, 0);
    Consensus.TransactionsNeverOverflow(u, txs, 0, 0);
  }

  // ---- Acceptance -------------------------------------------------------------------------

  lemma CoinbaseApplies(u: Utxos, coinbase: Transaction, height: nat, fees: u64)
    requires coinbase.IsCoinbase() && coinbase.outputs != []
    requires OutputSum(coinbase.outputs) <= Consensus.BLOCK_SUBSIDY + fees <= U64_MAX
    ensures Consensus.ApplyCoinbase(u, coinbase, height, fees) == Ok(Apply(u, coinbase, height))
  {
    hide Apply;
  }

  lemma SingleOutputSum(out: TxOut)
    ensures OutputSum([out]) == out.value
  {
    assert [out][..0] == [];
  }

  /** A block of independent transactions whose coinbase claims at most subsidy plus fees applies. */
  lemma IndependentBlockApplies(u: Utxos, b: Block, height: nat, fees: u64)
    requires Consensus.ValidateBlock(b).Ok? && Independent(u, b.transactions[1..])
    requires SumFees(u, b.transactions[1..], 0) == Ok(fees) && Consensus.BLOCK_SUBSIDY + fees <= U64_MAX
    requires b.transactions[0].outputs != []
    requires OutputSum(b.transactions[0].outputs) <= Consensus.BLOCK_SUBSIDY + fees
    ensures Consensus.ApplyBlock(u, b, height).Ok? && Consensus.BlockFees(u, b, height) == fees
    ensures Consensus.ApplyBlock(u, b, height).value
            == Apply(Consensus.BeforeCoinbase(u, b, height), b.transactions[0], height)
  {
    hide Independent, AllUntouched, SumFees, Consensus.ApplyTransactions, Apply, Consensus.ApplyCoinbase;
    var txs := b.transactions[1..];
    ValidIsUntouched(u, txs);
    SequentialFees(u, u, txs, height, 0);
    CoinbaseApplies(Consensus.ApplyTransactions(u, txs, height, 0).value.0, b.transactions[0], height, fees);
  }

  /** Pending transactions outside the block stay valid after it. */
  lemma LeftoversStayValid(u: Utxos, b: Block, height: nat, tx: Transaction)
    requires Consensus.ApplyBlock(u, b, height).Ok? && Validate(u, tx).Ok?
    requires Consensus.ApplyBlock(u, b, height).value
             == Apply(Consensus.BeforeCoinbase(u, b, height), b.transactions[0], height)
    requires Independent(u, b.transactions[1..]) && FreshOutputs(u, b.transactions[0])
    requires forall i :: 1 <= i < |b.transactions| ==> !Conflicts(b.transactions[i], tx)
    ensures Validate(Consensus.ApplyBlock(u, b, height).value, tx).Ok?
  {
    hide Independent, Validate, Apply, Consensus.ApplyCoinbase, Untouched, FreshOutputs, Consensus.ApplyTransactions,
      Consensus.ValidateBlock;
    var txs := b.transactions[1..];
    ValidSelfUntouched(u, tx);
    AppliedHasTransactions(u, b, height);
    BystanderUntouched(u, u, txs, height, 0, tx);
    NoInputsNoConflict(b.transactions[0], tx);
    ApplyKeepsUntouched(u, Consensus.BeforeCoinbase(u, b, height), b.transactions[0], tx, height);
    UntouchedValidatesAlike(u, Consensus.ApplyBlock(u, b, height).value, tx);
  }

  lemma AppliedHasTransactions(u: Utxos, b: Block, height: nat)
    requires Consensus.ApplyBlock(u, b, height).Ok?
    ensures b.transactions != [] && b.transactions[0].IsCoinbase()
    ensures Consensus.ApplyTransactions(u, b.transactions[1..], height, 0).Ok?
    ensures Consensus.BeforeCoinbase(u, b, height)
            == Consensus.ApplyTransactions(u, b.transactions[1..], height, 0).value.0
  {
    hide Consensus.ApplyTransactions, Consensus.ApplyCoinbase;
  }

  lemma ValidSelfUntouched(u: Utxos, tx: Transaction)
    requires Validate(u, tx).Ok?
    ensures Untouched(u, u, tx)
  {
    SpentArePresent(u, tx);
  }

  lemma NoInputsNoConflict(a: Transaction, b: Transaction)
    requires a.IsCoinbase()
    ensures !Conflicts(a, b)
  {
  }

  // ---- The whole loop ---------------------------------------------------------------------

  /** Height of a block mined on the best tip. */
  ghost function NextHeight(n: Node): nat {
    if n.chain.bestTip.Some? && n.chain.bestTip.value in n.chain.entries
    then n.chain.entries[n.chain.bestTip.value].height + 1 else 0
  }

  lemma TipEntry(n: Node, b: Block)
    requires Consistent(n) && Consensus.ValidateBlock(b).Ok?
    requires b.header.prevBlockhash == MiningParent(n) && BlockHash(b) !in n.chain.entries
    requires BlockWork(b).Ok? && BestWork(n.chain) + BlockWork(b).value <= U128_MAX
    ensures NewEntry(n.chain, b).Ok?
    ensures var e := NewEntry(n.chain, b).value;
            && e.blockHash == BlockHash(b) && e.parent == n.chain.bestTip && e.height == NextHeight(n)
            && AddEntry(n.chain, e).bestTip == Some(BlockHash(b))
  {
    hide HeaderHash, Consensus.ValidateBlock, BlockWork, CacheExplained, ActiveExplained, PoolInv, EntryExplained,
      Linked;
    WorkIsPositive(b);
  }

  lemma ParentIsActive(n: Node)
    requires Consistent(n) && TipApplied(n)
    ensures ParentSnapshot(n.snapshots, n.chain.bestTip) == Ok(n.activeUtxos)
  {
    hide Consistent;
    ActiveIsBestChain(n);
  }

  /** A block on the best tip whose transactions apply to the active set becomes the new tip. */
  lemma TipBlockAccepted(n: Node, b: Block)
    requires Consistent(n) && TipApplied(n) && Consensus.ValidateBlock(b).Ok?
    requires b.header.prevBlockhash == MiningParent(n) && BlockHash(b) !in n.chain.entries
    requires BlockWork(b).Ok? && BestWork(n.chain) + BlockWork(b).value <= U128_MAX
    requires Consensus.ApplyBlock(n.activeUtxos, b, NextHeight(n)).Ok?
    ensures var after := Consensus.ApplyBlock(n.activeUtxos, b, NextHeight(n)).value;
            var (m, r) := AcceptBlock(n, b);
            && r.Ok? && Consistent(m) && TipApplied(m) && (Settled(n) ==> Settled(m))
            && m.chain.bestTip == Some(BlockHash(b))
            && m.activeUtxos == after && m.mempool == PruneInvalid(n.mempool, after)
  {
    hide HeaderHash, Consensus.ValidateBlock, BlockWork, NewEntry, Consensus.ApplyBlock, Consistent, PruneInvalid,
      AddEntry;
    StoredAreIndexed(n);
    TipEntry(n, b);
    var e := NewEntry(n.chain, b).value;
    AcceptNew(n, b, e);
    ParentIsActive(n);
    AcceptKeepsConsistent(n, b);
    CachedAreIndexed(n);
    if Settled(n) {
      AcceptKeepsSettled(n, b);
    }
  }

  /** No other stored block has the hash of `b`. */
  ghost predicate NoCollision(n: Node, b: Block) {
    BlockHash(b) in n.blocks ==> n.blocks[BlockHash(b)] == b
  }

  /** A block on the best tip is not indexed yet, because the tip has no child. */
  lemma TipBlockIsNew(n: Node, b: Block)
    requires Consistent(n) && DEFAULT_HASH !in n.chain.entries && NoCollision(n, b)
    requires b.header.prevBlockhash == MiningParent(n)
    ensures BlockHash(b) !in n.chain.entries
  {
    hide HeaderHash, Consensus.ValidateBlock, BlockWork, CacheExplained, ActiveExplained, PoolInv;
    var h := BlockHash(b);
    if h in n.chain.entries {
      assert Linked(n.chain, h) && EntryExplained(n.chain, n.blocks, h);
      BestTipIsHead(n.chain);
    }
  }

  /** What a solved block for request `r` is. */
  ghost predicate Solves(n: Node, r: MiningRequest, nonce: u32, b: Block) {
    && MiningCandidate(n, r).Ok?
    && b == Candidate.WithNonce(MiningCandidate(n, r).value, nonce)
    && Consensus.ValidateBlock(b).Ok?
  }

  /** The hypotheses under which mining succeeds on an accepted tip. */
  ghost predicate ReadyToMine(n: Node, r: MiningRequest, b: Block) {
    && Consistent(n) && NextSubsidyFits(n) && Mineable(n.mempool, n.activeUtxos, r.maxTransactions)
    && r.subsidy <= Consensus.BLOCK_SUBSIDY
    && b.transactions != [] && FreshOutputs(n.activeUtxos, b.transactions[0])
    && DEFAULT_HASH !in n.chain.entries && NoCollision(n, b)
    && BlockWork(b).Ok? && BestWork(n.chain) + BlockWork(b).value <= U128_MAX
  }

  lemma CandidateShape(n: Node, r: MiningRequest, nonce: u32, b: Block, fees: u64)
    requires Solves(n, r, nonce, b)
    requires Collect(n.mempool, n.activeUtxos, r.maxTransactions) == Chosen(n.mempool, r.maxTransactions)
    requires SumFees(n.activeUtxos, TransactionsOf(Chosen(n.mempool, r.maxTransactions)), 0) == Ok(fees)
    requires r.subsidy + fees <= U64_MAX
    ensures b.header.prevBlockhash == MiningParent(n)
    ensures b.transactions == [Candidate.Coinbase(r.subsidy + fees, r.minerKey, r.uniqueness)]
                              + TransactionsOf(Chosen(n.mempool, r.maxTransactions))
  {
    hide Collect, SumFees, Chosen, Consensus.ValidateBlock;
  }

  lemma ChosenArePending(pool: Pool, maxCount: nat)
    ensures forall i :: 0 <= i < |Chosen(pool, maxCount)| ==>
      var e := Chosen(pool, maxCount)[i];
      e.0 in pool && e.1 == pool[e.0] && e.0 in IdsOf(Chosen(pool, maxCount))
  {
    hide SortedEntries;
    var c := Chosen(pool, maxCount);
    assert forall i :: 0 <= i < |c| ==> c[i] in c;
  }

  lemma PoolAfterwards(pool: Pool, after: Utxos, included: set<Hash>)
    requires forall id :: id in pool && id !in included ==> Validate(after, pool[id]).Ok?
    ensures PruneInvalid(pool, after) - included == pool - included
  {
    hide Validate;
  }

  /** Pending transactions the block leaves out conflict with none it includes. */
  lemma LeftOutDoesNotConflict(pool: Pool, maxCount: nat, id: Hash)
    requires ConflictFree(pool) && id in pool && id !in IdsOf(Chosen(pool, maxCount))
    ensures forall i :: 0 <= i < |Chosen(pool, maxCount)| ==> !Conflicts(Chosen(pool, maxCount)[i].1, pool[id])
  {
    hide Conflicts, Chosen;
    ChosenArePending(pool, maxCount);
  }

  lemma ChosenAreNotCoinbase(pool: Pool, u: Utxos, maxCount: nat)
    requires Mineable(pool, u, maxCount)
    ensures forall i :: 0 <= i < |TransactionsOf(Chosen(pool, maxCount))| ==>
              !TransactionsOf(Chosen(pool, maxCount))[i].IsCoinbase()
  {
    hide Chosen, FreshOutputs;
  }

  // ---- Coinbase-shaped pending transactions -----------------------------------------------

  /** Nothing in the policy keeps out a new transaction without inputs, as long as there is room. */
  lemma CoinbaseShapedIsAdmitted(pool: Pool, u: Utxos, tx: Transaction)
    requires PoolInv(pool, u) && |pool| < MAX_MEMPOOL_TRANSACTIONS && Txid(tx) !in pool
    requires tx.IsCoinbase() && tx.outputs != [] && OutputSum(tx.outputs) <= U64_MAX
    ensures SubmitTransaction(pool, u, tx) == (pool[Txid(tx) := tx], Ok(Txid(tx)))
  {
    hide Txid, PoolInv, FeeOf;
    assert ConflictingIds(pool, tx) == {};
    assert pool.Keys - {} == pool.Keys && pool - {} == pool;
  }

  lemma CoinbaseAlwaysValid(u: Utxos, w: Utxos, tx: Transaction)
    requires tx.IsCoinbase()
    ensures Validate(u, tx) == Validate(w, tx)
  {
  }

  /** Selection never passes over a valid transaction without inputs that stands within the limit. */
  lemma {:induction false} SelectTakesCoinbase(u: Utxos, entries: seq<(Hash, Transaction)>, maxCount: nat, i: nat)
    requires i < |entries| && i < maxCount && entries[i].1.IsCoinbase() && Validate(u, entries[i].1).Ok?
    ensures entries[i] in Select(u, entries, maxCount)
    decreases |entries|
  {
    hide Validate, Apply;
    if i > 0 {
      if Validate(u, entries[0].1).Ok? {
        CoinbaseAlwaysValid(u, Apply(u, entries[0].1, 0), entries[i].1);
        SelectTakesCoinbase(Apply(u, entries[0].1, 0), entries[1..], maxCount - 1, i - 1);
      } else {
        SelectTakesCoinbase(u, entries[1..], maxCount, i - 1);
      }
    }
  }

  /** A candidate that carries a second coinbase is solved by no nonce. */
  lemma SecondCoinbaseIsUnsolvable(n: Node, r: MiningRequest, nonce: u32, e: (Hash, Transaction))
    requires MiningCandidate(n, r).Ok? && e in Collect(n.mempool, n.activeUtxos, r.maxTransactions) && e.1.IsCoinbase()
    ensures Consensus.ValidateBlock(Candidate.WithNonce(MiningCandidate(n, r).value, nonce)).Err?
  {
    hide Collect, SumFees, PowTarget.FromCompact, PowTarget.IsMetBy, Merkle.MerkleRoot, HeaderHash;
    var collected := Collect(n.mempool, n.activeUtxos, r.maxTransactions);
    var i :| 0 <= i < |collected| && collected[i] == e;
    var b := Candidate.WithNonce(MiningCandidate(n, r).value, nonce);
    assert b.transactions[i + 1] == e.1;
  }

  /** In every reachable state: while a transaction without inputs is among the first pending ones by id,
      up to the limit, no nonce solves the candidate, so the search would not end. */
  lemma CoinbaseShapedIsUnsolvable(n: Node, r: MiningRequest, nonce: u32, i: nat)
    requires Consistent(n) && i < |Chosen(n.mempool, r.maxTransactions)|
    requires Chosen(n.mempool, r.maxTransactions)[i].1.IsCoinbase()
    ensures MiningCandidate(n, r).Ok? ==>
              Consensus.ValidateBlock(Candidate.WithNonce(MiningCandidate(n, r).value, nonce)).Err?
  {
    hide Consistent, MiningCandidate, Consensus.ValidateBlock, Validate, SortedEntries, Select;
    ConsistentPool(n);
    var entries := SortedEntries(n.mempool);
    SelectTakesCoinbase(n.activeUtxos, entries, r.maxTransactions, i);
    if MiningCandidate(n, r).Ok? {
      SecondCoinbaseIsUnsolvable(n, r, nonce, entries[i]);
    }
  }

  /** The mined block carries the chosen transactions and applies to the active set. */
  lemma MinedBlockApplies(n: Node, r: MiningRequest, nonce: u32, b: Block) returns (fees: u64)
    requires Solves(n, r, nonce, b) && ReadyToMine(n, r, b)
    ensures Collect(n.mempool, n.activeUtxos, r.maxTransactions) == Chosen(n.mempool, r.maxTransactions)
    ensures b.header.prevBlockhash == MiningParent(n)
    ensures b.transactions[1..] == TransactionsOf(Chosen(n.mempool, r.maxTransactions))
    ensures Independent(n.activeUtxos, b.transactions[1..])
    ensures Consensus.ApplyBlock(n.activeUtxos, b, NextHeight(n)).Ok?
    ensures Consensus.ApplyBlock(n.activeUtxos, b, NextHeight(n)).value
            == Apply(Consensus.BeforeCoinbase(n.activeUtxos, b, NextHeight(n)), b.transactions[0], NextHeight(n))
    ensures fees == Consensus.BlockFees(n.activeUtxos, b, NextHeight(n))
    ensures OutputSum(b.transactions[0].outputs) == r.subsidy + fees
  {
    hide Collect, SumFees, Chosen, Consensus.ValidateBlock, Consensus.ApplyBlock, Consistent, NextSubsidyFits, Mineable,
      FreshOutputs, HeaderHash, MiningCandidate, BlockWork, Independent, OutputSum, Total, Apply;
    var u, pool := n.activeUtxos, n.mempool;
    var txs := TransactionsOf(Chosen(pool, r.maxTransactions));
    ConsistentPool(n);
    CollectSkipsNothing(pool, u, r.maxTransactions);
    ChosenAreNotCoinbase(pool, u, r.maxTransactions);
    ActiveSupplyBound(n);
    FeesNeverOverflow(u, txs);
    fees := SumFees(u, txs, 0).value;
    assert Solves(n, r, nonce, b);
    CandidateShape(n, r, nonce, b, fees);
    assert b.transactions[1..] == txs;
    SingleOutputSum(TxOut(r.subsidy + fees, r.minerKey));
    IndependentBlockApplies(u, b, NextHeight(n), fees);
  }

  lemma LeftoverValid(n: Node, r: MiningRequest, b: Block, height: nat, id: Hash)
    requires Consistent(n) && b.transactions != [] && FreshOutputs(n.activeUtxos, b.transactions[0])
    requires b.transactions[1..] == TransactionsOf(Chosen(n.mempool, r.maxTransactions))
    requires Independent(n.activeUtxos, b.transactions[1..])
    requires Consensus.ApplyBlock(n.activeUtxos, b, height).Ok?
    requires Consensus.ApplyBlock(n.activeUtxos, b, height).value
             == Apply(Consensus.BeforeCoinbase(n.activeUtxos, b, height), b.transactions[0], height)
    requires id in n.mempool && id !in IdsOf(Chosen(n.mempool, r.maxTransactions))
    ensures Validate(Consensus.ApplyBlock(n.activeUtxos, b, height).value, n.mempool[id]).Ok?
  {
    hide Chosen, Consensus.ApplyBlock, Consistent, FreshOutputs, Independent, Validate, Conflicts, Apply;
    ConsistentPool(n);
    LeftOutDoesNotConflict(n.mempool, r.maxTransactions, id);
    forall i | 1 <= i < |b.transactions|
      ensures !Conflicts(b.transactions[i], n.mempool[id])
    {
      assert b.transactions[i] == b.transactions[1..][i - 1];
    }
    LeftoversStayValid(n.activeUtxos, b, height, n.mempool[id]);
  }

  lemma MineOutcome(n: Node, r: MiningRequest, nonce: u32, b: Block)
    requires MiningCandidate(n, r).Ok? && b == Candidate.WithNonce(MiningCandidate(n, r).value, nonce)
    requires AcceptBlock(n, b).1.Ok?
    ensures var m := AcceptBlock(n, b).0;
            MineBlock(n, r, nonce)
            == (m.(mempool := m.mempool - IdsOf(Collect(n.mempool, n.activeUtxos, r.maxTransactions))),
                Ok(BlockHash(b)))
  {
    hide MiningCandidate, AcceptBlock, Collect, HeaderHash;
  }

  /** Mining closes the loop: the block assembled from the pool is accepted and becomes the tip, its
      coinbase claims exactly the subsidy plus the fees block application recomputes, and the pool
      afterwards is the old one without the included transactions. */
  lemma MiningClosesTheLoop(n: Node, r: MiningRequest, nonce: u32, b: Block)
    requires Solves(n, r, nonce, b) && ReadyToMine(n, r, b) && TipApplied(n)
    ensures var (m, result) := MineBlock(n, r, nonce);
            var chosen := Chosen(n.mempool, r.maxTransactions);
            && result == Ok(BlockHash(b))
            && Consistent(m) && TipApplied(m) && (Settled(n) ==> Settled(m))
            && m.chain.bestTip == Some(BlockHash(b))
            && b.transactions[1..] == TransactionsOf(chosen)
            && m.mempool == n.mempool - IdsOf(chosen)
            && Consensus.ApplyBlock(n.activeUtxos, b, NextHeight(n)).Ok?
            && m.activeUtxos == Consensus.ApplyBlock(n.activeUtxos, b, NextHeight(n)).value
            && OutputSum(b.transactions[0].outputs)
               == r.subsidy + Consensus.BlockFees(n.activeUtxos, b, NextHeight(n))
            && MinedFor(n, r, nonce, b, r.subsidy + Consensus.BlockFees(n.activeUtxos, b, NextHeight(n)))
  {
    hide Collect, SumFees, Chosen, Consensus.ValidateBlock, Consensus.ApplyBlock, Settled, MinedFor,
      NextSubsidyFits, Mineable,
      FreshOutputs, HeaderHash, AcceptBlock, MiningCandidate, BlockWork, Independent, PruneInvalid, OutputSum, Validate,
      MineBlock, Consistent, PoolInv, NoCollision;
    var u, height := n.activeUtxos, NextHeight(n);
    var fees := MinedBlockApplies(n, r, nonce, b);
    MinedBlockShape(n, r, nonce, b);
    ConsistentPool(n);
    TipBlockIsNew(n, b);
    TipBlockAccepted(n, b);
    MineOutcome(n, r, nonce, b);
    var after := Consensus.ApplyBlock(u, b, height).value;
    var included := IdsOf(Chosen(n.mempool, r.maxTransactions));
    forall id | id in n.mempool && id !in included
      ensures Validate(after, n.mempool[id]).Ok?
    {
      LeftoverValid(n, r, b, height, id);
    }
    PoolAfterwards(n.mempool, after, included);
    RemovalKeepsState(AcceptBlock(n, b).0, included);
  }

  /** A block for request `r`, field by field: on the tip, at the requested difficulty, with a coinbase that
      pays `reward` to the miner key in one output. */
  ghost predicate MinedFor(n: Node, r: MiningRequest, nonce: u32, b: Block, reward: nat) {
    && b.header.version == 1 && b.header.time == 1 && b.header.bits == r.bits && b.header.nonce == nonce
    && b.header.prevBlockhash == (if n.chain.bestTip.Some? then n.chain.bestTip.value else DEFAULT_HASH)
    && b.header.merkleRoot == Merkle.MerkleRoot(b.transactions)
    && b.transactions != []
    && var coinbase := b.transactions[0];
    && coinbase.version == 1 && coinbase.inputs == [] && coinbase.lockTime == r.uniqueness
    && |coinbase.outputs| == 1
    && coinbase.outputs[0].value == reward && coinbase.outputs[0].lockingData == r.minerKey
  }

  /** The mined block pays subsidy and fees to the miner key and carries the chosen transactions. */
  lemma MinedBlockShape(n: Node, r: MiningRequest, nonce: u32, b: Block)
    requires Solves(n, r, nonce, b) && ReadyToMine(n, r, b)
    ensures Consensus.ApplyBlock(n.activeUtxos, b, NextHeight(n)).Ok?
    ensures MinedFor(n, r, nonce, b, r.subsidy + Consensus.BlockFees(n.activeUtxos, b, NextHeight(n)))
    ensures b.transactions[1..] == TransactionsOf(Chosen(n.mempool, r.maxTransactions))
  {
    hide Collect, SumFees, Chosen, Consensus.ValidateBlock, Consensus.ApplyBlock, Consistent, NextSubsidyFits, Mineable,
      FreshOutputs, HeaderHash, BlockWork, Independent, OutputSum, Merkle.MerkleRoot;
    var fees := MinedBlockApplies(n, r, nonce, b);
    SingleOutputSum(b.transactions[0].outputs[0]);
  }

  lemma RemovalKeepsState(n: Node, ids: set<Hash>)
    requires Consistent(n)
    ensures var m := n.(mempool := n.mempool - ids);
            Consistent(m) && (Settled(n) ==> Settled(m)) && (TipApplied(n) ==> TipApplied(m))
  {
    hide Consistent;
    RemoveKeepsConsistent(n, ids);
  }

  // ---- A failed tip -----------------------------------------------------------------------

  lemma CandidateParent(n: Node, r: MiningRequest, nonce: u32)
    requires MiningCandidate(n, r).Ok?
    ensures Candidate.WithNonce(MiningCandidate(n, r).value, nonce).header.prevBlockhash == MiningParent(n)
  {
    hide Collect, SumFees, Merkle.MerkleRoot;
  }

  /** While the best tip is a block that failed, nothing can be mined: the parent has no snapshot. */
  lemma FailedTipStopsMining(n: Node, r: MiningRequest, nonce: u32)
    requires Consistent(n) && !TipApplied(n) && DEFAULT_HASH !in n.chain.entries
    requires MiningCandidate(n, r).Ok? ==> NoCollision(n, Candidate.WithNonce(MiningCandidate(n, r).value, nonce))
    ensures MineBlock(n, r, nonce).1.Err?
  {
    hide Consistent, MiningCandidate, Collect, HeaderHash, AcceptBlock, WellFormed, Applicable, BlockWork, NoCollision;
    if MiningCandidate(n, r).Ok? {
      var b := Candidate.WithNonce(MiningCandidate(n, r).value, nonce);
      CandidateParent(n, r, nonce);
      StoredAreIndexed(n);
      TipBlockIsNew(n, b);
      AcceptSucceedsIff(n, b);
    }
  }

  /** With everything else in order, mining succeeds exactly when the best tip was accepted. */
  lemma MiningSucceedsIff(n: Node, r: MiningRequest, nonce: u32, b: Block)
    requires Solves(n, r, nonce, b) && ReadyToMine(n, r, b)
    ensures MineBlock(n, r, nonce).1.Ok? <==> TipApplied(n)
  {
    hide Consistent, MineBlock, MiningCandidate, TipApplied, NextSubsidyFits, Mineable, FreshOutputs, NoCollision,
      BlockWork, Consensus.ValidateBlock, Consensus.ApplyBlock, Chosen, HeaderHash, OutputSum;
    if TipApplied(n) {
      MiningClosesTheLoop(n, r, nonce, b);
    } else {
      FailedTipStopsMining(n, r, nonce);
    }
  }
}
