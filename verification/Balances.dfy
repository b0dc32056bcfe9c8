/** How balances move: one transaction, one payment, one mined block. */
module Balances {
  import opened Primitives
  import opened Crypto
  import opened Types
  import opened Sums
  import opened State
  import opened Chain
  import opened Mempool
  import opened NodeState
  import opened ActiveChain
  import opened MiningLoop
  import Consensus
  import Payment

  // ---- One transaction --------------------------------------------------------------------

  /** What the outputs pay to `key`. */
  ghost function PaidTo(outputs: seq<TxOut>, key: Hash): nat {
    if outputs == [] then 0
    else
      var last := outputs[|outputs| - 1];
      PaidTo(outputs[..|outputs| - 1], key) + if last.lockingData == key then last.value else 0
  }

  /** What the inputs take from `key`. */
  ghost function TakenFrom(u: Utxos, inputs: seq<TxIn>, key: Hash): nat {
    if inputs == [] then 0
    else TakenFrom(u, inputs[..|inputs| - 1], key) + HeldAt(u, inputs[|inputs| - 1].previousOutput, key)
  }

  ghost function HeldAt(u: Utxos, o: OutPoint, key: Hash): nat {
    if o in u && u[o].output.lockingData == key then u[o].output.value else 0
  }

  lemma BalanceRemove(u: Utxos, o: OutPoint, key: Hash)
    requires o in u
    ensures Balance(u, key) == HeldAt(u, o, key) + Balance(u - {o}, key)
  {
    if u[o].output.lockingData == key {
      SumRemove(Owned(u, key), o);
      assert Owned(u, key) - {o} == Owned(u - {o}, key);
    } else {
      assert Owned(u, key) == Owned(u - {o}, key);
    }
  }

  lemma BalanceUnion(a: Utxos, b: Utxos, key: Hash)
    requires a.Keys !! b.Keys
    ensures Balance(a + b, key) == Balance(a, key) + Balance(b, key)
  {
    SumDisjointUnion(Owned(a, key), Owned(b, key));
    assert Owned(a + b, key) == Owned(a, key) + Owned(b, key);
  }

  lemma {:induction false} BalanceSpent(u: Utxos, inputs: seq<TxIn>, key: Hash)
    requires DistinctInputs(inputs) && Spent(inputs) <= u.Keys
    ensures Balance(u, key) == TakenFrom(u, inputs, key) + Balance(u - Spent(inputs), key)
  {
    hide Balance;
    if inputs == [] {
      assert u - Spent(inputs) == u;
    } else {
      var n := |inputs| - 1;
      var front, o := inputs[..n], inputs[n].previousOutput;
      SpentSnoc(inputs);
      BalanceSpent(u, front, key);
      assert o !in Spent(front);
      RemoveOneMore(u, Spent(front), o);
      BalanceRemove(u - Spent(front), o, key);
    }
  }

  lemma BalanceOfNothing(key: Hash)
    ensures Balance(map[], key) == 0
  {
    assert Owned(map[], key) == map[];
  }

  lemma {:induction false} BalanceCreated(tx: Transaction, height: nat, n: nat, key: Hash)
    requires n <= |tx.outputs|
    ensures Balance(CreatedPrefix(tx, height, n), key) == PaidTo(tx.outputs[..n], key)
  {
    hide Txid, Balance;
    if n == 0 {
      assert CreatedPrefix(tx, height, 0) == map[];
      BalanceOfNothing(key);
    } else {
      BalanceCreated(tx, height, n - 1, key);
      BalanceRemove(CreatedPrefix(tx, height, n), OutPoint(Txid(tx), n - 1), key);
      DropLastCreated(tx, height, n);
      assert tx.outputs[..n][..n - 1] == tx.outputs[..n - 1];
    }
  }

  /** A transaction moves every balance by exactly what it pays to the key less what it takes from it;
      only an entry it overwrites is lost besides. */
  lemma ApplyMovesBalance(u: Utxos, tx: Transaction, height: nat, key: Hash)
    requires DistinctInputs(tx.inputs) && Spent(tx.inputs) <= u.Keys
    ensures Balance(Apply(u, tx, height), key) + TakenFrom(u, tx.inputs, key)
            + Balance(Overwritten(u, tx, height), key)
            == Balance(u, key) + PaidTo(tx.outputs, key)
  {
    hide Balance, Txid, Apply, TakenFrom, PaidTo, DistinctInputs;
    var stay := u - Spent(tx.inputs) - Created(tx, height).Keys;
    ApplySplits(u, tx, height);
    BalanceUnion(stay, Overwritten(u, tx, height), key);
    BalanceUnion(stay, Created(tx, height), key);
    BalanceCreated(tx, height, |tx.outputs|, key);
    assert tx.outputs[..|tx.outputs|] == tx.outputs;
    BalanceSpent(u, tx.inputs, key);
  }

  lemma FreshOverwritesNothing(u: Utxos, tx: Transaction, height: nat)
    requires FreshOutputs(u, tx)
    ensures Overwritten(u, tx, height) == map[]
  {
    hide Txid;
  }

  // ---- One payment ------------------------------------------------------------------------

  lemma PaymentOutputsPay(outputs: seq<TxOut>, key: Hash)
    requires 1 <= |outputs| <= 2
    ensures PaidTo(outputs, key)
            == (if outputs[0].lockingData == key then outputs[0].value else 0)
               + if |outputs| == 2 && outputs[1].lockingData == key then outputs[1].value else 0
  {
    assert outputs[..1] == [outputs[0]] && [outputs[0]][..0] == [];
    assert PaidTo([outputs[0]], key) == if outputs[0].lockingData == key then outputs[0].value else 0;
  }

  /** A payment whose inputs fit moves value as ordered: for every key, what the payment takes from it
      leaves its balance, the recipient gets the amount and the change key gets the rest. */
  lemma PaymentMovesBalance(
    u: Utxos, keys: seq<Hash>, order: Payment.Order, tx: Transaction, height: nat, key: Hash)
    requires Payment.IsPayment(u, keys, order, tx) && FreshOutputs(u, tx) && InputSum(u, tx.inputs) <= U64_MAX
    ensures order.amount <= InputSum(u, tx.inputs)
    ensures Balance(Apply(u, tx, height), key) + TakenFrom(u, tx.inputs, key)
            == Balance(u, key)
               + (if key == order.recipient then order.amount else 0)
               + if key == order.change then InputSum(u, tx.inputs) - order.amount else 0
  {
    hide Payment.IsPayment, Balance, Apply, TakenFrom, InputSum, FreshOutputs, DistinctInputs, PaidTo;
    Payment.PaymentShape(u, keys, order, tx);
    Payment.PaymentSpendsPresent(u, keys, order, tx);
    ApplyMovesBalance(u, tx, height, key);
    FreshOverwritesNothing(u, tx, height);
    BalanceOfNothing(key);
    PaymentOutputsPay(tx.outputs, key);
  }

  /** No input spends an output of `key`. */
  ghost predicate TakesNothingFrom(u: Utxos, inputs: seq<TxIn>, key: Hash) {
    forall i :: 0 <= i < |inputs| ==> HeldAt(u, inputs[i].previousOutput, key) == 0
  }

  lemma {:induction false} NothingTaken(u: Utxos, inputs: seq<TxIn>, key: Hash)
    requires TakesNothingFrom(u, inputs, key)
    ensures TakenFrom(u, inputs, key) == 0
  {
    if inputs != [] {
      NothingTaken(u, inputs[..|inputs| - 1], key);
    }
  }

  /** So the recipient of a payment that takes nothing from them is richer by exactly the amount, whether
      or not the inputs fit. */
  lemma RecipientGetsAmount(u: Utxos, keys: seq<Hash>, order: Payment.Order, tx: Transaction, height: nat)
    requires Payment.IsPayment(u, keys, order, tx) && FreshOutputs(u, tx)
    requires order.recipient != order.change && TakesNothingFrom(u, tx.inputs, order.recipient)
    ensures Balance(Apply(u, tx, height), order.recipient) == Balance(u, order.recipient) + order.amount
  {
    hide Payment.IsPayment, Balance, Apply, TakenFrom, FreshOutputs, DistinctInputs, PaidTo, InputSum;
    Payment.PaymentShape(u, keys, order, tx);
    Payment.PaymentSpendsPresent(u, keys, order, tx);
    ApplyMovesBalance(u, tx, height, order.recipient);
    FreshOverwritesNothing(u, tx, height);
    BalanceOfNothing(order.recipient);
    PaymentOutputsPay(tx.outputs, order.recipient);
    NothingTaken(u, tx.inputs, order.recipient);
  }

  // ---- One mined block --------------------------------------------------------------------

  ghost function PaidByAll(txs: seq<Transaction>, key: Hash): nat {
    if txs == [] then 0 else PaidTo(txs[0].outputs, key) + PaidByAll(txs[1..], key)
  }

  ghost function TakenByAll(u: Utxos, txs: seq<Transaction>, key: Hash): nat {
    if txs == [] then 0 else TakenFrom(u, txs[0].inputs, key) + TakenByAll(u, txs[1..], key)
  }

  ghost predicate DistinctIds(txs: seq<Transaction>) {
    forall i, j :: 0 <= i < j < |txs| ==> Txid(txs[i]) != Txid(txs[j])
  }

  /** One of `txs` has this id and an output with this locking data. */
  ghost predicate PaysUnder(txs: seq<Transaction>, id: Hash, lockingData: seq<byte>) {
    exists i, v ::
      && 0 <= i < |txs| && Txid(txs[i]) == id
      && 0 <= v < |txs[i].outputs| && txs[i].outputs[v].lockingData == lockingData
  }

  /** Every entry of `w` is one of `u` or was created by one of `txs`. */
  ghost predicate Stems(u: Utxos, txs: seq<Transaction>, w: Utxos) {
    forall o :: o in w ==> o in u || PaysUnder(txs, o.txid, w[o].output.lockingData)
  }

  lemma {:induction false} TakenAlike(u: Utxos, w: Utxos, inputs: seq<TxIn>, key: Hash)
    requires forall o :: o in Spent(inputs) ==> o in u && o in w && w[o].output == u[o].output
    ensures TakenFrom(w, inputs, key) == TakenFrom(u, inputs, key)
  {
    if inputs != [] {
      SpentSnoc(inputs);
      TakenAlike(u, w, inputs[..|inputs| - 1], key);
    }
  }

  lemma PaysUnderGrows(done: seq<Transaction>, tx: Transaction, id: Hash, lockingData: seq<byte>)
    requires PaysUnder(done, id, lockingData)
             || (Txid(tx) == id && exists v :: 0 <= v < |tx.outputs| && tx.outputs[v].lockingData == lockingData)
    ensures PaysUnder(done + [tx], id, lockingData)
  {
    hide Txid;
    var more := done + [tx];
    if PaysUnder(done, id, lockingData) {
      var i, v :| && 0 <= i < |done| && Txid(done[i]) == id
                  && 0 <= v < |done[i].outputs| && done[i].outputs[v].lockingData == lockingData;
      assert more[i] == done[i];
    } else {
      assert more[|done|] == tx;
    }
  }

  lemma StemsStep(u: Utxos, done: seq<Transaction>, w: Utxos, tx: Transaction, height: nat)
    requires Stems(u, done, w)
    ensures Stems(u, done + [tx], Apply(w, tx, height))
  {
    hide Txid, PaysUnder;
    var next := Apply(w, tx, height);
    forall o | o in next && o !in u
      ensures PaysUnder(done + [tx], o.txid, next[o].output.lockingData)
    {
      PaysUnderGrows(done, tx, o.txid, next[o].output.lockingData);
    }
  }

  /** On a set that stems from `u`, a transaction with a new id overwrites nothing. */
  lemma NewIdOverwritesNothing(u: Utxos, done: seq<Transaction>, w: Utxos, tx: Transaction, height: nat)
    requires Stems(u, done, w) && FreshOutputs(u, tx)
    requires forall i :: 0 <= i < |done| ==> Txid(done[i]) != Txid(tx)
    ensures Overwritten(w, tx, height) == map[]
  {
    hide Txid;
  }

  lemma HeadMovesBalance(
    u: Utxos, done: seq<Transaction>, w: Utxos, tx: Transaction, height: nat, key: Hash)
    requires Validate(u, tx).Ok? && Untouched(u, w, tx) && Stems(u, done, w) && FreshOutputs(u, tx)
    requires forall i :: 0 <= i < |done| ==> Txid(done[i]) != Txid(tx)
    ensures Balance(Apply(w, tx, height), key) + TakenFrom(u, tx.inputs, key)
            == Balance(w, key) + PaidTo(tx.outputs, key)
  {
    hide Balance, Apply, Validate, Stems, FreshOutputs, Txid, TakenFrom, PaidTo;
    SpentArePresent(u, tx);
    ApplyMovesBalance(w, tx, height, key);
    NewIdOverwritesNothing(u, done, w, tx, height);
    BalanceOfNothing(key);
    TakenAlike(u, w, tx.inputs, key);
  }

  /** Applying independent transactions one after another moves balances by the sum of what each pays
      and takes. */
  lemma {:induction false} TransactionsMoveBalance(
    u: Utxos, done: seq<Transaction>, w: Utxos, txs: seq<Transaction>, height: nat, fees: u64, key: Hash)
    requires Independent(u, txs) && AllUntouched(u, w, txs) && Stems(u, done, w) && DistinctIds(done + txs)
    requires Consensus.ApplyTransactions(w, txs, height, fees).Ok?
    ensures var after := Consensus.ApplyTransactions(w, txs, height, fees).value.0;
            && Stems(u, done + txs, after)
            && Balance(after, key) + TakenByAll(u, txs, key) == Balance(w, key) + PaidByAll(txs, key)
    decreases |txs|
  {
    hide Balance, Apply, Validate, Stems, FreshOutputs, Txid, TakenFrom, PaidTo, Untouched, Conflicts;
    if txs == [] {
      assert done + txs == done;
    } else {
      var tx := txs[0];
      assert forall i :: 0 <= i < |done| ==> (done + txs)[i] == done[i];
      assert (done + txs)[|done|] == tx;
      HeadMovesBalance(u, done, w, tx, height, key);
      StemsStep(u, done, w, tx, height);
      IndependentTail(u, txs);
      ApplyHeadKeepsUntouched(u, w, txs, height);
      assert done + [tx] + txs[1..] == done + txs;
      TransactionsMoveBalance(
        u, done + [tx], Apply(w, tx, height), txs[1..], height, fees + Validate(w, tx).value.fee, key);
    }
  }

  lemma ChosenHaveDistinctIds(pool: Pool, u: Utxos, maxCount: nat)
    requires PoolInv(pool, u)
    ensures DistinctIds(TransactionsOf(Chosen(pool, maxCount)))
  {
    hide SortedEntries, Txid, Validate;
  }

  /** A mined block moves every balance by exactly what its coinbase and its transactions pay, less what
      they take: the miner key gets subsidy and fees. The coinbase must not have the id of a transaction in
      the same block that pays the key, or it could take that output away. */
  lemma MiningMovesBalance(n: Node, r: MiningRequest, nonce: u32, b: Block, key: Hash)
    requires Solves(n, r, nonce, b) && ReadyToMine(n, r, b) && TipApplied(n)
    requires !PaysUnder(b.transactions[1..], Txid(b.transactions[0]), key)
    ensures Consensus.ApplyBlock(n.activeUtxos, b, NextHeight(n)).Ok?
    ensures var txs, fees := b.transactions[1..], Consensus.BlockFees(n.activeUtxos, b, NextHeight(n));
            Balance(MineBlock(n, r, nonce).0.activeUtxos, key) + TakenByAll(n.activeUtxos, txs, key)
            == Balance(n.activeUtxos, key) + PaidByAll(txs, key)
               + if key == r.minerKey then r.subsidy + fees else 0
  {
    hide Balance, Apply, Stems, FreshOutputs, Txid, TakenFrom, PaidTo, Chosen, Consensus.ApplyBlock, Consistent,
      MineBlock, MiningCandidate, Solves, Independent, AllUntouched, Consensus.ApplyTransactions, TakenByAll,
      PaidByAll, DistinctIds, PaysUnder, NextSubsidyFits, Mineable, NoCollision, BlockWork, TipApplied, Total;
    var u, height, txs, coinbase := n.activeUtxos, NextHeight(n), b.transactions[1..], b.transactions[0];
    MiningClosesTheLoop(n, r, nonce, b);
    MinedBlockShape(n, r, nonce, b);
    var fees := MinedBlockApplies(n, r, nonce, b);
    ConsistentPool(n);
    ChosenHaveDistinctIds(n.mempool, u, r.maxTransactions);
    ValidIsUntouched(u, txs);
    AppliedHasTransactions(u, b, height);
    assert Stems(u, [], u) by {
      SelfStems(u);
    }
    assert [] + txs == txs;
    TransactionsMoveBalance(u, [], u, txs, height, 0, key);
    var before := Consensus.BeforeCoinbase(u, b, height);
    CoinbaseMovesBalance(u, txs, before, coinbase, height, key, r.minerKey);
  }

  lemma SelfStems(u: Utxos)
    ensures Stems(u, [], u)
  {
  }

  lemma CoinbaseMovesBalance(
    u: Utxos, txs: seq<Transaction>, w: Utxos, coinbase: Transaction, height: nat, key: Hash, minerKey: Hash)
    requires Stems(u, txs, w) && FreshOutputs(u, coinbase)
    requires coinbase.inputs == [] && |coinbase.outputs| == 1 && coinbase.outputs[0].lockingData == minerKey
    requires !PaysUnder(txs, Txid(coinbase), key)
    ensures Balance(Apply(w, coinbase, height), key)
            == Balance(w, key) + if key == minerKey then coinbase.outputs[0].value else 0
  {
    hide Balance, Apply, Txid;
    ApplyMovesBalance(w, coinbase, height, key);
    PaymentOutputsPay(coinbase.outputs, key);
    var lost := Overwritten(w, coinbase, height);
    forall o | o in lost
      ensures lost[o].output.lockingData != key
    {
      assert o !in u && PaysUnder(txs, o.txid, w[o].output.lockingData);
      assert o.txid == Txid(coinbase);
    }
    assert Owned(lost, key) == map[];
    NothingOwned(lost, key);
  }

  lemma NothingOwned(u: Utxos, key: Hash)
    requires Owned(u, key) == map[]
    ensures Balance(u, key) == 0
  {
  }

  // ---- The miner --------------------------------------------------------------------------

  lemma {:induction false} NothingPaid(outputs: seq<TxOut>, key: Hash)
    requires forall v :: 0 <= v < |outputs| ==> outputs[v].lockingData != key
    ensures PaidTo(outputs, key) == 0
  {
    if outputs != [] {
      NothingPaid(outputs[..|outputs| - 1], key);
    }
  }

  /** `tx` neither pays nor spends `key`. */
  ghost predicate LeavesAlone(u: Utxos, tx: Transaction, key: Hash) {
    && TakesNothingFrom(u, tx.inputs, key)
    && forall v :: 0 <= v < |tx.outputs| ==> tx.outputs[v].lockingData != key
  }

  lemma {:induction false} NothingMoved(u: Utxos, txs: seq<Transaction>, key: Hash)
    requires forall i :: 0 <= i < |txs| ==> LeavesAlone(u, txs[i], key)
    ensures TakenByAll(u, txs, key) == 0 && PaidByAll(txs, key) == 0
  {
    if txs != [] {
      NothingTaken(u, txs[0].inputs, key);
      NothingPaid(txs[0].outputs, key);
      NothingMoved(u, txs[1..], key);
    }
  }

  lemma NoneUnder(u: Utxos, txs: seq<Transaction>, id: Hash, key: Hash)
    requires forall i :: 0 <= i < |txs| ==> LeavesAlone(u, txs[i], key)
    ensures !PaysUnder(txs, id, key)
  {
    hide Txid, TakesNothingFrom;
  }

  /** So when no chosen transaction pays or spends the miner key, its balance grows by exactly the subsidy
      and the fees. */
  lemma MinerEarnsReward(n: Node, r: MiningRequest, nonce: u32, b: Block)
    requires Solves(n, r, nonce, b) && ReadyToMine(n, r, b) && TipApplied(n)
    requires forall e :: e in Chosen(n.mempool, r.maxTransactions) ==> LeavesAlone(n.activeUtxos, e.1, r.minerKey)
    ensures Consensus.ApplyBlock(n.activeUtxos, b, NextHeight(n)).Ok?
    ensures Balance(MineBlock(n, r, nonce).0.activeUtxos, r.minerKey)
            == Balance(n.activeUtxos, r.minerKey) + r.subsidy
               + Consensus.BlockFees(n.activeUtxos, b, NextHeight(n))
  {
    hide Balance, Apply, FreshOutputs, Txid, Chosen, Consensus.ApplyBlock, Consistent, MineBlock, MiningCandidate,
      Solves, TakenByAll, PaidByAll, NextSubsidyFits, Mineable, NoCollision, BlockWork, TipApplied, TakesNothingFrom,
      PaysUnder;
    MiningClosesTheLoop(n, r, nonce, b);
    var chosen, txs := Chosen(n.mempool, r.maxTransactions), b.transactions[1..];
    forall i | 0 <= i < |txs|
      ensures LeavesAlone(n.activeUtxos, txs[i], r.minerKey)
    {
      assert chosen[i] in chosen;
    }
    NothingMoved(n.activeUtxos, txs, r.minerKey);
    NoneUnder(n.activeUtxos, txs, Txid(b.transactions[0]), r.minerKey);
    MiningMovesBalance(n, r, nonce, b, r.minerKey);
  }
}
