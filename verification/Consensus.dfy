/** Block rules: structure, proof of work, the reward bound, and atomic application. */
module Consensus {
  import opened Primitives
  import opened Types
  import opened State
  import PowTarget
  import Merkle

  const BLOCK_SUBSIDY: u64 := 50

  datatype ConsensusError =
    | EmptyBlock
    | BadMerkleRoot
    | FirstTransactionNotCoinbase
    | MultipleCoinbaseTransactions
    | CoinbaseRewardTooLarge(allowed: u64, actual: u64)
    | InvalidPowTarget
    | InsufficientProofOfWork
    | InvalidTransaction(error: ValidationError)

  /** The rules that need only the block: work, shape, coinbase placement, merkle commitment. */
  function ValidateBlock(b: Block): (r: Result<(), ConsensusError>)
    ensures r.Ok? ==>
      && b.transactions != []
      && b.transactions[0].IsCoinbase()
      && (forall i :: 1 <= i < |b.transactions| ==> !b.transactions[i].IsCoinbase())
      && PowTarget.FromCompact(b.header.bits).Some?
  {
    match PowTarget.FromCompact(b.header.bits)
    case None => Err(InvalidPowTarget)
    case Some(target) =>
      if !PowTarget.IsMetBy(target, BlockHash(b)) then Err(InsufficientProofOfWork)
      else if b.transactions == [] then Err(EmptyBlock)
      else if !b.transactions[0].IsCoinbase() then Err(FirstTransactionNotCoinbase)
      else if exists i :: 1 <= i < |b.transactions| && b.transactions[i].IsCoinbase() then
        Err(MultipleCoinbaseTransactions)
      else if b.header.merkleRoot != Merkle.MerkleRoot(b.transactions) then Err(BadMerkleRoot)
      else Ok(())
  }

  /** Validates and applies `txs` in order, adding their fees to `fees`. */
  function ApplyTransactions(u: Utxos, txs: seq<Transaction>, height: nat, fees: u64)
    : Result<(Utxos, u64), ValidationError>
    decreases |txs|
  {
    if txs == [] then Ok((u, fees))
    else
      match Validate(u, txs[0])
      case Err(e) => Err(e)
      case Ok(v) =>
        if fees + v.fee > U64_MAX then Err(InputValueOverflow)
        else ApplyTransactions(Apply(u, txs[0], height), txs[1..], height, fees + v.fee)
  }

  /** Applies the coinbase after the rest of the block, bounding what it may claim. */
  function ApplyCoinbase(u: Utxos, coinbase: Transaction, height: nat, fees: u64): Result<Utxos, ConsensusError> {
    if BLOCK_SUBSIDY + fees > U64_MAX then Err(InvalidTransaction(InputValueOverflow))
    else if OutputSum(coinbase.outputs) > U64_MAX then Err(InvalidTransaction(OutputValueOverflow))
    else if OutputSum(coinbase.outputs) > BLOCK_SUBSIDY + fees then
      Err(CoinbaseRewardTooLarge(BLOCK_SUBSIDY + fees, OutputSum(coinbase.outputs)))
    else
      match Validate(u, coinbase)
      case Err(e) => Err(InvalidTransaction(e))
      case Ok(_) => Ok(Apply(u, coinbase, height))
  }

  function ApplyBlock(u: Utxos, b: Block, height: nat): Result<Utxos, ConsensusError> {
    match ValidateBlock(b)
    case Err(e) => Err(e)
    case Ok(_) =>
      match ApplyTransactions(u, b.transactions[1..], height, 0)
      case Err(e) => Err(InvalidTransaction(e))
      case Ok((v, fees)) => ApplyCoinbase(v, b.transactions[0], height, fees)
  }

  lemma AppliedBlockIsValid(u: Utxos, b: Block, height: nat)
    requires ApplyBlock(u, b, height).Ok?
    ensures ValidateBlock(b).Ok? && b.transactions != [] && b.transactions[0].IsCoinbase()
    ensures forall i :: 1 <= i < |b.transactions| ==> !b.transactions[i].IsCoinbase()
  {
  }

  /** The transaction loop of block application, on the working copy `candidate`. */
  method RunTransactions(candidate: UtxoSet, txs: seq<Transaction>, height: nat)
    returns (r: Result<u64, ValidationError>)
    modifies candidate
    ensures ApplyTransactions(old(candidate.entries), txs, height, 0)
            == if r.Ok? then Ok((candidate.entries, r.value)) else Err(r.error)
  {
    hide Txid, SigningDigest, Apply, Validate;
    var totalFees: u64 := 0;
    for i := 0 to |txs|
      invariant ApplyTransactions(old(candidate.entries), txs, height, 0)
             == ApplyTransactions(candidate.entries, txs[i..], height, totalFees)
    {
      ValidateIffAcceptable(candidate.entries, txs[i]);
      assert txs[i..][0] == txs[i] && txs[i..][1..] == txs[i + 1..];
      var fee := candidate.TransactionFee(txs[i]);
      if fee.Err? {
        return Err(fee.error);
      }
      if totalFees + fee.value > U64_MAX {
        return Err(InputValueOverflow);
      }
      totalFees := totalFees + fee.value;
      var _ := candidate.ApplyTransaction(txs[i], height);
    }
    return Ok(totalFees);
  }

  /** Runs the block on a copy and installs the copy only when every rule held. */
  method ApplyBlockTo(utxos: UtxoSet, b: Block, height: nat) returns (r: Result<(), ConsensusError>)
    modifies utxos
    ensures ApplyBlock(old(utxos.entries), b, height)
            == if r.Ok? then Ok(utxos.entries) else Err(r.error)
    ensures r.Err? ==> utxos.entries == old(utxos.entries)
  {
    hide Txid, SigningDigest, Apply, Validate, ApplyTransactions;
    var valid := ValidateBlock(b);
    if valid.Err? {
      return Err(valid.error);
    }
    var candidate := new UtxoSet(utxos.entries);
    var totalFees := RunTransactions(candidate, b.transactions[1..], height);
    if totalFees.Err? {
      return Err(InvalidTransaction(totalFees.error));
    }
    var allowedReward := BLOCK_SUBSIDY + totalFees.value;
    if allowedReward > U64_MAX {
      return Err(InvalidTransaction(InputValueOverflow));
    }
    var reward := SumOutputs(b.transactions[0].outputs);
    if reward.Err? {
      return Err(InvalidTransaction(reward.error));
    }
    if reward.value > allowedReward {
      return Err(CoinbaseRewardTooLarge(allowedReward, reward.value));
    }
    ValidateIffAcceptable(candidate.entries, b.transactions[0]);
    var applied := candidate.ApplyTransaction(b.transactions[0], height);
    if applied.Err? {
      return Err(InvalidTransaction(applied.error));
    }
    utxos.entries := candidate.entries;
    return Ok(());
  }

  // ---- Accounting -------------------------------------------------------------------------

  /** Value of the entries overwritten while `txs` are applied in order. */
  ghost function LostValue(u: Utxos, txs: seq<Transaction>, height: nat): nat
    decreases |txs|
  {
    if txs == [] then 0
    else Total(Overwritten(u, txs[0], height)) + LostValue(Apply(u, txs[0], height), txs[1..], height)
  }

  lemma {:induction false} TransactionsConserve(u: Utxos, txs: seq<Transaction>, height: nat, fees: u64)
    requires ApplyTransactions(u, txs, height, fees).Ok?
    requires forall i :: 0 <= i < |txs| ==> !txs[i].IsCoinbase()
    ensures var (v, total) := ApplyTransactions(u, txs, height, fees).value;
            Total(v) + total + LostValue(u, txs, height) == Total(u) + fees
    decreases |txs|
  {
    hide Txid, SigningDigest, Validate, Apply, Total;
    if txs != [] {
      ApplyConserves(u, txs[0], height);
      TransactionsConserve(Apply(u, txs[0], height), txs[1..], height, fees + Validate(u, txs[0]).value.fee);
    }
  }

  /** The fees `ApplyBlock` collects from the transactions after the coinbase. */
  function BlockFees(u: Utxos, b: Block, height: nat): u64
    requires ApplyBlock(u, b, height).Ok?
  {
    ApplyTransactions(u, b.transactions[1..], height, 0).value.1
  }

  /** The set the coinbase is applied to. */
  function BeforeCoinbase(u: Utxos, b: Block, height: nat): Utxos
    requires ApplyBlock(u, b, height).Ok?
  {
    ApplyTransactions(u, b.transactions[1..], height, 0).value.0
  }

  /** Block-level conservation, with the reward bound it rests on: value enters only through the
      coinbase, and leaves only as fees and as overwritten entries. */
  lemma BlockConserves(u: Utxos, b: Block, height: nat)
    requires ApplyBlock(u, b, height).Ok?
    ensures var claimed := OutputSum(b.transactions[0].outputs);
            var lost := LostValue(u, b.transactions[1..], height)
                        + Total(Overwritten(BeforeCoinbase(u, b, height), b.transactions[0], height));
            && claimed <= 50 + BlockFees(u, b, height)
            && Total(ApplyBlock(u, b, height).value) + BlockFees(u, b, height) + lost == Total(u) + claimed
  {
    hide Txid, SigningDigest, Validate, Apply, Total;
    TransactionsConserve(u, b.transactions[1..], height, 0);
    ApplyConserves(BeforeCoinbase(u, b, height), b.transactions[0], height);
  }

  /** A block adds at most 50 to the total unspent value. */
  lemma BlockSupplyBound(u: Utxos, b: Block, height: nat)
    requires ApplyBlock(u, b, height).Ok?
    ensures Total(ApplyBlock(u, b, height).value) <= Total(u) + 50
  {
    hide ApplyBlock, Total;
    BlockConserves(u, b, height);
  }

  lemma {:induction false} TransactionsNeverOverflow(u: Utxos, txs: seq<Transaction>, height: nat, fees: u64)
    requires Total(u) + fees <= U64_MAX
    requires forall i :: 0 <= i < |txs| ==> !txs[i].IsCoinbase()
    ensures ApplyTransactions(u, txs, height, fees) != Err(InputValueOverflow)
    ensures ApplyTransactions(u, txs, height, fees).Ok? ==>
            ApplyTransactions(u, txs, height, fees).value.1 <= Total(u) + fees
    decreases |txs|
  {
    hide Txid, SigningDigest, Validate, Apply, Total;
    if txs != [] {
      ValidateNeverOverflowsInputs(u, txs[0]);
      if Validate(u, txs[0]).Ok? {
        ApplyConserves(u, txs[0], height);
        TransactionsNeverOverflow(Apply(u, txs[0], height), txs[1..], height, fees + Validate(u, txs[0]).value.fee);
      }
    }
  }

  lemma CoinbaseNeverOverflowsInputs(u: Utxos, coinbase: Transaction)
    requires coinbase.IsCoinbase()
    ensures Validate(u, coinbase) != Err(InputValueOverflow)
  {
  }

  /** While the supply plus one subsidy fits in 64 bits, no block is ever rejected for overflow. */
  lemma BlockNeverOverflows(u: Utxos, b: Block, height: nat)
    requires Total(u) + BLOCK_SUBSIDY <= U64_MAX
    ensures ApplyBlock(u, b, height) != Err(InvalidTransaction(InputValueOverflow))
  {
    hide Txid, SigningDigest, Validate, Apply, Total, PowTarget.FromCompact, PowTarget.IsMetBy;
    if ValidateBlock(b).Ok? {
      TransactionsNeverOverflow(u, b.transactions[1..], height, 0);
      var applied := ApplyTransactions(u, b.transactions[1..], height, 0);
      if applied.Ok? {
        CoinbaseNeverOverflowsInputs(applied.value.0, b.transactions[0]);
      }
    }
  }
}
