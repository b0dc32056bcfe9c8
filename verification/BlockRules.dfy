/** What it takes for a block to be valid, stated over the states the block passes through. */
module BlockRules {
  import opened Primitives
  import opened Types
  import opened Bytes
  import opened State
  import opened Consensus
  import PowTarget
  import Merkle

  // ---- Rules that need only the block -----------------------------------------------------

  /** The target as a number, for bits that name one. */
  ghost function TargetValue(bits: u32): Option<nat> {
    var e, m := PowTarget.Exponent(bits), PowTarget.Mantissa(bits);
    if PowTarget.IsNegative(bits) || m == 0 || e > 32 then None
    else if e <= 3 then Some(m / Pow256(3 - e))
    else Some(m * Pow256(e - 3))
  }

  /** Enough work, exactly one coinbase in first place, and a header that commits to the list. */
  ghost predicate WellFormed(b: Block) {
    && TargetValue(b.header.bits).Some? && BigEndian(BlockHash(b)) <= TargetValue(b.header.bits).value
    && b.transactions != []
    && (forall i :: 0 <= i < |b.transactions| ==> (b.transactions[i].IsCoinbase() <==> i == 0))
    && b.header.merkleRoot == Merkle.MerkleRoot(b.transactions)
  }

  /** The checks accept exactly the well-formed blocks. */
  lemma ValidateBlockIff(b: Block)
    ensures ValidateBlock(b).Ok? <==> WellFormed(b)
  {
    hide PowTarget.FromCompact, PowTarget.IsMetBy, PowTarget.Mantissa, PowTarget.Exponent, PowTarget.IsNegative,
      BlockHash, Merkle.MerkleRoot, BigEndian, Pow256, Txid;
    var bits := b.header.bits;
    PowTarget.FromCompactValue(bits);
    if PowTarget.FromCompact(bits).Some? {
      PowTarget.IsMetByIsNumeric(PowTarget.FromCompact(bits).value, BlockHash(b));
    }
  }

  // ---- Rules that need the unspent set ----------------------------------------------------

  /** The set after the first `k` transactions, applied without any check. */
  ghost function StateAfter(u: Utxos, txs: seq<Transaction>, height: nat, k: nat): Utxos
    requires k <= |txs|
  {
    if k == 0 then u else Apply(StateAfter(u, txs, height, k - 1), txs[k - 1], height)
  }

  /** What the first `k` transactions bring in beyond what they pay out, each in its own state. */
  ghost function FeesAfter(u: Utxos, txs: seq<Transaction>, height: nat, k: nat): int
    requires k <= |txs|
  {
    if k == 0 then 0
    else FeesAfter(u, txs, height, k - 1) + Fee(StateAfter(u, txs, height, k - 1), txs[k - 1])
  }

  ghost predicate AcceptableAt(u: Utxos, txs: seq<Transaction>, height: nat, i: nat)
    requires i < |txs|
  {
    Acceptable(StateAfter(u, txs, height, i), txs[i])
  }

  ghost predicate AcceptableFrom(u: Utxos, txs: seq<Transaction>, height: nat, k: nat) {
    forall i :: k <= i < |txs| ==> AcceptableAt(u, txs, height, i)
  }

  lemma AcceptableHasFee(u: Utxos, tx: Transaction)
    requires Acceptable(u, tx)
    ensures 0 <= Fee(u, tx)
  {
  }

  lemma {:induction false} FeesGrow(u: Utxos, txs: seq<Transaction>, height: nat, k: nat)
    requires k <= |txs| && AcceptableFrom(u, txs, height, k)
    ensures FeesAfter(u, txs, height, k) <= FeesAfter(u, txs, height, |txs|)
    decreases |txs| - k
  {
    hide Acceptable, Fee, StateAfter;
    if k < |txs| {
      assert AcceptableAt(u, txs, height, k);
      AcceptableHasFee(StateAfter(u, txs, height, k), txs[k]);
      FeesGrow(u, txs, height, k + 1);
    }
  }

  /** The loop from transaction `k` on, started in the state and with the fees it would have. */
  lemma {:induction false} LoopIff(u: Utxos, txs: seq<Transaction>, height: nat, k: nat)
    requires k <= |txs| && 0 <= FeesAfter(u, txs, height, k) <= U64_MAX
    ensures var r := ApplyTransactions(StateAfter(u, txs, height, k), txs[k..], height, FeesAfter(u, txs, height, k));
            var total := FeesAfter(u, txs, height, |txs|);
            && (r.Ok? <==> AcceptableFrom(u, txs, height, k) && total <= U64_MAX)
            && (r.Ok? ==> r.value.0 == StateAfter(u, txs, height, |txs|) && r.value.1 == total)
    decreases |txs| - k
  {
    hide Acceptable, Validate, Fee, Apply;
    if k < |txs| {
      var here := StateAfter(u, txs, height, k);
      assert txs[k..][0] == txs[k] && txs[k..][1..] == txs[k + 1..];
      ValidateIffAcceptable(here, txs[k]);
      assert Acceptable(here, txs[k]) <==> AcceptableAt(u, txs, height, k);
      if Acceptable(here, txs[k]) {
        AcceptableHasFee(here, txs[k]);
        if FeesAfter(u, txs, height, k + 1) <= U64_MAX {
          LoopIff(u, txs, height, k + 1);
          assert AcceptableFrom(u, txs, height, k) <==> AcceptableFrom(u, txs, height, k + 1);
        } else if AcceptableFrom(u, txs, height, k + 1) {
          FeesGrow(u, txs, height, k + 1);
        }
      }
    } else {
      assert txs[k..] == [];
    }
  }

  /** Every transaction after the coinbase is acceptable where it stands, and the coinbase claims at
      most the subsidy of 50 and their fees. */
  ghost predicate Applicable(u: Utxos, b: Block, height: nat)
    requires b.transactions != []
  {
    var rest := b.transactions[1..];
    var allowed := 50 + FeesAfter(u, rest, height, |rest|);
    && AcceptableFrom(u, rest, height, 0)
    && b.transactions[0].outputs != []
    && OutputSum(b.transactions[0].outputs) <= allowed <= U64_MAX
  }

  /** A block applies exactly when it is well formed and applicable. The result is then the plain
      succession of its transactions, the coinbase last. */
  lemma ApplyBlockIff(u: Utxos, b: Block, height: nat)
    ensures ApplyBlock(u, b, height).Ok? <==> WellFormed(b) && Applicable(u, b, height)
    ensures ApplyBlock(u, b, height).Ok? ==>
              var rest := b.transactions[1..];
              && BlockFees(u, b, height) == FeesAfter(u, rest, height, |rest|)
              && ApplyBlock(u, b, height).value
                 == Apply(StateAfter(u, rest, height, |rest|), b.transactions[0], height)
  {
    hide WellFormed, ValidateBlock, Validate, Acceptable, Apply, AcceptableFrom, ApplyTransactions;
    ValidateBlockIff(b);
    if WellFormed(b) {
      WellFormedShape(b);
      var rest := b.transactions[1..];
      LoopIff(u, rest, height, 0);
      assert rest[0..] == rest;
      CoinbaseIff(StateAfter(u, rest, height, |rest|), b.transactions[0]);
    }
  }

  lemma WellFormedShape(b: Block)
    requires WellFormed(b)
    ensures b.transactions != [] && b.transactions[0].IsCoinbase()
  {
    hide BlockHash, Merkle.MerkleRoot, TargetValue, BigEndian;
  }

  lemma CoinbaseIff(u: Utxos, coinbase: Transaction)
    requires coinbase.IsCoinbase()
    ensures Validate(u, coinbase).Ok? <==> coinbase.outputs != [] && OutputSum(coinbase.outputs) <= U64_MAX
  {
  }
}
