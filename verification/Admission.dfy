/** Exactly when the pool admits a transaction, and why it refuses one. */
module Admission {
  import opened Primitives
  import opened Crypto
  import opened Types
  import opened State
  import opened Sorting
  import opened Mempool
  import Sums

  lemma SameLength(u: Utxos, left: Transaction, right: Transaction)
    requires Validate(u, left).Ok? && Validate(u, right).Ok? && Spent(left.inputs) == Spent(right.inputs)
    ensures SameInputSet(left, right)
  {
    hide Validate, SameInputSet, Spent;
    SameInputSetIsEquality(u, left, right);
  }

  lemma RoomAfter(pool: Pool, id: Hash)
    requires id in pool && |pool| <= MAX_MEMPOOL_TRANSACTIONS
    ensures |pool.Keys - {id}| < MAX_MEMPOOL_TRANSACTIONS
  {
    assert |pool.Keys - {id}| == |pool.Keys| - 1;
  }

  lemma ConflictsMakeRoom(pool: Pool, ids: set<Hash>)
    requires ids <= pool.Keys && |pool| <= MAX_MEMPOOL_TRANSACTIONS
    ensures ids != {} ==> |pool.Keys - ids| < MAX_MEMPOOL_TRANSACTIONS
  {
    if ids != {} {
      RoomAfter(pool, Least(ids));
      Sums.SubsetCardinality(pool.Keys - ids, pool.Keys - {Least(ids)});
    }
  }

  // ---- Admission --------------------------------------------------------------------------

  lemma ReplacementAdmitted(pool: Pool, u: Utxos, tx: Transaction, id: Hash)
    requires PoolInv(pool, u) && Validate(u, tx).Ok? && FollowsPolicy(pool, u, tx, Replaced(id))
    ensures ConflictRefusal(pool, u, tx, FeeOf(u, tx)).None? && CapacityRefusal(pool, u, tx, FeeOf(u, tx)).None?
  {
    hide Validate, Txid, Spent, Conflicts, FeeOf, SameInputSet, ConflictingIds;
    assert id in ConflictingIds(pool, tx);
    SameLength(u, tx, pool[id]);
    RoomAfter(pool, id);
    assert HighestFee(pool, u, {id}) == FeeOf(u, pool[id]);
  }

  lemma NewcomerAdmitted(pool: Pool, u: Utxos, tx: Transaction, effect: Effect)
    requires PoolInv(pool, u) && FollowsPolicy(pool, u, tx, effect) && !effect.Replaced?
    ensures ConflictRefusal(pool, u, tx, FeeOf(u, tx)).None? && CapacityRefusal(pool, u, tx, FeeOf(u, tx)).None?
  {
    hide Validate, Txid, Spent, Conflicts, FeeOf, ConflictingIds, EvictsBefore;
    assert pool.Keys - {} == pool.Keys;
    if effect.Evicted? {
      VictimUnique(pool, u, pool.Keys, effect.victim, Victim(pool, u, pool.Keys));
    }
  }

  /** The policy admits a transaction with at most one effect. */
  lemma PolicyIsFunctional(pool: Pool, u: Utxos, tx: Transaction, a: Effect, b: Effect)
    requires FollowsPolicy(pool, u, tx, a) && FollowsPolicy(pool, u, tx, b)
    ensures a == b
  {
    hide FeeOf, Spent, Conflicts, ConflictingIds, EvictsBefore;
    assert a.Replaced? ==> a.displaced in ConflictingIds(pool, tx);
    assert b.Replaced? ==> b.displaced in ConflictingIds(pool, tx);
    if a.Evicted? && b.Evicted? {
      VictimUnique(pool, u, pool.Keys, a.victim, b.victim);
    }
  }

  ghost predicate Admissible(pool: Pool, u: Utxos, tx: Transaction) {
    Txid(tx) !in pool && Validate(u, tx).Ok? && exists effect :: FollowsPolicy(pool, u, tx, effect)
  }

  /** A submission succeeds exactly when it is new, valid and has an effect the policy allows. */
  lemma SubmitSucceedsIff(pool: Pool, u: Utxos, tx: Transaction)
    requires PoolInv(pool, u)
    ensures SubmitTransaction(pool, u, tx).1.Ok? <==> Admissible(pool, u, tx)
    ensures SubmitTransaction(pool, u, tx).1.Ok? ==> SubmitTransaction(pool, u, tx).1.value == Txid(tx)
  {
    hide Validate, Txid, ConflictRefusal, CapacityRefusal, Displaced, PoolInv, FollowsPolicy;
    if SubmitTransaction(pool, u, tx).1.Ok? {
      var effect := SubmitEffect(pool, u, tx);
      assert FollowsPolicy(pool, u, tx, effect);
    } else if Admissible(pool, u, tx) {
      var effect :| FollowsPolicy(pool, u, tx, effect);
      if effect.Replaced? {
        ReplacementAdmitted(pool, u, tx, effect.displaced);
      } else {
        NewcomerAdmitted(pool, u, tx, effect);
      }
    }
  }

  // ---- Refusal ----------------------------------------------------------------------------

  /** What each error says about the transaction and the pool. */
  ghost predicate Explained(pool: Pool, u: Utxos, tx: Transaction, error: MempoolError) {
    match error
    case DuplicateTransaction(id) => id == Txid(tx) && id in pool
    case InvalidTransaction(e) => Validate(u, tx) == Err(e)
    case ConflictingInput(o) =>
      && (exists k :: 0 <= k < |tx.inputs| && IsFirstClaimed(pool, tx, 0, k) && o == tx.inputs[k].previousOutput)
      && exists id :: id in ConflictingIds(pool, tx) && Spent(pool[id].inputs) != Spent(tx.inputs)
    case ReplacementFeeTooLow(existing, replacement) =>
      exists id :: id in pool && IsRival(pool, u, tx, id, existing) && replacement == FeeOf(u, tx) <= existing
    case CapacityFeeTooLow(lowest, candidate) =>
      && ConflictingIds(pool, tx) == {} && |pool| == MAX_MEMPOOL_TRANSACTIONS
      && (forall id :: id in pool ==> lowest <= FeeOf(u, pool[id]))
      && (exists id :: id in pool && lowest == FeeOf(u, pool[id]))
      && candidate == FeeOf(u, tx) <= lowest
  }

  /** The one conflict of `tx`, over the same inputs, with its fee. */
  ghost predicate IsRival(pool: Pool, u: Utxos, tx: Transaction, id: Hash, fee: u64)
    requires id in pool
  {
    ConflictingIds(pool, tx) == {id} && Spent(pool[id].inputs) == Spent(tx.inputs) && fee == FeeOf(u, pool[id])
  }

  lemma ConflictExplained(pool: Pool, u: Utxos, tx: Transaction)
    requires PoolInv(pool, u) && Validate(u, tx).Ok?
    requires ConflictRefusal(pool, u, tx, FeeOf(u, tx)).Some?
    ensures Explained(pool, u, tx, ConflictRefusal(pool, u, tx, FeeOf(u, tx)).value)
  {
    hide Validate, Txid, Spent, Conflicts, FeeOf, ConflictingIds, Claimed;
    var ids := ConflictingIds(pool, tx);
    if Replaceable(pool, tx, ids) {
      var id := Least(ids);
      assert id in ids;
      ReplacementIsUnique(pool, u, tx, id);
      assert IsRival(pool, u, tx, id, HighestFee(pool, u, ids));
    } else {
      var id :| id in ids && !SameInputSet(tx, pool[id]);
      SameInputSetIsEquality(u, tx, pool[id]);
      ConflictExposesInput(pool, tx);
      var k := NoEarlierConflict(pool, tx, 0);
    }
  }

  /** A conflict that may be replaced frees its own place, so the capacity rule never refuses it. */
  lemma CapacityExplained(pool: Pool, u: Utxos, tx: Transaction)
    requires PoolInv(pool, u) && CapacityRefusal(pool, u, tx, FeeOf(u, tx)).Some?
    ensures Explained(pool, u, tx, CapacityRefusal(pool, u, tx, FeeOf(u, tx)).value)
  {
    hide Validate, Txid, Spent, Conflicts, FeeOf, ConflictingIds, Rank;
    var ids := ConflictingIds(pool, tx);
    ConflictsMakeRoom(pool, ids);
    assert pool.Keys - {} == pool.Keys;
    var victim := Victim(pool, u, pool.Keys);
    assert victim in pool;
  }

  /** Every refusal leaves the pool alone and reports the reason. */
  lemma RefusalIsExplained(pool: Pool, u: Utxos, tx: Transaction)
    requires PoolInv(pool, u) && SubmitTransaction(pool, u, tx).1.Err?
    ensures SubmitTransaction(pool, u, tx).0 == pool
    ensures Explained(pool, u, tx, SubmitTransaction(pool, u, tx).1.error)
  {
    hide Validate, Txid, ConflictRefusal, CapacityRefusal, Displaced, PoolInv, ConflictingIds, Spent, Claimed;
    if Txid(tx) !in pool && Validate(u, tx).Ok? {
      if ConflictRefusal(pool, u, tx, FeeOf(u, tx)).Some? {
        ConflictExplained(pool, u, tx);
      } else {
        CapacityExplained(pool, u, tx);
      }
    }
  }

  /** The first reason to refuse `tx`: a known id, then validity, then the policy. */
  ghost predicate FirstReason(pool: Pool, u: Utxos, tx: Transaction, error: MempoolError) {
    if Txid(tx) in pool then error == DuplicateTransaction(Txid(tx))
    else if Validate(u, tx).Err? then error == InvalidTransaction(Validate(u, tx).error)
    else Explained(pool, u, tx, error)
  }

  lemma ReasonIsFunctional(pool: Pool, u: Utxos, tx: Transaction, a: MempoolError, b: MempoolError)
    requires FirstReason(pool, u, tx, a) && FirstReason(pool, u, tx, b)
    ensures a == b
  {
    hide Validate, Txid, Spent, Conflicts, FeeOf, ConflictingIds, Claimed;
    if Txid(tx) !in pool && Validate(u, tx).Ok? {
      if a.ReplacementFeeTooLow? {
        var id :| id in pool && IsRival(pool, u, tx, id, a.existing);
        assert id in ConflictingIds(pool, tx);
      }
      if b.ReplacementFeeTooLow? {
        var id :| id in pool && IsRival(pool, u, tx, id, b.existing);
        assert id in ConflictingIds(pool, tx);
      }
    }
  }

  /** A transaction the policy admits gives no reason for refusal. */
  lemma AdmittedHasNoReason(pool: Pool, u: Utxos, tx: Transaction, effect: Effect, error: MempoolError)
    requires Txid(tx) !in pool && Validate(u, tx).Ok? && FollowsPolicy(pool, u, tx, effect)
    ensures !FirstReason(pool, u, tx, error)
  {
    hide Validate, Txid, Spent, Conflicts, FeeOf, ConflictingIds, Claimed;
    if effect.Replaced? {
      assert effect.displaced in ConflictingIds(pool, tx);
    }
  }

  /** A submission is refused with an error exactly when that error is the first reason. */
  lemma RefusedIff(pool: Pool, u: Utxos, tx: Transaction, error: MempoolError)
    requires PoolInv(pool, u)
    ensures SubmitTransaction(pool, u, tx).1 == Err(error) <==> FirstReason(pool, u, tx, error)
  {
    hide Validate, Txid, FirstReason, PoolInv, FollowsPolicy, SubmitTransaction;
    SubmitSucceedsIff(pool, u, tx);
    if SubmitTransaction(pool, u, tx).1.Ok? {
      var effect :| FollowsPolicy(pool, u, tx, effect);
      AdmittedHasNoReason(pool, u, tx, effect, error);
    } else {
      RefusalIsFirst(pool, u, tx);
      if FirstReason(pool, u, tx, error) {
        ReasonIsFunctional(pool, u, tx, error, SubmitTransaction(pool, u, tx).1.error);
      }
    }
  }

  lemma RefusalIsFirst(pool: Pool, u: Utxos, tx: Transaction)
    requires PoolInv(pool, u) && SubmitTransaction(pool, u, tx).1.Err?
    ensures FirstReason(pool, u, tx, SubmitTransaction(pool, u, tx).1.error)
  {
    hide Validate, Txid, PoolInv, Explained, ConflictRefusal, CapacityRefusal, Displaced;
    RefusalIsExplained(pool, u, tx);
  }
}
