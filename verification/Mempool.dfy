/** Pending transactions: admission, replacement by fee, capacity eviction, pruning and selection. */
module Mempool {
  import opened Primitives
  import opened Crypto
  import opened Types
  import opened State
  import opened Sums
  import opened Bytes
  import opened Sorting

  const MAX_MEMPOOL_TRANSACTIONS: nat := 1024

  datatype MempoolError =
    | DuplicateTransaction(txid: Hash)
    | ConflictingInput(outpoint: OutPoint)
    | ReplacementFeeTooLow(existing: u64, replacement: u64)
    | CapacityFeeTooLow(lowest: u64, candidate: u64)
    | InvalidTransaction(error: ValidationError)

  type Pool = map<Hash, Transaction>

  // ---- Admission --------------------------------------------------------------------------

  predicate Conflicts(left: Transaction, right: Transaction) {
    !(Spent(left.inputs) !! Spent(right.inputs))
  }

  /** Same number of inputs, and every input of `left` is an input of `right`. */
  predicate SameInputSet(left: Transaction, right: Transaction) {
    |left.inputs| == |right.inputs| && Spent(left.inputs) <= Spent(right.inputs)
  }

  function ConflictingIds(pool: Pool, tx: Transaction): (ids: set<Hash>)
    ensures ids <= pool.Keys
  {
    set id | id in pool && Conflicts(tx, pool[id])
  }

  predicate Claimed(pool: Pool, o: OutPoint) {
    exists id :: id in pool && o in Spent(pool[id].inputs)
  }

  /** Input `k` is claimed, and none from position `i` up to it is. */
  predicate IsFirstClaimed(pool: Pool, tx: Transaction, i: nat, k: nat)
    requires i <= k < |tx.inputs|
  {
    && Claimed(pool, tx.inputs[k].previousOutput)
    && forall j :: i <= j < k ==> !Claimed(pool, tx.inputs[j].previousOutput)
  }

  /** The first input of `tx`, from position `i` on, that a pending transaction also spends. */
  function FirstConflictingInput(pool: Pool, tx: Transaction, i: nat): (o: OutPoint)
    requires exists j :: i <= j < |tx.inputs| && Claimed(pool, tx.inputs[j].previousOutput)
    ensures Claimed(pool, o) && o in Spent(tx.inputs)
    decreases |tx.inputs| - i
  {
    if Claimed(pool, tx.inputs[i].previousOutput) then tx.inputs[i].previousOutput
    else FirstConflictingInput(pool, tx, i + 1)
  }

  lemma {:induction false} NoEarlierConflict(pool: Pool, tx: Transaction, i: nat) returns (k: nat)
    requires exists j :: i <= j < |tx.inputs| && Claimed(pool, tx.inputs[j].previousOutput)
    ensures i <= k < |tx.inputs| && IsFirstClaimed(pool, tx, i, k)
    ensures FirstConflictingInput(pool, tx, i) == tx.inputs[k].previousOutput
    decreases |tx.inputs| - i
  {
    hide Claimed;
    if Claimed(pool, tx.inputs[i].previousOutput) {
      k := i;
    } else {
      k := NoEarlierConflict(pool, tx, i + 1);
    }
  }

  /** A conflict always exposes a claimed input. */
  lemma ConflictExposesInput(pool: Pool, tx: Transaction)
    requires ConflictingIds(pool, tx) != {}
    ensures exists j :: 0 <= j < |tx.inputs| && Claimed(pool, tx.inputs[j].previousOutput)
  {
    var id :| id in ConflictingIds(pool, tx);
    var o :| o in Spent(tx.inputs) && o in Spent(pool[id].inputs);
    var input :| input in tx.inputs && input.previousOutput == o;
    var j :| 0 <= j < |tx.inputs| && tx.inputs[j] == input;
    assert Claimed(pool, tx.inputs[j].previousOutput);
  }

  /** Fee of a pending transaction; pending transactions are valid, so the default is never used. */
  function FeeOf(u: Utxos, tx: Transaction): u64 {
    match Validate(u, tx)
    case Ok(v) => v.fee
    case Err(_) => 0
  }

  predicate Replaceable(pool: Pool, tx: Transaction, ids: set<Hash>)
    requires ids <= pool.Keys
  {
    forall id :: id in ids ==> SameInputSet(tx, pool[id])
  }

  /** The eviction order: lowest fee first, ties by transaction id. */
  predicate EvictsBefore(pool: Pool, u: Utxos, a: Hash, b: Hash)
    requires a in pool && b in pool
  {
    FeeOf(u, pool[a]) < FeeOf(u, pool[b])
    || (FeeOf(u, pool[a]) == FeeOf(u, pool[b]) && Rank(a) <= Rank(b))
  }

  predicate IsVictim(pool: Pool, u: Utxos, s: set<Hash>, id: Hash)
    requires s <= pool.Keys
  {
    id in s && forall other :: other in s ==> EvictsBefore(pool, u, id, other)
  }

  lemma {:induction false} VictimExists(pool: Pool, u: Utxos, s: set<Hash>)
    requires s <= pool.Keys && s != {}
    ensures exists id :: IsVictim(pool, u, s, id)
  {
    hide FeeOf, Rank;
    var x :| x in s;
    if s == {x} {
      assert IsVictim(pool, u, s, x);
    } else {
      VictimExists(pool, u, s - {x});
      var m :| IsVictim(pool, u, s - {x}, m);
      assert s == (s - {x}) + {x};
      assert IsVictim(pool, u, s, if EvictsBefore(pool, u, m, x) then m else x);
    }
  }

  lemma VictimUnique(pool: Pool, u: Utxos, s: set<Hash>, a: Hash, b: Hash)
    requires s <= pool.Keys && IsVictim(pool, u, s, a) && IsVictim(pool, u, s, b)
    ensures a == b
  {
    hide FeeOf;
    RankInjective(a, b);
  }

  /** The element of `s` that is evicted first. */
  function Victim(pool: Pool, u: Utxos, s: set<Hash>): (id: Hash)
    requires s <= pool.Keys && s != {}
    ensures IsVictim(pool, u, s, id)
  {
    VictimExists(pool, u, s);
    assert forall a, b :: IsVictim(pool, u, s, a) && IsVictim(pool, u, s, b) ==> a == b by {
      forall a, b | IsVictim(pool, u, s, a) && IsVictim(pool, u, s, b)
        ensures a == b
      {
        VictimUnique(pool, u, s, a, b);
      }
    }
    var id :| IsVictim(pool, u, s, id);
    id
  }

  /** Whom a newcomer would have to displace when the survivors of its conflicts fill the pool. */
  function EvictionCandidate(pool: Pool, u: Utxos, ids: set<Hash>): (victim: Option<Hash>)
    requires ids <= pool.Keys
    ensures victim.Some? ==> victim.value in pool && victim.value !in ids
  {
    if |pool.Keys - ids| < MAX_MEMPOOL_TRANSACTIONS then None else Some(Victim(pool, u, pool.Keys - ids))
  }

  /** There is a candidate exactly when the survivors fill the pool, and it is the cheapest of them. */
  lemma EvictionCandidateIsCheapest(pool: Pool, u: Utxos, ids: set<Hash>)
    requires ids <= pool.Keys
    ensures EvictionCandidate(pool, u, ids).Some? <==> |pool.Keys - ids| >= MAX_MEMPOOL_TRANSACTIONS
    ensures EvictionCandidate(pool, u, ids).Some? ==>
              var victim := EvictionCandidate(pool, u, ids).value;
              && IsVictim(pool, u, pool.Keys - ids, victim)
              && forall id :: id in pool.Keys - ids ==>
                   || FeeOf(u, pool[victim]) < FeeOf(u, pool[id])
                   || (FeeOf(u, pool[victim]) == FeeOf(u, pool[id]) && LexLe(victim, id))
  {
    hide FeeOf, Rank, LexLe;
    if EvictionCandidate(pool, u, ids).Some? {
      var victim := EvictionCandidate(pool, u, ids).value;
      forall id | id in pool.Keys - ids
        ensures || FeeOf(u, pool[victim]) < FeeOf(u, pool[id])
                || (FeeOf(u, pool[victim]) == FeeOf(u, pool[id]) && LexLe(victim, id))
      {
        assert EvictsBefore(pool, u, victim, id);
        RankIsByteOrder(victim, id);
      }
    }
  }

  /** The highest fee among `ids`, as the last in eviction order has it. */
  function HighestFee(pool: Pool, u: Utxos, ids: set<Hash>): (fee: u64)
    requires ids <= pool.Keys && ids != {}
    ensures exists id :: id in ids && fee == FeeOf(u, pool[id])
    ensures forall id :: id in ids ==> FeeOf(u, pool[id]) <= fee
    decreases |ids|
  {
    var id := Least(ids);
    if ids == {id} then FeeOf(u, pool[id])
    else
      var rest := HighestFee(pool, u, ids - {id});
      if rest < FeeOf(u, pool[id]) then FeeOf(u, pool[id]) else rest
  }

  function ConflictRefusal(pool: Pool, u: Utxos, tx: Transaction, fee: u64): Option<MempoolError> {
    var ids := ConflictingIds(pool, tx);
    if ids == {} then None
    else if !Replaceable(pool, tx, ids) then
      ConflictExposesInput(pool, tx);
      Some(ConflictingInput(FirstConflictingInput(pool, tx, 0)))
    else if fee <= HighestFee(pool, u, ids) then
      Some(ReplacementFeeTooLow(HighestFee(pool, u, ids), fee))
    else None
  }

  function CapacityRefusal(pool: Pool, u: Utxos, tx: Transaction, fee: u64): Option<MempoolError> {
    match EvictionCandidate(pool, u, ConflictingIds(pool, tx))
    case None => None
    case Some(victim) =>
      if fee <= FeeOf(u, pool[victim]) then Some(CapacityFeeTooLow(FeeOf(u, pool[victim]), fee)) else None
  }

  /** What leaves the pool when `tx` enters: its conflicts and, in a full pool, the eviction candidate. */
  function Displaced(pool: Pool, u: Utxos, tx: Transaction): set<Hash> {
    var ids := ConflictingIds(pool, tx);
    match EvictionCandidate(pool, u, ids)
    case None => ids
    case Some(victim) => {victim} + ids
  }

  function SubmitTransaction(pool: Pool, u: Utxos, tx: Transaction): (Pool, Result<Hash, MempoolError>) {
    if Txid(tx) in pool then (pool, Err(DuplicateTransaction(Txid(tx))))
    else
      match Validate(u, tx)
      case Err(e) => (pool, Err(InvalidTransaction(e)))
      case Ok(v) =>
        var conflict := ConflictRefusal(pool, u, tx, v.fee);
        var capacity := CapacityRefusal(pool, u, tx, v.fee);
        if conflict.Some? then (pool, Err(conflict.value))
        else if capacity.Some? then (pool, Err(capacity.value))
        else ((pool - Displaced(pool, u, tx))[Txid(tx) := tx], Ok(Txid(tx)))
  }

  /** Keeps the transactions that are still valid. */
  function PruneInvalid(pool: Pool, u: Utxos): Pool {
    map id | id in pool && Validate(u, pool[id]).Ok? :: pool[id]
  }

  // ---- The invariant ----------------------------------------------------------------------

  ghost predicate AllValid(pool: Pool, u: Utxos) {
    forall id :: id in pool ==> Validate(u, pool[id]).Ok?
  }

  ghost predicate ConflictFree(pool: Pool) {
    forall a, b :: a in pool && b in pool && a != b ==> !Conflicts(pool[a], pool[b])
  }

  ghost predicate KeyedById(pool: Pool) {
    forall id :: id in pool ==> Txid(pool[id]) == id
  }

  /** Keyed by id, conflict-free and within capacity. */
  ghost predicate Shaped(pool: Pool) {
    KeyedById(pool) && ConflictFree(pool) && |pool| <= MAX_MEMPOOL_TRANSACTIONS
  }

  ghost predicate PoolInv(pool: Pool, u: Utxos) {
    Shaped(pool) && AllValid(pool, u)
  }

  lemma InvParts(pool: Pool, u: Utxos)
    requires PoolInv(pool, u)
    ensures AllValid(pool, u) && KeyedById(pool) && |pool| <= MAX_MEMPOOL_TRANSACTIONS
  {
    hide Validate, Txid, Conflicts;
  }

  lemma SubPoolShaped(pool: Pool, sub: Pool)
    requires Shaped(pool)
    requires forall id :: id in sub ==> id in pool && sub[id] == pool[id]
    ensures Shaped(sub)
  {
    hide Txid, Conflicts;
    SubsetCardinality(sub.Keys, pool.Keys);
  }

  lemma {:induction false} SpentCardinality(inputs: seq<TxIn>)
    requires DistinctInputs(inputs)
    ensures |Spent(inputs)| == |inputs|
  {
    if inputs != [] {
      var n := |inputs| - 1;
      SpentCardinality(inputs[..n]);
      SpentSnoc(inputs);
      assert inputs[n].previousOutput !in Spent(inputs[..n]);
    }
  }

  /** Pigeonhole: between valid transactions the one-sided input test is set equality. */
  lemma SameInputSetIsEquality(u: Utxos, left: Transaction, right: Transaction)
    requires Validate(u, left).Ok? && Validate(u, right).Ok?
    ensures SameInputSet(left, right) <==> Spent(left.inputs) == Spent(right.inputs)
  {
    SpentArePresent(u, left);
    SpentArePresent(u, right);
    SpentCardinality(left.inputs);
    SpentCardinality(right.inputs);
    if SameInputSet(left, right) {
      SubsetCardinality(Spent(left.inputs), Spent(right.inputs));
    }
  }

  /** A replaceable conflict is with exactly one pending transaction, over the same inputs. */
  lemma ReplacementIsUnique(pool: Pool, u: Utxos, tx: Transaction, id: Hash)
    requires PoolInv(pool, u) && Validate(u, tx).Ok?
    requires id in ConflictingIds(pool, tx) && Replaceable(pool, tx, ConflictingIds(pool, tx))
    ensures ConflictingIds(pool, tx) == {id}
    ensures Spent(pool[id].inputs) == Spent(tx.inputs)
  {
    hide Validate, Txid, Spent;
    forall other | other in ConflictingIds(pool, tx)
      ensures other == id && Spent(pool[id].inputs) == Spent(tx.inputs)
    {
      SameInputSetIsEquality(u, tx, pool[other]);
      SameInputSetIsEquality(u, tx, pool[id]);
      assert Conflicts(pool[other], pool[id]);
    }
  }

  /** What an accepted submission does to the pool. */
  datatype Effect = Added | Replaced(displaced: Hash) | Evicted(victim: Hash)

  function Leavers(effect: Effect): set<Hash> {
    match effect
    case Added => {}
    case Replaced(displaced) => {displaced}
    case Evicted(victim) => {victim}
  }

  /** The policy: free space is used without conflict; a replacement spends exactly the inputs of
      the one transaction it displaces and pays strictly more; an eviction happens only in a full
      pool without conflict, and the victim pays least of all, ties going to the lowest id, and
      strictly less than the newcomer. */
  ghost predicate FollowsPolicy(pool: Pool, u: Utxos, tx: Transaction, effect: Effect) {
    match effect
    case Added => ConflictingIds(pool, tx) == {} && |pool| < 1024
    case Replaced(displaced) =>
      && ConflictingIds(pool, tx) == {displaced}
      && Spent(pool[displaced].inputs) == Spent(tx.inputs)
      && FeeOf(u, pool[displaced]) < FeeOf(u, tx)
    case Evicted(victim) =>
      && ConflictingIds(pool, tx) == {} && |pool| == 1024 && victim in pool
      && IsVictim(pool, u, pool.Keys, victim)
      && FeeOf(u, pool[victim]) < FeeOf(u, tx)
  }

  lemma ConflictEffect(pool: Pool, u: Utxos, tx: Transaction) returns (effect: Effect)
    requires PoolInv(pool, u) && Validate(u, tx).Ok? && ConflictingIds(pool, tx) != {}
    requires ConflictRefusal(pool, u, tx, FeeOf(u, tx)).None?
    ensures FollowsPolicy(pool, u, tx, effect) && Displaced(pool, u, tx) == Leavers(effect)
  {
    hide Validate, Txid, Spent, Conflicts, FeeOf, SameInputSet, ConflictingIds;
    var ids := ConflictingIds(pool, tx);
    var displaced := Least(ids);
    assert displaced in ids;
    ReplacementIsUnique(pool, u, tx, displaced);
    assert |pool.Keys - {displaced}| == |pool.Keys| - 1;
    effect := Replaced(displaced);
  }

  lemma NoConflictEffect(pool: Pool, u: Utxos, tx: Transaction) returns (effect: Effect)
    requires PoolInv(pool, u) && ConflictingIds(pool, tx) == {}
    requires CapacityRefusal(pool, u, tx, FeeOf(u, tx)).None?
    ensures FollowsPolicy(pool, u, tx, effect) && Displaced(pool, u, tx) == Leavers(effect)
  {
    hide Validate, Txid, Spent, Conflicts, FeeOf, ConflictingIds, Rank;
    assert pool.Keys - {} == pool.Keys;
    if |pool.Keys| < MAX_MEMPOOL_TRANSACTIONS {
      effect := Added;
    } else {
      effect := Evicted(Victim(pool, u, pool.Keys));
    }
  }

  /** Under the invariant an accepted submission has exactly one of the three effects. */
  lemma SubmitEffect(pool: Pool, u: Utxos, tx: Transaction) returns (effect: Effect)
    requires PoolInv(pool, u) && SubmitTransaction(pool, u, tx).1.Ok?
    ensures Txid(tx) !in pool && Validate(u, tx).Ok?
    ensures FollowsPolicy(pool, u, tx, effect)
    ensures SubmitTransaction(pool, u, tx).0 == (pool - Leavers(effect))[Txid(tx) := tx]
  {
    hide Validate, Txid, ConflictRefusal, CapacityRefusal, Displaced, PoolInv, ConflictingIds, FollowsPolicy;
    if ConflictingIds(pool, tx) != {} {
      effect := ConflictEffect(pool, u, tx);
    } else {
      effect := NoConflictEffect(pool, u, tx);
    }
  }

  lemma InsertKeepsConflictFree(pool: Pool, leavers: set<Hash>, tx: Transaction, id: Hash)
    requires ConflictFree(pool) && ConflictingIds(pool, tx) <= leavers
    ensures ConflictFree((pool - leavers)[id := tx])
  {
    hide Spent;
    var after := (pool - leavers)[id := tx];
    forall a, b | a in after && b in after && a != b
      ensures !Conflicts(after[a], after[b])
    {
      if b == id {
        assert a !in ConflictingIds(pool, tx);
      } else if a == id {
        assert b !in ConflictingIds(pool, tx);
      }
    }
  }

  lemma PolicyLeavesRoom(pool: Pool, u: Utxos, tx: Transaction, effect: Effect)
    requires |pool| <= MAX_MEMPOOL_TRANSACTIONS && FollowsPolicy(pool, u, tx, effect)
    ensures Leavers(effect) <= pool.Keys && ConflictingIds(pool, tx) <= Leavers(effect)
    ensures |pool - Leavers(effect)| < MAX_MEMPOOL_TRANSACTIONS
  {
    hide FeeOf, Spent, Conflicts;
    assert (pool - Leavers(effect)).Keys == pool.Keys - Leavers(effect);
  }

  lemma InsertCardinality(pool: Pool, id: Hash, tx: Transaction)
    requires id !in pool
    ensures |pool[id := tx]| == |pool| + 1
  {
    assert pool[id := tx].Keys == pool.Keys + {id};
  }

  /** Submission, accepted or refused, keeps the invariant. */
  lemma SubmitKeepsInv(pool: Pool, u: Utxos, tx: Transaction)
    requires PoolInv(pool, u)
    ensures PoolInv(SubmitTransaction(pool, u, tx).0, u)
  {
    hide Validate, Txid, Conflicts, ConflictRefusal, CapacityRefusal, Displaced, ConflictingIds, FollowsPolicy,
      ConflictFree;
    if SubmitTransaction(pool, u, tx).1.Ok? {
      var effect := SubmitEffect(pool, u, tx);
      PolicyLeavesRoom(pool, u, tx, effect);
      InsertKeepsConflictFree(pool, Leavers(effect), tx, Txid(tx));
      InsertCardinality(pool - Leavers(effect), Txid(tx), tx);
      InsertKeepsValid(pool - Leavers(effect), u, tx);
    }
  }

  lemma InsertKeepsValid(pool: Pool, u: Utxos, tx: Transaction)
    requires AllValid(pool, u) && KeyedById(pool) && Validate(u, tx).Ok?
    ensures AllValid(pool[Txid(tx) := tx], u) && KeyedById(pool[Txid(tx) := tx])
  {
    hide Validate, Txid;
  }

  /** Pruning restores validity against any set without disturbing the shape. */
  lemma PruneEstablishesInv(pool: Pool, u: Utxos)
    requires Shaped(pool)
    ensures PoolInv(PruneInvalid(pool, u), u)
  {
    hide Validate, Shaped;
    SubPoolShaped(pool, PruneInvalid(pool, u));
  }

  // ---- Fees -------------------------------------------------------------------------------

  ghost function Fees(pool: Pool, u: Utxos): map<Hash, nat> {
    map id | id in pool :: FeeOf(u, pool[id])
  }

  ghost function PendingFees(pool: Pool, u: Utxos): nat {
    Sum(Fees(pool, u))
  }

  lemma PendingFeesRemove(pool: Pool, u: Utxos, id: Hash)
    requires id in pool
    ensures PendingFees(pool, u) == FeeOf(u, pool[id]) + PendingFees(pool - {id}, u)
  {
    hide FeeOf;
    SumRemove(Fees(pool, u), id);
    assert Fees(pool, u) - {id} == Fees(pool - {id}, u);
  }

  lemma PendingFeesInsert(pool: Pool, u: Utxos, id: Hash, tx: Transaction)
    requires id !in pool
    ensures PendingFees(pool[id := tx], u) == FeeOf(u, tx) + PendingFees(pool, u)
  {
    hide FeeOf, PendingFees;
    PendingFeesRemove(pool[id := tx], u, id);
    assert pool[id := tx] - {id} == pool;
  }

  /** A submission never lowers the total of pending fees, and a displacement strictly raises it. */
  lemma SubmitNeverLowersFees(pool: Pool, u: Utxos, tx: Transaction)
    requires PoolInv(pool, u)
    ensures PendingFees(SubmitTransaction(pool, u, tx).0, u) >= PendingFees(pool, u)
    ensures SubmitTransaction(pool, u, tx).1.Ok? && |SubmitTransaction(pool, u, tx).0| == |pool| ==>
            PendingFees(SubmitTransaction(pool, u, tx).0, u) > PendingFees(pool, u)
  {
    hide FeeOf, Validate, Txid, Conflicts, ConflictRefusal, CapacityRefusal, Displaced, ConflictingIds, PendingFees;
    if SubmitTransaction(pool, u, tx).1.Ok? {
      var effect := SubmitEffect(pool, u, tx);
      PolicyLeavesRoom(pool, u, tx, effect);
      InsertCardinality(pool - Leavers(effect), Txid(tx), tx);
      PendingFeesInsert(pool - Leavers(effect), u, Txid(tx), tx);
      match effect {
        case Added => assert pool - Leavers(effect) == pool;
        case Replaced(displaced) => PendingFeesRemove(pool, u, displaced);
        case Evicted(victim) => PendingFeesRemove(pool, u, victim);
      }
    }
  }

  lemma RestUnaffected(pool: Pool, u: Utxos, id: Hash)
    requires AllValid(pool, u) && ConflictFree(pool) && id in pool
    ensures var rest := pool - {id};
            var v := u - Spent(pool[id].inputs);
            AllValid(rest, v) && ConflictFree(rest) && Fees(rest, u) == Fees(rest, v)
  {
    hide Validate, Spent;
    forall other | other in pool && other != id
      ensures Validate(u, pool[other]) == Validate(u - Spent(pool[id].inputs), pool[other])
    {
      assert !Conflicts(pool[other], pool[id]);
      ValidateDependsOnInputs(u, u - Spent(pool[id].inputs), pool[other]);
    }
  }

  lemma FeeWithinInputs(u: Utxos, tx: Transaction)
    requires Validate(u, tx).Ok?
    ensures FeeOf(u, tx) + Total(u - Spent(tx.inputs)) <= Total(u)
  {
    hide Validate, Total;
    ValidateIffAcceptable(u, tx);
    SpentArePresent(u, tx);
    TotalSpent(u, tx.inputs);
  }

  /** Pending fees are covered by disjoint parts of the unspent value. */
  lemma {:induction false} PendingFeesWithinSupply(pool: Pool, u: Utxos)
    requires AllValid(pool, u) && ConflictFree(pool)
    ensures PendingFees(pool, u) <= Total(u)
    decreases |pool.Keys|
  {
    hide Validate, Spent, FeeOf, Total;
    if pool.Keys != {} {
      var id := Pick(pool.Keys);
      var v := u - Spent(pool[id].inputs);
      assert (pool - {id}).Keys == pool.Keys - {id};
      PendingFeesRemove(pool, u, id);
      RestUnaffected(pool, u, id);
      PendingFeesWithinSupply(pool - {id}, v);
      FeeWithinInputs(u, pool[id]);
    }
  }

  // ---- Selection for mining ---------------------------------------------------------------

  /** Goes through `entries` in order, keeping each transaction that still applies to the running set. */
  function Select(u: Utxos, entries: seq<(Hash, Transaction)>, maxCount: nat): seq<(Hash, Transaction)>
    decreases |entries|
  {
    if entries == [] || maxCount == 0 then []
    else if Validate(u, entries[0].1).Ok? then
      [entries[0]] + Select(Apply(u, entries[0].1, 0), entries[1..], maxCount - 1)
    else Select(u, entries[1..], maxCount)
  }

  function EntriesOf(pool: Pool, order: seq<Hash>): (entries: seq<(Hash, Transaction)>)
    requires forall i :: 0 <= i < |order| ==> order[i] in pool
    ensures |entries| == |order|
    ensures forall i :: 0 <= i < |order| ==> entries[i] == (order[i], pool[order[i]])
  {
    seq(|order|, i requires 0 <= i < |order| => (order[i], pool[order[i]]))
  }

  lemma SortedIdsArePending(pool: Pool)
    ensures forall i :: 0 <= i < |Sorted(pool.Keys)| ==> Sorted(pool.Keys)[i] in pool
    ensures forall i, j :: 0 <= i < j < |Sorted(pool.Keys)| ==> Sorted(pool.Keys)[i] != Sorted(pool.Keys)[j]
  {
    hide Rank;
    var order := Sorted(pool.Keys);
    assert forall i :: 0 <= i < |order| ==> order[i] in order;
  }

  /** The pending transactions in id order. */
  function SortedEntries(pool: Pool): (entries: seq<(Hash, Transaction)>)
    ensures |entries| == |pool|
    ensures forall i :: 0 <= i < |entries| ==> entries[i].0 in pool && entries[i].1 == pool[entries[i].0]
    ensures forall i, j :: 0 <= i < j < |entries| ==> entries[i].0 != entries[j].0
    ensures forall i, j :: 0 <= i < j < |entries| ==> Rank(entries[i].0) < Rank(entries[j].0)
  {
    SortedIdsArePending(pool);
    EntriesOf(pool, Sorted(pool.Keys))
  }

  /** The transactions a block may carry. */
  function Collect(pool: Pool, u: Utxos, maxCount: nat): seq<(Hash, Transaction)> {
    Select(u, SortedEntries(pool), maxCount)
  }

  function TransactionsOf(entries: seq<(Hash, Transaction)>): (txs: seq<Transaction>)
    ensures |txs| == |entries| && forall i :: 0 <= i < |txs| ==> txs[i] == entries[i].1
  {
    seq(|entries|, i requires 0 <= i < |entries| => entries[i].1)
  }

  function IdsOf(entries: seq<(Hash, Transaction)>): set<Hash> {
    set e | e in entries :: e.0
  }

  lemma SelectSuffix(u: Utxos, entries: seq<(Hash, Transaction)>, i: nat, maxCount: nat)
    requires i <= |entries|
    ensures Select(u, entries[i..], maxCount) ==
            if i == |entries| || maxCount == 0 then []
            else if Validate(u, entries[i].1).Ok? then
              [entries[i]] + Select(Apply(u, entries[i].1, 0), entries[i + 1..], maxCount - 1)
            else Select(u, entries[i + 1..], maxCount)
  {
    hide Validate, Apply;
    if i < |entries| {
      assert entries[i..][0] == entries[i] && entries[i..][1..] == entries[i + 1..];
    }
  }

  // ---- The mutable pool -------------------------------------------------------------------

  lemma RemoveNothing(pool: Pool)
    ensures forall ids: set<Hash> :: pool - (ids - ids) == pool
  {
    assert forall ids: set<Hash> :: ids - ids == {};
  }

  lemma RemovalKeepsInv(pool: Pool, u: Utxos, ids: set<Hash>)
    requires PoolInv(pool, u)
    ensures PoolInv(pool - ids, u)
  {
    hide Shaped, Validate;
    SubPoolShaped(pool, pool - ids);
  }

  lemma RemoveTwice(pool: Pool, a: set<Hash>, b: set<Hash>)
    ensures (pool - a) - b == pool - (a + b)
  {
  }

  /** The eviction candidate leaves first, then the conflicts. */
  lemma RemoveDisplaced(pool: Pool, u: Utxos, tx: Transaction)
    ensures var ids := ConflictingIds(pool, tx);
            pool - Displaced(pool, u, tx)
            == match EvictionCandidate(pool, u, ids)
               case None => pool - ids
               case Some(victim) => (pool - {victim}) - ids
  {
    hide ConflictingIds, EvictionCandidate;
    var ids := ConflictingIds(pool, tx);
    if EvictionCandidate(pool, u, ids).Some? {
      RemoveTwice(pool, {EvictionCandidate(pool, u, ids).value}, ids);
    }
  }

  lemma MoveHead<T>(a: seq<T>, x: T, b: seq<T>)
    ensures a + ([x] + b) == (a + [x]) + b
  {
  }

  class TransactionPool {
    var transactions: Pool

    constructor ()
      ensures transactions == map[]
    {
      transactions := map[];
    }

    /** Validates and admits `tx`. Every pending transaction must still be valid, which makes each
        fee lookup of the policy succeed. */
    method Submit(utxos: Utxos, tx: Transaction) returns (r: Result<Hash, MempoolError>)
      requires AllValid(transactions, utxos)
      modifies this
      ensures (transactions, r) == SubmitTransaction(old(transactions), utxos, tx)
    {
      hide Txid, ConflictingIds, Validate, HighestFee, Replaceable, FirstConflictingInput, EvictionCandidate, IsVictim,
        Claimed, Spent, FeeOf, Displaced, PoolInv;
      ghost var pool := transactions;
      var txid := Txid(tx);
      if txid in transactions {
        return Err(DuplicateTransaction(txid));
      }
      var validation := Validate(utxos, tx);
      if validation.Err? {
        return Err(InvalidTransaction(validation.error));
      }
      var replacementFee := validation.value.fee;
      var conflictingIds := ConflictingIds(transactions, tx);
      if conflictingIds != {} {
        if !Replaceable(transactions, tx, conflictingIds) {
          ConflictExposesInput(transactions, tx);
          return Err(ConflictingInput(FirstConflictingInput(transactions, tx, 0)));
        }
        assert forall id :: id in conflictingIds ==> Validate(utxos, transactions[id]).Ok?;
        var existingFee := HighestFee(transactions, utxos, conflictingIds);
        if replacementFee <= existingFee {
          return Err(ReplacementFeeTooLow(existingFee, replacementFee));
        }
      }
      assert ConflictRefusal(pool, utxos, tx, replacementFee).None?;
      var evicted := EvictionCandidate(transactions, utxos, conflictingIds);
      if evicted.Some? {
        assert forall id :: id in transactions ==> Validate(utxos, transactions[id]).Ok?;
        var evictedFee := FeeOf(utxos, transactions[evicted.value]);
        if replacementFee <= evictedFee {
          return Err(CapacityFeeTooLow(evictedFee, replacementFee));
        }
        transactions := transactions - {evicted.value};
      }
      RemoveDisplaced(pool, utxos, tx);
      RemoveMany(conflictingIds);
      transactions := transactions[txid := tx];
      return Ok(txid);
    }

    /** Removes the listed ids one by one, in any order; ids that are not pending are ignored. Removal
        cannot break the invariant. */
    method RemoveMany(ids: set<Hash>)
      modifies this
      ensures transactions == old(transactions) - ids
      ensures forall u :: PoolInv(old(transactions), u) ==> PoolInv(transactions, u)
    {
      hide PoolInv;
      var todo := ids;
      RemoveNothing(transactions);
      while todo != {}
        invariant todo <= ids && transactions == old(transactions) - (ids - todo)
        decreases |todo|
      {
        var txid :| txid in todo;
        RemoveTwice(old(transactions), ids - todo, {txid});
        assert ids - todo + {txid} == ids - (todo - {txid});
        transactions := transactions - {txid};
        todo := todo - {txid};
      }
      assert ids - {} == ids;
      forall u | PoolInv(old(transactions), u)
        ensures PoolInv(transactions, u)
      {
        RemovalKeepsInv(old(transactions), u, ids);
      }
    }

    method Prune(utxos: Utxos)
      modifies this
      ensures transactions == PruneInvalid(old(transactions), utxos)
      ensures AllValid(transactions, utxos)
    {
      transactions := map id | id in transactions && Validate(utxos, transactions[id]).Ok? :: transactions[id];
    }

    /** Applies pending transactions in id order to a copy of the set, keeping those that succeed. */
    method CollectValid(utxos: Utxos, maxCount: nat) returns (selected: seq<(Hash, Transaction)>)
      ensures selected == Collect(transactions, utxos, maxCount)
    {
      hide Apply, Validate, Select, Acceptable, SortedEntries;
      var candidate := new UtxoSet(utxos);
      var entries := SortedEntries(transactions);
      selected := [];
      ghost var all := Collect(transactions, utxos, maxCount);
      ghost var rest := all;
      assert entries[0..] == entries;
      var i := 0;
      while i < |entries| && |selected| < maxCount
        invariant 0 <= i <= |entries| && |selected| <= maxCount
        invariant rest == Select(candidate.entries, entries[i..], maxCount - |selected|)
        invariant all == selected + rest
        invariant fresh(candidate)
      {
        ghost var u := candidate.entries;
        SelectSuffix(u, entries, i, maxCount - |selected|);
        ValidateIffAcceptable(u, entries[i].1);
        var applied := candidate.ApplyTransaction(entries[i].1, 0);
        if applied.Ok? {
          rest := Select(candidate.entries, entries[i + 1..], maxCount - |selected| - 1);
          MoveHead(selected, entries[i], rest);
          selected := selected + [entries[i]];
        }
        i := i + 1;
      }
      SelectSuffix(candidate.entries, entries, i, maxCount - |selected|);
      assert selected + [] == selected;
    }
  }
}
