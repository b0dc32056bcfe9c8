/** A block and the same block with its last transaction repeated: one header, one hash, two fates. */
module RepeatedTail {
  import opened Primitives
  import opened Types
  import opened State
  import opened Chain
  import opened NodeState
  import opened ActiveChain
  import opened BlockRules
  import opened Acceptance
  import Merkle
  import PowTarget

  function Last(b: Block): Transaction
    requires b.transactions != []
  {
    b.transactions[|b.transactions| - 1]
  }

  /** The same header over a list that repeats its last transaction. */
  function Repeated(b: Block): Block
    requires b.transactions != []
  {
    b.(transactions := b.transactions + [Last(b)])
  }

  /** The list is odd and longer than the coinbase, and the last transaction does not spend its own
      outputs, which only a hash cycle would allow. */
  ghost predicate OddTail(b: Block) {
    && |b.transactions| > 1 && |b.transactions| % 2 == 1
    && forall o :: o in Spent(Last(b).inputs) ==> o.txid != Txid(Last(b))
  }

  lemma RepeatedRoot(b: Block)
    requires OddTail(b)
    ensures Merkle.MerkleRoot(Repeated(b).transactions) == Merkle.MerkleRoot(b.transactions)
  {
    hide Txid, Spent, Merkle.TreeRoot;
    var ids := Merkle.TransactionIds(b.transactions);
    assert Merkle.TransactionIds(Repeated(b).transactions) == ids + [ids[|ids| - 1]];
    Merkle.RepeatedTailKeepsRoot(ids);
  }

  /** Both blocks have the same hash, and neither or both pass the checks that need only the block. */
  lemma SameInIsolation(b: Block)
    requires OddTail(b)
    ensures BlockHash(Repeated(b)) == BlockHash(b) && (WellFormed(Repeated(b)) <==> WellFormed(b))
  {
    hide HeaderHash, Merkle.MerkleRoot, TargetValue, Txid, Spent;
    RepeatedRoot(b);
    var c := Repeated(b);
    assert forall i :: 0 <= i < |b.transactions| ==> c.transactions[i] == b.transactions[i];
    assert c.transactions[|b.transactions|] == b.transactions[|b.transactions| - 1];
  }

  lemma SpentTwice(u: Utxos, tx: Transaction, height: nat)
    requires tx.inputs != [] && forall o :: o in Spent(tx.inputs) ==> o.txid != Txid(tx)
    ensures !Acceptable(Apply(u, tx, height), tx)
  {
    hide Txid, SigningDigest;
    var o := tx.inputs[0].previousOutput;
    assert o in Spent(tx.inputs);
    assert o !in Apply(u, tx, height);
    assert InputError(Apply(u, tx, height), tx.inputs[0], SigningDigest(tx)) != None;
  }

  /** The repeated block applies to no set: its last transaction would spend the same outputs again. */
  lemma RepeatedNeverApplies(u: Utxos, b: Block, height: nat)
    requires OddTail(b) && WellFormed(b)
    ensures !Applicable(u, Repeated(b), height)
  {
    hide Txid, Acceptable, Apply, Spent, TargetValue, HeaderHash, Merkle.MerkleRoot;
    var rest := Repeated(b).transactions[1..];
    var k := |rest| - 1;
    assert rest[k] == Last(b) && rest[k - 1] == Last(b);
    assert !Last(b).IsCoinbase();
    SpentTwice(StateAfter(u, rest, height, k - 1), Last(b), height);
    assert StateAfter(u, rest, height, k) == Apply(StateAfter(u, rest, height, k - 1), Last(b), height);
    assert !AcceptableAt(u, rest, height, k);
  }

  /** The index places both or neither, because it looks at the header. */
  lemma SamePlace(c: Index, b: Block)
    requires OddTail(b)
    ensures Placeable(c, Repeated(b)) <==> Placeable(c, b)
  {
    hide WellFormed, HeaderHash, PowTarget.FromCompact, PowTarget.Work, Txid, Spent;
    SameInIsolation(b);
  }

  lemma RepeatedIsRefused(n: Node, b: Block)
    requires OddTail(b) && WellFormed(b) && BlockHash(b) !in n.chain.entries
    ensures !Admits(n, Repeated(b))
  {
    hide WellFormed, HeaderHash, Applicable, BlockWork, Spent, Txid;
    SameInIsolation(b);
    if n.chain.entries == map[] {
      RepeatedNeverApplies(map[], b, 0);
    } else if b.header.prevBlockhash in n.snapshots && b.header.prevBlockhash in n.chain.entries {
      RepeatedNeverApplies(
        n.snapshots[b.header.prevBlockhash], b, n.chain.entries[b.header.prevBlockhash].height + 1);
    }
  }

  /** Order of arrival decides for good. A node that would accept `b` fails the repeated block, keeps
      its hash as failed, and from then on refuses `b` in every later state. */
  lemma RepeatedFirstShutsOut(n: Node, b: Block, ops: seq<Operation>)
    requires Consistent(n) && OddTail(b) && Admits(n, b) && BlockHash(b) !in n.chain.entries
    ensures AcceptBlock(n, b).1.Ok? && AcceptBlock(n, Repeated(b)).1.Err?
    ensures AcceptBlock(RunFrom(AcceptBlock(n, Repeated(b)).0, ops), b).1.Err?
  {
    hide Consistent, WellFormed, HeaderHash, Applicable, AcceptBlock, RunFrom, BlockWork, Spent, Txid;
    AcceptSucceedsIff(n, b);
    RepeatedIsRefused(n, b);
    SamePlace(n.chain, b);
    AcceptSucceedsIff(n, Repeated(b));
    AcceptKeepsConsistent(n, Repeated(b));
    UncleanFails(n, Repeated(b));
    SameInIsolation(b);
    FailedForever(AcceptBlock(n, Repeated(b)).0, ops, b);
  }
}
