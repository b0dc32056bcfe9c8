/** What a block hash commits to: header, transaction ids and transactions, down to every signature. */
module Commitment {
  import opened Primitives
  import opened Crypto
  import opened Types
  import opened Encoding
  import Consensus
  import Merkle

  /** The digest tells the two byte strings apart if they differ. */
  predicate Separates(x: seq<byte>, y: seq<byte>) {
    suite.digest(x) == suite.digest(y) ==> x == y
  }

  /** Two transactions have one id only if they are the same, signatures included, or their encodings
      collide. */
  lemma IdCommitsToTransaction(a: Transaction, b: Transaction)
    requires Txid(a) == Txid(b)
    requires Separates(EncodeWithUnlockingData(a, true), EncodeWithUnlockingData(b, true))
    ensures a == b
  {
    hide EncodeWithUnlockingData;
    assert Encode(a) + [] == Encode(b) + [];
    EncodingIsPrefixFree(a, b, [], []);
  }

  /** Two blocks have one hash only if they have the same header, or the headers collide. */
  lemma HashCommitsToHeader(a: Block, b: Block)
    requires BlockHash(a) == BlockHash(b) && Separates(EncodeHeader(a.header), EncodeHeader(b.header))
    ensures a.header == b.header
  {
    hide EncodeHeader;
    HeaderEncodingIsInjective(a.header, b.header);
  }

  /** No two different things hashed for `a` and `b` collide. */
  ghost predicate NoHashCollision(a: Block, b: Block) {
    && Separates(EncodeHeader(a.header), EncodeHeader(b.header))
    && Merkle.CollisionFree(Merkle.TransactionIds(a.transactions), Merkle.TransactionIds(b.transactions))
    && forall s, t :: s in a.transactions && t in b.transactions ==>
         Separates(EncodeWithUnlockingData(s, true), EncodeWithUnlockingData(t, true))
  }

  /** Two valid blocks of one hash and one length are the same block, unless a hash collides. */
  lemma HashCommitsToBlock(a: Block, b: Block)
    requires Consensus.ValidateBlock(a).Ok? && Consensus.ValidateBlock(b).Ok?
    requires BlockHash(a) == BlockHash(b) && |a.transactions| == |b.transactions| && NoHashCollision(a, b)
    ensures a == b
  {
    hide Txid, EncodeWithUnlockingData, EncodeHeader, HeaderHash, Merkle.TreeRoot, Merkle.CollisionFree, Separates;
    HashCommitsToHeader(a, b);
    RootIsCommitted(a);
    RootIsCommitted(b);
    Merkle.RootCommitsToLeaves(Merkle.TransactionIds(a.transactions), Merkle.TransactionIds(b.transactions));
    forall i | 0 <= i < |a.transactions|
      ensures a.transactions[i] == b.transactions[i]
    {
      assert Txid(a.transactions[i]) == Merkle.TransactionIds(a.transactions)[i];
      IdCommitsToTransaction(a.transactions[i], b.transactions[i]);
    }
  }

  lemma RootIsCommitted(b: Block)
    requires Consensus.ValidateBlock(b).Ok?
    ensures b.transactions != [] && b.header.merkleRoot == Merkle.TreeRoot(Merkle.TransactionIds(b.transactions))
  {
    hide HeaderHash, Merkle.TreeRoot;
  }
}
