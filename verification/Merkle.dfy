/** The merkle root of a block: the level-by-level loop, the tree it computes, and what it commits to. */
module Merkle {
  import opened Crypto
  import opened Types

  function PairHash(a: Hash, b: Hash): Hash {
    DoubleSha256(a + b)
  }

  /** Number of nodes `k` levels above `n` leaves. */
  function Width(n: nat, k: nat): (w: nat)
    ensures n > 0 ==> w > 0
  {
    if k == 0 then n else (Width(n, k - 1) + 1) / 2
  }

  /** Number of levels until one node is left. */
  function Depth(n: nat): nat {
    if n <= 1 then 0 else 1 + Depth((n + 1) / 2)
  }

  /** The right child of node `i`; a level of odd width repeats its last element. */
  function RightChild(width: nat, i: nat): nat {
    if 2 * i + 1 < width then 2 * i + 1 else 2 * i
  }

  /** Node `i` of level `k` of the tree over `ids`, defined from the root downwards. */
  function Node(ids: seq<Hash>, k: nat, i: nat): Hash
    requires i < Width(|ids|, k)
  {
    if k == 0 then ids[i]
    else
      var width := Width(|ids|, k - 1);
      PairHash(Node(ids, k - 1, 2 * i), Node(ids, k - 1, RightChild(width, i)))
  }

  lemma {:induction false} WidthAtDepth(n: nat, m: nat, k: nat)
    requires n > 0 && m == Width(n, k)
    ensures Width(n, k + Depth(m)) == 1
    decreases m
  {
    if m > 1 {
      WidthAtDepth(n, (m + 1) / 2, k + 1);
    }
  }

  function TreeRoot(ids: seq<Hash>): Hash
    requires ids != []
  {
    WidthAtDepth(|ids|, |ids|, 0);
    Node(ids, Depth(|ids|), 0)
  }

  function TransactionIds(txs: seq<Transaction>): (ids: seq<Hash>)
    ensures |ids| == |txs|
    ensures forall i :: 0 <= i < |ids| ==> ids[i] == Txid(txs[i])
  {
    seq(|txs|, i requires 0 <= i < |txs| => Txid(txs[i]))
  }

  /** The merkle root of a list of transactions. */
  function MerkleRoot(txs: seq<Transaction>): Hash {
    if txs == [] then DoubleSha256([]) else TreeRoot(TransactionIds(txs))
  }

  /** Hashes adjacent pairs of a level of even width. */
  function HashPairs(level: seq<Hash>): (r: seq<Hash>)
    ensures |r| == |level| / 2
    ensures forall i :: 0 <= i < |r| ==> r[i] == PairHash(level[2 * i], level[2 * i + 1])
  {
    seq(|level| / 2, i requires 0 <= i < |level| / 2 => PairHash(level[2 * i], level[2 * i + 1]))
  }

  function Padded(level: seq<Hash>): seq<Hash> {
    if |level| % 2 == 1 then level + [level[|level| - 1]] else level
  }

  /** All nodes of level `k`, left to right. */
  ghost function Level(ids: seq<Hash>, k: nat): (s: seq<Hash>)
    ensures |s| == Width(|ids|, k)
    ensures forall i :: 0 <= i < |s| ==> s[i] == Node(ids, k, i)
  {
    seq(Width(|ids|, k), i requires 0 <= i < Width(|ids|, k) => Node(ids, k, i))
  }

  /** One turn of the level loop climbs one level of the tree. */
  lemma NextLevel(ids: seq<Hash>, k: nat)
    ensures HashPairs(Padded(Level(ids, k))) == Level(ids, k + 1)
  {
    hide PairHash, Level, HashPairs;
    var level := Level(ids, k);
    forall i | 0 <= i < Width(|ids|, k + 1)
      ensures HashPairs(Padded(level))[i] == Node(ids, k + 1, i)
    {
      assert Padded(level)[2 * i] == level[2 * i];
      assert Padded(level)[2 * i + 1] == level[RightChild(|level|, i)];
    }
  }

  lemma LeavesAreLevel(ids: seq<Hash>)
    ensures Level(ids, 0) == ids
  {
  }

  /** The level loop: pad an odd level with its last element, then hash adjacent pairs. */
  method ComputeMerkleRoot(txs: seq<Transaction>) returns (root: Hash)
    ensures root == MerkleRoot(txs)
  {
    hide PairHash, Node, Level, HashPairs, TransactionIds;
    var level := TransactionIds(txs);
    if level == [] {
      return DoubleSha256([]);
    }
    ghost var ids, k := level, 0;
    LeavesAreLevel(ids);
    while |level| > 1
      invariant level != [] && level == Level(ids, k)
      invariant k + Depth(|level|) == Depth(|ids|)
      decreases |level|
    {
      NextLevel(ids, k);
      if |level| % 2 == 1 {
        level := level + [level[|level| - 1]];
      }
      level := HashPairs(level);
      k := k + 1;
    }
    return level[0];
  }

  /** The two digests hashed together to form node `i` of level `k + 1`. */
  ghost function Children(ids: seq<Hash>, k: nat, i: nat): (Hash, Hash)
    requires i < Width(|ids|, k + 1)
  {
    (Node(ids, k, 2 * i), Node(ids, k, RightChild(Width(|ids|, k), i)))
  }

  /** Every pair that is hashed while computing the root of `ids`. */
  ghost predicate IsHashedPair(ids: seq<Hash>, p: (Hash, Hash)) {
    exists k: nat, i: nat :: k < Depth(|ids|) && i < Width(|ids|, k + 1) && p == Children(ids, k, i)
  }

  /** No two different pairs hashed for `a` or `b` have the same digest. */
  ghost predicate CollisionFree(a: seq<Hash>, b: seq<Hash>) {
    forall p, q ::
      IsHashedPair(a, p) && IsHashedPair(b, q) && PairHash(p.0, p.1) == PairHash(q.0, q.1) ==> p == q
  }

  ghost predicate SameLevel(a: seq<Hash>, b: seq<Hash>, k: nat)
    requires |a| == |b|
  {
    forall i: nat :: i < Width(|a|, k) ==> Node(a, k, i) == Node(b, k, i)
  }

  lemma SameChildren(a: seq<Hash>, b: seq<Hash>, k: nat, i: nat)
    requires |a| == |b| && CollisionFree(a, b)
    requires k < Depth(|a|) && i < Width(|a|, k + 1)
    requires Node(a, k + 1, i) == Node(b, k + 1, i)
    ensures Children(a, k, i) == Children(b, k, i)
  {
    var p, q := Children(a, k, i), Children(b, k, i);
    assert IsHashedPair(a, p) && IsHashedPair(b, q);
    assert PairHash(p.0, p.1) == PairHash(q.0, q.1);
  }

  /** Equality of one level descends to the level below it. */
  lemma LevelDescends(a: seq<Hash>, b: seq<Hash>, k: nat)
    requires |a| == |b| && CollisionFree(a, b)
    requires k < Depth(|a|) && SameLevel(a, b, k + 1)
    ensures SameLevel(a, b, k)
  {
    forall j: nat | j < Width(|a|, k)
      ensures Node(a, k, j) == Node(b, k, j)
    {
      SameChildren(a, b, k, j / 2);
      assert j == 2 * (j / 2) || j == RightChild(Width(|a|, k), j / 2);
    }
  }

  lemma {:induction false} LeavesFromLevel(a: seq<Hash>, b: seq<Hash>, k: nat)
    requires |a| == |b| && CollisionFree(a, b)
    requires k <= Depth(|a|) && SameLevel(a, b, k)
    ensures a == b
  {
    if k == 0 {
      assert forall i: nat :: i < |a| ==> Node(a, 0, i) == a[i] && Node(b, 0, i) == b[i];
    } else {
      LevelDescends(a, b, k - 1);
      LeavesFromLevel(a, b, k - 1);
    }
  }

  /** The commitment: two lists of one length with one root are the same list, unless the pair
      hash collides on the pairs actually hashed. */
  lemma RootCommitsToLeaves(a: seq<Hash>, b: seq<Hash>)
    requires a != [] && |a| == |b| && CollisionFree(a, b)
    requires TreeRoot(a) == TreeRoot(b)
    ensures a == b
  {
    WidthAtDepth(|a|, |a|, 0);
    assert SameLevel(a, b, Depth(|a|));
    LeavesFromLevel(a, b, Depth(|a|));
  }

  /** The smallest roots: nothing, one id, a pair, and three ids with the last one repeated. */
  lemma SmallRoots(txs: seq<Transaction>)
    ensures |txs| == 0 ==> MerkleRoot(txs) == suite.digest([])
    ensures |txs| == 1 ==> MerkleRoot(txs) == Txid(txs[0])
    ensures |txs| == 2 ==> MerkleRoot(txs) == suite.digest(Txid(txs[0]) + Txid(txs[1]))
    ensures |txs| == 3 ==>
              MerkleRoot(txs) ==
              suite.digest(suite.digest(Txid(txs[0]) + Txid(txs[1])) + suite.digest(Txid(txs[2]) + Txid(txs[2])))
  {
    hide Txid;
    if 1 <= |txs| <= 3 {
      var ids := TransactionIds(txs);
      var n := |ids|;
      assert Depth(1) == 0 && Depth(2) == 1 && Depth(3) == 2;
      assert Width(n, 0) == n && Width(n, 1) == (n + 1) / 2 && Width(n, 2) == (Width(n, 1) + 1) / 2;
      assert forall i :: 0 <= i < n ==> Node(ids, 0, i) == ids[i];
      if n > 1 {
        assert Node(ids, 1, 0) == PairHash(Node(ids, 0, 0), Node(ids, 0, 1));
      }
      if n == 3 {
        assert Node(ids, 1, 1) == PairHash(Node(ids, 0, 2), Node(ids, 0, 2));
        assert Node(ids, 2, 0) == PairHash(Node(ids, 1, 0), Node(ids, 1, 1));
      }
    }
  }

  lemma {:induction false} PaddedTailNodes(ids: seq<Hash>, k: nat)
    requires |ids| % 2 == 1 && k > 0
    ensures Width(|ids| + 1, k) == Width(|ids|, k)
    ensures forall i: nat :: i < Width(|ids|, k) ==>
      Node(ids + [ids[|ids| - 1]], k, i) == Node(ids, k, i)
  {
    hide PairHash;
    var padded := ids + [ids[|ids| - 1]];
    if k == 1 {
      assert |padded| == |ids| + 1 && Width(|padded|, 0) == |padded| && Width(|padded|, 1) == Width(|ids|, 1);
      forall i: nat | i < Width(|ids|, 1)
        ensures Node(padded, 1, i) == Node(ids, 1, i)
      {
        assert Width(|ids|, 0) == |ids| && Width(|padded|, 0) == |ids| + 1;
        assert 2 * i < |ids| && RightChild(|ids| + 1, i) < |padded| && RightChild(|ids|, i) < |ids|;
        assert Node(padded, 0, 2 * i) == Node(ids, 0, 2 * i);
        assert Node(padded, 0, RightChild(|ids| + 1, i)) == Node(ids, 0, RightChild(|ids|, i));
      }
    } else {
      PaddedTailNodes(ids, k - 1);
    }
  }

  /** Equal length cannot be dropped from the commitment: repeating the last element of a list of
      odd length above one leaves the root unchanged. */
  lemma RepeatedTailKeepsRoot(ids: seq<Hash>)
    requires |ids| > 1 && |ids| % 2 == 1
    ensures TreeRoot(ids + [ids[|ids| - 1]]) == TreeRoot(ids)
  {
    WidthAtDepth(|ids|, |ids|, 0);
    PaddedTailNodes(ids, Depth(|ids|));
    assert Depth(|ids| + 1) == Depth(|ids|);
  }
}
