/** Deterministic orderings: sets listed by an injective sort key, and the keys of hashes and outpoints. */
module Sorting {
  import opened Crypto
  import opened Bytes
  import opened Types

  ghost predicate Distinguishes<T(!new)>(key: T -> nat) {
    forall a, b :: key(a) == key(b) ==> a == b
  }

  predicate IsLeastBy<T(==)>(s: set<T>, key: T -> nat, x: T) {
    x in s && forall y :: y in s ==> key(x) <= key(y)
  }

  lemma {:induction false} LeastExists<T>(s: set<T>, key: T -> nat)
    requires s != {}
    ensures exists x :: IsLeastBy(s, key, x)
  {
    var y :| y in s;
    if s == {y} {
      assert IsLeastBy(s, key, y);
    } else {
      LeastExists(s - {y}, key);
      var x :| IsLeastBy(s - {y}, key, x);
      assert IsLeastBy(s, key, if key(y) <= key(x) then y else x);
    }
  }

  /** The element of `s` with the least key. */
  function LeastBy<T(!new, ==)>(s: set<T>, key: T -> nat): (x: T)
    requires s != {} && Distinguishes(key)
    ensures IsLeastBy(s, key, x)
  {
    LeastExists(s, key);
    var x :| IsLeastBy(s, key, x);
    x
  }

  /** `r` lists `s` in ascending key order, each element once. */
  ghost predicate Lists<T(!new)>(r: seq<T>, s: set<T>, key: T -> nat) {
    && |r| == |s|
    && (forall x :: x in r <==> x in s)
    && (forall i, j :: 0 <= i < j < |r| ==> key(r[i]) < key(r[j]))
  }

  lemma PrependLeast<T(!new)>(x: T, rest: seq<T>, s: set<T>, key: T -> nat)
    requires Distinguishes(key) && IsLeastBy(s, key, x) && Lists(rest, s - {x}, key)
    ensures Lists([x] + rest, s, key)
  {
    var r := [x] + rest;
    forall i, j | 0 <= i < j < |r|
      ensures key(r[i]) < key(r[j])
    {
      assert r[j] == rest[j - 1] && rest[j - 1] in rest;
      if i == 0 {
        var y := r[j];
        assert y in s - {x};
        assert key(y) != key(x);
      } else {
        assert r[i] == rest[i - 1];
      }
    }
    assert |s - {x}| == |s| - 1;
  }

  function SortedBy<T(!new, ==)>(s: set<T>, key: T -> nat): (r: seq<T>)
    requires Distinguishes(key)
    ensures Lists(r, s, key)
    decreases |s|
  {
    if s == {} then []
    else
      var x := LeastBy(s, key);
      var rest := SortedBy(s - {x}, key);
      PrependLeast(x, rest, s, key);
      [x] + rest
  }

  // ---- Sort keys --------------------------------------------------------------------------

  /** Sort key of a hash. Hex strings of one length order like the bytes, and the bytes like the number. */
  function Rank(h: Hash): nat {
    BigEndian(h)
  }

  /** Sort key of an outpoint: by transaction id, then by output index. */
  function OutPointRank(o: OutPoint): nat {
    Rank(o.txid) * 0x1_0000_0000 + o.vout
  }

  /** Ids are listed in the order of their bytes. */
  lemma RankIsByteOrder(a: Hash, b: Hash)
    ensures Rank(a) <= Rank(b) <==> LexLe(a, b)
  {
    LexIsNumeric(a, b);
  }

  /** Outpoints are listed in the order of their transaction ids, those of one transaction by index. */
  lemma OutPointOrder(a: OutPoint, b: OutPoint)
    ensures OutPointRank(a) <= OutPointRank(b) <==>
            if a.txid == b.txid then a.vout <= b.vout else LexLe(a.txid, b.txid)
  {
    hide Rank, LexLe;
    RankIsByteOrder(a.txid, b.txid);
    if Rank(a.txid) == Rank(b.txid) {
      RankInjective(a.txid, b.txid);
    }
  }

  lemma RankInjective(a: Hash, b: Hash)
    requires Rank(a) == Rank(b)
    ensures a == b
  {
    BigEndianInjective(a, b);
  }

  lemma RankDistinguishes()
    ensures Distinguishes(Rank)
  {
    forall a: Hash, b: Hash | Rank(a) == Rank(b)
      ensures a == b
    {
      RankInjective(a, b);
    }
  }

  lemma OutPointRankDistinguishes()
    ensures Distinguishes(OutPointRank)
  {
    forall a: OutPoint, b: OutPoint | OutPointRank(a) == OutPointRank(b)
      ensures a == b
    {
      hide Rank;
      RankInjective(a.txid, b.txid);
    }
  }

  function Least(s: set<Hash>): (h: Hash)
    requires s != {}
    ensures h in s
  {
    RankDistinguishes();
    LeastBy(s, Rank)
  }

  lemma LeastIsLowest(s: set<Hash>)
    requires s != {}
    ensures forall h :: h in s ==> Rank(Least(s)) <= Rank(h)
  {
    hide Rank;
  }

  function Sorted(s: set<Hash>): (r: seq<Hash>)
    ensures |r| == |s|
    ensures forall h :: h in r <==> h in s
    ensures forall i, j :: 0 <= i < j < |r| ==> Rank(r[i]) < Rank(r[j])
  {
    RankDistinguishes();
    SortedBy(s, Rank)
  }

  function SortedOutPoints(s: set<OutPoint>): (r: seq<OutPoint>)
    ensures |r| == |s|
    ensures forall o :: o in r <==> o in s
    ensures forall i, j :: 0 <= i < j < |r| ==> OutPointRank(r[i]) < OutPointRank(r[j])
  {
    OutPointRankDistinguishes();
    SortedBy(s, OutPointRank)
  }
}
