/** Sums over finite maps and small facts about cardinalities. */
module Sums {

  ghost function Pick<K>(s: set<K>): (k: K)
    requires s != {}
    ensures k in s
  {
    var k :| k in s;
    k
  }

  /** The sum of all values of `m`. */
  ghost function Sum<K>(m: map<K, nat>): nat
    decreases |m.Keys|
  {
    if m.Keys == {} then 0
    else
      var k := Pick(m.Keys);
      assert (m - {k}).Keys == m.Keys - {k};
      m[k] + Sum(m - {k})
  }

  /** Any key may be split off, not only the one `Sum` happens to pick. */
  lemma {:induction false} SumRemove<K>(m: map<K, nat>, k: K)
    requires k in m
    ensures Sum(m) == m[k] + Sum(m - {k})
    decreases |m.Keys|
  {
    var p := Pick(m.Keys);
    assert (m - {p}).Keys == m.Keys - {p};
    if p != k {
      SumRemove(m - {p}, k);
      assert (m - {p}) - {k} == (m - {k}) - {p};
      assert (m - {k}).Keys == m.Keys - {k};
      SumRemove(m - {k}, p);
    }
  }

  lemma SumInsert<K>(m: map<K, nat>, k: K, v: nat)
    requires k !in m
    ensures Sum(m[k := v]) == v + Sum(m)
  {
    SumRemove(m[k := v], k);
    assert m[k := v] - {k} == m;
  }

  lemma UnionInsert<K, V>(a: map<K, V>, b: map<K, V>, k: K)
    requires k in b
    ensures (a + (b - {k}))[k := b[k]] == a + b
  {
  }

  lemma SumUnionStep<K>(a: map<K, nat>, b: map<K, nat>, k: K)
    requires a.Keys !! b.Keys && k in b
    requires Sum(a + (b - {k})) == Sum(a) + Sum(b - {k})
    ensures Sum(a + b) == Sum(a) + Sum(b)
  {
    SumRemove(b, k);
    SumInsert(a + (b - {k}), k, b[k]);
    UnionInsert(a, b, k);
  }

  lemma {:induction false} SumDisjointUnion<K>(a: map<K, nat>, b: map<K, nat>)
    requires a.Keys !! b.Keys
    ensures Sum(a + b) == Sum(a) + Sum(b)
    decreases |b.Keys|
  {
    if b.Keys == {} {
      assert a + b == a;
    } else {
      var k := Pick(b.Keys);
      assert (b - {k}).Keys == b.Keys - {k};
      SumDisjointUnion(a, b - {k});
      SumUnionStep(a, b, k);
    }
  }

  /** Pointwise dominated maps have dominated sums. */
  lemma {:induction false} SumMonotone<K>(a: map<K, nat>, b: map<K, nat>)
    requires forall k :: k in a ==> k in b && a[k] <= b[k]
    ensures Sum(a) <= Sum(b)
    decreases |a.Keys|
  {
    if a.Keys != {} {
      var k := Pick(a.Keys);
      assert (a - {k}).Keys == a.Keys - {k};
      SumMonotone(a - {k}, b - {k});
      SumRemove(a, k);
      SumRemove(b, k);
    }
  }

  /** The part of `m` with keys in `s`. */
  ghost function Restrict<K, V>(m: map<K, V>, s: set<K>): map<K, V> {
    map k | k in m && k in s :: m[k]
  }

  lemma RestrictEnds<K>(m: map<K, nat>, all: set<K>)
    requires m.Keys <= all
    ensures Sum(Restrict(m, all)) == Sum(m) && Sum(Restrict(m, {})) == 0
  {
    assert Restrict(m, all) == m;
    assert Restrict(m, {}) == map[];
  }

  lemma RestrictStep<K>(m: map<K, nat>, s: set<K>, k: K)
    requires k in s
    ensures Sum(Restrict(m, s)) == (if k in m then m[k] else 0) + Sum(Restrict(m, s - {k}))
  {
    if k in m {
      SumRemove(Restrict(m, s), k);
      assert Restrict(m, s) - {k} == Restrict(m, s - {k});
    } else {
      assert Restrict(m, s) == Restrict(m, s - {k});
    }
  }

  lemma {:induction false} SubsetCardinality<T>(a: set<T>, b: set<T>)
    requires a <= b
    ensures |a| <= |b|
    ensures |a| == |b| ==> a == b
  {
    assert b == a + (b - a);
    assert |b| == |a| + |b - a|;
  }
}
