/** The wallet index: one row per transaction and its key edges, as the full rebuild computes it from
    the best chain and the pool. */
module TxIndex {
  import opened Primitives
  import opened Crypto
  import opened Types
  import opened State
  import opened Replay
  import opened Mempool
  import opened NodeState
  import opened Provenance
  import Sums

  datatype KeyRole = InputKey | OutputKey
  datatype Edge = Edge(txid: Hash, role: KeyRole, keyData: Short<byte>, value: u64, vout: u32)

  datatype Status = Pending | Confirmed
  datatype IndexedTransaction = IndexedTransaction(
    transaction: Transaction,
    blockHash: Option<Hash>,
    blockHeight: Option<nat>,
    positionInBlock: Option<nat>,
    status: Status)

  type Rows = map<Hash, IndexedTransaction>

  /** Key edges, grouped by the transaction they belong to. */
  type Keys = map<Hash, seq<Edge>>

  function ConfirmedRow(p: Placed): IndexedTransaction {
    IndexedTransaction(p.tx, Some(p.blockHash), Some(p.height), Some(p.position), Confirmed)
  }

  function PendingRow(tx: Transaction): IndexedTransaction {
    IndexedTransaction(tx, None, None, None, Pending)
  }

  // ---- Edges ------------------------------------------------------------------------------

  /** Input edges of the inputs that `resolve` knows, in input order. */
  function InputEdges(txid: Hash, inputs: seq<TxIn>, resolve: OutPoint -> Option<TxOut>): seq<Edge> {
    if inputs == [] then []
    else
      var o := inputs[|inputs| - 1].previousOutput;
      InputEdges(txid, inputs[..|inputs| - 1], resolve)
      + match resolve(o) {
          case None => []
          case Some(out) => [Edge(txid, InputKey, out.lockingData, out.value, o.vout)]
        }
  }

  function OutputEdges(tx: Transaction): seq<Edge> {
    seq(|tx.outputs|, i requires 0 <= i < |tx.outputs| =>
      Edge(Txid(tx), OutputKey, tx.outputs[i].lockingData, tx.outputs[i].value, i))
  }

  function EdgesOf(tx: Transaction, resolve: OutPoint -> Option<TxOut>): seq<Edge> {
    InputEdges(Txid(tx), tx.inputs, resolve) + OutputEdges(tx)
  }

  lemma {:induction false} InputEdgesAgree(
    txid: Hash, inputs: seq<TxIn>, f: OutPoint -> Option<TxOut>, g: OutPoint -> Option<TxOut>)
    requires forall o :: o in Spent(inputs) ==> f(o) == g(o)
    ensures InputEdges(txid, inputs, f) == InputEdges(txid, inputs, g)
  {
    if inputs != [] {
      SpentSnoc(inputs);
      InputEdgesAgree(txid, inputs[..|inputs| - 1], f, g);
    }
  }

  /** Edges depend only on how the transaction's own inputs resolve. */
  lemma EdgesAgree(tx: Transaction, f: OutPoint -> Option<TxOut>, g: OutPoint -> Option<TxOut>)
    requires forall o :: o in Spent(tx.inputs) ==> f(o) == g(o)
    ensures EdgesOf(tx, f) == EdgesOf(tx, g)
  {
    hide Txid;
    InputEdgesAgree(Txid(tx), tx.inputs, f, g);
  }

  /** The output a row table knows for an outpoint. */
  function LoadOutput(rows: Rows, o: OutPoint): Option<TxOut> {
    if o.txid in rows && o.vout < |rows[o.txid].transaction.outputs|
    then Some(rows[o.txid].transaction.outputs[o.vout]) else None
  }

  function FromRows(rows: Rows): OutPoint -> Option<TxOut> {
    o => LoadOutput(rows, o)
  }

  function FromKnown(known: map<OutPoint, TxOut>): OutPoint -> Option<TxOut> {
    o => Lookup(known, o)
  }

  // ---- What the index should be -----------------------------------------------------------

  /** The rows of the best chain. */
  ghost function ConfirmedRows(p: seq<Placed>): Rows {
    if p == [] then map[]
    else ConfirmedRows(p[..|p| - 1])[Txid(p[|p| - 1].tx) := ConfirmedRow(p[|p| - 1])]
  }

  ghost function PendingRows(pool: Pool): Rows {
    map id | id in pool :: PendingRow(pool[id])
  }

  ghost function IndexRows(p: seq<Placed>, pool: Pool): Rows {
    ConfirmedRows(p) + PendingRows(pool)
  }

  /** Edges of all indexed transactions, inputs resolved through the best chain. */
  ghost function KeysFor(rows: Rows, p: seq<Placed>): Keys {
    map id | id in rows :: EdgesOf(rows[id].transaction, FromRows(ConfirmedRows(p)))
  }

  ghost function IndexKeys(p: seq<Placed>, pool: Pool): Keys {
    KeysFor(IndexRows(p, pool), p)
  }

  /** What makes the index well defined: ids are unique on the chain, no pending transaction is on
      it, and every input, confirmed or pending, refers to an earlier chain transaction. */
  ghost predicate Indexable(p: seq<Placed>, pool: Pool) {
    && UniqueIds(p) && InputsKnown(p) && KeyedById(pool)
    && (forall id :: id in pool ==> NewTo(pool[id], TxSet(p)))
    && (forall id, o :: id in pool && o in Spent(pool[id].inputs) ==> CreatedBy(TxSet(p), o))
  }

  lemma {:induction false} ConfirmedRowsLookup(p: seq<Placed>, i: nat)
    requires UniqueIds(p) && i < |p|
    ensures Lookup(ConfirmedRows(p), Txid(p[i].tx)) == Some(ConfirmedRow(p[i]))
  {
    hide Txid;
    var n := |p| - 1;
    if i < n {
      ConfirmedRowsLookup(p[..n], i);
      assert Txid(p[i].tx) != Txid(p[n].tx);
    }
  }

  lemma {:induction false} ConfirmedRowsKeys(p: seq<Placed>, id: Hash)
    ensures id in ConfirmedRows(p) <==> exists i :: 0 <= i < |p| && Txid(p[i].tx) == id
  {
    hide Txid;
    if p != [] {
      var n := |p| - 1;
      ConfirmedRowsKeys(p[..n], id);
      if id in ConfirmedRows(p[..n]) {
        var i :| 0 <= i < n && Txid(p[..n][i].tx) == id;
        assert p[i] == p[..n][i];
      }
      if i :| 0 <= i < |p| && Txid(p[i].tx) == id {
        assert i < n ==> p[..n][i] == p[i];
      }
    }
  }

  lemma NewToChainRows(tx: Transaction, p: seq<Placed>)
    requires NewTo(tx, TxSet(p))
    ensures Txid(tx) !in ConfirmedRows(p)
  {
    hide Txid, ConfirmedRows;
    ConfirmedRowsKeys(p, Txid(tx));
  }

  /** An outpoint created on the first `k` placed transactions resolves the same in the whole chain. */
  lemma ResolvesEarly(p: seq<Placed>, k: nat, o: OutPoint)
    requires UniqueIds(p) && k <= |p| && CreatedBy(TxSet(p[..k]), o)
    ensures LoadOutput(ConfirmedRows(p[..k]), o) == LoadOutput(ConfirmedRows(p), o)
    ensures o.txid in ConfirmedRows(p[..k]) && LoadOutput(ConfirmedRows(p), o).Some?
  {
    hide Txid, ConfirmedRows;
    var t :| t in TxSet(p[..k]) && Creates(t, o);
    var i :| 0 <= i < k && p[..k][i].tx == t;
    assert p[i] == p[..k][i];
    UniqueTake(p, k);
    ConfirmedRowsLookup(p[..k], i);
    ConfirmedRowsLookup(p, i);
  }

  lemma UniqueTake(p: seq<Placed>, k: nat)
    requires UniqueIds(p) && k <= |p|
    ensures UniqueIds(p[..k])
  {
    hide Txid;
  }

  // ---- The rebuild ------------------------------------------------------------------------

  datatype Built = Built(rows: Rows, keys: Keys, known: map<OutPoint, TxOut>)

  function OutputsOf(tx: Transaction): (m: map<OutPoint, TxOut>)
    ensures forall o :: o in m <==> Creates(tx, o)
    ensures forall o :: o in m ==> o.vout < |tx.outputs| && m[o] == tx.outputs[o.vout]
  {
    map v: u32 | 0 <= v < |tx.outputs| :: OutPoint(Txid(tx), v) := tx.outputs[v]
  }

  function Group(keys: Keys, id: Hash): seq<Edge> {
    if id in keys then keys[id] else []
  }

  /** Indexes one transaction under `id` unless that id was seen, and remembers its outputs. */
  function AddIndexed(st: Built, id: Hash, tx: Transaction, row: IndexedTransaction): Built {
    if id in st.rows then st
    else Built(
           st.rows[id := row],
           st.keys[Txid(tx) := Group(st.keys, Txid(tx)) + EdgesOf(tx, FromKnown(st.known))],
           st.known + OutputsOf(tx))
  }

  function AddChain(p: seq<Placed>): Built {
    if p == [] then Built(map[], map[], map[])
    else
      var last := p[|p| - 1];
      AddIndexed(AddChain(p[..|p| - 1]), Txid(last.tx), last.tx, ConfirmedRow(last))
  }

  function AddPool(st: Built, entries: seq<(Hash, Transaction)>): Built {
    if entries == [] then st
    else
      var last := entries[|entries| - 1];
      AddIndexed(AddPool(st, entries[..|entries| - 1]), last.0, last.1, PendingRow(last.1))
  }

  /** The full rebuild: best chain in order, then the pool in id order. */
  function BuildIndex(p: seq<Placed>, pool: Pool): Built {
    AddPool(AddChain(p), SortedEntries(pool))
  }

  /** What the chain part of the rebuild has built after `k` transactions. */
  ghost predicate BuiltChain(p: seq<Placed>, k: nat, st: Built)
    requires k <= |p|
  {
    && st.rows == ConfirmedRows(p[..k])
    && (forall o :: Lookup(st.known, o) == LoadOutput(st.rows, o))
    && st.keys == KeysFor(st.rows, p)
  }

  lemma KnownGrows(st: Built, id: Hash, tx: Transaction, row: IndexedTransaction)
    requires id !in st.rows && id == Txid(tx) && row.transaction == tx
    requires forall o :: Lookup(st.known, o) == LoadOutput(st.rows, o)
    ensures var next := AddIndexed(st, id, tx, row);
            forall o :: Lookup(next.known, o) == LoadOutput(next.rows, o)
  {
    hide Txid, EdgesOf;
    var next := AddIndexed(st, id, tx, row);
    forall o
      ensures Lookup(next.known, o) == LoadOutput(next.rows, o)
    {
      assert Lookup(st.known, o) == LoadOutput(st.rows, o);
    }
  }

  lemma KeysGrow(rows: Rows, p: seq<Placed>, id: Hash, row: IndexedTransaction, es: seq<Edge>)
    requires id !in rows && es == EdgesOf(row.transaction, FromRows(ConfirmedRows(p)))
    ensures KeysFor(rows, p)[id := Group(KeysFor(rows, p), id) + es] == KeysFor(rows[id := row], p)
  {
    hide EdgesOf, ConfirmedRows;
    assert Group(KeysFor(rows, p), id) + es == es;
  }

  lemma BuiltChainStep(p: seq<Placed>, k: nat, st: Built)
    requires UniqueIds(p) && InputsKnown(p) && k < |p| && BuiltChain(p, k, st)
    ensures BuiltChain(p, k + 1, AddIndexed(st, Txid(p[k].tx), p[k].tx, ConfirmedRow(p[k])))
  {
    hide Txid, EdgesOf, CreatedBy, TxSet, LoadOutput, OutputsOf, KeysFor, Group;
    var tx, id := p[k].tx, Txid(p[k].tx);
    assert p[..k + 1][..k] == p[..k];
    ConfirmedRowsKeys(p[..k], id);
    assert forall i :: 0 <= i < k ==> p[..k][i] == p[i];
    assert id !in st.rows;
    KnownGrows(st, id, tx, ConfirmedRow(p[k]));
    forall o | o in Spent(tx.inputs)
      ensures FromKnown(st.known)(o) == FromRows(ConfirmedRows(p))(o)
    {
      ResolvesEarly(p, k, o);
    }
    EdgesAgree(tx, FromKnown(st.known), FromRows(ConfirmedRows(p)));
    KeysGrow(st.rows, p, id, ConfirmedRow(p[k]), EdgesOf(tx, FromKnown(st.known)));
  }

  lemma {:induction false} ChainIsBuilt(p: seq<Placed>, k: nat)
    requires UniqueIds(p) && InputsKnown(p) && k <= |p|
    ensures BuiltChain(p, k, AddChain(p[..k]))
  {
    hide Txid, BuiltChain, InputsKnown, UniqueIds;
    if k == 0 {
      assert p[..0] == [];
      NothingBuilt(p);
    } else {
      ChainIsBuilt(p, k - 1);
      assert p[..k][..k - 1] == p[..k - 1];
      BuiltChainStep(p, k - 1, AddChain(p[..k - 1]));
    }
  }

  lemma NothingBuilt(p: seq<Placed>)
    ensures BuiltChain(p, 0, AddChain([]))
  {
    assert p[..0] == [];
  }

  ghost predicate EntriesFrom(pool: Pool, entries: seq<(Hash, Transaction)>) {
    && (forall i :: 0 <= i < |entries| ==> entries[i].0 in pool && entries[i].1 == pool[entries[i].0])
    && (forall i, j :: 0 <= i < j < |entries| ==> entries[i].0 != entries[j].0)
  }

  ghost function PoolOf(entries: seq<(Hash, Transaction)>): Pool {
    if entries == [] then map[]
    else PoolOf(entries[..|entries| - 1])[entries[|entries| - 1].0 := entries[|entries| - 1].1]
  }

  /** What the pool part has built: chain outputs still resolve as in the chain. */
  ghost predicate BuiltPool(p: seq<Placed>, done: Pool, st: Built) {
    && st.rows == IndexRows(p, done)
    && (forall o: OutPoint :: o.txid in ConfirmedRows(p) ==> Lookup(st.known, o) == LoadOutput(ConfirmedRows(p), o))
    && st.keys == IndexKeys(p, done)
  }

  lemma BuiltPoolStep(p: seq<Placed>, done: Pool, st: Built, id: Hash, tx: Transaction)
    requires UniqueIds(p) && BuiltPool(p, done, st) && id !in done && Txid(tx) == id
    requires NewTo(tx, TxSet(p)) && forall o :: o in Spent(tx.inputs) ==> CreatedBy(TxSet(p), o)
    ensures BuiltPool(p, done[id := tx], AddIndexed(st, id, tx, PendingRow(tx)))
  {
    hide Txid, EdgesOf, CreatedBy, TxSet, LoadOutput, ConfirmedRows, NewTo, KeysFor, Group;
    NewToChainRows(tx, p);
    assert IndexRows(p, done[id := tx]) == IndexRows(p, done)[id := PendingRow(tx)];
    assert p[..|p|] == p;
    forall o | o in Spent(tx.inputs)
      ensures FromKnown(st.known)(o) == FromRows(ConfirmedRows(p))(o)
    {
      ResolvesEarly(p, |p|, o);
    }
    EdgesAgree(tx, FromKnown(st.known), FromRows(ConfirmedRows(p)));
    KeysGrow(st.rows, p, id, PendingRow(tx), EdgesOf(tx, FromKnown(st.known)));
    var next := AddIndexed(st, id, tx, PendingRow(tx));
    forall o: OutPoint | o.txid in ConfirmedRows(p)
      ensures Lookup(next.known, o) == LoadOutput(ConfirmedRows(p), o)
    {
      assert Lookup(st.known, o) == LoadOutput(ConfirmedRows(p), o);
      assert o !in OutputsOf(tx);
    }
  }

  lemma {:induction false} PoolOfDomain(entries: seq<(Hash, Transaction)>, id: Hash)
    ensures id in PoolOf(entries) <==> exists i :: 0 <= i < |entries| && entries[i].0 == id
  {
    if entries != [] {
      var n := |entries| - 1;
      PoolOfDomain(entries[..n], id);
      if id in PoolOf(entries[..n]) {
        var i :| 0 <= i < n && entries[..n][i].0 == id;
        assert entries[i] == entries[..n][i];
      }
      if i :| 0 <= i < |entries| && entries[i].0 == id {
        assert i < n ==> entries[..n][i] == entries[i];
      }
    }
  }

  lemma {:induction false} PoolIsBuilt(p: seq<Placed>, pool: Pool, st: Built, entries: seq<(Hash, Transaction)>)
    requires Indexable(p, pool) && BuiltPool(p, map[], st) && EntriesFrom(pool, entries)
    ensures BuiltPool(p, PoolOf(entries), AddPool(st, entries))
  {
    hide Txid, BuiltPool, CreatedBy, TxSet, UniqueIds, InputsKnown, NewTo, AddIndexed;
    if entries != [] {
      var n := |entries| - 1;
      PoolIsBuilt(p, pool, st, entries[..n]);
      PoolOfDomain(entries[..n], entries[n].0);
      assert forall i :: 0 <= i < n ==> entries[..n][i] == entries[i];
      BuiltPoolStep(p, PoolOf(entries[..n]), AddPool(st, entries[..n]), entries[n].0, entries[n].1);
    }
  }

  lemma {:induction false} PoolOfValues(pool: Pool, entries: seq<(Hash, Transaction)>)
    requires EntriesFrom(pool, entries)
    ensures forall id :: id in PoolOf(entries) ==> id in pool && PoolOf(entries)[id] == pool[id]
    ensures |PoolOf(entries)| == |entries|
  {
    if entries != [] {
      var n := |entries| - 1;
      PoolOfValues(pool, entries[..n]);
      PoolOfDomain(entries[..n], entries[n].0);
      assert forall i :: 0 <= i < n ==> entries[..n][i] == entries[i];
      InsertCardinality(PoolOf(entries[..n]), entries[n].0, entries[n].1);
    }
  }

  lemma SortedEntriesRestore(pool: Pool)
    ensures EntriesFrom(pool, SortedEntries(pool)) && PoolOf(SortedEntries(pool)) == pool
  {
    hide SortedEntries, PoolOf;
    var entries := SortedEntries(pool);
    PoolOfValues(pool, entries);
    Sums.SubsetCardinality(PoolOf(entries).Keys, pool.Keys);
  }

  lemma NoPending(p: seq<Placed>, st: Built)
    requires BuiltChain(p, |p|, st)
    ensures BuiltPool(p, map[], st)
  {
    hide Txid, EdgesOf, ConfirmedRows, LoadOutput;
    assert p[..|p|] == p;
    assert IndexRows(p, map[]) == ConfirmedRows(p);
  }

  /** The rebuild computes exactly the index. */
  lemma BuildIsIndex(p: seq<Placed>, pool: Pool)
    requires Indexable(p, pool)
    ensures BuildIndex(p, pool).rows == IndexRows(p, pool) && BuildIndex(p, pool).keys == IndexKeys(p, pool)
  {
    hide SortedEntries, UniqueIds, InputsKnown, IndexRows, IndexKeys, NewTo, CreatedBy, TxSet, Txid, BuiltChain,
      PoolOf, AddPool, AddChain;
    ChainIsBuilt(p, |p|);
    assert p[..|p|] == p;
    NoPending(p, AddChain(p));
    SortedEntriesRestore(pool);
    PoolIsBuilt(p, pool, AddChain(p), SortedEntries(pool));
  }
}
