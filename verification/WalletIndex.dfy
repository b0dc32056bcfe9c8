/** What a wallet reads in the rebuilt index: which key edges a transaction has, and where its row says
    it stands. */
module WalletIndex {
  import opened Primitives
  import opened Crypto
  import opened Types
  import opened State
  import opened Mempool
  import opened Chain
  import opened Provenance
  import opened TxIndex

  /** Some transaction of the chain has output `o`, and it pays `value` to `keyData`. */
  ghost predicate Pays(p: seq<Placed>, o: OutPoint, value: u64, keyData: Short<byte>) {
    exists k ::
      && 0 <= k < |p| && Txid(p[k].tx) == o.txid
      && o.vout < |p[k].tx.outputs| && p[k].tx.outputs[o.vout] == TxOut(value, keyData)
  }

  /** Some input of `tx` spends output number `vout` of a chain transaction, of this value and key. */
  ghost predicate SpendsFrom(p: seq<Placed>, tx: Transaction, value: u64, keyData: Short<byte>, vout: u32) {
    exists i ::
      && 0 <= i < |tx.inputs| && tx.inputs[i].previousOutput.vout == vout
      && Pays(p, tx.inputs[i].previousOutput, value, keyData)
  }

  // ---- Resolution -------------------------------------------------------------------------

  /** An outpoint resolves to the output that the one chain transaction of that id has. */
  lemma ResolvesToPaid(p: seq<Placed>, o: OutPoint, value: u64, keyData: Short<byte>)
    requires UniqueIds(p)
    ensures LoadOutput(ConfirmedRows(p), o) == Some(TxOut(value, keyData)) <==> Pays(p, o, value, keyData)
  {
    hide Txid, ConfirmedRows;
    ConfirmedRowsKeys(p, o.txid);
    if o.txid in ConfirmedRows(p) {
      var k :| 0 <= k < |p| && Txid(p[k].tx) == o.txid;
      ConfirmedRowsLookup(p, k);
      assert forall j :: 0 <= j < |p| && Txid(p[j].tx) == o.txid ==> j == k;
    }
  }

  /** Every input of an indexed transaction resolves. */
  lemma InputsResolve(p: seq<Placed>, pool: Pool, id: Hash, o: OutPoint)
    requires Indexable(p, pool) && id in IndexRows(p, pool)
    requires o in Spent(IndexRows(p, pool)[id].transaction.inputs)
    ensures LoadOutput(ConfirmedRows(p), o).Some?
  {
    hide Txid, ConfirmedRows, LoadOutput, CreatedBy, TxSet, NewTo;
    assert p[..|p|] == p;
    if id in pool {
      ResolvesEarly(p, |p|, o);
    } else {
      ConfirmedRowsKeys(p, id);
      var k :| 0 <= k < |p| && Txid(p[k].tx) == id;
      ConfirmedRowsLookup(p, k);
      ResolvesEarly(p, k, o);
    }
  }

  ghost predicate AllResolve(inputs: seq<TxIn>, resolve: OutPoint -> Option<TxOut>) {
    forall i :: 0 <= i < |inputs| ==> resolve(inputs[i].previousOutput).Some?
  }

  lemma {:induction false} InputEdgeCount(txid: Hash, inputs: seq<TxIn>, resolve: OutPoint -> Option<TxOut>)
    requires AllResolve(inputs, resolve)
    ensures |InputEdges(txid, inputs, resolve)| == |inputs|
  {
    if inputs != [] {
      InputEdgeCount(txid, inputs[..|inputs| - 1], resolve);
    }
  }

  lemma {:induction false} InputEdgeAt(txid: Hash, inputs: seq<TxIn>, resolve: OutPoint -> Option<TxOut>, i: nat)
    requires AllResolve(inputs, resolve) && i < |inputs|
    ensures i < |InputEdges(txid, inputs, resolve)|
    ensures var o := inputs[i].previousOutput;
            InputEdges(txid, inputs, resolve)[i]
            == Edge(txid, InputKey, resolve(o).value.lockingData, resolve(o).value.value, o.vout)
  {
    var n := |inputs| - 1;
    InputEdgeCount(txid, inputs[..n], resolve);
    if i < n {
      InputEdgeAt(txid, inputs[..n], resolve, i);
    }
  }

  // ---- Edges ------------------------------------------------------------------------------

  /** The group of a transaction: one edge per input, in order, then one per output, in order. */
  ghost predicate GroupOf(p: seq<Placed>, id: Hash, tx: Transaction, group: seq<Edge>) {
    && |group| == |tx.inputs| + |tx.outputs|
    && (forall i :: 0 <= i < |tx.inputs| ==>
          && group[i].txid == id && group[i].role == InputKey
          && group[i].vout == tx.inputs[i].previousOutput.vout
          && Pays(p, tx.inputs[i].previousOutput, group[i].value, group[i].keyData))
    && (forall i :: 0 <= i < |tx.outputs| ==>
          group[|tx.inputs| + i] == Edge(id, OutputKey, tx.outputs[i].lockingData, tx.outputs[i].value, i))
  }

  lemma EdgesFormGroup(p: seq<Placed>, tx: Transaction)
    requires UniqueIds(p)
    requires AllResolve(tx.inputs, FromRows(ConfirmedRows(p)))
    ensures GroupOf(p, Txid(tx), tx, EdgesOf(tx, FromRows(ConfirmedRows(p))))
  {
    hide Txid, ConfirmedRows, LoadOutput, Pays, UniqueIds, InputEdges, AllResolve;
    var resolve := FromRows(ConfirmedRows(p));
    InputEdgeCount(Txid(tx), tx.inputs, resolve);
    forall i | 0 <= i < |tx.inputs|
      ensures var o, e := tx.inputs[i].previousOutput, EdgesOf(tx, resolve)[i];
              && e.txid == Txid(tx) && e.role == InputKey && e.vout == o.vout
              && Pays(p, o, e.value, e.keyData)
    {
      InputEdgePays(p, tx, i);
    }
  }

  lemma InputEdgePays(p: seq<Placed>, tx: Transaction, i: nat)
    requires UniqueIds(p) && i < |tx.inputs|
    requires AllResolve(tx.inputs, FromRows(ConfirmedRows(p)))
    ensures var es, o := InputEdges(Txid(tx), tx.inputs, FromRows(ConfirmedRows(p))), tx.inputs[i].previousOutput;
            && i < |es| && es[i].txid == Txid(tx) && es[i].role == InputKey && es[i].vout == o.vout
            && Pays(p, o, es[i].value, es[i].keyData)
  {
    hide Txid, ConfirmedRows, LoadOutput, Pays, UniqueIds, InputEdges;
    var resolve := FromRows(ConfirmedRows(p));
    InputEdgeAt(Txid(tx), tx.inputs, resolve, i);
    var out := resolve(tx.inputs[i].previousOutput).value;
    ResolvesToPaid(p, tx.inputs[i].previousOutput, out.value, out.lockingData);
  }

  lemma IndexedUnderId(p: seq<Placed>, pool: Pool, id: Hash)
    requires Indexable(p, pool) && id in IndexRows(p, pool)
    ensures Txid(IndexRows(p, pool)[id].transaction) == id
  {
    hide Txid, ConfirmedRows, NewTo, CreatedBy, TxSet;
    if id !in pool {
      ConfirmedRowsKeys(p, id);
      var k :| 0 <= k < |p| && Txid(p[k].tx) == id;
      ConfirmedRowsLookup(p, k);
    }
  }

  /** In the rebuilt index every row has its group of edges. */
  lemma RebuiltGroups(p: seq<Placed>, pool: Pool, id: Hash)
    requires Indexable(p, pool)
    ensures id in BuildIndex(p, pool).keys <==> id in BuildIndex(p, pool).rows
    ensures id in BuildIndex(p, pool).rows ==>
              GroupOf(p, id, BuildIndex(p, pool).rows[id].transaction, BuildIndex(p, pool).keys[id])
  {
    hide Txid, ConfirmedRows, BuildIndex, LoadOutput, GroupOf, NewTo, CreatedBy, TxSet, IndexRows, EdgesOf;
    BuildIsIndex(p, pool);
    if id in IndexRows(p, pool) {
      var tx := IndexRows(p, pool)[id].transaction;
      forall i | 0 <= i < |tx.inputs|
        ensures FromRows(ConfirmedRows(p))(tx.inputs[i].previousOutput).Some?
      {
        assert tx.inputs[i].previousOutput in Spent(tx.inputs);
        InputsResolve(p, pool, id, tx.inputs[i].previousOutput);
      }
      IndexedUnderId(p, pool, id);
      EdgesFormGroup(p, tx);
    }
  }

  /** The edges of an indexed transaction: an output edge for exactly its outputs, and an input edge for
      exactly the chain outputs its inputs name, one for each, inputs first. */
  lemma RebuiltEdges(p: seq<Placed>, pool: Pool, id: Hash, value: u64, keyData: Short<byte>, vout: u32)
    requires Indexable(p, pool) && id in BuildIndex(p, pool).rows
    ensures var tx := BuildIndex(p, pool).rows[id].transaction;
            && id in BuildIndex(p, pool).keys
            && var group := BuildIndex(p, pool).keys[id];
            && |group| == |tx.inputs| + |tx.outputs|
            && (forall i :: 0 <= i < |group| ==> (group[i].role == InputKey <==> i < |tx.inputs|))
            && (Edge(id, OutputKey, keyData, value, vout) in group <==>
                vout < |tx.outputs| && tx.outputs[vout] == TxOut(value, keyData))
            && (Edge(id, InputKey, keyData, value, vout) in group <==> SpendsFrom(p, tx, value, keyData, vout))
  {
    hide Txid, BuildIndex, Indexable, Pays;
    RebuiltGroups(p, pool, id);
    var tx, group := BuildIndex(p, pool).rows[id].transaction, BuildIndex(p, pool).keys[id];
    OutputEdgeIff(p, id, tx, group, value, keyData, vout);
    assert UniqueIds(p) by {
      IndexableIsUnique(p, pool);
    }
    InputEdgeIff(p, id, tx, group, value, keyData, vout);
  }

  lemma IndexableIsUnique(p: seq<Placed>, pool: Pool)
    requires Indexable(p, pool)
    ensures UniqueIds(p)
  {
  }

  lemma OutputEdgeIff(
    p: seq<Placed>, id: Hash, tx: Transaction, group: seq<Edge>, value: u64, keyData: Short<byte>, vout: u32)
    requires GroupOf(p, id, tx, group)
    ensures Edge(id, OutputKey, keyData, value, vout) in group <==>
            vout < |tx.outputs| && tx.outputs[vout] == TxOut(value, keyData)
    ensures forall i :: 0 <= i < |group| ==> (group[i].role == InputKey <==> i < |tx.inputs|)
  {
    hide Pays;
    var n, e := |tx.inputs|, Edge(id, OutputKey, keyData, value, vout);
    forall i | n <= i < |group|
      ensures group[i].role == OutputKey && group[i].vout == i - n
    {
      var out := tx.outputs[i - n];
      assert group[n + (i - n)] == group[i] == Edge(id, OutputKey, out.lockingData, out.value, i - n);
    }
    if vout < |tx.outputs| {
      assert group[n + vout] == Edge(id, OutputKey, tx.outputs[vout].lockingData, tx.outputs[vout].value, vout);
    }
    assert e in group ==> vout < |tx.outputs| && group[n + vout] == e;
  }

  lemma InputEdgeIff(
    p: seq<Placed>, id: Hash, tx: Transaction, group: seq<Edge>, value: u64, keyData: Short<byte>, vout: u32)
    requires GroupOf(p, id, tx, group) && UniqueIds(p)
    ensures Edge(id, InputKey, keyData, value, vout) in group <==> SpendsFrom(p, tx, value, keyData, vout)
  {
    hide Pays, UniqueIds;
    var e := Edge(id, InputKey, keyData, value, vout);
    if e in group {
      var i :| 0 <= i < |group| && group[i] == e;
      OutputEdgeIff(p, id, tx, group, value, keyData, vout);
      assert i < |tx.inputs|;
    }
    if SpendsFrom(p, tx, value, keyData, vout) {
      var i :| 0 <= i < |tx.inputs| && tx.inputs[i].previousOutput.vout == vout
               && Pays(p, tx.inputs[i].previousOutput, value, keyData);
      ResolvesToPaid(p, tx.inputs[i].previousOutput, value, keyData);
      ResolvesToPaid(p, tx.inputs[i].previousOutput, group[i].value, group[i].keyData);
      assert group[i] == e;
    }
  }

  // ---- Rows -------------------------------------------------------------------------------

  /** The rebuilt rows: one for each transaction of the chain and of the pool and no other. A row says
      block, height and position exactly when the transaction stands there on the chain, and none of the
      three exactly when it is pending. */
  lemma RebuiltRows(p: seq<Placed>, pool: Pool, id: Hash)
    requires Indexable(p, pool)
    ensures var rows := BuildIndex(p, pool).rows;
            && (id in rows <==> id in pool || exists k :: 0 <= k < |p| && Txid(p[k].tx) == id)
            && (id in rows ==>
                  var row := rows[id];
                  && Txid(row.transaction) == id
                  && (row.status == Pending <==> id in pool)
                  && (id in pool ==> row == IndexedTransaction(pool[id], None, None, None, Pending))
                  && (forall h, n, i ::
                        row == IndexedTransaction(row.transaction, Some(h), Some(n), Some(i), Confirmed) <==>
                        Placed(row.transaction, h, n, i) in p))
  {
    hide Txid, ConfirmedRows, BuildIndex, CreatedBy, TxSet, NewTo, InputsKnown;
    BuildIsIndex(p, pool);
    ConfirmedRowsKeys(p, id);
    if id in pool {
      PendingIsNotPlaced(p, pool, id);
    } else if id in ConfirmedRows(p) {
      var k :| 0 <= k < |p| && Txid(p[k].tx) == id;
      ConfirmedRowsLookup(p, k);
      assert forall j :: 0 <= j < |p| && Txid(p[j].tx) == id ==> j == k;
    }
  }

  lemma PendingIsNotPlaced(p: seq<Placed>, pool: Pool, id: Hash)
    requires Indexable(p, pool) && id in pool
    ensures Txid(pool[id]) == id && forall k :: 0 <= k < |p| ==> Txid(p[k].tx) != id && p[k].tx != pool[id]
  {
    hide Txid, CreatedBy, UniqueIds, InputsKnown, ConfirmedRows;
    NewToChainRows(pool[id], p);
    ConfirmedRowsKeys(p, id);
  }

  // ---- The chain the rows speak of --------------------------------------------------------

  /** A placed transaction is exactly a transaction of a block on the branch, with the hash and height of
      that block and its position in it. */
  lemma {:induction false} PlacedExactly(c: Index, blocks: map<Hash, Block>, h: Hash, x: Placed)
    requires Tree(c) && h in c.entries && blocks.Keys == c.entries.Keys
    ensures x in PlacedPath(c, blocks, h) <==>
            && x.blockHash in Path(c, h) && x.height == c.entries[x.blockHash].height
            && x.position < |blocks[x.blockHash].transactions|
            && x.tx == blocks[x.blockHash].transactions[x.position]
    decreases c.entries[h].height
  {
    assert Linked(c, h);
    var here := PlacedBlock(blocks[h], h, c.entries[h].height);
    assert x in here <==>
           && x.blockHash == h && x.height == c.entries[h].height && x.position < |blocks[h].transactions|
           && x.tx == blocks[h].transactions[x.position] by {
      if x.blockHash == h && x.height == c.entries[h].height && x.position < |blocks[h].transactions|
        && x.tx == blocks[h].transactions[x.position] {
        assert here[x.position] == x;
      }
    }
    if c.entries[h].parent.Some? {
      PlacedExactly(c, blocks, c.entries[h].parent.value, x);
    }
  }
}
