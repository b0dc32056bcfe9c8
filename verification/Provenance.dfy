/** Where unspent outputs come from: along a branch without repeated transaction ids, every entry was
    created by exactly one transaction of the branch, and nothing that was spent comes back. */
module Provenance {
  import opened Primitives
  import opened Crypto
  import opened Types
  import opened State
  import opened Replay
  import opened Chain
  import opened NodeState
  import opened Mempool
  import opened ActiveChain
  import Consensus

  /** A transaction with its place on a branch. */
  datatype Placed = Placed(tx: Transaction, blockHash: Hash, height: nat, position: nat)

  function PlacedBlock(b: Block, h: Hash, height: nat): (p: seq<Placed>)
    ensures |p| == |b.transactions|
    ensures forall i :: 0 <= i < |p| ==> p[i] == Placed(b.transactions[i], h, height, i)
  {
    seq(|b.transactions|, i requires 0 <= i < |b.transactions| => Placed(b.transactions[i], h, height, i))
  }

  /** All transactions from the root to `h`, block by block, in block order. */
  ghost function PlacedPath(c: Index, blocks: map<Hash, Block>, h: Hash): seq<Placed>
    requires Tree(c) && blocks.Keys == c.entries.Keys && h in c.entries
    decreases c.entries[h].height
  {
    assert Linked(c, h);
    var here := PlacedBlock(blocks[h], h, c.entries[h].height);
    if c.entries[h].parent.None? then here else PlacedPath(c, blocks, c.entries[h].parent.value) + here
  }

  /** The transactions of the best chain. */
  ghost function BestChain(n: Node): seq<Placed>
    requires TreeExplained(n.chain, n.blocks)
  {
    if n.chain.bestTip.None? then [] else PlacedPath(n.chain, n.blocks, n.chain.bestTip.value)
  }

  ghost predicate UniqueIds(p: seq<Placed>) {
    forall i, j :: 0 <= i < j < |p| ==> Txid(p[i].tx) != Txid(p[j].tx)
  }

  ghost function TxSet(p: seq<Placed>): set<Transaction> {
    set i | 0 <= i < |p| :: p[i].tx
  }

  // ---- The ledger invariant ---------------------------------------------------------------

  ghost predicate CreatedBy(ts: set<Transaction>, o: OutPoint) {
    exists t :: t in ts && Creates(t, o)
  }

  ghost predicate Sourced(ts: set<Transaction>, u: Utxos, o: OutPoint)
    requires o in u
  {
    exists t :: t in ts && Creates(t, o) && t.outputs[o.vout] == u[o].output
  }

  ghost predicate SpentBy(ts: set<Transaction>, o: OutPoint) {
    exists t :: t in ts && o in Spent(t.inputs)
  }

  /** `u` holds exactly what `ts` created and did not spend, and everything spent was created in `ts`. */
  ghost predicate Ledger(ts: set<Transaction>, u: Utxos) {
    && (forall o :: o in u ==> Sourced(ts, u, o))
    && (forall t, o :: t in ts && o in Spent(t.inputs) ==> o !in u && CreatedBy(ts, o))
    && (forall o :: CreatedBy(ts, o) && !SpentBy(ts, o) ==> o in u)
  }

  lemma UnspentStays(ts: set<Transaction>, u: Utxos, tx: Transaction, height: nat, o: OutPoint)
    requires CreatedBy(ts, o) && !SpentBy(ts, o) ==> o in u
    requires CreatedBy(ts + {tx}, o) && !SpentBy(ts + {tx}, o)
    ensures o in Apply(u, tx, height)
  {
    hide Txid;
    var t :| t in ts + {tx} && Creates(t, o);
    assert tx in ts + {tx};
    if t != tx {
      assert forall s :: s in ts ==> s in ts + {tx};
    }
  }

  ghost predicate NewTo(tx: Transaction, ts: set<Transaction>) {
    forall t :: t in ts ==> Txid(t) != Txid(tx)
  }

  lemma SourcedGrows(ts: set<Transaction>, u: Utxos, tx: Transaction, height: nat, o: OutPoint)
    requires forall p :: p in u ==> Sourced(ts, u, p)
    requires o in Apply(u, tx, height)
    ensures Sourced(ts + {tx}, Apply(u, tx, height), o)
  {
    hide Txid;
    if o in Created(tx, height) {
      assert tx in ts + {tx} && Creates(tx, o);
    } else {
      var t :| t in ts && Creates(t, o) && t.outputs[o.vout] == u[o].output;
      assert t in ts + {tx};
    }
  }

  lemma CreatedGrows(ts: set<Transaction>, tx: Transaction, o: OutPoint)
    requires CreatedBy(ts, o)
    ensures CreatedBy(ts + {tx}, o)
  {
    hide Txid;
    var t :| t in ts && Creates(t, o);
    assert t in ts + {tx};
  }

  /** A transaction with a new id does not bring back an outpoint of `ts`. */
  lemma NotRecreated(ts: set<Transaction>, tx: Transaction, height: nat, o: OutPoint)
    requires NewTo(tx, ts) && CreatedBy(ts, o)
    ensures o !in Created(tx, height)
  {
    hide Txid;
    var t :| t in ts && Creates(t, o);
  }

  lemma LedgerStep(ts: set<Transaction>, u: Utxos, tx: Transaction, height: nat)
    requires Ledger(ts, u) && Validate(u, tx).Ok? && NewTo(tx, ts)
    ensures Ledger(ts + {tx}, Apply(u, tx, height))
    ensures forall o :: o in Spent(tx.inputs) ==> CreatedBy(ts, o)
  {
    hide Txid, Validate, Creates, Spent, Created, NewTo;
    SpentArePresent(u, tx);
    forall o | o in Spent(tx.inputs)
      ensures CreatedBy(ts, o)
    {
      assert Sourced(ts, u, o);
    }
    var v := Apply(u, tx, height);
    forall o | o in v
      ensures Sourced(ts + {tx}, v, o)
    {
      SourcedGrows(ts, u, tx, height, o);
    }
    forall t, o | t in ts + {tx} && o in Spent(t.inputs)
      ensures o !in v && CreatedBy(ts + {tx}, o)
    {
      NotRecreated(ts, tx, height, o);
      CreatedGrows(ts, tx, o);
    }
    forall o | CreatedBy(ts + {tx}, o) && !SpentBy(ts + {tx}, o)
      ensures o in v
    {
      UnspentStays(ts, u, tx, height, o);
    }
  }

  ghost function ListSet(txs: seq<Transaction>): set<Transaction> {
    set i | 0 <= i < |txs| :: txs[i]
  }

  /** Each of `txs` has an id new to `ts` and to the transactions before it. */
  ghost predicate AllNew(ts: set<Transaction>, txs: seq<Transaction>) {
    && (forall i :: 0 <= i < |txs| ==> NewTo(txs[i], ts))
    && (forall i, j :: 0 <= i < j < |txs| ==> Txid(txs[i]) != Txid(txs[j]))
  }

  /** Inputs of each of `txs` are created in `ts` or by an earlier one. */
  ghost predicate InputsCreated(ts: set<Transaction>, txs: seq<Transaction>) {
    forall i, o :: 0 <= i < |txs| && o in Spent(txs[i].inputs) ==> CreatedBy(ts + ListSet(txs[..i]), o)
  }

  lemma AllNewTail(ts: set<Transaction>, txs: seq<Transaction>)
    requires AllNew(ts, txs) && txs != []
    ensures AllNew(ts + {txs[0]}, txs[1..])
  {
    hide Txid;
  }

  lemma ListSetCons(txs: seq<Transaction>, i: nat)
    requires 0 < i <= |txs|
    ensures ListSet(txs[..i]) == {txs[0]} + ListSet(txs[1..][..i - 1])
  {
    var a, b := txs[..i], txs[1..][..i - 1];
    assert forall k :: 0 <= k < i - 1 ==> b[k] == a[k + 1];
    forall t | t in ListSet(a)
      ensures t in {txs[0]} + ListSet(b)
    {
      var k :| 0 <= k < i && a[k] == t;
      assert k > 0 ==> b[k - 1] == t;
    }
    forall t | t in ListSet(b)
      ensures t in ListSet(a)
    {
      var k :| 0 <= k < i - 1 && b[k] == t;
      assert a[k + 1] == t;
    }
    assert a[0] in ListSet(a);
  }

  lemma {:induction false} LedgerList(ts: set<Transaction>, u: Utxos, txs: seq<Transaction>, height: nat, fees: u64)
    requires Ledger(ts, u) && AllNew(ts, txs) && Consensus.ApplyTransactions(u, txs, height, fees).Ok?
    ensures Ledger(ts + ListSet(txs), Consensus.ApplyTransactions(u, txs, height, fees).value.0)
    ensures InputsCreated(ts, txs)
    decreases |txs|
  {
    hide Txid, Validate, Creates, Spent, Ledger, CreatedBy, Apply, AllNew, ListSet;
    if txs == [] {
      NoListNoSet();
      assert ts + ListSet(txs) == ts;
    } else {
      var head := txs[0];
      AllNewHead(ts, txs);
      LedgerStep(ts, u, head, height);
      AllNewTail(ts, txs);
      LedgerList(ts + {head}, Apply(u, head, height), txs[1..], height, fees + Validate(u, head).value.fee);
      ListSetCons(txs, |txs|);
      assert txs[..|txs|] == txs && txs[1..][..|txs| - 1] == txs[1..];
      assert ts + ListSet(txs) == ts + {head} + ListSet(txs[1..]);
      forall i, o | 0 <= i < |txs| && o in Spent(txs[i].inputs)
        ensures CreatedBy(ts + ListSet(txs[..i]), o)
      {
        if i == 0 {
          NoListNoSet();
          assert txs[..0] == [] && ts + ListSet(txs[..0]) == ts;
        } else {
          ListSetCons(txs, i);
          assert ts + ListSet(txs[..i]) == ts + {head} + ListSet(txs[1..][..i - 1]);
          assert txs[1..][i - 1] == txs[i];
        }
      }
    }
  }

  lemma NoListNoSet()
    ensures ListSet([]) == {}
  {
  }

  lemma AllNewHead(ts: set<Transaction>, txs: seq<Transaction>)
    requires AllNew(ts, txs) && txs != []
    ensures NewTo(txs[0], ts)
  {
    hide Txid;
  }

  // ---- Along a branch ---------------------------------------------------------------------

  /** Every input is created by a transaction placed earlier. */
  ghost predicate InputsKnown(p: seq<Placed>) {
    forall i, o :: 0 <= i < |p| && o in Spent(p[i].tx.inputs) ==> CreatedBy(TxSet(p[..i]), o)
  }

  lemma TxSetConcat(p: seq<Placed>, b: Block, h: Hash, height: nat, k: nat)
    requires k <= |b.transactions|
    ensures TxSet((p + PlacedBlock(b, h, height))[..|p| + k]) == TxSet(p) + ListSet(b.transactions[..k])
  {
    var q := (p + PlacedBlock(b, h, height))[..|p| + k];
    var txs := b.transactions[..k];
    forall t | t in TxSet(q)
      ensures t in TxSet(p) + ListSet(txs)
    {
      var i :| 0 <= i < |q| && q[i].tx == t;
      assert if i < |p| then q[i] == p[i] else q[i].tx == txs[i - |p|];
    }
    forall t | t in TxSet(p)
      ensures t in TxSet(q)
    {
      var i :| 0 <= i < |p| && p[i].tx == t;
      assert q[i] == p[i];
    }
    forall t | t in ListSet(txs)
      ensures t in TxSet(q)
    {
      var i :| 0 <= i < k && txs[i] == t;
      assert q[|p| + i].tx == t;
    }
  }

  lemma UniqueMeansNew(p: seq<Placed>, b: Block, h: Hash, height: nat)
    requires UniqueIds(p + PlacedBlock(b, h, height)) && b.transactions != []
    ensures AllNew(TxSet(p), b.transactions[1..])
    ensures NewTo(b.transactions[0], TxSet(p) + ListSet(b.transactions[1..]))
    ensures UniqueIds(p)
  {
    hide Txid;
    var q := p + PlacedBlock(b, h, height);
    assert forall i :: 0 <= i < |p| ==> q[i] == p[i];
    assert forall i :: 0 <= i < |b.transactions| ==> q[|p| + i].tx == b.transactions[i];
    var rest := b.transactions[1..];
    forall i | 0 <= i < |rest|
      ensures NewTo(rest[i], TxSet(p))
    {
      assert q[|p| + 1 + i].tx == rest[i];
    }
    forall i, j | 0 <= i < j < |rest|
      ensures Txid(rest[i]) != Txid(rest[j])
    {
      assert q[|p| + 1 + i].tx == rest[i] && q[|p| + 1 + j].tx == rest[j];
    }
    forall t | t in TxSet(p) + ListSet(rest)
      ensures Txid(t) != Txid(b.transactions[0])
    {
      assert q[|p|].tx == b.transactions[0];
      if t in TxSet(p) {
        var i :| 0 <= i < |p| && p[i].tx == t;
      } else {
        var i :| 0 <= i < |rest| && rest[i] == t;
        assert q[|p| + 1 + i].tx == t;
      }
    }
  }

  lemma CreatedByMore(a: set<Transaction>, b: set<Transaction>, o: OutPoint)
    requires CreatedBy(a, o) && a <= b
    ensures CreatedBy(b, o)
  {
    hide Txid;
    var t :| t in a && Creates(t, o);
    assert t in b;
  }

  /** The inputs of a block are known in block order too, although its coinbase is applied last. */
  lemma BlockInputsKnown(p: seq<Placed>, b: Block, h: Hash, height: nat)
    requires InputsKnown(p) && b.transactions != [] && b.transactions[0].IsCoinbase()
    requires InputsCreated(TxSet(p), b.transactions[1..])
    ensures InputsKnown(p + PlacedBlock(b, h, height))
  {
    hide CreatedBy, TxSet, ListSet;
    var q := p + PlacedBlock(b, h, height);
    forall i, o | 0 <= i < |q| && o in Spent(q[i].tx.inputs)
      ensures CreatedBy(TxSet(q[..i]), o)
    {
      if i < |p| {
        assert q[..i] == p[..i] && q[i] == p[i];
      } else {
        var k := i - |p|;
        assert q[i].tx == b.transactions[k];
        if k > 0 {
          var rest := b.transactions[1..];
          assert rest[k - 1] == b.transactions[k];
          TxSetConcat(p, b, h, height, k);
          ListSetCons(b.transactions, k);
          CreatedByMore(TxSet(p) + ListSet(rest[..k - 1]), TxSet(q[..i]), o);
        }
      }
    }
  }

  lemma LedgerBlock(p: seq<Placed>, u: Utxos, b: Block, h: Hash, height: nat)
    requires Ledger(TxSet(p), u) && InputsKnown(p) && UniqueIds(p + PlacedBlock(b, h, height))
    requires Consensus.ApplyBlock(u, b, height).Ok?
    ensures Ledger(TxSet(p + PlacedBlock(b, h, height)), Consensus.ApplyBlock(u, b, height).value)
    ensures InputsKnown(p + PlacedBlock(b, h, height))
  {
    hide Ledger, TxSet, ListSet, InputsKnown, UniqueIds, Apply, Validate, Consensus.ApplyTransactions, AllNew, NewTo,
      InputsCreated, Consensus.ValidateBlock;
    Consensus.AppliedBlockIsValid(u, b, height);
    UniqueMeansNew(p, b, h, height);
    var rest := b.transactions[1..];
    LedgerList(TxSet(p), u, rest, height, 0);
    LedgerStep(TxSet(p) + ListSet(rest), Consensus.BeforeCoinbase(u, b, height), b.transactions[0], height);
    BlockInputsKnown(p, b, h, height);
    var q := p + PlacedBlock(b, h, height);
    TxSetConcat(p, b, h, height, |b.transactions|);
    ListSetCons(b.transactions, |b.transactions|);
    assert q[..|q|] == q && b.transactions[..|b.transactions|] == b.transactions;
    assert rest[..|rest|] == rest;
    assert TxSet(q) == TxSet(p) + ListSet(rest) + {b.transactions[0]};
  }

  lemma EmptyLedger()
    ensures Ledger(TxSet([]), map[]) && InputsKnown([])
  {
  }

  lemma PathUnfolds(c: Index, blocks: map<Hash, Block>, h: Hash)
    requires Tree(c) && blocks.Keys == c.entries.Keys && h in c.entries
    ensures var here := PlacedBlock(blocks[h], h, c.entries[h].height);
            match c.entries[h].parent
            case None => PlacedPath(c, blocks, h) == [] + here && c.entries[h].height == 0
            case Some(q) =>
              && q in c.entries && c.entries[q].height + 1 == c.entries[h].height
              && PlacedPath(c, blocks, h) == PlacedPath(c, blocks, q) + here
  {
    assert Linked(c, h);
  }

  lemma DerivedStep(n: Node, h: Hash)
    requires Consistent(n) && h in n.chain.entries && h in n.snapshots
    ensures h in n.blocks
    ensures n.chain.entries[h].parent.Some? ==> n.chain.entries[h].parent.value in n.snapshots
    ensures ParentSnapshot(n.snapshots, n.chain.entries[h].parent).Ok?
    ensures Consensus.ApplyBlock(
              ParentSnapshot(n.snapshots, n.chain.entries[h].parent).value, n.blocks[h], n.chain.entries[h].height)
            == Ok(n.snapshots[h])
  {
    hide Consensus.ApplyBlock, PoolInv, ActiveExplained, EntryExplained;
    assert Lookup(n.snapshots, h) == Derived(n.chain, n.blocks, n.snapshots, h);
  }

  lemma UniquePrefix(p: seq<Placed>, q: seq<Placed>)
    requires UniqueIds(p + q)
    ensures UniqueIds(p)
  {
    hide Txid;
    assert forall i :: 0 <= i < |p| ==> (p + q)[i] == p[i];
  }

  /** The snapshot of a block holds exactly what its branch created and did not spend, and every
      input on the branch refers to an earlier transaction of it. */
  lemma {:induction false} LedgerOfPath(n: Node, h: Hash)
    requires Consistent(n) && Tree(n.chain) && n.blocks.Keys == n.chain.entries.Keys
    requires h in n.chain.entries && h in n.snapshots && UniqueIds(PlacedPath(n.chain, n.blocks, h))
    ensures Ledger(TxSet(PlacedPath(n.chain, n.blocks, h)), n.snapshots[h])
    ensures InputsKnown(PlacedPath(n.chain, n.blocks, h))
    decreases n.chain.entries[h].height
  {
    hide Consistent, Tree, Ledger, TxSet, InputsKnown, UniqueIds, PlacedPath, Consensus.ApplyBlock;
    var e := n.chain.entries[h];
    DerivedStep(n, h);
    PathUnfolds(n.chain, n.blocks, h);
    if e.parent.None? {
      EmptyLedger();
      LedgerBlock([], map[], n.blocks[h], h, e.height);
    } else {
      var before := PlacedPath(n.chain, n.blocks, e.parent.value);
      UniquePrefix(before, PlacedBlock(n.blocks[h], h, e.height));
      LedgerOfPath(n, e.parent.value);
      LedgerBlock(before, n.snapshots[e.parent.value], n.blocks[h], h, e.height);
    }
  }

  lemma LedgerOfBestChain(n: Node)
    requires Consistent(n) && TipApplied(n) && TreeExplained(n.chain, n.blocks) && UniqueIds(BestChain(n))
    ensures Ledger(TxSet(BestChain(n)), n.activeUtxos) && InputsKnown(BestChain(n))
  {
    hide Consistent, Ledger, TxSet, InputsKnown, UniqueIds, PlacedPath, EntryExplained;
    ActiveIsBestChain(n);
    if n.chain.bestTip.Some? {
      LedgerOfPath(n, n.chain.bestTip.value);
    } else {
      EmptyLedger();
    }
  }

  /** A pending transaction that spends something is not on the best chain, unless another
      transaction there has its id. */
  lemma PendingIsNotConfirmed(ts: set<Transaction>, u: Utxos, tx: Transaction)
    requires Ledger(ts, u) && Validate(u, tx).Ok? && !tx.IsCoinbase()
    requires forall t :: t in ts && Txid(t) == Txid(tx) ==> t == tx
    ensures NewTo(tx, ts)
  {
    hide Txid, Validate, CreatedBy, Sourced;
    SpentArePresent(u, tx);
    assert tx.inputs[0].previousOutput in Spent(tx.inputs);
  }
}
