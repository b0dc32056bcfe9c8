/** Replaying a branch from genesis: the reference against which cached state is judged, with the
    supply bound and the spending discipline every replayable branch obeys. */
module Replay {
  import opened Primitives
  import opened Types
  import opened State
  import opened Consensus

  /** The set after applying `blocks` in order, each at its position, from the empty set. */
  function ReplayBlocks(blocks: seq<Block>): Result<Utxos, ConsensusError> {
    if blocks == [] then Ok(map[])
    else
      match ReplayBlocks(blocks[..|blocks| - 1])
      case Err(e) => Err(e)
      case Ok(u) => ApplyBlock(u, blocks[|blocks| - 1], |blocks| - 1)
  }

  lemma ReplaySnoc(blocks: seq<Block>, b: Block)
    ensures ReplayBlocks(blocks + [b]) ==
            match ReplayBlocks(blocks)
            case Err(e) => Err(e)
            case Ok(u) => ApplyBlock(u, b, |blocks|)
  {
    assert (blocks + [b])[..|blocks|] == blocks;
  }

  // ---- Supply -----------------------------------------------------------------------------

  /** No branch ever holds more than 50 per block. */
  lemma {:induction false} SupplyBound(blocks: seq<Block>)
    requires ReplayBlocks(blocks).Ok?
    ensures Total(ReplayBlocks(blocks).value) <= 50 * |blocks|
  {
    hide ApplyBlock, Total;
    if blocks == [] {
      TotalEmpty();
    } else {
      var n := |blocks| - 1;
      SupplyBound(blocks[..n]);
      BlockSupplyBound(ReplayBlocks(blocks[..n]).value, blocks[n], n);
    }
  }

  // ---- Spending discipline ----------------------------------------------------------------

  /** What can happen to one outpoint. */
  datatype Event = Create | Spend

  predicate Creates(tx: Transaction, o: OutPoint) {
    o.txid == Txid(tx) && o.vout < |tx.outputs|
  }

  /** The events of one transaction at outpoint `o`: it spends before it creates. */
  ghost function TransactionEvents(tx: Transaction, o: OutPoint): seq<Event> {
    (if o in Spent(tx.inputs) then [Spend] else []) + (if Creates(tx, o) then [Create] else [])
  }

  ghost function ListEvents(txs: seq<Transaction>, o: OutPoint): seq<Event> {
    if txs == [] then [] else TransactionEvents(txs[0], o) + ListEvents(txs[1..], o)
  }

  /** A block applies its coinbase last. */
  ghost function BlockEvents(b: Block, o: OutPoint): seq<Event>
    requires b.transactions != []
  {
    ListEvents(b.transactions[1..], o) + TransactionEvents(b.transactions[0], o)
  }

  /** Everything that happens to `o` along a branch. */
  ghost function History(blocks: seq<Block>, o: OutPoint): seq<Event>
    requires forall i :: 0 <= i < |blocks| ==> blocks[i].transactions != []
  {
    if blocks == [] then []
    else History(blocks[..|blocks| - 1], o) + BlockEvents(blocks[|blocks| - 1], o)
  }

  /** Every spend directly follows a creation. */
  ghost predicate Disciplined(h: seq<Event>) {
    forall i :: 0 <= i < |h| && h[i] == Spend ==> i > 0 && h[i - 1] == Create
  }

  ghost predicate EndsUnspent(h: seq<Event>) {
    h != [] && h[|h| - 1] == Create
  }

  /** `h` is a disciplined history that explains whether `o` is in `u`. */
  ghost predicate Explains(h: seq<Event>, u: Utxos, o: OutPoint) {
    Disciplined(h) && (o in u <==> EndsUnspent(h))
  }

  lemma TransactionExtends(h: seq<Event>, u: Utxos, tx: Transaction, height: nat, o: OutPoint)
    requires Explains(h, u, o) && Validate(u, tx).Ok?
    ensures Explains(h + TransactionEvents(tx, o), Apply(u, tx, height), o)
  {
    hide Validate, Txid;
    SpentArePresent(u, tx);
  }

  lemma {:induction false} ListExtends(
    h: seq<Event>, u: Utxos, txs: seq<Transaction>, height: nat, fees: u64, o: OutPoint)
    requires Explains(h, u, o) && ApplyTransactions(u, txs, height, fees).Ok?
    ensures Explains(h + ListEvents(txs, o), ApplyTransactions(u, txs, height, fees).value.0, o)
    decreases |txs|
  {
    hide Validate, Apply, TransactionEvents, Explains;
    if txs == [] {
      assert h + [] == h;
    } else {
      var h' := h + TransactionEvents(txs[0], o);
      TransactionExtends(h, u, txs[0], height, o);
      ListExtends(h', Apply(u, txs[0], height), txs[1..], height, fees + Validate(u, txs[0]).value.fee, o);
      assert h' + ListEvents(txs[1..], o) == h + ListEvents(txs, o);
    }
  }

  lemma BlockExtends(h: seq<Event>, u: Utxos, b: Block, height: nat, o: OutPoint)
    requires Explains(h, u, o) && ApplyBlock(u, b, height).Ok?
    ensures Explains(h + BlockEvents(b, o), ApplyBlock(u, b, height).value, o)
  {
    hide Validate, Apply, TransactionEvents, Explains, ApplyTransactions;
    ListExtends(h, u, b.transactions[1..], height, 0, o);
    var v := BeforeCoinbase(u, b, height);
    TransactionExtends(h + ListEvents(b.transactions[1..], o), v, b.transactions[0], height, o);
    assert h + BlockEvents(b, o)
        == h + ListEvents(b.transactions[1..], o) + TransactionEvents(b.transactions[0], o);
  }

  lemma {:induction false} ReplayedBlocksHaveTransactions(blocks: seq<Block>)
    requires ReplayBlocks(blocks).Ok?
    ensures forall i :: 0 <= i < |blocks| ==> blocks[i].transactions != []
  {
    hide ApplyBlock;
    if blocks != [] {
      var n := |blocks| - 1;
      ReplayedBlocksHaveTransactions(blocks[..n]);
      AppliedBlockIsValid(ReplayBlocks(blocks[..n]).value, blocks[n], n);
      assert forall i :: 0 <= i < n ==> blocks[i] == blocks[..n][i];
    }
  }

  /** No double spend: along a branch every spend of an outpoint directly follows a creation of it,
      and the outpoint is unspent at the end exactly when its last event is a creation. */
  lemma {:induction false} NoDoubleSpend(blocks: seq<Block>, o: OutPoint)
    requires ReplayBlocks(blocks).Ok?
    ensures forall i :: 0 <= i < |blocks| ==> blocks[i].transactions != []
    ensures Explains(History(blocks, o), ReplayBlocks(blocks).value, o)
  {
    hide ApplyBlock;
    ReplayedBlocksHaveTransactions(blocks);
    if blocks != [] {
      var n := |blocks| - 1;
      NoDoubleSpend(blocks[..n], o);
      BlockExtends(History(blocks[..n], o), ReplayBlocks(blocks[..n]).value, blocks[n], n, o);
    }
  }

  /** Between any two spends of an outpoint it was created again. */
  lemma SpendsAreSeparated(h: seq<Event>, i: nat, j: nat)
    requires Disciplined(h) && i < j < |h| && h[i] == Spend && h[j] == Spend
    ensures exists k :: i < k < j && h[k] == Create
  {
    assert h[j - 1] == Create;
  }
}
