/** The set of unspent outputs: transaction validation, application, and value accounting. */
module State {
  import opened Primitives
  import opened Crypto
  import opened Types
  import opened Sums

  type Utxos = map<OutPoint, Utxo>

  datatype ValidationError =
    | EmptyOutputs
    | MissingInput(outpoint: OutPoint)
    | DuplicateInput(outpoint: OutPoint)
    | InvalidLockingData(outpoint: OutPoint)
    | InvalidUnlockingData(outpoint: OutPoint)
    | SignatureMismatch(outpoint: OutPoint)
    | OutputValueOverflow
    | InputValueOverflow
    | Overspend(inputValue: u64, outputValue: u64)

  datatype Validation = Validation(spentInputs: seq<OutPoint>, fee: u64)

  // ---- Validation -------------------------------------------------------------------------

  function OutputSum(outputs: seq<TxOut>): nat {
    if outputs == [] then 0
    else OutputSum(outputs[..|outputs| - 1]) + outputs[|outputs| - 1].value
  }

  function Spent(inputs: seq<TxIn>): (s: set<OutPoint>)
    ensures forall i :: 0 <= i < |inputs| ==> inputs[i].previousOutput in s
  {
    set input | input in inputs :: input.previousOutput
  }

  function SpentInputs(inputs: seq<TxIn>): (s: seq<OutPoint>)
    ensures |s| == |inputs|
    ensures forall i :: 0 <= i < |s| ==> s[i] == inputs[i].previousOutput
  {
    seq(|inputs|, i requires 0 <= i < |inputs| => inputs[i].previousOutput)
  }

  /** Checks that `input` may spend the output it names; `None` when it may. */
  function InputError(u: Utxos, input: TxIn, digest: Hash): Option<ValidationError> {
    var o := input.previousOutput;
    if o !in u then Some(MissingInput(o))
    else
      match ParseVerifyingKey(u[o].output.lockingData)
      case None => Some(InvalidLockingData(o))
      case Some(key) =>
        match ParseSignature(input.unlockingData)
        case None => Some(InvalidUnlockingData(o))
        case Some(signature) =>
          if VerifyMessage(signature, key, digest) then None else Some(SignatureMismatch(o))
  }

  /** Resolves the inputs from position `i` on, having seen `seen` and accumulated `value`. */
  function ResolveInputs(u: Utxos, tx: Transaction, i: nat, seen: set<OutPoint>, value: u64)
    : Result<u64, ValidationError>
    requires i <= |tx.inputs|
    decreases |tx.inputs| - i
  {
    if i == |tx.inputs| then Ok(value)
    else
      var o := tx.inputs[i].previousOutput;
      if o in seen then Err(DuplicateInput(o))
      else
        match InputError(u, tx.inputs[i], SigningDigest(tx))
        case Some(e) => Err(e)
        case None =>
          if value + u[o].output.value > U64_MAX then Err(InputValueOverflow)
          else ResolveInputs(u, tx, i + 1, seen + {o}, value + u[o].output.value)
  }

  function Validate(u: Utxos, tx: Transaction): Result<Validation, ValidationError> {
    if tx.outputs == [] then Err(EmptyOutputs)
    else if OutputSum(tx.outputs) > U64_MAX then Err(OutputValueOverflow)
    else if tx.IsCoinbase() then Ok(Validation([], 0))
    else
      match ResolveInputs(u, tx, 0, {}, 0)
      case Err(e) => Err(e)
      case Ok(inputValue) =>
        if inputValue < OutputSum(tx.outputs) then Err(Overspend(inputValue, OutputSum(tx.outputs)))
        else Ok(Validation(SpentInputs(tx.inputs), inputValue - OutputSum(tx.outputs)))
  }

  // ---- What validation means --------------------------------------------------------------

  function ValueAt(u: Utxos, o: OutPoint): nat {
    if o in u then u[o].output.value else 0
  }

  function InputSum(u: Utxos, inputs: seq<TxIn>): nat {
    if inputs == [] then 0
    else InputSum(u, inputs[..|inputs| - 1]) + ValueAt(u, inputs[|inputs| - 1].previousOutput)
  }

  ghost predicate DistinctInputs(inputs: seq<TxIn>) {
    forall i, j :: 0 <= i < j < |inputs| ==> inputs[i].previousOutput != inputs[j].previousOutput
  }

  ghost predicate Authorised(u: Utxos, tx: Transaction) {
    forall i :: 0 <= i < |tx.inputs| ==> InputError(u, tx.inputs[i], SigningDigest(tx)) == None
  }

  /** The rules a transaction must meet, stated without reference to the order of checks. */
  ghost predicate Acceptable(u: Utxos, tx: Transaction) {
    && tx.outputs != []
    && OutputSum(tx.outputs) <= U64_MAX
    && (tx.inputs != [] ==>
          && DistinctInputs(tx.inputs)
          && Authorised(u, tx)
          && OutputSum(tx.outputs) <= InputSum(u, tx.inputs) <= U64_MAX)
  }

  /** The fee: the value that enters and is not assigned to an output. */
  ghost function Fee(u: Utxos, tx: Transaction): int {
    if tx.inputs == [] then 0 else InputSum(u, tx.inputs) - OutputSum(tx.outputs)
  }

  lemma InputSumMonotone(u: Utxos, inputs: seq<TxIn>, i: nat)
    requires i <= |inputs|
    ensures InputSum(u, inputs[..i]) <= InputSum(u, inputs)
    decreases |inputs| - i
  {
    if i < |inputs| {
      InputSumMonotone(u, inputs, i + 1);
      assert inputs[..i + 1][..i] == inputs[..i];
    } else {
      assert inputs[..i] == inputs;
    }
  }

  /** The state of input resolution before position `i`, when nothing has failed so far. */
  ghost predicate ResolvedTo(u: Utxos, tx: Transaction, i: nat, seen: set<OutPoint>, value: nat) {
    && i <= |tx.inputs|
    && seen == Spent(tx.inputs[..i])
    && value == InputSum(u, tx.inputs[..i])
    && DistinctInputs(tx.inputs[..i])
    && forall j :: 0 <= j < i ==> InputError(u, tx.inputs[j], SigningDigest(tx)) == None
  }

  lemma ResolvedStep(u: Utxos, tx: Transaction, i: nat, seen: set<OutPoint>, value: nat)
    requires ResolvedTo(u, tx, i, seen, value) && i < |tx.inputs|
    requires tx.inputs[i].previousOutput !in seen
    requires InputError(u, tx.inputs[i], SigningDigest(tx)) == None
    ensures var o := tx.inputs[i].previousOutput;
            o in u && ResolvedTo(u, tx, i + 1, seen + {o}, value + u[o].output.value)
  {
    hide SigningDigest;
    var next := tx.inputs[..i + 1];
    assert next[..i] == tx.inputs[..i] && next[i] == tx.inputs[i];
    SpentSnoc(next);
    forall j, k | 0 <= j < k < |next|
      ensures next[j].previousOutput != next[k].previousOutput
    {
      assert next[j].previousOutput in Spent(tx.inputs[..i]) by {
        assert tx.inputs[..i][j] == next[j];
      }
    }
  }

  lemma DuplicateRefutes(tx: Transaction, i: nat)
    requires i < |tx.inputs| && tx.inputs[i].previousOutput in Spent(tx.inputs[..i])
    ensures !DistinctInputs(tx.inputs)
  {
    var input :| input in tx.inputs[..i] && input.previousOutput == tx.inputs[i].previousOutput;
    var j :| 0 <= j < i && tx.inputs[j] == input;
  }

  lemma {:induction false} ResolveInputsSpec(u: Utxos, tx: Transaction, i: nat, seen: set<OutPoint>, value: u64)
    requires ResolvedTo(u, tx, i, seen, value)
    ensures ResolveInputs(u, tx, i, seen, value).Ok? <==>
            DistinctInputs(tx.inputs) && Authorised(u, tx) && InputSum(u, tx.inputs) <= U64_MAX
    ensures ResolveInputs(u, tx, i, seen, value).Ok? ==>
            ResolveInputs(u, tx, i, seen, value).value == InputSum(u, tx.inputs)
    decreases |tx.inputs| - i
  {
    hide SigningDigest, InputError, DistinctInputs, InputSum, Spent;
    if i == |tx.inputs| {
      assert tx.inputs[..i] == tx.inputs;
    } else {
      var o := tx.inputs[i].previousOutput;
      if o in seen {
        DuplicateRefutes(tx, i);
      } else if InputError(u, tx.inputs[i], SigningDigest(tx)) == None {
        ResolvedStep(u, tx, i, seen, value);
        InputSumMonotone(u, tx.inputs, i + 1);
        if value + u[o].output.value <= U64_MAX {
          ResolveInputsSpec(u, tx, i + 1, seen + {o}, value + u[o].output.value);
        }
      }
    }
  }

  /** Validation accepts exactly the acceptable transactions, and computes their fee. */
  lemma ValidateIffAcceptable(u: Utxos, tx: Transaction)
    ensures Validate(u, tx).Ok? <==> Acceptable(u, tx)
    ensures Validate(u, tx).Ok? ==> Validate(u, tx).value.fee == Fee(u, tx)
  {
    assert tx.inputs[..0] == [];
    ResolveInputsSpec(u, tx, 0, {}, 0);
  }

  /** Validity and fee depend only on the entries that the transaction spends. */
  lemma ValidateDependsOnInputs(u: Utxos, v: Utxos, tx: Transaction)
    requires forall o :: o in Spent(tx.inputs) ==> (o in u <==> o in v) && (o in u ==> u[o].output == v[o].output)
    ensures Validate(u, tx) == Validate(v, tx)
  {
    ResolveDependsOnInputs(u, v, tx, 0, {}, 0);
  }

  lemma {:induction false} ResolveDependsOnInputs(
    u: Utxos, v: Utxos, tx: Transaction, i: nat, seen: set<OutPoint>, value: u64)
    requires i <= |tx.inputs|
    requires forall o :: o in Spent(tx.inputs) ==> (o in u <==> o in v) && (o in u ==> u[o].output == v[o].output)
    ensures ResolveInputs(u, tx, i, seen, value) == ResolveInputs(v, tx, i, seen, value)
    decreases |tx.inputs| - i
  {
    if i < |tx.inputs| {
      var o := tx.inputs[i].previousOutput;
      assert o in Spent(tx.inputs);
      if o in u && value + u[o].output.value <= U64_MAX {
        ResolveDependsOnInputs(u, v, tx, i + 1, seen + {o}, value + u[o].output.value);
      }
    }
  }

  // ---- Application ------------------------------------------------------------------------

  /** The first `n` entries that `tx` creates at `height`. */
  function CreatedPrefix(tx: Transaction, height: nat, n: nat): (c: Utxos)
    requires n <= |tx.outputs|
    ensures forall o :: o in c <==> o.txid == Txid(tx) && o.vout < n
    ensures forall o :: o in c ==> c[o] == Utxo(o, tx.outputs[o.vout], height, tx.IsCoinbase())
  {
    map v: u32 | 0 <= v < n ::
      OutPoint(Txid(tx), v) := Utxo(OutPoint(Txid(tx), v), tx.outputs[v], height, tx.IsCoinbase())
  }

  function Created(tx: Transaction, height: nat): Utxos {
    CreatedPrefix(tx, height, |tx.outputs|)
  }

  /** The successor set: spent entries leave, created entries enter (over any they collide with). */
  function Apply(u: Utxos, tx: Transaction, height: nat): Utxos {
    (u - Spent(tx.inputs)) + Created(tx, height)
  }

  // ---- Accounting -------------------------------------------------------------------------

  ghost function Values(u: Utxos): map<OutPoint, nat> {
    map o | o in u :: u[o].output.value
  }

  /** Total unspent value. */
  ghost function Total(u: Utxos): nat {
    Sum(Values(u))
  }

  lemma TotalEmpty()
    ensures Total(map[]) == 0
  {
  }

  lemma TotalRemove(u: Utxos, o: OutPoint)
    requires o in u
    ensures Total(u) == u[o].output.value + Total(u - {o})
  {
    SumRemove(Values(u), o);
    assert Values(u) - {o} == Values(u - {o});
  }

  lemma TotalUnion(a: Utxos, b: Utxos)
    requires a.Keys !! b.Keys
    ensures Total(a + b) == Total(a) + Total(b)
  {
    SumDisjointUnion(Values(a), Values(b));
    assert Values(a + b) == Values(a) + Values(b);
  }

  lemma RemoveOneMore(u: Utxos, s: set<OutPoint>, o: OutPoint)
    ensures u - (s + {o}) == (u - s) - {o}
  {
  }

  lemma SpentSnoc(inputs: seq<TxIn>)
    requires inputs != []
    ensures Spent(inputs) == Spent(inputs[..|inputs| - 1]) + {inputs[|inputs| - 1].previousOutput}
  {
    assert inputs == inputs[..|inputs| - 1] + [inputs[|inputs| - 1]];
  }

  /** Distinct present inputs carry out of the set exactly the sum of their values. */
  lemma {:induction false} TotalSpent(u: Utxos, inputs: seq<TxIn>)
    requires DistinctInputs(inputs) && Spent(inputs) <= u.Keys
    ensures Total(u) == InputSum(u, inputs) + Total(u - Spent(inputs))
  {
    if inputs == [] {
      assert u - Spent(inputs) == u;
    } else {
      var n := |inputs| - 1;
      var front, o := inputs[..n], inputs[n].previousOutput;
      SpentSnoc(inputs);
      TotalSpent(u, front);
      assert o !in Spent(front);
      RemoveOneMore(u, Spent(front), o);
      TotalRemove(u - Spent(front), o);
    }
  }

  lemma DropLastCreated(tx: Transaction, height: nat, n: nat)
    requires 0 < n <= |tx.outputs|
    ensures CreatedPrefix(tx, height, n) - {OutPoint(Txid(tx), n - 1)} == CreatedPrefix(tx, height, n - 1)
  {
    hide Txid;
  }

  lemma {:induction false} TotalCreated(tx: Transaction, height: nat, n: nat)
    requires n <= |tx.outputs|
    ensures Total(CreatedPrefix(tx, height, n)) == OutputSum(tx.outputs[..n])
  {
    hide Txid, Total;
    if n == 0 {
      assert CreatedPrefix(tx, height, 0) == map[];
      TotalEmpty();
    } else {
      TotalCreated(tx, height, n - 1);
      var o := OutPoint(Txid(tx), n - 1);
      TotalRemove(CreatedPrefix(tx, height, n), o);
      DropLastCreated(tx, height, n);
      assert tx.outputs[..n][..n - 1] == tx.outputs[..n - 1];
    }
  }

  /** Entries of `u` that survive the spends of `tx` but are overwritten by its outputs. */
  ghost function Overwritten(u: Utxos, tx: Transaction, height: nat): Utxos {
    map o | o in u && o !in Spent(tx.inputs) && o in Created(tx, height) :: u[o]
  }

  lemma ApplySplits(u: Utxos, tx: Transaction, height: nat)
    ensures var kept := u - Spent(tx.inputs);
            var lost := Overwritten(u, tx, height);
            && kept == (kept - Created(tx, height).Keys) + lost
            && Apply(u, tx, height) == (kept - Created(tx, height).Keys) + Created(tx, height)
  {
    hide Created, Spent;
    MapsSplit(u, Spent(tx.inputs), Created(tx, height));
    var kept, lost := u - Spent(tx.inputs), Overwritten(u, tx, height);
    assert lost == map o | o in kept && o in Created(tx, height) :: kept[o];
  }

  lemma MapsSplit(u: Utxos, gone: set<OutPoint>, added: Utxos)
    ensures var kept := u - gone;
            && kept == (kept - added.Keys) + (map o | o in kept && o in added :: kept[o])
            && kept + added == (kept - added.Keys) + added
  {
  }

  /** Conservation: what a transaction destroys is its fee and the entries it overwrites, nothing else. */
  lemma ApplyConserves(u: Utxos, tx: Transaction, height: nat)
    requires Validate(u, tx).Ok?
    ensures tx.inputs != [] ==>
      Total(Apply(u, tx, height)) + Validate(u, tx).value.fee + Total(Overwritten(u, tx, height)) == Total(u)
    ensures tx.inputs == [] ==>
      Total(Apply(u, tx, height)) + Total(Overwritten(u, tx, height)) == Total(u) + OutputSum(tx.outputs)
  {
    hide Total, Txid, Validate;
    ValidateIffAcceptable(u, tx);
    var kept := u - Spent(tx.inputs);
    var lost := Overwritten(u, tx, height);
    var stay := kept - Created(tx, height).Keys;
    ApplySplits(u, tx, height);
    TotalUnion(stay, lost);
    TotalUnion(stay, Created(tx, height));
    TotalCreated(tx, height, |tx.outputs|);
    assert tx.outputs[..|tx.outputs|] == tx.outputs;
    SpentArePresent(u, tx);
    TotalSpent(u, tx.inputs);
  }

  lemma SpentArePresent(u: Utxos, tx: Transaction)
    requires Validate(u, tx).Ok?
    ensures Spent(tx.inputs) <= u.Keys && DistinctInputs(tx.inputs)
  {
    ValidateIffAcceptable(u, tx);
  }

  /** The fee of a valid transaction is covered by the set it spends from. */
  lemma InputsWithinTotal(u: Utxos, inputs: seq<TxIn>)
    requires DistinctInputs(inputs) && Spent(inputs) <= u.Keys
    ensures InputSum(u, inputs) <= Total(u)
  {
    TotalSpent(u, inputs);
  }

  /** While the whole set fits in 64 bits, summing inputs cannot overflow. */
  lemma {:induction false} NoInputOverflow(u: Utxos, tx: Transaction, i: nat, seen: set<OutPoint>, value: u64)
    requires Total(u) <= U64_MAX && ResolvedTo(u, tx, i, seen, value)
    ensures ResolveInputs(u, tx, i, seen, value) != Err(InputValueOverflow)
    decreases |tx.inputs| - i
  {
    hide SigningDigest, Total;
    if i < |tx.inputs| {
      var o := tx.inputs[i].previousOutput;
      if o !in seen && InputError(u, tx.inputs[i], SigningDigest(tx)) == None {
        ResolvedStep(u, tx, i, seen, value);
        ResolvedWithinTotal(u, tx, i + 1, seen + {o}, value + u[o].output.value);
        NoInputOverflow(u, tx, i + 1, seen + {o}, value + u[o].output.value);
      }
    }
  }

  lemma ResolvedWithinTotal(u: Utxos, tx: Transaction, i: nat, seen: set<OutPoint>, value: nat)
    requires ResolvedTo(u, tx, i, seen, value)
    ensures value <= Total(u)
  {
    hide SigningDigest, Total;
    InputsWithinTotal(u, tx.inputs[..i]);
  }

  lemma ValidateNeverOverflowsInputs(u: Utxos, tx: Transaction)
    requires Total(u) <= U64_MAX
    ensures Validate(u, tx) != Err(InputValueOverflow)
  {
    assert tx.inputs[..0] == [];
    NoInputOverflow(u, tx, 0, {}, 0);
  }

  // ---- The mutable set --------------------------------------------------------------------

  /** Sums output values with a checked addition. */
  method SumOutputs(outputs: seq<TxOut>) returns (r: Result<u64, ValidationError>)
    ensures r == if OutputSum(outputs) > U64_MAX then Err(OutputValueOverflow) else Ok(OutputSum(outputs))
  {
    var total: u64 := 0;
    for i := 0 to |outputs|
      invariant total == OutputSum(outputs[..i])
    {
      assert outputs[..i + 1][..i] == outputs[..i];
      if total + outputs[i].value > U64_MAX {
        OutputSumMonotone(outputs, i + 1);
        return Err(OutputValueOverflow);
      }
      total := total + outputs[i].value;
    }
    assert outputs[..|outputs|] == outputs;
    return Ok(total);
  }

  lemma OutputSumMonotone(outputs: seq<TxOut>, i: nat)
    requires i <= |outputs|
    ensures OutputSum(outputs[..i]) <= OutputSum(outputs)
    decreases |outputs| - i
  {
    if i < |outputs| {
      OutputSumMonotone(outputs, i + 1);
      assert outputs[..i + 1][..i] == outputs[..i];
    } else {
      assert outputs[..i] == outputs;
    }
  }

  class UtxoSet {
    var entries: Utxos

    constructor (entries: Utxos)
      ensures this.entries == entries
    {
      this.entries := entries;
    }

    /** Resolves each input once, accumulating the value it brings in. */
    method ValidateTransaction(tx: Transaction) returns (r: Result<Validation, ValidationError>)
      ensures r == Validate(entries, tx)
    {
      if tx.outputs == [] {
        return Err(EmptyOutputs);
      }
      var outputValue := SumOutputs(tx.outputs);
      if outputValue.Err? {
        return Err(outputValue.error);
      }
      if tx.IsCoinbase() {
        return Ok(Validation([], 0));
      }
      var seen: set<OutPoint> := {};
      var inputValue: u64 := 0;
      for i := 0 to |tx.inputs|
        invariant ResolveInputs(entries, tx, 0, {}, 0) == ResolveInputs(entries, tx, i, seen, inputValue)
      {
        var o := tx.inputs[i].previousOutput;
        if o in seen {
          return Err(DuplicateInput(o));
        }
        seen := seen + {o};
        var problem := InputError(entries, tx.inputs[i], SigningDigest(tx));
        if problem.Some? {
          return Err(problem.value);
        }
        if inputValue + entries[o].output.value > U64_MAX {
          return Err(InputValueOverflow);
        }
        inputValue := inputValue + entries[o].output.value;
      }
      if inputValue < outputValue.value {
        return Err(Overspend(inputValue, outputValue.value));
      }
      return Ok(Validation(SpentInputs(tx.inputs), inputValue - outputValue.value));
    }

    method TransactionFee(tx: Transaction) returns (r: Result<u64, ValidationError>)
      ensures r.Ok? <==> Acceptable(entries, tx)
      ensures r.Ok? ==> r.value == Fee(entries, tx)
      ensures r.Err? ==> Validate(entries, tx) == Err(r.error)
    {
      var v := ValidateTransaction(tx);
      ValidateIffAcceptable(entries, tx);
      r := if v.Ok? then Ok(v.value.fee) else Err(v.error);
    }

    /** Validates `tx`, removes the entries it spends and inserts the entries it creates. */
    method ApplyTransaction(tx: Transaction, height: nat) returns (r: Result<(), ValidationError>)
      modifies this
      ensures r.Ok? <==> Acceptable(old(entries), tx)
      ensures r.Ok? ==> entries == Apply(old(entries), tx, height)
      ensures r.Err? ==> entries == old(entries) && Validate(entries, tx) == Err(r.error)
    {
      var v := ValidateTransaction(tx);
      ValidateIffAcceptable(entries, tx);
      if v.Err? {
        return Err(v.error);
      }
      ghost var before := entries;
      if !tx.IsCoinbase() {
        var spent := v.value.spentInputs;
        for i := 0 to |spent|
          invariant entries == before - Spent(tx.inputs[..i])
        {
          SpentSnoc(tx.inputs[..i + 1]);
          assert tx.inputs[..i + 1][..i] == tx.inputs[..i];
          RemoveOneMore(before, Spent(tx.inputs[..i]), spent[i]);
          entries := entries - {spent[i]};
        }
        assert tx.inputs[..|tx.inputs|] == tx.inputs;
      }
      assert entries == before - Spent(tx.inputs);
      AddOutputs(tx, height);
      return Ok(());
    }

    method AddOutputs(tx: Transaction, height: nat)
      modifies this
      ensures entries == old(entries) + Created(tx, height)
    {
      ghost var kept := entries;
      var txid := Txid(tx);
      for vout := 0 to |tx.outputs|
        invariant entries == kept + CreatedPrefix(tx, height, vout)
      {
        var o := OutPoint(txid, vout);
        var utxo := Utxo(o, tx.outputs[vout], height, tx.IsCoinbase());
        InsertExtends(kept, tx, height, vout);
        entries := entries[o := utxo];
      }
    }
  }

  lemma InsertExtends(kept: Utxos, tx: Transaction, height: nat, vout: nat)
    requires vout < |tx.outputs|
    ensures var o := OutPoint(Txid(tx), vout);
            (kept + CreatedPrefix(tx, height, vout))[o := Utxo(o, tx.outputs[vout], height, tx.IsCoinbase())]
            == kept + CreatedPrefix(tx, height, vout + 1)
  {
    hide Txid;
    var o := OutPoint(Txid(tx), vout);
    var e := Utxo(o, tx.outputs[vout], height, tx.IsCoinbase());
    assert CreatedPrefix(tx, height, vout + 1) == CreatedPrefix(tx, height, vout)[o := e];
    UnionUpdate(kept, CreatedPrefix(tx, height, vout), o, e);
  }

  lemma UnionUpdate<K, V>(m: map<K, V>, c: map<K, V>, k: K, v: V)
    ensures (m + c)[k := v] == m + c[k := v]
    ensures c[k := v].Keys == c.Keys + {k}
  {
  }
}
