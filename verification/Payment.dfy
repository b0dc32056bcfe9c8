/** Building a signed payment from the unspent outputs a wallet owns. */
module Payment {
  import opened Primitives
  import opened Crypto
  import opened Types
  import opened State
  import opened Sums
  import opened Sorting
  import Encoding

  datatype PaymentError = InsufficientFunds(requested: u64, available: u64)

  datatype Order = Order(change: Hash, recipient: Hash, amount: u64, uniqueness: u32)

  /** The first signing key whose public key is `lockingData`. */
  function SignerOf(keys: seq<Hash>, lockingData: seq<byte>): (signer: Option<Hash>)
    ensures signer.Some? ==> signer.value in keys && VerifyingKeyOf(signer.value) == lockingData
    ensures signer.None? ==> forall key :: key in keys ==> VerifyingKeyOf(key) != lockingData
    decreases |keys|
  {
    if keys == [] then None
    else if VerifyingKeyOf(keys[0]) == lockingData then Some(keys[0])
    else SignerOf(keys[1..], lockingData)
  }

  predicate Owns(u: Utxos, keys: seq<Hash>, o: OutPoint) {
    o in u && SignerOf(keys, u[o].output.lockingData).Some?
  }

  /** The owned outpoints among `order`, in that order. */
  function OwnedAmong(u: Utxos, keys: seq<Hash>, order: seq<OutPoint>): (owned: seq<OutPoint>)
    ensures forall i :: 0 <= i < |owned| ==> Owns(u, keys, owned[i]) && owned[i] in order
    ensures |owned| <= |order|
  {
    if order == [] then []
    else
      var n := |order| - 1;
      OwnedAmong(u, keys, order[..n]) + if Owns(u, keys, order[n]) then [order[n]] else []
  }

  /** All owned outpoints, sorted. */
  function OwnedOutputs(u: Utxos, keys: seq<Hash>): (owned: seq<OutPoint>)
    ensures forall i :: 0 <= i < |owned| ==> Owns(u, keys, owned[i])
  {
    OwnedAmong(u, keys, SortedOutPoints(u.Keys))
  }

  function ValueSum(u: Utxos, os: seq<OutPoint>): nat {
    if os == [] then 0 else ValueSum(u, os[..|os| - 1]) + ValueAt(u, os[|os| - 1])
  }

  /** The value locked to any of the keys, independent of any order. */
  ghost function OwnedValue(u: Utxos, keys: seq<Hash>): nat {
    Sum(OwnedMap(u, keys))
  }

  ghost function OwnedMap(u: Utxos, keys: seq<Hash>): map<OutPoint, nat> {
    map o | o in u && SignerOf(keys, u[o].output.lockingData).Some? :: u[o].output.value
  }

  function Saturate(n: nat): u64 {
    if n > U64_MAX then U64_MAX else n
  }

  /** `k` is the length of the shortest non-empty prefix that covers `amount`. */
  ghost predicate Covers(u: Utxos, owned: seq<OutPoint>, amount: nat, k: nat) {
    && k <= |owned| && (k > 0 || owned == [])
    && ValueSum(u, owned[..k]) >= amount
    && forall j :: 0 < j < k ==> ValueSum(u, owned[..j]) < amount
  }

  ghost predicate SignedInputs(u: Utxos, keys: seq<Hash>, tx: Transaction, owned: seq<OutPoint>) {
    && |tx.inputs| <= |owned|
    && forall i :: 0 <= i < |tx.inputs| ==>
         && tx.inputs[i].previousOutput == owned[i]
         && Owns(u, keys, owned[i])
         && tx.inputs[i].unlockingData
            == SignMessage(SignerOf(keys, u[owned[i]].output.lockingData).value, SigningDigest(tx))
  }

  function PaymentOutputs(order: Order, total: u64): (outs: seq<TxOut>)
    requires order.amount <= total
    ensures 1 <= |outs| <= 2
  {
    [TxOut(order.amount, order.recipient)]
    + if total > order.amount then [TxOut(total - order.amount, order.change)] else []
  }

  /** What a payment is: it spends a minimal prefix of the sorted owned outputs, each input signed by
      its owner over the final transaction, pays the recipient and returns the rest as change. */
  ghost predicate IsPayment(u: Utxos, keys: seq<Hash>, order: Order, tx: Transaction) {
    var owned := OwnedOutputs(u, keys);
    && Covers(u, owned, order.amount, |tx.inputs|)
    && SignedInputs(u, keys, tx, owned)
    && order.amount <= Saturate(ValueSum(u, owned[..|tx.inputs|]))
    && tx.outputs == PaymentOutputs(order, Saturate(ValueSum(u, owned[..|tx.inputs|])))
  }

  // ---- The owned value --------------------------------------------------------------------

  ghost function Listed(os: seq<OutPoint>): set<OutPoint> {
    set o | o in os
  }

  ghost predicate NoRepeats(os: seq<OutPoint>) {
    forall i, j :: 0 <= i < j < |os| ==> os[i] != os[j]
  }

  lemma ListedSnoc(m: map<OutPoint, nat>, os: seq<OutPoint>)
    requires os != [] && NoRepeats(os)
    ensures var o := os[|os| - 1];
            Sum(Restrict(m, Listed(os))) == Sum(Restrict(m, Listed(os[..|os| - 1]))) + if o in m then m[o] else 0
  {
    var n := |os| - 1;
    assert os == os[..n] + [os[n]];
    assert Listed(os) - {os[n]} == Listed(os[..n]);
    RestrictStep(m, Listed(os), os[n]);
  }

  lemma {:induction false} OwnedAmongSum(u: Utxos, keys: seq<Hash>, order: seq<OutPoint>)
    requires NoRepeats(order)
    ensures ValueSum(u, OwnedAmong(u, keys, order)) == Sum(Restrict(OwnedMap(u, keys), Listed(order)))
  {
    hide SignerOf, Restrict;
    if order == [] {
      ListedNothing(OwnedMap(u, keys));
    } else {
      var n := |order| - 1;
      OwnedAmongSum(u, keys, order[..n]);
      ListedSnoc(OwnedMap(u, keys), order);
      var front := OwnedAmong(u, keys, order[..n]);
      assert (front + [order[n]])[..|front|] == front;
      assert front + [] == front;
    }
  }

  lemma ListedNothing(m: map<OutPoint, nat>)
    ensures Sum(Restrict(m, Listed([]))) == 0
  {
    assert Restrict(m, Listed([])) == map[];
  }

  lemma SortedHasNoRepeats(s: set<OutPoint>)
    ensures NoRepeats(SortedOutPoints(s))
  {
    hide OutPointRank;
  }

  /** Summing the sorted list gives the owned value. */
  lemma OwnedOutputsSum(u: Utxos, keys: seq<Hash>)
    ensures ValueSum(u, OwnedOutputs(u, keys)) == OwnedValue(u, keys)
  {
    hide SignerOf, OutPointRank, OwnedAmong, Restrict, Sum;
    var order := SortedOutPoints(u.Keys);
    SortedHasNoRepeats(u.Keys);
    OwnedAmongSum(u, keys, order);
    RestrictEnds(OwnedMap(u, keys), Listed(order));
  }

  lemma OwnedPrefix(u: Utxos, keys: seq<Hash>, order: seq<OutPoint>, i: nat)
    requires i <= |order|
    ensures OwnedAmong(u, keys, order[..i]) <= OwnedAmong(u, keys, order)
    decreases |order| - i
  {
    hide Owns;
    if i < |order| {
      OwnedPrefix(u, keys, order, i + 1);
      assert order[..i + 1][..i] == order[..i];
    } else {
      assert order[..i] == order;
    }
  }

  // ---- Building ---------------------------------------------------------------------------

  function UnsignedInput(o: OutPoint): TxIn {
    TxIn(o, [])
  }

  /** No non-empty prefix of `os` covers `amount`. */
  ghost predicate FallsShort(u: Utxos, os: seq<OutPoint>, amount: nat) {
    forall j :: 0 < j <= |os| ==> ValueSum(u, os[..j]) < amount
  }

  lemma FallsShortSnoc(u: Utxos, os: seq<OutPoint>, o: OutPoint, amount: nat)
    requires FallsShort(u, os, amount)
    ensures ValueSum(u, os + [o]) == ValueSum(u, os) + ValueAt(u, o)
    ensures ValueSum(u, os + [o]) < amount ==> FallsShort(u, os + [o], amount)
    ensures forall j :: 0 < j < |os + [o]| ==> ValueSum(u, (os + [o])[..j]) < amount
  {
    var longer := os + [o];
    assert longer[..|os|] == os && longer[..|longer|] == longer;
    assert forall j :: 0 < j <= |os| ==> longer[..j] == os[..j];
  }

  lemma CoversFromPrefix(u: Utxos, owned: seq<OutPoint>, selected: seq<OutPoint>, amount: nat)
    requires selected <= owned && selected != [] && ValueSum(u, selected) >= amount
    requires forall j :: 0 < j < |selected| ==> ValueSum(u, selected[..j]) < amount
    ensures Covers(u, owned, amount, |selected|)
  {
    PrefixesAgree(owned, selected);
  }

  lemma ShortfallOfAll(u: Utxos, owned: seq<OutPoint>, amount: nat)
    requires FallsShort(u, owned, amount)
    ensures ValueSum(u, owned) >= amount ==> owned == [] && Covers(u, owned, amount, 0)
  {
    assert owned[..|owned|] == owned;
  }

  lemma OwnedAmongNext(u: Utxos, keys: seq<Hash>, order: seq<OutPoint>, i: nat)
    requires i < |order|
    ensures OwnedAmong(u, keys, order[..i + 1])
            == OwnedAmong(u, keys, order[..i]) + if Owns(u, keys, order[i]) then [order[i]] else []
  {
    assert order[..i + 1][..i] == order[..i];
  }

  /** Gathers owned outputs in sorted order until they cover the amount. */
  method SelectInputs(u: Utxos, keys: seq<Hash>, order: seq<OutPoint>, amount: u64)
    returns (selected: seq<OutPoint>, total: u64)
    ensures selected <= OwnedAmong(u, keys, order)
    ensures total == Saturate(ValueSum(u, selected))
    ensures total >= amount ==> Covers(u, OwnedAmong(u, keys, order), amount, |selected|)
    ensures total < amount ==> selected == OwnedAmong(u, keys, order)
  {
    hide Owns, OwnedAmong, FallsShort, Covers, ValueSum;
    selected, total := [], 0;
    NothingSelected(u, keys, amount);
    assert order[..0] == [];
    for i := 0 to |order|
      invariant selected == OwnedAmong(u, keys, order[..i])
      invariant total == Saturate(ValueSum(u, selected))
      invariant FallsShort(u, selected, amount)
    {
      OwnedAmongNext(u, keys, order, i);
      if Owns(u, keys, order[i]) {
        FallsShortSnoc(u, selected, order[i], amount);
        selected := selected + [order[i]];
        total := Saturate(total + ValueAt(u, order[i]));
        if total >= amount {
          OwnedPrefix(u, keys, order, i + 1);
          CoversFromPrefix(u, OwnedAmong(u, keys, order), selected, amount);
          return;
        }
      }
    }
    assert order[..|order|] == order;
    ShortfallOfAll(u, selected, amount);
  }

  lemma NothingSelected(u: Utxos, keys: seq<Hash>, amount: nat)
    ensures OwnedAmong(u, keys, []) == [] && ValueSum(u, []) == 0 && FallsShort(u, [], amount)
  {
  }

  lemma PrefixesAgree<T>(s: seq<T>, p: seq<T>)
    requires p <= s
    ensures s[..|p|] == p && forall j :: 0 <= j <= |p| ==> s[..j] == p[..j]
  {
  }

  /** Signs every input of an unsigned transaction with the key that owns it. */
  method SignInputs(u: Utxos, keys: seq<Hash>, unsigned: Transaction, selected: seq<OutPoint>)
    returns (tx: Transaction)
    requires |unsigned.inputs| == |selected|
    requires forall i :: 0 <= i < |selected| ==>
      unsigned.inputs[i] == UnsignedInput(selected[i]) && Owns(u, keys, selected[i])
    ensures SignedInputs(u, keys, tx, selected) && |tx.inputs| == |selected|
    ensures tx == unsigned.(inputs := tx.inputs)
  {
    hide SigningDigest, SignerOf;
    var digest := SigningDigest(unsigned);
    var inputs: seq<TxIn> := unsigned.inputs;
    for i := 0 to |selected|
      invariant |inputs| == |selected|
      invariant forall j :: 0 <= j < |selected| ==> inputs[j].previousOutput == selected[j]
      invariant forall j :: 0 <= j < i ==>
        inputs[j].unlockingData == SignMessage(SignerOf(keys, u[selected[j]].output.lockingData).value, digest)
    {
      var signer := SignerOf(keys, u[selected[i]].output.lockingData).value;
      inputs := inputs[i := TxIn(selected[i], SignMessage(signer, digest))];
    }
    tx := Transaction(unsigned.version, inputs, unsigned.outputs, unsigned.lockTime);
    assert Encoding.Unsigned(tx) == Encoding.Unsigned(unsigned);
    Encoding.SigningEncodingIgnoresOnlyUnlockingData(tx, unsigned);
  }

  /** The outputs needed to cover `amount` can be counted in the four bytes of the encoding. */
  ghost predicate SelectionCounts(u: Utxos, keys: seq<Hash>, amount: nat) {
    forall k: nat :: Covers(u, OwnedOutputs(u, keys), amount, k) ==> k <= U32_MAX
  }

  /** Builds a signed payment. It fails exactly when the owned value is less than the amount. The
      source cannot encode a transaction with more inputs than four bytes count. */
  method BuildPayment(u: Utxos, keys: seq<Hash>, order: Order) returns (r: Result<Transaction, PaymentError>)
    requires SelectionCounts(u, keys, order.amount)
    ensures r.Err? <==> OwnedValue(u, keys) < order.amount
    ensures r.Err? ==> r.error == InsufficientFunds(order.amount, OwnedValue(u, keys))
    ensures r.Ok? ==> IsPayment(u, keys, order, r.value)
    ensures r.Ok? ==> r.value.version == 1 && r.value.lockTime == order.uniqueness
    ensures r.Ok? ==> PaysAsOrdered(u, order, r.value) && SignedByOwners(u, keys, r.value)
  {
    hide DistinctInputs, InputSum, SigningDigest, SignerOf, OwnedValue, OwnedAmong, Covers, ValueSum, SignedInputs,
      Owns, OutPointRank,
      PaymentOutputs, SortedOutPoints;
    OwnedOutputsSum(u, keys);
    var selected, total := SelectInputs(u, keys, SortedOutPoints(u.Keys), order.amount);
    if total < order.amount {
      return Err(InsufficientFunds(order.amount, total));
    }
    PrefixesAgree(OwnedOutputs(u, keys), selected);
    ValueSumMonotone(u, OwnedOutputs(u, keys), |selected|);
    var inputs := seq(|selected|, i requires 0 <= i < |selected| => UnsignedInput(selected[i]));
    var unsigned := Transaction(1, inputs, PaymentOutputs(order, total), order.uniqueness);
    assert forall i :: 0 <= i < |selected| ==> selected[i] == OwnedOutputs(u, keys)[i];
    var tx := SignInputs(u, keys, unsigned, selected);
    SignedExtends(u, keys, tx, selected, OwnedOutputs(u, keys));
    PaymentShape(u, keys, order, tx);
    return Ok(tx);
  }

  lemma SignedExtends(u: Utxos, keys: seq<Hash>, tx: Transaction, p: seq<OutPoint>, owned: seq<OutPoint>)
    requires p <= owned && SignedInputs(u, keys, tx, p)
    ensures SignedInputs(u, keys, tx, owned)
  {
    hide SigningDigest, SignerOf;
  }

  lemma ValueSumMonotone(u: Utxos, os: seq<OutPoint>, i: nat)
    requires i <= |os|
    ensures ValueSum(u, os[..i]) <= ValueSum(u, os)
    decreases |os| - i
  {
    if i < |os| {
      ValueSumMonotone(u, os, i + 1);
      assert os[..i + 1][..i] == os[..i];
    } else {
      assert os[..i] == os;
    }
  }

  // ---- Validity ---------------------------------------------------------------------------

  lemma {:induction false} OwnedAreDistinct(u: Utxos, keys: seq<Hash>, order: seq<OutPoint>)
    requires NoRepeats(order)
    ensures NoRepeats(OwnedAmong(u, keys, order))
  {
    hide Owns;
    if order != [] {
      var n := |order| - 1;
      OwnedAreDistinct(u, keys, order[..n]);
      assert order[n] !in order[..n];
    }
  }

  lemma {:induction false} InputSumIsValueSum(u: Utxos, inputs: seq<TxIn>, os: seq<OutPoint>)
    requires |inputs| == |os| && forall i :: 0 <= i < |os| ==> inputs[i].previousOutput == os[i]
    ensures InputSum(u, inputs) == ValueSum(u, os)
  {
    if os != [] {
      InputSumIsValueSum(u, inputs[..|os| - 1], os[..|os| - 1]);
    }
  }

  lemma PaymentOutputSum(order: Order, total: u64)
    requires order.amount <= total
    ensures OutputSum(PaymentOutputs(order, total)) == total && PaymentOutputs(order, total) != []
  {
    var outs := PaymentOutputs(order, total);
    assert outs[..|outs| - 1] == if |outs| == 1 then [] else [outs[0]];
    if |outs| == 2 {
      assert [outs[0]][..0] == [];
      assert OutputSum([outs[0]]) == outs[0].value;
    }
  }

  lemma PaymentIsAuthorised(u: Utxos, keys: seq<Hash>, tx: Transaction, owned: seq<OutPoint>)
    requires SignVerifyLaw() && SignedInputs(u, keys, tx, owned)
    ensures Authorised(u, tx)
  {
    hide SigningDigest;
    forall i | 0 <= i < |tx.inputs|
      ensures InputError(u, tx.inputs[i], SigningDigest(tx)) == None
    {
      var key := SignerOf(keys, u[owned[i]].output.lockingData).value;
      assert VerifyMessage(SignMessage(key, SigningDigest(tx)), VerifyingKeyOf(key), SigningDigest(tx));
    }
  }

  /** How many outputs are selected depends only on the owned outputs and the amount. */
  lemma CoversIsFunctional(u: Utxos, owned: seq<OutPoint>, amount: nat, j: nat, k: nat)
    requires Covers(u, owned, amount, j) && Covers(u, owned, amount, k)
    ensures j == k
  {
    hide ValueSum;
  }

  /** The value of the outputs needed to cover `amount` fits in 64 bits. */
  ghost predicate SelectionFits(u: Utxos, keys: seq<Hash>, amount: nat) {
    forall k: nat :: Covers(u, OwnedOutputs(u, keys), amount, k) ==> ValueSum(u, OwnedOutputs(u, keys)[..k]) <= U64_MAX
  }

  lemma SelectionFitsIff(u: Utxos, keys: seq<Hash>, amount: nat, k: nat)
    requires Covers(u, OwnedOutputs(u, keys), amount, k)
    ensures SelectionFits(u, keys, amount) <==> ValueSum(u, OwnedOutputs(u, keys)[..k]) <= U64_MAX
    ensures SelectionCounts(u, keys, amount) <==> k <= U32_MAX
  {
    hide OwnedOutputs, ValueSum;
    forall j: nat | Covers(u, OwnedOutputs(u, keys), amount, j)
      ensures j == k
    {
      CoversIsFunctional(u, OwnedOutputs(u, keys), amount, j, k);
    }
  }

  /** A payment validates with fee zero exactly when the value of the outputs needed fits in 64 bits,
      given that signatures verify; it never spends an output twice. */
  lemma PaymentValidates(u: Utxos, keys: seq<Hash>, order: Order, tx: Transaction)
    requires SignVerifyLaw() && IsPayment(u, keys, order, tx)
    ensures DistinctInputs(tx.inputs)
    ensures Validate(u, tx).Ok? <==> SelectionFits(u, keys, order.amount)
    ensures Validate(u, tx).Ok? <==> InputSum(u, tx.inputs) <= U64_MAX
    ensures Validate(u, tx).Ok? ==>
      Validate(u, tx).value.fee == 0 && OutputSum(tx.outputs) == InputSum(u, tx.inputs)
  {
    hide SigningDigest, SignerOf, SignVerifyLaw, Authorised, Validate, OwnedOutputs, Covers, ValueSum, InputSum,
      OutputSum, PaymentOutputs, DistinctInputs, SelectionFits;
    var owned := OwnedOutputs(u, keys);
    SelectionFitsIff(u, keys, order.amount, |tx.inputs|);
    PaymentInputsDistinct(u, keys, tx);
    InputSumIsValueSum(u, tx.inputs, owned[..|tx.inputs|]);
    PaymentOutputSum(order, Saturate(ValueSum(u, owned[..|tx.inputs|])));
    PaymentIsAuthorised(u, keys, tx, owned);
    ValidateIffAcceptable(u, tx);
    NothingIn(u, tx);
  }

  lemma NothingIn(u: Utxos, tx: Transaction)
    ensures tx.inputs == [] ==> InputSum(u, tx.inputs) == 0
  {
  }

  lemma PaymentInputsDistinct(u: Utxos, keys: seq<Hash>, tx: Transaction)
    requires SignedInputs(u, keys, tx, OwnedOutputs(u, keys))
    ensures DistinctInputs(tx.inputs)
  {
    hide SigningDigest, Owns, OwnedAmong;
    SortedHasNoRepeats(u.Keys);
    OwnedAreDistinct(u, keys, SortedOutPoints(u.Keys));
  }

  /** While the whole set fits in 64 bits every payment validates. */
  lemma PaymentAlwaysValidates(u: Utxos, keys: seq<Hash>, order: Order, tx: Transaction)
    requires SignVerifyLaw() && IsPayment(u, keys, order, tx) && Total(u) <= U64_MAX
    ensures Validate(u, tx).Ok?
  {
    hide IsPayment, SignVerifyLaw, Validate, Total;
    PaymentValidates(u, keys, order, tx);
    PaymentSpendsPresent(u, keys, order, tx);
    InputsWithinTotal(u, tx.inputs);
  }

  lemma PaymentSpendsPresent(u: Utxos, keys: seq<Hash>, order: Order, tx: Transaction)
    requires IsPayment(u, keys, order, tx)
    ensures Spent(tx.inputs) <= u.Keys
  {
    hide SigningDigest, SignerOf;
  }

  lemma PaymentIsSigned(u: Utxos, keys: seq<Hash>, tx: Transaction, owned: seq<OutPoint>)
    requires SignedInputs(u, keys, tx, owned)
    ensures SignedByOwners(u, keys, tx)
  {
    hide SignerOf, EncodeWithUnlockingData;
    forall i | 0 <= i < |tx.inputs|
      ensures exists key ::
                && key in keys && suite.publicKey(key) == u[tx.inputs[i].previousOutput].output.lockingData
                && tx.inputs[i].unlockingData == suite.sign(key, suite.digest(EncodeWithUnlockingData(tx, false)))
    {
      var key := SignerOf(keys, u[owned[i]].output.lockingData).value;
      assert key in keys;
    }
  }

  /** The outputs of a payment: the recipient's amount first, then the rest of the value of the inputs, at
      most the largest 64-bit amount, to the change key, and no second output when nothing is left. */
  ghost predicate PaysAsOrdered(u: Utxos, order: Order, tx: Transaction) {
    var sum := InputSum(u, tx.inputs);
    var total := if sum <= U64_MAX then sum else U64_MAX;
    && order.amount <= total
    && tx.outputs != [] && tx.outputs[0] == TxOut(order.amount, order.recipient)
    && tx.outputs[1..] == if total == order.amount then [] else [TxOut(total - order.amount, order.change)]
  }

  /** Every input spends an output of a wallet key, with a signature by that key over the transaction
      without its unlocking data. */
  ghost predicate SignedByOwners(u: Utxos, keys: seq<Hash>, tx: Transaction) {
    forall i :: 0 <= i < |tx.inputs| ==>
      && tx.inputs[i].previousOutput in u
      && exists key ::
           && key in keys && suite.publicKey(key) == u[tx.inputs[i].previousOutput].output.lockingData
           && tx.inputs[i].unlockingData == suite.sign(key, suite.digest(EncodeWithUnlockingData(tx, false)))
  }

  /** A payment pays as ordered, is signed by the owners, and spends no output twice. */
  lemma PaymentShape(u: Utxos, keys: seq<Hash>, order: Order, tx: Transaction)
    requires IsPayment(u, keys, order, tx)
    ensures PaysAsOrdered(u, order, tx) && SignedByOwners(u, keys, tx) && DistinctInputs(tx.inputs)
  {
    hide SigningDigest, SignerOf, OwnedOutputs, Covers, ValueSum, InputSum, DistinctInputs, SignedByOwners,
      SignedInputs;
    PaymentIsSigned(u, keys, tx, OwnedOutputs(u, keys));
    PaymentInputsDistinct(u, keys, tx);
    PaymentInputSum(u, keys, tx);
  }

  lemma PaymentInputSum(u: Utxos, keys: seq<Hash>, tx: Transaction)
    requires SignedInputs(u, keys, tx, OwnedOutputs(u, keys))
    ensures InputSum(u, tx.inputs) == ValueSum(u, OwnedOutputs(u, keys)[..|tx.inputs|])
  {
    hide SigningDigest, SignerOf, OwnedOutputs, ValueSum, InputSum;
    InputSumIsValueSum(u, tx.inputs, OwnedOutputs(u, keys)[..|tx.inputs|]);
  }

  // ---- A set for which the payment is invalid ---------------------------------------------

  /** Two outputs of one key, worth 1 and the largest 64-bit amount. */
  ghost function TwoOutputs(key: Hash): Utxos {
    var first, second := OutPoint(DEFAULT_HASH, 0), OutPoint(DEFAULT_HASH, 1);
    map[first := Utxo(first, TxOut(1, VerifyingKeyOf(key)), 0, false),
        second := Utxo(second, TxOut(U64_MAX, VerifyingKeyOf(key)), 0, false)]
  }

  lemma TwoSorted(key: Hash)
    ensures SortedOutPoints(TwoOutputs(key).Keys) == [OutPoint(DEFAULT_HASH, 0), OutPoint(DEFAULT_HASH, 1)]
  {
    hide Rank, SortedOutPoints;
    var a, b := OutPoint(DEFAULT_HASH, 0), OutPoint(DEFAULT_HASH, 1);
    var order := SortedOutPoints(TwoOutputs(key).Keys);
    assert TwoOutputs(key).Keys == {a, b} && |{a, b}| == 2;
    assert order[0] in order && order[1] in order;
    assert OutPointRank(order[0]) < OutPointRank(order[1]);
  }

  lemma TwoOwned(key: Hash)
    ensures OwnedOutputs(TwoOutputs(key), [key]) == [OutPoint(DEFAULT_HASH, 0), OutPoint(DEFAULT_HASH, 1)]
  {
    hide SortedOutPoints;
    TwoSorted(key);
    var u, order := TwoOutputs(key), [OutPoint(DEFAULT_HASH, 0), OutPoint(DEFAULT_HASH, 1)];
    assert Owns(u, [key], order[0]) && Owns(u, [key], order[1]);
    assert order[..1] == [order[0]] && [order[0]][..0] == [];
    assert OwnedAmong(u, [key], [order[0]]) == [order[0]];
  }

  /** The failing side is inhabited: paying the largest amount out of these two outputs is possible, but
      the payment selects both, and so is refused by validation. */
  lemma SaturatedPaymentFails(key: Hash, order: Order, tx: Transaction)
    requires order.amount == U64_MAX
    ensures OwnedValue(TwoOutputs(key), [key]) >= order.amount
    ensures SelectionCounts(TwoOutputs(key), [key], order.amount)
    ensures !SelectionFits(TwoOutputs(key), [key], order.amount)
    ensures SignVerifyLaw() && IsPayment(TwoOutputs(key), [key], order, tx) ==> Validate(TwoOutputs(key), tx).Err?
  {
    hide SortedOutPoints, OwnedOutputs, SignVerifyLaw, Validate, OwnedValue, IsPayment, SelectionFits, SelectionCounts;
    var u, owned := TwoOutputs(key), [OutPoint(DEFAULT_HASH, 0), OutPoint(DEFAULT_HASH, 1)];
    TwoOwned(key);
    OwnedOutputsSum(u, [key]);
    assert owned[..2] == owned && owned[..1] == [owned[0]] && owned[..1][..0] == [] && owned[..2][..1] == owned[..1];
    assert ValueSum(u, owned[..1]) == 1 && ValueSum(u, owned[..2]) == U64_MAX + 1;
    assert Covers(u, owned, order.amount, 2);
    SelectionFitsIff(u, [key], order.amount, 2);
    if SignVerifyLaw() && IsPayment(u, [key], order, tx) {
      PaymentValidates(u, [key], order, tx);
    }
  }
}
