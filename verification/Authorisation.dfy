/** Who may spend what, down to the signature check, and which error a transaction is refused with. */
module Authorisation {
  import opened Primitives
  import opened Crypto
  import opened Types
  import opened State

  // ---- The rules of one input -------------------------------------------------------------

  /** The locking data is a public key. */
  predicate IsKey(data: seq<byte>) {
    |data| == 32 && suite.isPoint(data)
  }

  /** The unlocking data is a signature by the key over the transaction without its unlocking data. */
  predicate Signs(key: seq<byte>, signature: seq<byte>, tx: Transaction) {
    && |key| == 32 && |signature| == 64
    && suite.verify(key, signature, suite.digest(EncodeWithUnlockingData(tx, false)))
  }

  /** Input `i` names an unspent output, locked to a key that signed this transaction. */
  ghost predicate Authorises(u: Utxos, tx: Transaction, i: nat)
    requires i < |tx.inputs|
  {
    var o := tx.inputs[i].previousOutput;
    o in u && IsKey(u[o].output.lockingData) && Signs(u[o].output.lockingData, tx.inputs[i].unlockingData, tx)
  }

  lemma AuthorisesIff(u: Utxos, tx: Transaction, i: nat)
    requires i < |tx.inputs|
    ensures Authorises(u, tx, i) <==> InputError(u, tx.inputs[i], SigningDigest(tx)) == None
  {
    hide EncodeWithUnlockingData;
  }

  /** A transaction that spends something is valid exactly when it pays something, its sums fit and cover,
      it names no output twice, and each output it names is unspent and signed for by its owner. */
  lemma ValidateIffAuthorised(u: Utxos, tx: Transaction)
    requires tx.inputs != []
    ensures Validate(u, tx).Ok? <==>
            && tx.outputs != []
            && OutputSum(tx.outputs) <= InputSum(u, tx.inputs) <= U64_MAX
            && (forall i, j :: 0 <= i < j < |tx.inputs| ==> tx.inputs[i].previousOutput != tx.inputs[j].previousOutput)
            && (forall i :: 0 <= i < |tx.inputs| ==> Authorises(u, tx, i))
  {
    hide Validate, InputError, SigningDigest, Authorises;
    ValidateIffAcceptable(u, tx);
    forall i | 0 <= i < |tx.inputs|
      ensures Authorises(u, tx, i) <==> InputError(u, tx.inputs[i], SigningDigest(tx)) == None
    {
      AuthorisesIff(u, tx, i);
    }
  }

  // ---- Errors -----------------------------------------------------------------------------

  /** Nothing is wrong with the first `k` inputs. */
  ghost predicate CleanTo(u: Utxos, tx: Transaction, k: nat) {
    && k <= |tx.inputs|
    && (forall i :: 0 <= i < k ==> Authorises(u, tx, i))
    && (forall i :: 0 <= i < k ==> tx.inputs[i].previousOutput !in Spent(tx.inputs[..i]))
    && (forall i :: 0 <= i <= k ==> InputSum(u, tx.inputs[..i]) <= U64_MAX)
  }

  /** What is wrong with input `k`, the rules taken in order. */
  ghost predicate BreaksAt(u: Utxos, tx: Transaction, k: nat, e: ValidationError)
    requires k < |tx.inputs|
  {
    var o := tx.inputs[k].previousOutput;
    if o in Spent(tx.inputs[..k]) then e == DuplicateInput(o)
    else if o !in u then e == MissingInput(o)
    else if !IsKey(u[o].output.lockingData) then e == InvalidLockingData(o)
    else if |tx.inputs[k].unlockingData| != 64 then e == InvalidUnlockingData(o)
    else if !Signs(u[o].output.lockingData, tx.inputs[k].unlockingData, tx) then e == SignatureMismatch(o)
    else InputSum(u, tx.inputs[..k + 1]) > U64_MAX && e == InputValueOverflow
  }

  /** Why a transaction is refused: the outputs first, then the first input that breaks a rule, then the
      balance. */
  ghost predicate RefusedFor(u: Utxos, tx: Transaction, e: ValidationError) {
    if tx.outputs == [] then e == EmptyOutputs
    else if OutputSum(tx.outputs) > U64_MAX then e == OutputValueOverflow
    else if tx.inputs == [] then false
    else
      || (exists k :: 0 <= k < |tx.inputs| && CleanTo(u, tx, k) && BreaksAt(u, tx, k, e))
      || (&& CleanTo(u, tx, |tx.inputs|) && InputSum(u, tx.inputs) < OutputSum(tx.outputs)
          && e == Overspend(InputSum(u, tx.inputs), OutputSum(tx.outputs)))
  }

  lemma InputErrorIs(u: Utxos, tx: Transaction, i: nat)
    requires i < |tx.inputs| && tx.inputs[i].previousOutput !in Spent(tx.inputs[..i])
    ensures match InputError(u, tx.inputs[i], SigningDigest(tx))
            case Some(e) => BreaksAt(u, tx, i, e) && !Authorises(u, tx, i)
            case None => Authorises(u, tx, i)
  {
    hide EncodeWithUnlockingData, Spent;
  }

  lemma CleanNext(u: Utxos, tx: Transaction, i: nat)
    requires i < |tx.inputs| && CleanTo(u, tx, i) && Authorises(u, tx, i)
    requires tx.inputs[i].previousOutput !in Spent(tx.inputs[..i]) && InputSum(u, tx.inputs[..i + 1]) <= U64_MAX
    ensures CleanTo(u, tx, i + 1)
  {
    hide Authorises, Spent, InputSum;
  }

  /** Resolution from position `i` on reports the first input that breaks a rule. */
  lemma {:induction false} ResolveErrors(u: Utxos, tx: Transaction, i: nat, seen: set<OutPoint>, value: u64)
    requires ResolvedTo(u, tx, i, seen, value) && CleanTo(u, tx, i)
    ensures match ResolveInputs(u, tx, i, seen, value)
            case Err(e) => exists k :: 0 <= k < |tx.inputs| && CleanTo(u, tx, k) && BreaksAt(u, tx, k, e)
            case Ok(v) => CleanTo(u, tx, |tx.inputs|) && v == InputSum(u, tx.inputs)
    decreases |tx.inputs| - i
  {
    hide SigningDigest, InputError, Authorises, CleanTo, BreaksAt;
    if i == |tx.inputs| {
      assert tx.inputs[..i] == tx.inputs;
    } else {
      var o := tx.inputs[i].previousOutput;
      if o in seen {
        DuplicateBreaks(u, tx, i);
      } else {
        InputErrorIs(u, tx, i);
        if InputError(u, tx.inputs[i], SigningDigest(tx)) == None {
          ResolvedStep(u, tx, i, seen, value);
          if value + u[o].output.value <= U64_MAX {
            CleanNext(u, tx, i);
            ResolveErrors(u, tx, i + 1, seen + {o}, value + u[o].output.value);
          } else {
            OverflowBreaks(u, tx, i);
          }
        }
      }
    }
  }

  lemma DuplicateBreaks(u: Utxos, tx: Transaction, i: nat)
    requires i < |tx.inputs| && tx.inputs[i].previousOutput in Spent(tx.inputs[..i])
    ensures BreaksAt(u, tx, i, DuplicateInput(tx.inputs[i].previousOutput))
  {
  }

  lemma OverflowBreaks(u: Utxos, tx: Transaction, i: nat)
    requires i < |tx.inputs| && tx.inputs[i].previousOutput !in Spent(tx.inputs[..i]) && Authorises(u, tx, i)
    requires InputSum(u, tx.inputs[..i + 1]) > U64_MAX
    ensures BreaksAt(u, tx, i, InputValueOverflow)
  {
    hide Spent, InputSum, EncodeWithUnlockingData;
  }

  lemma CleanAtZero(u: Utxos, tx: Transaction)
    ensures CleanTo(u, tx, 0) && ResolvedTo(u, tx, 0, {}, 0)
  {
    assert tx.inputs[..0] == [];
  }

  lemma RefusalIsFunctional(u: Utxos, tx: Transaction, e: ValidationError, f: ValidationError)
    requires RefusedFor(u, tx, e) && RefusedFor(u, tx, f)
    ensures e == f
  {
    hide CleanTo, BreaksAt, OutputSum, InputSum;
    if tx.outputs != [] && OutputSum(tx.outputs) <= U64_MAX {
      if k :| 0 <= k < |tx.inputs| && CleanTo(u, tx, k) && BreaksAt(u, tx, k, e) {
        FirstBreak(u, tx, k, e, f);
      } else if k :| 0 <= k < |tx.inputs| && CleanTo(u, tx, k) && BreaksAt(u, tx, k, f) {
        FirstBreak(u, tx, k, f, e);
      }
    }
  }

  /** A clean input breaks no rule. */
  lemma CleanDoesNotBreak(u: Utxos, tx: Transaction, j: nat, k: nat, e: ValidationError)
    requires j < k <= |tx.inputs| && CleanTo(u, tx, k)
    ensures !BreaksAt(u, tx, j, e)
  {
    hide Spent, InputSum, EncodeWithUnlockingData;
    assert Authorises(u, tx, j) && tx.inputs[j].previousOutput !in Spent(tx.inputs[..j]);
    assert InputSum(u, tx.inputs[..j + 1]) <= U64_MAX;
  }

  lemma BreakIsFunctional(u: Utxos, tx: Transaction, k: nat, e: ValidationError, f: ValidationError)
    requires k < |tx.inputs| && BreaksAt(u, tx, k, e) && BreaksAt(u, tx, k, f)
    ensures e == f
  {
    hide Spent, InputSum, EncodeWithUnlockingData;
  }

  lemma FirstBreak(u: Utxos, tx: Transaction, k: nat, e: ValidationError, f: ValidationError)
    requires k < |tx.inputs| && CleanTo(u, tx, k) && BreaksAt(u, tx, k, e) && RefusedFor(u, tx, f)
    requires tx.outputs != [] && OutputSum(tx.outputs) <= U64_MAX
    ensures e == f
  {
    hide CleanTo, BreaksAt, OutputSum, InputSum;
    if CleanTo(u, tx, |tx.inputs|) {
      CleanDoesNotBreak(u, tx, k, |tx.inputs|, e);
    }
    var j :| 0 <= j < |tx.inputs| && CleanTo(u, tx, j) && BreaksAt(u, tx, j, f);
    if j < k {
      CleanDoesNotBreak(u, tx, j, k, f);
    } else if k < j {
      CleanDoesNotBreak(u, tx, k, j, e);
    }
    BreakIsFunctional(u, tx, k, e, f);
  }

  /** A transaction is refused with an error exactly when that error names the first rule it breaks. In
      particular a signature mismatch is reported exactly when everything before it is in order, key and
      signature have their form, and the signature does not verify. */
  lemma ErrorIsFirstBroken(u: Utxos, tx: Transaction, e: ValidationError)
    ensures Validate(u, tx) == Err(e) <==> RefusedFor(u, tx, e)
  {
    hide CleanTo, BreaksAt, SigningDigest, InputError, ResolveInputs;
    if Validate(u, tx).Err? {
      ErrorIsExplained(u, tx);
      if RefusedFor(u, tx, e) {
        RefusalIsFunctional(u, tx, e, Validate(u, tx).error);
      }
    } else {
      ValidIsNotRefused(u, tx, e);
    }
  }

  lemma ErrorIsExplained(u: Utxos, tx: Transaction)
    requires Validate(u, tx).Err?
    ensures RefusedFor(u, tx, Validate(u, tx).error)
  {
    hide CleanTo, BreaksAt, SigningDigest, InputError, ResolveInputs;
    CleanAtZero(u, tx);
    ResolveErrors(u, tx, 0, {}, 0);
  }

  lemma ValidIsNotRefused(u: Utxos, tx: Transaction, e: ValidationError)
    requires Validate(u, tx).Ok?
    ensures !RefusedFor(u, tx, e)
  {
    hide CleanTo, BreaksAt, SigningDigest, InputError, ResolveInputs;
    CleanAtZero(u, tx);
    ResolveErrors(u, tx, 0, {}, 0);
    if tx.inputs != [] {
      forall k | 0 <= k < |tx.inputs|
        ensures !BreaksAt(u, tx, k, e)
      {
        CleanDoesNotBreak(u, tx, k, |tx.inputs|, e);
      }
    }
  }
}
