/** The byte encoding of transactions and headers is uniquely decodable. */
module Encoding {
  import opened Primitives
  import opened Bytes
  import opened Types

  /** Appends the encoded inputs to a growing buffer. */
  method AppendInputs(inputs: seq<TxIn>, includeUnlockingData: bool, prefix: seq<byte>)
    returns (bytes: seq<byte>)
    ensures bytes == prefix + EncodeInputs(inputs, includeUnlockingData)
  {
    bytes := prefix;
    hide LittleEndian, EncodeBytes;
    for i := 0 to |inputs|
      invariant bytes == prefix + EncodeInputs(inputs[..i], includeUnlockingData)
    {
      ghost var before := bytes;
      InputsSnoc(inputs, i, includeUnlockingData, prefix);
      bytes := bytes + inputs[i].previousOutput.txid;
      bytes := bytes + LittleEndian(inputs[i].previousOutput.vout, 4);
      if includeUnlockingData {
        bytes := bytes + EncodeBytes(inputs[i].unlockingData);
      } else {
        bytes := bytes + EncodeBytes([]);
      }
      assert bytes == before + EncodeInput(inputs[i], includeUnlockingData);
    }
    assert inputs[..|inputs|] == inputs;
  }

  lemma InputsSnoc(inputs: seq<TxIn>, i: nat, includeUnlockingData: bool, prefix: seq<byte>)
    requires i < |inputs|
    ensures prefix + EncodeInputs(inputs[..i + 1], includeUnlockingData)
            == prefix + EncodeInputs(inputs[..i], includeUnlockingData) + EncodeInput(inputs[i], includeUnlockingData)
  {
    hide EncodeInput;
    assert inputs[..i + 1][..i] == inputs[..i];
  }

  method AppendOutputs(outputs: seq<TxOut>, prefix: seq<byte>) returns (bytes: seq<byte>)
    ensures bytes == prefix + EncodeOutputs(outputs)
  {
    bytes := prefix;
    for i := 0 to |outputs|
      invariant bytes == prefix + EncodeOutputs(outputs[..i])
    {
      assert outputs[..i + 1][..i] == outputs[..i];
      bytes := bytes + LittleEndian(outputs[i].value, 8);
      bytes := bytes + EncodeBytes(outputs[i].lockingData);
    }
    assert outputs[..|outputs|] == outputs;
  }

  /** Writes `tx` into one buffer, field by field. */
  method EncodeTransaction(tx: Transaction, includeUnlockingData: bool) returns (bytes: seq<byte>)
    ensures bytes == EncodeWithUnlockingData(tx, includeUnlockingData)
  {
    bytes := LittleEndian(tx.version, 4);
    bytes := bytes + EncodeLen(|tx.inputs|);
    bytes := AppendInputs(tx.inputs, includeUnlockingData, bytes);
    bytes := bytes + EncodeLen(|tx.outputs|);
    bytes := AppendOutputs(tx.outputs, bytes);
    bytes := bytes + LittleEndian(tx.lockTime, 4);
  }

  // A parser for the encoding. Each step returns the value read and the bytes left over.

  function ParseInt(s: seq<byte>, width: nat): (r: Option<(nat, seq<byte>)>)
    ensures r.Some? ==> |r.value.1| + width == |s| && r.value.0 < Pow256(width)
  {
    if |s| < width then None
    else
      FromLittleEndianBound(s[..width]);
      Some((FromLittleEndian(s[..width]), s[width..]))
  }

  function ParseBytes(s: seq<byte>): (r: Option<(Short<byte>, seq<byte>)>) {
    match ParseInt(s, 4)
    case None => None
    case Some((n, rest)) =>
      WidthBounds();
      if |rest| < n then None else Some((rest[..n], rest[n..]))
  }

  function ParseInput(s: seq<byte>): Option<(TxIn, seq<byte>)> {
    if |s| < 32 then None
    else
      match ParseInt(s[32..], 4)
      case None => None
      case Some((vout, rest)) =>
        match ParseBytes(rest)
        case None => None
        case Some((data, rest')) =>
          WidthBounds();
          Some((TxIn(OutPoint(s[..32], vout), data), rest'))
  }

  function ParseInputs(s: seq<byte>, n: nat): (r: Option<(seq<TxIn>, seq<byte>)>)
    ensures r.Some? ==> |r.value.0| == n
  {
    if n == 0 then Some(([], s))
    else
      match ParseInput(s)
      case None => None
      case Some((input, rest)) =>
        match ParseInputs(rest, n - 1)
        case None => None
        case Some((inputs, rest')) => Some(([input] + inputs, rest'))
  }

  function ParseOutput(s: seq<byte>): Option<(TxOut, seq<byte>)> {
    match ParseInt(s, 8)
    case None => None
    case Some((value, rest)) =>
      match ParseBytes(rest)
      case None => None
      case Some((data, rest')) =>
        WidthBounds();
        Some((TxOut(value, data), rest'))
  }

  function ParseOutputs(s: seq<byte>, n: nat): (r: Option<(seq<TxOut>, seq<byte>)>)
    ensures r.Some? ==> |r.value.0| == n
  {
    if n == 0 then Some(([], s))
    else
      match ParseOutput(s)
      case None => None
      case Some((output, rest)) =>
        match ParseOutputs(rest, n - 1)
        case None => None
        case Some((outputs, rest')) => Some(([output] + outputs, rest'))
  }

  function ParseOutputSection(s: seq<byte>): Option<(Short<TxOut>, u32, seq<byte>)> {
    match ParseInt(s, 4)
    case None => None
    case Some((count, s1)) =>
      match ParseOutputs(s1, count)
      case None => None
      case Some((outputs, s2)) =>
        match ParseInt(s2, 4)
        case None => None
        case Some((lockTime, s3)) =>
          WidthBounds();
          Some((outputs, lockTime, s3))
  }

  function ParseTransaction(s: seq<byte>): Option<(Transaction, seq<byte>)> {
    match ParseInt(s, 4)
    case None => None
    case Some((version, s1)) =>
      match ParseInt(s1, 4)
      case None => None
      case Some((count, s2)) =>
        match ParseInputs(s2, count)
        case None => None
        case Some((inputs, s3)) =>
          match ParseOutputSection(s3)
          case None => None
          case Some((outputs, lockTime, s4)) =>
            WidthBounds();
            Some((Transaction(version, inputs, outputs, lockTime), s4))
  }

  lemma {:induction false} FromLittleEndianBound(s: seq<byte>)
    ensures FromLittleEndian(s) < Pow256(|s|)
  {
    if s != [] {
      FromLittleEndianBound(s[1..]);
    }
  }

  lemma ParseIntInverts(n: nat, width: nat, rest: seq<byte>)
    requires n < Pow256(width)
    ensures ParseInt(LittleEndian(n, width) + rest, width) == Some((n, rest))
  {
    var s := LittleEndian(n, width) + rest;
    assert s[..width] == LittleEndian(n, width) && s[width..] == rest;
    LittleEndianRoundTrip(n, width);
  }

  lemma ParseBytesInverts(data: Short<byte>, rest: seq<byte>)
    ensures ParseBytes(EncodeBytes(data) + rest) == Some((data, rest))
  {
    WidthBounds();
    assert EncodeBytes(data) + rest == LittleEndian(|data|, 4) + (data + rest);
    ParseIntInverts(|data|, 4, data + rest);
    assert (data + rest)[..|data|] == data && (data + rest)[|data|..] == rest;
  }

  lemma ParseInputInverts(input: TxIn, rest: seq<byte>)
    ensures ParseInput(EncodeInput(input, true) + rest) == Some((input, rest))
  {
    WidthBounds();
    var tail := EncodeBytes(input.unlockingData) + rest;
    var middle := LittleEndian(input.previousOutput.vout, 4) + tail;
    var s := EncodeInput(input, true) + rest;
    assert s == input.previousOutput.txid + middle;
    assert s[..32] == input.previousOutput.txid && s[32..] == middle;
    ParseIntInverts(input.previousOutput.vout, 4, tail);
    ParseBytesInverts(input.unlockingData, rest);
  }

  lemma Reassociate(a: seq<byte>, b: seq<byte>, c: seq<byte>)
    ensures (a + b) + c == a + (b + c)
  {
  }

  /** The encoders append at the end while the parser consumes from the front. */
  lemma {:induction false} EncodeInputsCons(inputs: seq<TxIn>, flag: bool)
    requires inputs != []
    ensures EncodeInputs(inputs, flag) == EncodeInput(inputs[0], flag) + EncodeInputs(inputs[1..], flag)
  {
    hide EncodeInput;
    var n := |inputs| - 1;
    if n == 0 {
      assert inputs[..0] == [] && inputs[1..] == [];
    } else {
      EncodeInputsCons(inputs[..n], flag);
      var middle := inputs[..n][1..];
      assert inputs[1..][..n - 1] == middle;
      assert EncodeInputs(inputs[1..], flag) == EncodeInputs(middle, flag) + EncodeInput(inputs[n], flag);
      Reassociate(EncodeInput(inputs[0], flag), EncodeInputs(middle, flag), EncodeInput(inputs[n], flag));
    }
  }

  lemma {:induction false} ParseInputsInverts(inputs: seq<TxIn>, rest: seq<byte>)
    ensures ParseInputs(EncodeInputs(inputs, true) + rest, |inputs|) == Some((inputs, rest))
  {
    hide EncodeInput, ParseInput;
    if inputs == [] {
      assert EncodeInputs(inputs, true) + rest == rest;
    } else {
      var tail := EncodeInputs(inputs[1..], true) + rest;
      EncodeInputsCons(inputs, true);
      Reassociate(EncodeInput(inputs[0], true), EncodeInputs(inputs[1..], true), rest);
      ParseInputInverts(inputs[0], tail);
      ParseInputsInverts(inputs[1..], rest);
      assert [inputs[0]] + inputs[1..] == inputs;
    }
  }

  lemma ParseOutputInverts(output: TxOut, rest: seq<byte>)
    ensures ParseOutput(EncodeOutput(output) + rest) == Some((output, rest))
  {
    WidthBounds();
    var tail := EncodeBytes(output.lockingData) + rest;
    assert EncodeOutput(output) + rest == LittleEndian(output.value, 8) + tail;
    ParseIntInverts(output.value, 8, tail);
    ParseBytesInverts(output.lockingData, rest);
  }

  lemma {:induction false} EncodeOutputsCons(outputs: seq<TxOut>)
    requires outputs != []
    ensures EncodeOutputs(outputs) == EncodeOutput(outputs[0]) + EncodeOutputs(outputs[1..])
  {
    var n := |outputs| - 1;
    if n == 0 {
      assert outputs[..0] == [] && outputs[1..] == [];
    } else {
      EncodeOutputsCons(outputs[..n]);
      var middle := outputs[..n][1..];
      assert outputs[1..][..n - 1] == middle;
      Reassociate(EncodeOutput(outputs[0]), EncodeOutputs(middle), EncodeOutput(outputs[n]));
    }
  }

  lemma {:induction false} ParseOutputsInverts(outputs: seq<TxOut>, rest: seq<byte>)
    ensures ParseOutputs(EncodeOutputs(outputs) + rest, |outputs|) == Some((outputs, rest))
  {
    hide EncodeOutput, ParseOutput;
    if outputs == [] {
      assert EncodeOutputs(outputs) + rest == rest;
    } else {
      var tail := EncodeOutputs(outputs[1..]) + rest;
      EncodeOutputsCons(outputs);
      Reassociate(EncodeOutput(outputs[0]), EncodeOutputs(outputs[1..]), rest);
      ParseOutputInverts(outputs[0], tail);
      ParseOutputsInverts(outputs[1..], rest);
      assert [outputs[0]] + outputs[1..] == outputs;
    }
  }

  function EncodeOutputSection(tx: Transaction): seq<byte> {
    EncodeLen(|tx.outputs|) + EncodeOutputs(tx.outputs) + LittleEndian(tx.lockTime, 4)
  }

  lemma ParseOutputSectionInverts(tx: Transaction, rest: seq<byte>)
    ensures ParseOutputSection(EncodeOutputSection(tx) + rest) == Some((tx.outputs, tx.lockTime, rest))
  {
    WidthBounds();
    var s2 := LittleEndian(tx.lockTime, 4) + rest;
    var s1 := EncodeOutputs(tx.outputs) + s2;
    assert EncodeOutputSection(tx) + rest == EncodeLen(|tx.outputs|) + s1;
    ParseIntInverts(|tx.outputs|, 4, s1);
    ParseOutputsInverts(tx.outputs, s2);
    ParseIntInverts(tx.lockTime, 4, rest);
  }

  lemma SplitEncoding(tx: Transaction, rest: seq<byte>)
    ensures Encode(tx) + rest
            == LittleEndian(tx.version, 4)
               + (EncodeLen(|tx.inputs|) + (EncodeInputs(tx.inputs, true) + (EncodeOutputSection(tx) + rest)))
  {
  }

  /** The parser undoes the encoder on every transaction, whatever bytes follow it. */
  lemma ParseTransactionInverts(tx: Transaction, rest: seq<byte>)
    ensures ParseTransaction(Encode(tx) + rest) == Some((tx, rest))
  {
    WidthBounds();
    var s3 := EncodeOutputSection(tx) + rest;
    var s2 := EncodeInputs(tx.inputs, true) + s3;
    var s1 := EncodeLen(|tx.inputs|) + s2;
    SplitEncoding(tx, rest);
    ParseIntInverts(tx.version, 4, s1);
    ParseIntInverts(|tx.inputs|, 4, s2);
    ParseInputsInverts(tx.inputs, s3);
    ParseOutputSectionInverts(tx, rest);
  }

  /** No encoding is a prefix of another, so in particular the encoding is injective. */
  lemma EncodingIsPrefixFree(a: Transaction, b: Transaction, restA: seq<byte>, restB: seq<byte>)
    requires Encode(a) + restA == Encode(b) + restB
    ensures a == b && restA == restB
  {
    ParseTransactionInverts(a, restA);
    ParseTransactionInverts(b, restB);
  }

  /** `tx` with all unlocking data removed: what a signature covers. */
  function Unsigned(tx: Transaction): Transaction {
    Transaction(tx.version, UnsignedInputs(tx.inputs), tx.outputs, tx.lockTime)
  }

  function UnsignedInputs(inputs: seq<TxIn>): (r: seq<TxIn>)
    ensures |r| == |inputs|
    ensures forall i :: 0 <= i < |r| ==> r[i] == TxIn(inputs[i].previousOutput, [])
  {
    seq(|inputs|, i requires 0 <= i < |inputs| => TxIn(inputs[i].previousOutput, []))
  }

  lemma {:induction false} SigningEncodesUnsignedInputs(inputs: seq<TxIn>)
    ensures EncodeInputs(inputs, false) == EncodeInputs(UnsignedInputs(inputs), true)
  {
    var n := |inputs| - 1;
    if inputs != [] {
      SigningEncodesUnsignedInputs(inputs[..n]);
      assert UnsignedInputs(inputs)[..n] == UnsignedInputs(inputs[..n]);
      assert UnsignedInputs(inputs)[n] == TxIn(inputs[n].previousOutput, []);
    }
  }

  /** Two transactions are signed over the same bytes exactly when they differ at most in their
      unlocking data; filling in signatures therefore never changes the digest that was signed. */
  lemma SigningEncodingIgnoresOnlyUnlockingData(a: Transaction, b: Transaction)
    ensures EncodeWithUnlockingData(a, false) == EncodeWithUnlockingData(b, false)
            <==> Unsigned(a) == Unsigned(b)
    ensures Unsigned(a) == Unsigned(b) ==> SigningDigest(a) == SigningDigest(b)
  {
    SigningEncodesUnsignedInputs(a.inputs);
    SigningEncodesUnsignedInputs(b.inputs);
    assert EncodeWithUnlockingData(a, false) == Encode(Unsigned(a));
    assert EncodeWithUnlockingData(b, false) == Encode(Unsigned(b));
    if Encode(Unsigned(a)) == Encode(Unsigned(b)) {
      EncodingIsPrefixFree(Unsigned(a), Unsigned(b), [], []);
    }
  }

  lemma LittleEndianInjective(m: nat, n: nat, width: nat)
    requires m < Pow256(width) && n < Pow256(width)
    requires LittleEndian(m, width) == LittleEndian(n, width)
    ensures m == n
  {
    LittleEndianRoundTrip(m, width);
    LittleEndianRoundTrip(n, width);
  }

  /** The header encoding has a fixed layout, so it commits to every header field. */
  lemma HeaderEncodingIsInjective(a: BlockHeader, b: BlockHeader)
    requires EncodeHeader(a) == EncodeHeader(b)
    ensures a == b
  {
    var s, t := EncodeHeader(a), EncodeHeader(b);
    assert s[..4] == LittleEndian(a.version, 4) && t[..4] == LittleEndian(b.version, 4);
    assert s[4..36] == a.prevBlockhash && t[4..36] == b.prevBlockhash;
    assert s[36..68] == a.merkleRoot && t[36..68] == b.merkleRoot;
    assert s[68..76] == LittleEndian(a.time, 8) && t[68..76] == LittleEndian(b.time, 8);
    assert s[76..80] == LittleEndian(a.bits, 4) && t[76..80] == LittleEndian(b.bits, 4);
    assert s[80..84] == LittleEndian(a.nonce, 4) && t[80..84] == LittleEndian(b.nonce, 4);
    WidthBounds();
    LittleEndianInjective(a.version, b.version, 4);
    LittleEndianInjective(a.time, b.time, 8);
    LittleEndianInjective(a.bits, b.bits, 4);
    LittleEndianInjective(a.nonce, b.nonce, 4);
  }
}
