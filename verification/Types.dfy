/** Transactions, blocks and the index records, with their byte encodings and hashes. */
module Types {
  import opened Primitives
  import opened Crypto
  import opened Bytes

  datatype OutPoint = OutPoint(txid: Hash, vout: u32)
  datatype TxIn = TxIn(previousOutput: OutPoint, unlockingData: Short<byte>)
  datatype TxOut = TxOut(value: u64, lockingData: Short<byte>)

  datatype Transaction = Transaction(
    version: u32, inputs: Short<TxIn>, outputs: Short<TxOut>, lockTime: u32)
  {
    predicate IsCoinbase() {
      inputs == []
    }
  }

  datatype BlockHeader = BlockHeader(
    version: u32, prevBlockhash: Hash, merkleRoot: Hash, time: u64, bits: u32, nonce: u32)

  datatype Block = Block(header: BlockHeader, transactions: seq<Transaction>)

  datatype ChainIndexEntry = ChainIndexEntry(
    blockHash: Hash, height: nat, cumulativeWork: u128, parent: Option<Hash>)

  datatype Utxo = Utxo(outpoint: OutPoint, output: TxOut, createdAtHeight: nat, isCoinbase: bool)

  function EncodeLen(n: u32): seq<byte> {
    LittleEndian(n, 4)
  }

  function EncodeBytes(data: Short<byte>): seq<byte> {
    EncodeLen(|data|) + data
  }

  function EncodeInput(input: TxIn, includeUnlockingData: bool): seq<byte> {
    input.previousOutput.txid
    + LittleEndian(input.previousOutput.vout, 4)
    + EncodeBytes(if includeUnlockingData then input.unlockingData else [])
  }

  function EncodeInputs(inputs: seq<TxIn>, includeUnlockingData: bool): seq<byte> {
    if inputs == [] then []
    else EncodeInputs(inputs[..|inputs| - 1], includeUnlockingData)
         + EncodeInput(inputs[|inputs| - 1], includeUnlockingData)
  }

  function EncodeOutput(output: TxOut): seq<byte> {
    LittleEndian(output.value, 8) + EncodeBytes(output.lockingData)
  }

  function EncodeOutputs(outputs: seq<TxOut>): seq<byte> {
    if outputs == [] then []
    else EncodeOutputs(outputs[..|outputs| - 1]) + EncodeOutput(outputs[|outputs| - 1])
  }

  function EncodeWithUnlockingData(tx: Transaction, includeUnlockingData: bool): seq<byte> {
    LittleEndian(tx.version, 4)
    + EncodeLen(|tx.inputs|) + EncodeInputs(tx.inputs, includeUnlockingData)
    + EncodeLen(|tx.outputs|) + EncodeOutputs(tx.outputs)
    + LittleEndian(tx.lockTime, 4)
  }

  function Encode(tx: Transaction): seq<byte> {
    EncodeWithUnlockingData(tx, true)
  }

  function SigningDigest(tx: Transaction): Hash {
    DoubleSha256(EncodeWithUnlockingData(tx, false))
  }

  function Txid(tx: Transaction): Hash {
    DoubleSha256(Encode(tx))
  }

  function EncodeHeader(h: BlockHeader): seq<byte> {
    LittleEndian(h.version, 4) + h.prevBlockhash + h.merkleRoot
    + LittleEndian(h.time, 8) + LittleEndian(h.bits, 4) + LittleEndian(h.nonce, 4)
  }

  function HeaderHash(h: BlockHeader): Hash {
    DoubleSha256(EncodeHeader(h))
  }

  function BlockHash(b: Block): Hash {
    HeaderHash(b.header)
  }
}
