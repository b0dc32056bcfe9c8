/** Assembly of block candidates for mining. */
module Candidate {
  import opened Primitives
  import opened Crypto
  import opened Types
  import Merkle

  /** A coinbase paying `reward`; `uniqueness` goes into the lock time to keep coinbases distinct. */
  function Coinbase(reward: u64, minerKey: Hash, uniqueness: u32): Transaction {
    Transaction(1, [], [TxOut(reward, minerKey)], uniqueness)
  }

  /** An unsolved block on `prev` carrying the coinbase followed by `txs`. */
  function BuildCandidate(
    prev: Hash, reward: u64, minerKey: Hash, uniqueness: u32, bits: u32, txs: seq<Transaction>): Block
  {
    var all := [Coinbase(reward, minerKey, uniqueness)] + txs;
    Block(BlockHeader(1, prev, Merkle.MerkleRoot(all), 1, bits, 0), all)
  }

  function WithNonce(b: Block, nonce: u32): Block {
    b.(header := b.header.(nonce := nonce))
  }
}
