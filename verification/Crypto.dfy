/** The cryptographic primitives, left uninterpreted.

    `suite` has no definition, so every result in this project holds for every choice of hash
    function and signature scheme; a result that needs a law of the primitives names it as a
    hypothesis. */
module Crypto {
  import opened Primitives

  /** A digest, transaction id or block hash: 32 bytes. */
  type Hash = h: seq<byte> | |h| == 32 witness seq(32, _ => 0)

  /** The 64 bytes of an Ed25519 signature. */
  type Signature = s: seq<byte> | |s| == 64 witness seq(64, _ => 0)

  datatype Suite = Suite(
    digest: seq<byte> -> Hash,
    isPoint: Hash -> bool,
    publicKey: Hash -> Hash,
    sign: (Hash, Hash) -> Signature,
    verify: (Hash, Signature, Hash) -> bool)

  const suite: Suite

  /** The all-zero hash, which stands for "no parent" in a genesis header. */
  const DEFAULT_HASH: Hash :=
    [0, 0, 0, 0, 0, 0, 0, 0, 0, 0, 0, 0, 0, 0, 0, 0, 0, 0, 0, 0, 0, 0, 0, 0, 0, 0, 0, 0, 0, 0, 0, 0]

  function DoubleSha256(bytes: seq<byte>): Hash {
    suite.digest(bytes)
  }

  /** Locking data is a verifying key when it is 32 bytes long and decodes to a curve point. */
  function ParseVerifyingKey(bytes: seq<byte>): Option<Hash> {
    if |bytes| == 32 && suite.isPoint(bytes) then Some(bytes) else None
  }

  function ParseSignature(bytes: seq<byte>): Option<Signature> {
    if |bytes| == 64 then Some(bytes) else None
  }

  predicate VerifyMessage(signature: Signature, key: Hash, message: Hash) {
    suite.verify(key, signature, message)
  }

  function SignMessage(signingKey: Hash, message: Hash): Signature {
    suite.sign(signingKey, message)
  }

  function VerifyingKeyOf(signingKey: Hash): Hash {
    suite.publicKey(signingKey)
  }

  /** The law that ties signing to verification: public keys decode, and own signatures verify. */
  ghost predicate SignVerifyLaw() {
    forall key: Hash, message: Hash ::
      && suite.isPoint(VerifyingKeyOf(key))
      && VerifyMessage(SignMessage(key, message), VerifyingKeyOf(key), message)
  }
}
