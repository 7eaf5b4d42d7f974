/** The cryptographic collaborators of the ledger: SHA-256 and RSA signature
    checking are not modelled, only passed in as uninterpreted functions. */
module Collaborators {
  import opened Wrappers
  import opened Transactions
  import opened Blocks

  /** What gets hashed: the key-sorted JSON of a block's savable form, or the
      proof-of-work guess built from the encoded transactions, the last hash
      and the nonce. */
  datatype Preimage =
    | BlockJson(block: SavableBlock)
    | ProofGuess(transactions: seq<OrderedDict>, lastHash: string, proof: nat)

  /** `sha256` yields the hex digest of a preimage; `signatureValid` is the
      wallet's check of a transaction's signature against its sender key. */
  datatype Crypto = Crypto(
    sha256: Preimage -> string,
    signatureValid: Transaction -> bool)

  /** The hash of a block: the digest of its savable form, which covers the
      index, the previous hash, the timestamp, the canonical encoding of every
      transaction and the proof. */
  function HashBlock(c: Crypto, b: Block): (h: string)
    ensures h == c.sha256(BlockJson(SavableBlock(b.index, b.previousHash, b.timestamp,
                                                 EncodeAll(b.transactions), b.proof)))
  {
    c.sha256(BlockJson(ToSavable(b)))
  }
}
