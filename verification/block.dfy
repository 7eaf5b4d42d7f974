/** Blocks and their savable form, which is what the block hash is taken of. */
module Blocks {
  import opened Wrappers
  import opened Transactions

  /** A hash-linked container of transactions. `timestamp` is an opaque clock
      reading; `proof` is the proof-of-work nonce. */
  datatype Block = Block(
    index: nat,
    previousHash: string,
    timestamp: real,
    transactions: seq<Transaction>,
    proof: nat)

  /** The savable form of a block: the same attributes, with every
      transaction replaced by its canonical encoding. */
  datatype SavableBlock = SavableBlock(
    index: nat,
    previousHash: string,
    timestamp: real,
    transactions: seq<OrderedDict>,
    proof: nat)

  /** The block constructor. The timestamp is `blockTime` when supplied and
      otherwise `now`, the clock reading taken at construction. */
  function NewBlock(index: nat, previousHash: string, transactions: seq<Transaction>,
                    proof: nat, blockTime: Option<real>, now: real): (b: Block)
    ensures b.index == index && b.previousHash == previousHash
    ensures b.transactions == transactions && b.proof == proof
    ensures blockTime.Some? ==> b.timestamp == blockTime.value
    ensures blockTime.None? ==> b.timestamp == now
  {
    Block(index, previousHash,
          match blockTime case Some(t) => t case None => now,
          transactions, proof)
  }

  /** The savable form of a block; the block itself is a value and is left as
      it was. */
  function ToSavable(b: Block): (s: SavableBlock)
    ensures s.index == b.index && s.previousHash == b.previousHash
    ensures s.timestamp == b.timestamp && s.proof == b.proof
    ensures |s.transactions| == |b.transactions|
    ensures forall i :: 0 <= i < |b.transactions| ==> Keys(s.transactions[i]) == FieldOrder
    ensures forall i :: 0 <= i < |b.transactions| ==>
              FromOrderedDict(s.transactions[i]) == Some(b.transactions[i])
  {
    SavableBlock(b.index, b.previousHash, b.timestamp, EncodeAll(b.transactions), b.proof)
  }

  /** Rebuilds a block from its savable form, as reloading a persisted chain
      does; fails exactly when some transaction entry does not decode. */
  function FromSavable(s: SavableBlock): (r: Option<Block>)
    ensures r.Some? <==> forall i :: 0 <= i < |s.transactions| ==> FromOrderedDict(s.transactions[i]).Some?
    ensures r.Some? ==>
              && r.value.index == s.index && r.value.previousHash == s.previousHash
              && r.value.timestamp == s.timestamp && r.value.proof == s.proof
              && |r.value.transactions| == |s.transactions|
              && forall i :: 0 <= i < |s.transactions| ==>
                   FromOrderedDict(s.transactions[i]) == Some(r.value.transactions[i])
  {
    match DecodeAll(s.transactions)
    case Some(txs) => Some(NewBlock(s.index, s.previousHash, txs, s.proof, Some(s.timestamp), 0.0))
    case None => None
  }

  /** Reloading the savable form gives back the same block. */
  lemma SavableRoundTrip(b: Block)
    ensures FromSavable(ToSavable(b)) == Some(b)
  {
    DecodeEncodeAll(b.transactions);
  }

  /** Two different blocks never have the same savable form, so the hash
      input distinguishes every change to a block. */
  lemma SavableInjective(a: Block, b: Block)
    ensures ToSavable(a) == ToSavable(b) ==> a == b
  {
    SavableRoundTrip(a);
    SavableRoundTrip(b);
  }
}
