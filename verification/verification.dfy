/** The stateless verification engine: proof-of-work validity, chain
    validity and transaction validity. */
module Verification {
  import opened Transactions
  import opened Blocks
  import opened Collaborators

  /** The fixed proof-of-work difficulty: the digest's leading characters. */
  const Difficulty: string := "00"

  /** Whether a hex digest starts with the difficulty prefix. */
  predicate MeetsDifficulty(digest: string)
  {
    |Difficulty| <= |digest| && digest[..|Difficulty|] == Difficulty
  }

  /** Whether `proof` solves the puzzle for `transactions` on top of the block
      whose hash is `lastHash`: the digest of the guess built from the
      transactions' canonical encodings, the last hash and the nonce has '0'
      as its first two characters. */
  predicate ValidProof(c: Crypto, transactions: seq<Transaction>, lastHash: string, proof: nat)
    ensures ValidProof(c, transactions, lastHash, proof) <==>
              var d := c.sha256(ProofGuess(EncodeAll(transactions), lastHash, proof));
              |d| >= 2 && d[0] == '0' && d[1] == '0'
  {
    MeetsDifficulty(c.sha256(ProofGuess(EncodeAll(transactions), lastHash, proof)))
  }

  /** `proof` is the least non-negative nonce that solves the puzzle. */
  ghost predicate IsLeastProof(c: Crypto, transactions: seq<Transaction>, lastHash: string, proof: nat)
  {
    && ValidProof(c, transactions, lastHash, proof)
    && forall q: nat :: q < proof ==> !ValidProof(c, transactions, lastHash, q)
  }

  /** Some nonce solves the puzzle, so the linear search for one ends. */
  ghost predicate Solvable(c: Crypto, transactions: seq<Transaction>, lastHash: string)
  {
    exists p: nat :: ValidProof(c, transactions, lastHash, p)
  }

  /** Python's `txs[:-1]`: every transaction but the last (the reward). */
  function AllButLast(txs: seq<Transaction>): (r: seq<Transaction>)
    ensures |txs| > 0 ==> r + [txs[|txs| - 1]] == txs
    ensures |txs| == 0 ==> r == []
  {
    if |txs| == 0 then [] else txs[..|txs| - 1]
  }

  /** Block `b` correctly follows block `prev`: it names `prev`'s hash and its
      proof solves the puzzle over its non-reward transactions. */
  predicate Links(c: Crypto, prev: Block, b: Block)
  {
    && b.previousHash == HashBlock(c, prev)
    && ValidProof(c, AllButLast(b.transactions), b.previousHash, b.proof)
  }

  /** Block `i` of the chain correctly follows block `i - 1`. */
  predicate LinksAt(c: Crypto, chain: seq<Block>, i: int)
    requires 1 <= i < |chain|
  {
    Links(c, chain[i - 1], chain[i])
  }

  /** Every block after the genesis block links to its predecessor. */
  predicate ChainValid(c: Crypto, chain: seq<Block>)
  {
    forall i :: 1 <= i < |chain| ==> LinksAt(c, chain, i)
  }

  /** The chain check: walks the chain, skips the genesis block, and stops at
      the first block with a wrong previous hash or an invalid proof. */
  method VerifyChain(c: Crypto, chain: seq<Block>) returns (ok: bool)
    ensures ok <==> ChainValid(c, chain)
  {
    var index := 0;
    while index < |chain|
      invariant 0 <= index <= |chain|
      invariant forall i :: 1 <= i < index ==> LinksAt(c, chain, i)
    {
      if index != 0 {
        var block := chain[index];
        if block.previousHash != HashBlock(c, chain[index - 1]) {
          assert !LinksAt(c, chain, index);
          return false;
        }
        if !ValidProof(c, AllButLast(block.transactions), block.previousHash, block.proof) {
          assert !LinksAt(c, chain, index);
          return false;
        }
      }
      index := index + 1;
    }
    return true;
  }

  /** An empty chain and a genesis-only chain are valid whatever the genesis
      block holds. */
  lemma ShortChainsValid(c: Crypto, chain: seq<Block>)
    requires |chain| <= 1
    ensures ChainValid(c, chain)
  {
  }

  /** A block whose previous hash differs from its predecessor's hash makes the
      chain invalid. */
  lemma BrokenLinkInvalid(c: Crypto, chain: seq<Block>, i: int)
    requires 1 <= i < |chain|
    requires chain[i].previousHash != HashBlock(c, chain[i - 1])
    ensures !ChainValid(c, chain)
  {
    assert !LinksAt(c, chain, i);
  }

  /** A block whose proof fails over its non-reward transactions makes the
      chain invalid. */
  lemma BadProofInvalid(c: Crypto, chain: seq<Block>, i: int)
    requires 1 <= i < |chain|
    requires !ValidProof(c, AllButLast(chain[i].transactions), chain[i].previousHash, chain[i].proof)
    ensures !ChainValid(c, chain)
  {
    assert !LinksAt(c, chain, i);
  }

  /** Rewriting the previous hash of any non-genesis block of a valid chain
      makes it invalid. */
  lemma TamperedLinkInvalid(c: Crypto, chain: seq<Block>, i: int, forged: string)
    requires ChainValid(c, chain)
    requires 1 <= i < |chain|
    requires forged != chain[i].previousHash
    ensures !ChainValid(c, chain[i := chain[i].(previousHash := forged)])
  {
    assert LinksAt(c, chain, i);
    var tampered := chain[i := chain[i].(previousHash := forged)];
    assert tampered[i - 1] == chain[i - 1];
    BrokenLinkInvalid(c, tampered, i);
  }

  /** Every prefix of a valid chain is valid. */
  lemma PrefixValid(c: Crypto, chain: seq<Block>, k: nat)
    requires ChainValid(c, chain)
    requires k <= |chain|
    ensures ChainValid(c, chain[..k])
  {
    forall i | 1 <= i < k ensures LinksAt(c, chain[..k], i) {
      assert LinksAt(c, chain, i);
    }
  }

  /** Appending a block to a non-empty chain keeps it valid exactly when the
      chain was valid and the block links to its tip. */
  lemma AppendValid(c: Crypto, chain: seq<Block>, b: Block)
    requires |chain| > 0
    ensures ChainValid(c, chain + [b]) <==>
              ChainValid(c, chain) && Links(c, chain[|chain| - 1], b)
  {
    var longer := chain + [b];
    if ChainValid(c, longer) {
      assert longer[..|chain|] == chain;
      PrefixValid(c, longer, |chain|);
      assert LinksAt(c, longer, |chain|);
    }
    if ChainValid(c, chain) && Links(c, chain[|chain| - 1], b) {
      forall i | 1 <= i < |longer| ensures LinksAt(c, longer, i) {
        if i < |chain| {
          assert LinksAt(c, chain, i);
        }
      }
    }
  }

  /** The transaction check. With `checkFunds` the sender's balance, looked up
      through `balanceOf`, must cover the amount and the signature must be
      valid; without it only the signature counts. */
  function VerifyTransaction(c: Crypto, t: Transaction, balanceOf: string -> real,
                             checkFunds: bool): (ok: bool)
    ensures checkFunds ==> (ok <==> balanceOf(t.sender) >= t.amount && c.signatureValid(t))
    ensures !checkFunds ==> (ok <==> c.signatureValid(t))
  {
    if checkFunds then
      var senderBalance := balanceOf(t.sender);
      senderBalance >= t.amount && c.signatureValid(t)
    else
      c.signatureValid(t)
  }

  /** Without the funds check the balance lookup is never consulted. */
  lemma UncheckedIgnoresBalance(c: Crypto, t: Transaction, f: string -> real, g: string -> real)
    ensures VerifyTransaction(c, t, f, false) == VerifyTransaction(c, t, g, false)
  {
  }

  /** The batch check: every transaction passes the signature-only check. */
  function VerifyTransactions(c: Crypto, txs: seq<Transaction>, balanceOf: string -> real): (ok: bool)
    ensures ok <==> forall i :: 0 <= i < |txs| ==> c.signatureValid(txs[i])
  {
    if |txs| == 0 then true
    else
      var rest := VerifyTransactions(c, txs[1..], balanceOf);
      assert rest <==> forall i :: 1 <= i < |txs| ==> c.signatureValid(txs[i]) by {
        forall i | 1 <= i < |txs| ensures txs[i] == txs[1..][i - 1] { }
      }
      VerifyTransaction(c, txs[0], balanceOf, false) && rest
  }

  /** The batch check gives the same answer whatever the balances are. */
  lemma BatchIgnoresBalance(c: Crypto, txs: seq<Transaction>, f: string -> real, g: string -> real)
    ensures VerifyTransactions(c, txs, f) == VerifyTransactions(c, txs, g)
  {
  }
}
