/** The ledger: the chain and the pool of open transactions, with balance
    replay, transaction admission, proof-of-work search and mining. */
module Blockchain {
  import opened Wrappers
  import opened Transactions
  import opened Blocks
  import opened Collaborators
  import opened Verification

  /** The amount credited to the miner of a block. */
  const MiningReward: real := 10.0
  /** The reserved sender of reward transactions. */
  const MiningSender: string := "ABYSS"
  /** The local participant: the miner and the default sender. */
  const Owner: string := "Max"

  /** The ledger state: the chain and the open transactions, in insertion
      order. */
  datatype Ledger = Ledger(chain: seq<Block>, open: seq<Transaction>)

  /** Why mining could not start: there is no last block to build on. */
  datatype LedgerError = EmptyChain

  /** The two transaction attributes a balance can be computed over. */
  datatype Field = SenderField | RecipientField

  /** The participant a transaction names in the given attribute. */
  function FieldOf(t: Transaction, f: Field): string
  {
    match f
    case SenderField => t.sender
    case RecipientField => t.recipient
  }

  /** Resolves a `tx_type` name; any name other than "sender" and
      "recipient" is unknown. */
  function Selector(txType: string): (f: Option<Field>)
    ensures f == Some(SenderField) <==> txType == "sender"
    ensures f == Some(RecipientField) <==> txType == "recipient"
  {
    if txType == "sender" then Some(SenderField)
    else if txType == "recipient" then Some(RecipientField)
    else None
  }

  /** The amounts of the transactions that name `participant` in attribute
      `f`, in order. */
  function Amounts(txs: seq<Transaction>, f: Field, participant: string): seq<real>
  {
    if |txs| == 0 then []
    else
      (if FieldOf(txs[0], f) == participant then [txs[0].amount] else [])
      + Amounts(txs[1..], f, participant)
  }

  /** Python's `sum`, accumulating from the left. */
  function Sum(xs: seq<real>): real
  {
    if |xs| == 0 then 0.0 else Sum(xs[..|xs| - 1]) + xs[|xs| - 1]
  }

  /** The per-block lists of matching amounts, one list per block. */
  function BlockAmounts(chain: seq<Block>, f: Field, participant: string): seq<seq<real>>
  {
    seq(|chain|, i requires 0 <= i < |chain| => Amounts(chain[i].transactions, f, participant))
  }

  /** A left fold adding the sum of each per-block list to a running total. */
  function Reduce(sums: seq<seq<real>>, total: real): real
  {
    if |sums| == 0 then total else Reduce(sums[1..], total + Sum(sums[0]))
  }

  /** All transactions of the chain, block after block. */
  function Flatten(chain: seq<Block>): seq<Transaction>
  {
    if |chain| == 0 then [] else Flatten(chain[..|chain| - 1]) + chain[|chain| - 1].transactions
  }

  /** The total amount `participant` sent (`txType` "sender") or received
      (`txType` "recipient") over every block of the chain; 0 for any other
      `txType`. */
  function CalculateBalance(chain: seq<Block>, participant: string, txType: string): (r: real)
    ensures txType != "sender" && txType != "recipient" ==> r == 0.0
  {
    match Selector(txType)
    case None => 0.0
    case Some(f) => Reduce(BlockAmounts(chain, f, participant), 0.0)
  }

  /** The total amount `participant` sends or receives in the open pool;
      0 for an unknown `txType`. */
  function CalculateOpenTransactions(open: seq<Transaction>, participant: string, txType: string): (r: real)
    ensures txType != "sender" && txType != "recipient" ==> r == 0.0
  {
    match Selector(txType)
    case None => 0.0
    case Some(f) => Sum(Amounts(open, f, participant))
  }

  /** Summing a concatenation sums the parts. */
  lemma {:induction false} SumAppend(xs: seq<real>, ys: seq<real>)
    ensures Sum(xs + ys) == Sum(xs) + Sum(ys)
    decreases |ys|
  {
    if |ys| == 0 {
      assert xs + ys == xs;
    } else {
      var init := ys[..|ys| - 1];
      assert (xs + ys)[..|xs + ys| - 1] == xs + init;
      SumAppend(xs, init);
    }
  }

  /** Filtering a concatenation filters the parts. */
  lemma {:induction false} AmountsAppend(xs: seq<Transaction>, ys: seq<Transaction>, f: Field, p: string)
    ensures Amounts(xs + ys, f, p) == Amounts(xs, f, p) + Amounts(ys, f, p)
    decreases |xs|
  {
    if |xs| == 0 {
      assert xs + ys == ys;
    } else {
      var head := if FieldOf(xs[0], f) == p then [xs[0].amount] else [];
      assert (xs + ys)[0] == xs[0];
      assert (xs + ys)[1..] == xs[1..] + ys;
      AmountsAppend(xs[1..], ys, f, p);
      assert Amounts(xs + ys, f, p) == head + (Amounts(xs[1..], f, p) + Amounts(ys, f, p));
      assert Amounts(xs, f, p) == head + Amounts(xs[1..], f, p);
    }
  }

  /** The left fold adds one more list's sum at the end. */
  lemma {:induction false} ReduceAppend(sums: seq<seq<real>>, last: seq<real>, total: real)
    ensures Reduce(sums + [last], total) == Reduce(sums, total) + Sum(last)
    decreases |sums|
  {
    if |sums| == 0 {
      assert (sums + [last])[1..] == [];
    } else {
      assert (sums + [last])[1..] == sums[1..] + [last];
      ReduceAppend(sums[1..], last, total + Sum(sums[0]));
    }
  }

  /** Appending a block adds exactly that block's matching amounts to the
      chain total, for both known `txType`s, and nothing for the others. */
  lemma CalculateBalanceAppend(chain: seq<Block>, b: Block, p: string, txType: string)
    ensures CalculateBalance(chain + [b], p, txType) ==
              CalculateBalance(chain, p, txType)
              + match Selector(txType)
                case None => 0.0
                case Some(f) => Sum(Amounts(b.transactions, f, p))
  {
    match Selector(txType)
    case None =>
    case Some(f) =>
      assert BlockAmounts(chain + [b], f, p) == BlockAmounts(chain, f, p) + [Amounts(b.transactions, f, p)];
      ReduceAppend(BlockAmounts(chain, f, p), Amounts(b.transactions, f, p), 0.0);
  }

  /** The name of a balance attribute as a `tx_type` string. */
  function TxType(f: Field): string
  {
    match f
    case SenderField => "sender"
    case RecipientField => "recipient"
  }

  /** The per-block replay equals the total over the chain's transactions
      taken as one list. */
  lemma {:induction false} BalanceIsFlatReplay(chain: seq<Block>, f: Field, p: string)
    ensures CalculateBalance(chain, p, TxType(f)) == Sum(Amounts(Flatten(chain), f, p))
    decreases |chain|
  {
    if |chain| == 0 {
      assert BlockAmounts(chain, f, p) == [];
    } else {
      var init := chain[..|chain| - 1];
      var b := chain[|chain| - 1];
      assert init + [b] == chain;
      BalanceIsFlatReplay(init, f, p);
      CalculateBalanceAppend(init, b, p, TxType(f));
      AmountsAppend(Flatten(init), b.transactions, f, p);
      SumAppend(Amounts(Flatten(init), f, p), Amounts(b.transactions, f, p));
    }
  }

  /** What `participant` received in the chain minus what they sent in the
      chain or are sending in the open pool: a replay of every transaction of
      the chain and the pool. */
  function GetBalance(l: Ledger, participant: string): (r: real)
    ensures r == Sum(Amounts(Flatten(l.chain), RecipientField, participant))
                 - (Sum(Amounts(Flatten(l.chain), SenderField, participant))
                    + Sum(Amounts(l.open, SenderField, participant)))
  {
    BalanceIsFlatReplay(l.chain, RecipientField, participant);
    BalanceIsFlatReplay(l.chain, SenderField, participant);
    var totalSent := CalculateBalance(l.chain, participant, "sender")
                     + CalculateOpenTransactions(l.open, participant, "sender");
    var totalReceived := CalculateBalance(l.chain, participant, "recipient");
    totalReceived - totalSent
  }

  /** The outcome of submitting a transaction: whether it was admitted, and
      the ledger afterwards. */
  datatype Admission = Admission(accepted: bool, ledger: Ledger)

  /** Submits a transaction. It is appended to the open pool exactly when its
      signature is valid and the sender's current balance covers the amount;
      otherwise the ledger is left as it was. */
  function AddTransaction(c: Crypto, l: Ledger, recipient: string, sender: string,
                          amount: real, signature: string): (r: Admission)
    ensures r.accepted <==>
              c.signatureValid(Transaction(sender, recipient, amount, signature))
              && GetBalance(l, sender) >= amount
    ensures r.accepted ==>
              r.ledger == Ledger(l.chain, l.open + [Transaction(sender, recipient, amount, signature)])
    ensures !r.accepted ==> r.ledger == l
  {
    var t := Transaction(sender, recipient, amount, signature);
    if VerifyTransaction(c, t, p => GetBalance(l, p), true) then
      Admission(true, l.(open := l.open + [t]))
    else
      Admission(false, l)
  }

  /** The state a fresh node starts from when no saved ledger can be read:
      the genesis block alone and an empty pool. */
  function LoadFallback(now: real): (l: Ledger)
    ensures |l.chain| == 1 && l.open == []
    ensures l.chain[0].index == 0 && l.chain[0].previousHash == ""
    ensures l.chain[0].transactions == [] && l.chain[0].proof == 0
  {
    Ledger([NewBlock(0, "", [], 0, None, now)], [])
  }

  /** The last block of the chain, if there is one. */
  function LastBlock(chain: seq<Block>): (r: Option<Block>)
    ensures r.None? <==> |chain| == 0
    ensures r.Some? ==> r.value in chain && chain == chain[..|chain| - 1] + [r.value]
  {
    if |chain| == 0 then None else Some(chain[|chain| - 1])
  }

  /** The reward transaction a block's miner receives: the reward amount,
      from the reserved sender to the owner, with an empty signature. */
  function RewardTransaction(): (r: Transaction)
    ensures r.sender == MiningSender && r.recipient == Owner
    ensures r.amount == MiningReward && r.signature == ""
  {
    Transaction(MiningSender, Owner, MiningReward, "")
  }

  /** The linear proof-of-work search: tries 0, 1, 2, ... over the open pool
      and the hash of the last block. The search terminates only if some
      nonce is valid, which the caller must guarantee. */
  method ProofOfWork(c: Crypto, l: Ledger) returns (proof: nat)
    requires |l.chain| > 0
    requires Solvable(c, l.open, HashBlock(c, l.chain[|l.chain| - 1]))
    ensures IsLeastProof(c, l.open, HashBlock(c, l.chain[|l.chain| - 1]), proof)
  {
    var lastBlock := l.chain[|l.chain| - 1];
    var lastHash := HashBlock(c, lastBlock);
    ghost var bound: nat :| ValidProof(c, l.open, lastHash, bound);
    proof := 0;
    while !ValidProof(c, l.open, lastHash, proof)
      invariant proof <= bound
      invariant forall q: nat :: q < proof ==> !ValidProof(c, l.open, lastHash, q)
      decreases bound - proof
    {
      proof := proof + 1;
    }
  }

  /** Appends the block mined with `proof` on top of the chain: it links to
      the old tip and holds the open pool followed by the reward. The open
      pool itself is left in place. Fails on an empty chain. */
  function Mine(c: Crypto, l: Ledger, now: real, proof: nat): (r: Result<Ledger, LedgerError>)
    ensures r.Failure? <==> |l.chain| == 0
    ensures r.Success? ==>
              && r.value.open == l.open
              && |r.value.chain| == |l.chain| + 1
              && r.value.chain[..|l.chain|] == l.chain
    ensures r.Success? ==>
              var b := r.value.chain[|l.chain|];
              && b.index == |l.chain|
              && b.previousHash == HashBlock(c, l.chain[|l.chain| - 1])
              && b.transactions == l.open + [RewardTransaction()]
              && AllButLast(b.transactions) == l.open
              && b.proof == proof
              && b.timestamp == now
  {
    match LastBlock(l.chain)
    case None => Failure(EmptyChain)
    case Some(lastBlock) =>
      var copiedTransactions := l.open + [RewardTransaction()];
      var block := NewBlock(|l.chain|, HashBlock(c, lastBlock), copiedTransactions, proof, None, now);
      Success(l.(chain := l.chain + [block]))
  }

  /** Mines one block: searches for the least valid nonce and appends the
      block built with it, which keeps a valid chain valid. */
  method MineBlock(c: Crypto, l: Ledger, now: real) returns (r: Result<Ledger, LedgerError>)
    requires |l.chain| > 0 ==> Solvable(c, l.open, HashBlock(c, l.chain[|l.chain| - 1]))
    ensures r.Failure? <==> |l.chain| == 0
    ensures r.Success? ==>
              && |r.value.chain| == |l.chain| + 1
              && var proof := r.value.chain[|l.chain|].proof;
                 && IsLeastProof(c, l.open, HashBlock(c, l.chain[|l.chain| - 1]), proof)
                 && r == Mine(c, l, now, proof)
    ensures r.Success? && ChainValid(c, l.chain) ==> ChainValid(c, r.value.chain)
  {
    if |l.chain| == 0 {
      return Failure(EmptyChain);
    }
    var proof := ProofOfWork(c, l);
    r := Mine(c, l, now, proof);
    var block := r.value.chain[|l.chain|];
    assert r.value.chain == l.chain + [block];
    AppendValid(c, l.chain, block);
  }

  /** The interactive "mine" step: mine a block and, on success, empty the
      open pool, whose transactions now sit in the new block. */
  function MineAndClear(c: Crypto, l: Ledger, now: real, proof: nat): (r: Result<Ledger, LedgerError>)
    ensures r.Failure? <==> |l.chain| == 0
    ensures r.Success? ==> r.value.open == [] && Mine(c, l, now, proof).Success?
                           && r.value.chain == Mine(c, l, now, proof).value.chain
  {
    match Mine(c, l, now, proof)
    case Failure(e) => Failure(e)
    case Success(mined) => Success(mined.(open := []))
  }
}
