/** Properties of the ledger: balances as a replay of the whole history,
    what admission and mining do to balances and to chain validity, and the
    scenarios a fresh node goes through. */
module BlockchainProperties {
  import opened Wrappers
  import opened Transactions
  import opened Blocks
  import opened Collaborators
  import opened Verification
  import opened Blockchain

  /** Amounts are non-negative when every transaction's amount is. */
  lemma {:induction false} AmountsNonNegative(txs: seq<Transaction>, f: Field, p: string)
    requires forall i :: 0 <= i < |txs| ==> txs[i].amount >= 0.0
    ensures Sum(Amounts(txs, f, p)) >= 0.0
    decreases |txs|
  {
    if |txs| > 0 {
      AmountsNonNegative(txs[1..], f, p);
      var head := if FieldOf(txs[0], f) == p then [txs[0].amount] else [];
      SumAppend(head, Amounts(txs[1..], f, p));
      assert Sum(head) >= 0.0 by {
        if |head| == 1 { assert head[..0] == []; }
      }
    }
  }

  /** Appending a transaction to the pool adds its amount to the pool
      total of the participant it names in the selected attribute, for both
      known `txType`s, and nothing for the others. */
  lemma OpenTransactionsAppend(open: seq<Transaction>, t: Transaction, p: string, txType: string)
    ensures CalculateOpenTransactions(open + [t], p, txType) ==
              CalculateOpenTransactions(open, p, txType)
              + match Selector(txType)
                case None => 0.0
                case Some(f) => if FieldOf(t, f) == p then t.amount else 0.0
  {
    match Selector(txType)
    case None =>
    case Some(f) =>
      AmountsAppend(open, [t], f, p);
      SumAppend(Amounts(open, f, p), Amounts([t], f, p));
      assert Amounts([t], f, p) == (if FieldOf(t, f) == p then [t.amount] else []);
      assert Sum([t.amount]) == t.amount by { assert [t.amount][..0] == []; }
  }

  /** Appending a transaction to the pool lowers its sender's balance by the
      amount and leaves every other balance as it was. */
  lemma PendingDebitsSender(l: Ledger, t: Transaction, p: string)
    ensures GetBalance(l.(open := l.open + [t]), p) ==
              GetBalance(l, p) - (if t.sender == p then t.amount else 0.0)
  {
    AmountsAppend(l.open, [t], SenderField, p);
    SumAppend(Amounts(l.open, SenderField, p), Amounts([t], SenderField, p));
    assert Amounts([t], SenderField, p) == (if t.sender == p then [t.amount] else []);
    if t.sender == p {
      assert Sum([t.amount]) == t.amount by { assert [t.amount][..0] == []; }
    }
  }

  /** After an admission the sender's balance has dropped by the amount and
      is still non-negative; nobody else's balance has moved. */
  lemma AdmissionDebitsSender(c: Crypto, l: Ledger, recipient: string, sender: string,
                              amount: real, signature: string, p: string)
    requires AddTransaction(c, l, recipient, sender, amount, signature).accepted
    ensures var after := AddTransaction(c, l, recipient, sender, amount, signature).ledger;
            && GetBalance(after, sender) == GetBalance(l, sender) - amount
            && GetBalance(after, sender) >= 0.0
            && (p != sender ==> GetBalance(after, p) == GetBalance(l, p))
  {
    var t := Transaction(sender, recipient, amount, signature);
    PendingDebitsSender(l, t, sender);
    PendingDebitsSender(l, t, p);
  }

  /** Mining keeps a valid chain valid: the new block links to the old tip
      and its transactions minus the reward are the pool the proof was
      found for. */
  lemma MinePreservesChainValid(c: Crypto, l: Ledger, now: real, proof: nat)
    requires |l.chain| > 0
    requires ChainValid(c, l.chain)
    requires ValidProof(c, l.open, HashBlock(c, l.chain[|l.chain| - 1]), proof)
    ensures Mine(c, l, now, proof).Success?
    ensures ChainValid(c, Mine(c, l, now, proof).value.chain)
  {
    var mined := Mine(c, l, now, proof).value;
    var b := mined.chain[|l.chain|];
    assert mined.chain == l.chain + [b];
    AppendValid(c, l.chain, b);
  }

  /** The mined block's matching amounts: the pool's, plus the reward when
      the reward transaction names the participant. */
  lemma MinedBlockSum(open: seq<Transaction>, f: Field, p: string)
    ensures Sum(Amounts(open + [RewardTransaction()], f, p)) ==
              Sum(Amounts(open, f, p))
              + (if FieldOf(RewardTransaction(), f) == p then MiningReward else 0.0)
  {
    var reward := RewardTransaction();
    AmountsAppend(open, [reward], f, p);
    SumAppend(Amounts(open, f, p), Amounts([reward], f, p));
    assert Amounts([reward], f, p) == (if FieldOf(reward, f) == p then [MiningReward] else []);
    assert Sum([MiningReward]) == MiningReward by { assert [MiningReward][..0] == []; }
  }

  /** The balance change of the interactive mine step: every participant is
      credited what the pool sends them, the miner gains the reward and the
      reward sender loses it. Pending debits become committed ones. */
  lemma MineAndClearBalance(c: Crypto, l: Ledger, now: real, proof: nat, p: string)
    requires |l.chain| > 0
    ensures MineAndClear(c, l, now, proof).Success?
    ensures GetBalance(MineAndClear(c, l, now, proof).value, p) ==
              GetBalance(l, p)
              + Sum(Amounts(l.open, RecipientField, p))
              + (if p == Owner then MiningReward else 0.0)
              - (if p == MiningSender then MiningReward else 0.0)
  {
    var after := MineAndClear(c, l, now, proof).value;
    var b := after.chain[|l.chain|];
    assert after.chain == l.chain + [b];
    assert b.transactions == l.open + [RewardTransaction()];
    var sent := CalculateBalance(after.chain, p, "sender");
    var received := CalculateBalance(after.chain, p, "recipient");
    CalculateBalanceAppend(l.chain, b, p, "sender");
    CalculateBalanceAppend(l.chain, b, p, "recipient");
    MinedBlockSum(l.open, SenderField, p);
    MinedBlockSum(l.open, RecipientField, p);
    assert sent == CalculateBalance(l.chain, p, "sender") + CalculateOpenTransactions(l.open, p, "sender")
                   + (if p == MiningSender then MiningReward else 0.0);
    assert received == CalculateBalance(l.chain, p, "recipient") + Sum(Amounts(l.open, RecipientField, p))
                       + (if p == Owner then MiningReward else 0.0);
    assert CalculateOpenTransactions(after.open, p, "sender") == 0.0;
  }

  /** No participant other than the reward sender has a negative balance. */
  ghost predicate Solvent(l: Ledger)
  {
    forall p :: p != MiningSender ==> GetBalance(l, p) >= 0.0
  }

  /** Every open transaction moves a non-negative amount. */
  ghost predicate PoolNonNegative(l: Ledger)
  {
    forall i :: 0 <= i < |l.open| ==> l.open[i].amount >= 0.0
  }

  /** Admission keeps every balance except the reward sender's non-negative. */
  lemma AddTransactionKeepsSolvent(c: Crypto, l: Ledger, recipient: string, sender: string,
                                   amount: real, signature: string)
    requires Solvent(l)
    ensures Solvent(AddTransaction(c, l, recipient, sender, amount, signature).ledger)
  {
    var r := AddTransaction(c, l, recipient, sender, amount, signature);
    if r.accepted {
      forall p | p != MiningSender ensures GetBalance(r.ledger, p) >= 0.0 {
        AdmissionDebitsSender(c, l, recipient, sender, amount, signature, p);
      }
    }
  }

  /** When no open transaction moves a negative amount, the mine step keeps
      every balance except the reward sender's non-negative. */
  lemma MineAndClearKeepsSolvent(c: Crypto, l: Ledger, now: real, proof: nat)
    requires |l.chain| > 0
    requires Solvent(l) && PoolNonNegative(l)
    ensures MineAndClear(c, l, now, proof).Success?
    ensures Solvent(MineAndClear(c, l, now, proof).value)
  {
    MineAndClearBalance(c, l, now, proof, "");
    forall p | p != MiningSender ensures GetBalance(MineAndClear(c, l, now, proof).value, p) >= 0.0 {
      MineAndClearBalance(c, l, now, proof, p);
      AmountsNonNegative(l.open, RecipientField, p);
    }
  }

  /** Admission never checks the amount's sign: a transfer of -5 from a
      participant with nothing passes the funds check, and once mined it
      leaves its recipient with a balance of -5. */
  lemma NegativeAmountBreaksSolvency()
    ensures var c := Crypto((_: Preimage) => "00", (_: Transaction) => true);
            var start := LoadFallback(0.0);
            var admitted := AddTransaction(c, start, "R", "W", -5.0, "sig");
            && Solvent(start)
            && admitted.accepted
            && MineAndClear(c, admitted.ledger, 1.0, 0).Success?
            && GetBalance(MineAndClear(c, admitted.ledger, 1.0, 0).value, "R") == -5.0
            && !Solvent(MineAndClear(c, admitted.ledger, 1.0, 0).value)
  {
    var c := Crypto((_: Preimage) => "00", (_: Transaction) => true);
    var start := LoadFallback(0.0);
    GenesisBalancesZero(0.0, "W");
    GenesisSolvent(0.0);
    var admitted := AddTransaction(c, start, "R", "W", -5.0, "sig");
    PendingDebitsSender(start, Transaction("W", "R", -5.0, "sig"), "R");
    GenesisBalancesZero(0.0, "R");
    MineAndClearBalance(c, admitted.ledger, 1.0, 0, "R");
    assert admitted.ledger.open == [Transaction("W", "R", -5.0, "sig")];
    assert Amounts(admitted.ledger.open, RecipientField, "R") == [-5.0];
    assert Sum([-5.0]) == -5.0 by { assert [-5.0][..0] == []; }
  }

  /** Every participant has balance 0 on a fresh node. */
  lemma GenesisBalancesZero(now: real, p: string)
    ensures GetBalance(LoadFallback(now), p) == 0.0
  {
    var l := LoadFallback(now);
    assert Flatten(l.chain) == [] by {
      assert l.chain[..0] == [];
    }
  }

  /** A fresh node is solvent. */
  lemma GenesisSolvent(now: real)
    ensures Solvent(LoadFallback(now))
  {
    forall p | p != MiningSender ensures GetBalance(LoadFallback(now), p) >= 0.0 {
      GenesisBalancesZero(now, p);
    }
  }

  /** A fresh node's chain is valid, whatever the hash function. */
  lemma GenesisValid(c: Crypto, now: real)
    ensures ChainValid(c, LoadFallback(now).chain)
  {
    ShortChainsValid(c, LoadFallback(now).chain);
  }

  /** On a fresh node a transfer of 5 is refused for lack of funds, and the
      pool stays empty. */
  lemma InsufficientFundsScenario(c: Crypto, now: real, signature: string)
    ensures var r := AddTransaction(c, LoadFallback(now), "R", "W", 5.0, signature);
            !r.accepted && r.ledger.open == []
  {
    GenesisBalancesZero(now, "W");
  }

  /** Mining once on a fresh node with an empty pool gives a two-block chain,
      an empty pool and the owner a balance of exactly the reward. */
  lemma FirstMineScenario(c: Crypto, now: real, later: real, proof: nat)
    ensures MineAndClear(c, LoadFallback(now), later, proof).Success?
    ensures var l := MineAndClear(c, LoadFallback(now), later, proof).value;
            && |l.chain| == 2
            && l.open == []
            && GetBalance(l, Owner) == MiningReward
  {
    GenesisBalancesZero(now, Owner);
    MineAndClearBalance(c, LoadFallback(now), later, proof, Owner);
  }
}
