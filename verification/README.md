# Proof-of-work ledger — a Dafny model

This project models the ledger core of a small proof-of-work blockchain:
- transactions and blocks, with their canonical dictionary encodings;
- the verification engine: proof of work, chain validity, transaction checks;
- the ledger state machine over `(chain, open transactions)`: balance replay,
  transaction admission, the linear nonce search, mining, and the genesis
  start state.

SHA-256 and RSA signature checking are not modelled. They are passed in as
the two uninterpreted functions of a `Crypto` value: `sha256` from a
structured preimage to a hex string, and `signatureValid` on a transaction.
The block hash is `sha256` of the block's savable form. A proof is valid when
the digest of (encoded transactions, last hash, nonce) starts with `"00"`.

Modules, one per source file:
- `Wrappers` (`wrappers.dfy`): `Option` and `Result`.
- `Transactions` (`transaction.dfy`): transaction.py.
- `Blocks` (`block.dfy`): block.py.
- `Collaborators` (`collaborators.dfy`): the hash and signature interfaces of hash_util.py and wallet.py.
- `Verification` (`verification.dfy`): utilities/verification.py.
- `Blockchain` (`ledger.dfy`): blockchain.py.
- `BlockchainProperties` (`ledger_properties.dfy`): lemmas relating the ledger operations.

Two places where the code and its surroundings disagree; the model follows
the later code:
- blockchain.py builds transactions with three arguments (blockchain.py:20,
  blockchain.py:112), but transaction.py:5 takes four. The model uses the
  four-field transaction; the reward transaction gets an empty signature.
  The reload in `load_data` (blockchain.py:47-61) is modelled the same way:
  its decoders read the signature too.
- blockchain.py:8 imports the root verification.py, a broken stub. The model
  uses the semantics of utilities/verification.py instead.

`mine_block` itself leaves the open pool in place (blockchain.py:109-123).
The interactive loop empties the pool after a successful mine
(blockchain.py:177-179). `Mine` models the first, `MineAndClear` the two
together. Between the two steps the pool's debits are counted twice.

Amounts are exact `real`s. Timestamps are opaque `real` clock readings,
passed in as `now`.

## Model

| member | source | states |
|---|---|---|
| Transactions.ToOrderedDict | transaction.py:17-23 | the encoding has exactly the keys sender, recipient, amount, signature in that order, and looking up each key yields the matching field |
| Transactions.Lookup | blockchain.py:48-59 | a value is found exactly when the key occurs; it is the value of the key's last entry, as in a dictionary built from a list of pairs |
| Transactions.OrderedDictRoundTrip | transaction.py:5-9 | rebuilding a transaction from its ordered encoding's values gives back the original, field for field |
| Transactions.OrderedDictInjective | transaction.py:17-23 | distinct transactions have distinct ordered encodings |
| Transactions.EncodeAll | block.py:20 | the list encoding keeps length and order; entry i has the canonical key order sender, recipient, amount, signature and decodes to transaction i |
| Transactions.FromOrderedDict | blockchain.py:58-61 | rebuilding a transaction by key succeeds exactly when sender, recipient and signature hold text and amount holds a number, and then each field is the value under its key |
| Transactions.DecodeAll | blockchain.py:50-53 | a list of dictionaries decodes exactly when every entry does, into a list of the same length whose entry i is entry i decoded |
| Transactions.DecodeEncodeAll | block.py:20 | decoding an encoded transaction list gives back the list |
| Transactions.SavableTx | transaction.py:14-15 | the persisted copy has exactly the four attribute keys |
| Transactions.SavableMatchesOrderedDict | transaction.py:14-15 | the persisted copy holds the same four key/value pairs as the ordered encoding |
| Transactions.FromSavableTx | blockchain.py:58-61 | rebuilding a transaction from its persisted copy succeeds exactly when all four keys hold values of the right kind, and then each field is the value under its key |
| Transactions.SavableRoundTrip | transaction.py:14-15 | reloading the persisted copy gives back the same transaction |
| Blocks.NewBlock | block.py:5-10 | the constructor stores index, previous hash, transactions and proof unchanged; the timestamp is `block_time` when supplied and the clock reading otherwise |
| Blocks.ToSavable | block.py:18-21 | the savable form keeps index, previous hash, timestamp and proof; its transaction list has the block's length and order, and entry i has the canonical key order and decodes to transaction i |
| Blocks.FromSavable | blockchain.py:47-56 | rebuilding a block succeeds exactly when every transaction entry decodes; it keeps index, previous hash, timestamp and proof, and transaction i is entry i decoded |
| Blocks.SavableRoundTrip | block.py:18-21 | rebuilding a block from its savable form gives back the block |
| Blocks.SavableInjective | block.py:18-21 | two different blocks never share a savable form, so the hash input sees every change |
| Collaborators.HashBlock | hash_util.py:7-9 | the block hash is the digest of the savable form: index, previous hash, timestamp, every transaction's canonical encoding, and proof |
| Verification.ValidProof | utilities/verification.py:9-12 | a proof is valid exactly when the digest of (encoded transactions, last hash, nonce) has '0' as its first two characters |
| Verification.AllButLast | utilities/verification.py:21 | `txs[:-1]` followed by the last transaction is the list again; on an empty list it is empty |
| Verification.VerifyChain | utilities/verification.py:14-23 | the loop answers true exactly when every block after the genesis block names its predecessor's hash and carries a valid proof over its transactions minus the last |
| Verification.ShortChainsValid | utilities/verification.py:16-18 | an empty or genesis-only chain is valid, whatever the genesis block holds |
| Verification.BrokenLinkInvalid | utilities/verification.py:19-20 | a block after genesis whose previous hash is not its predecessor's hash makes the chain invalid |
| Verification.BadProofInvalid | utilities/verification.py:21-22 | a block after genesis whose proof fails over its transactions minus the reward makes the chain invalid |
| Verification.TamperedLinkInvalid | utilities/verification.py:19-20 | changing the previous hash of any non-genesis block of a valid chain makes it invalid |
| Verification.PrefixValid | utilities/verification.py:15-23 | every prefix of a valid chain is valid |
| Verification.AppendValid | utilities/verification.py:15-23 | a non-empty chain plus one block is valid exactly when the chain is valid and the block links to its tip |
| Verification.VerifyTransaction | utilities/verification.py:26-30 | with the funds check, true exactly when the sender's looked-up balance covers the amount and the signature is valid; without it, exactly when the signature is valid |
| Verification.UncheckedIgnoresBalance | utilities/verification.py:30 | without the funds check the answer is the same for every balance lookup |
| Verification.VerifyTransactions | utilities/verification.py:32-34 | true exactly when every transaction's signature is valid; true for the empty list |
| Verification.BatchIgnoresBalance | utilities/verification.py:32-34 | the batch answer is the same for every balance lookup |
| Blockchain.Selector | blockchain.py:82-86 | only the names "sender" and "recipient" select an attribute |
| Blockchain.CalculateBalance | blockchain.py:81-90 | any `tx_type` other than "sender" or "recipient" gives 0 |
| Blockchain.CalculateOpenTransactions | blockchain.py:93-100 | any `tx_type` other than "sender" or "recipient" gives 0 |
| Blockchain.CalculateBalanceAppend | blockchain.py:88-90 | appending a block adds exactly that block's matching amounts, and nothing for an unknown `tx_type` |
| Blockchain.BalanceIsFlatReplay | blockchain.py:88-90 | the per-block fold equals the sum over all the chain's transactions taken as one list |
| Blockchain.GetBalance | blockchain.py:103-106 | a balance is the amount received in the chain minus the amounts sent in the chain and in the open pool |
| BlockchainProperties.OpenTransactionsAppend | blockchain.py:93-100 | appending a transaction to the pool adds its amount to the pool total of the participant it names as sender or recipient, and nothing for an unknown `tx_type` |
| BlockchainProperties.PendingDebitsSender | blockchain.py:100-106 | a new open transaction lowers its sender's balance by its amount and moves no other balance |
| Blockchain.AddTransaction | blockchain.py:19-25 | admitted exactly when the signature is valid and the sender's balance covers the amount; then it is appended at the end of the pool, otherwise chain and pool are unchanged |
| BlockchainProperties.AdmissionDebitsSender | blockchain.py:19-25 | after an admission the sender's balance is the old one minus the amount and is non-negative; other balances are unchanged |
| Blockchain.LoadFallback | blockchain.py:62-69 | the fallback state is one block with index 0, previous hash "", no transactions and proof 0, and an empty pool |
| Blockchain.LastBlock | blockchain.py:126-130 | absent exactly for an empty chain; otherwise the block the chain ends with |
| Blockchain.RewardTransaction | blockchain.py:112 | the reward pays `MINING_REWARD` (10) from the reserved sender "ABYSS" to the owner "Max", with an empty signature |
| Blockchain.ProofOfWork | blockchain.py:72-78 | the result is a valid proof over the pool and the last block's hash, and every smaller nonce fails |
| Blockchain.Mine | blockchain.py:109-123 | fails only on an empty chain; otherwise appends one block with index = old length, previous hash = hash of the old tip, transactions = the pool then the reward, leaving earlier blocks and the pool unchanged |
| Blockchain.MineBlock | blockchain.py:109-123 | appends the block built with the least valid nonce, and keeps a valid chain valid |
| Blockchain.MineAndClear | blockchain.py:176-179 | a successful mine followed by emptying the pool |
| BlockchainProperties.MinePreservesChainValid | blockchain.py:111-121 | mining with a valid proof over the pool keeps a valid chain valid |
| BlockchainProperties.MineAndClearBalance | blockchain.py:176-179 | after the mine step each balance grows by what the pool sent to that participant, plus the reward for the owner, minus the reward for the reward sender |
| BlockchainProperties.AddTransactionKeepsSolvent | blockchain.py:19-25 | admission keeps every balance except the reward sender's non-negative |
| BlockchainProperties.MineAndClearKeepsSolvent | blockchain.py:176-179 | with no negative amounts in the pool, the mine step keeps every balance except the reward sender's non-negative |
| BlockchainProperties.NegativeAmountBreaksSolvency | blockchain.py:19-22 | the amount's sign is never checked: a transfer of -5 from an empty account is admitted, and once mined its recipient's balance is -5 |
| BlockchainProperties.GenesisBalancesZero | blockchain.py:62-69 | every balance on a fresh node is 0 |
| BlockchainProperties.GenesisSolvent | blockchain.py:62-69 | no balance on a fresh node is negative |
| BlockchainProperties.GenesisValid | blockchain.py:62-69 | a fresh node's chain is valid for every hash function |
| BlockchainProperties.InsufficientFundsScenario | blockchain.py:19-25 | on a fresh node a transfer of 5 is refused and the pool stays empty |
| BlockchainProperties.FirstMineScenario | blockchain.py:176-179 | mining once on a fresh node gives two blocks, an empty pool and the owner a balance of exactly the reward |

## Left out

- SHA-256, the JSON rendering with sorted keys, and the string built from the transaction list, the last hash and the nonce: the digest is an uninterpreted function of a structured preimage. So the model does not see collisions that the concatenation could cause.
- RSA key handling and PKCS#1 v1.5 signing (wallet.py): the signature check is an uninterpreted predicate. Python exceptions on malformed keys are not modelled.
- Blockchain.ProofOfWork: the source loops forever when no nonce is valid. The model requires that some nonce is valid, because Dafny has to prove the loop ends.
- Blockchain.ProofOfWork: requires a non-empty chain; on an empty chain the source raises `IndexError`. `Mine` and `MineBlock` return `Failure(EmptyChain)` for that case.
- Floating-point amounts: amounts are exact reals, so rounding in sums and comparisons is not modelled.
- Timestamps from `time()`: the clock reading is a parameter `now`.
- File persistence (`save_data`, the JSON parsing in `load_data`) and the interactive loop, except its mine-then-clear step. Reloading is covered only by the round trips of the savable forms.
- The HTTP node (node.py), the peer network and conflict resolution: none of their code is part of this model.
- The root verification.py stub: it refers to undefined names and is replaced by utilities/verification.py.
