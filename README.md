# Ledger and wallet core of a proof-of-work cryptocurrency

A Dafny model of the ledger of a single-node proof-of-work blockchain and of
the wallet's balance accounting, as pinned down by the repository's two test
suites (`blockchain/index.test.js`, `wallet/index.test.js`).

- **Blocks** (`blocks.dfy`): the block record (timestamp, lastHash, hash, data,
  nonce, difficulty), the fixed genesis block, the difficulty adjustment rule
  (floor at 1 below difficulty 1, minus one when slower than `MINE_RATE`, plus
  one otherwise) and the block a successful mining attempt produces. The hash
  function is a parameter `Hasher = Fields -> Digest`: deterministic and
  otherwise unknown. It takes the five hashed fields as one record, so no
  proof depends on the order in which they are passed.
- **Chain** (`blockchain.dfy`): `IsValidChain` (block 0 is the genesis block;
  every later block names its predecessor's hash, stores the hash of its own
  fields, and moves the difficulty by at most one), the looping validator
  `CheckChain` proved equal to it, the class `BlockChain` whose `chain` field
  `AddBlock` extends and `ReplaceChain` swaps, and `Adopt`, the
  longest-valid-chain rule that `ReplaceChain` follows.
- **Transactions** (`transactions.dfy`): an input (timestamp, the sender's
  balance, the sender's address, a signature) or the reward authority's input,
  and an output map from address to amount; the transfer built by
  transaction creation and the mining reward.
- **Wallet** (`wallets.dfy`): the static balance calculation as a nested loop
  (`CalculateBalance`) proved equal to the backward scan `BalanceOf`, the
  lemmas that say what that balance is, and the class `Wallet` whose
  `CreateTransaction` refreshes `balance` from a chain when one is passed and
  refuses an amount above the balance.

The balance rule the tests fix: blocks are scanned from newest to oldest,
skipping the genesis block; every output to the address is added; the scan
stops after the first block (newest first) in which the address is a sender.
If it found such a block, the balance is the sum gathered, otherwise the
starting balance plus that sum (wallet/index.test.js:154-161 expects the
change of the latest send alone, without the starting balance).

Two facts the proofs surfaced, both about behaviour as modelled:

- `AddBlock` keeps a valid chain valid only while its last difficulty is not
  negative. Chains built from the genesis block by `AddBlock` never get there
  (`GrowValid`), but `ReplaceChain` accepts any valid chain, and validity does
  not bound difficulty from below. `FloorBreaksNegativeChain` shows a valid
  chain ending at difficulty -1: the floor at 1 makes the next block jump by 2.
- A transfer to the sender's own address keeps only the change entry, so the
  recipient's entry is not the amount. `Create` and `Spend` state the
  recipient's entry only for a recipient other than the sender.

Two client methods use only the class contracts to replay the suites'
scenarios: `Blockchain.ReplaceByLongerChain` (a chain mined three times from
genesis replaces a fresh chain, and a fresh chain does not replace it back,
as in blockchain/index.test.js:103-153) and `Wallets.SpendFromFreshWallet`
(an amount above the starting balance fails, and after a genesis-only chain
is passed the wallet pays 50 to "foo", as in wallet/index.test.js:49-109).

## Model

| member | source | states |
|---|---|---|
| `Blocks.AdjustDifficulty` | blockchain/index.test.js:23-28 | the new difficulty is never negative, is within one of a non-negative parent's, and is lower than the parent's exactly when the parent is at least 1 and the block took longer than the mine rate, is exactly one higher when the parent is at least 1 and the block was not slower, and is 1 when the parent's difficulty is below 1 |
| `Blocks.MineBlock` | blockchain/index.test.js:23-28 | the mined block carries the given data, names the parent's hash, stores the hash of its own fields, and links to a parent whose difficulty is not negative |
| `Blockchain.ValidChainIff` | blockchain/index.test.js:30-89 | a chain is valid exactly when it is non-empty, starts with the genesis block and every adjacent pair is linked, in both directions |
| `Blockchain.CheckChain` | blockchain/index.test.js:30-89 | the looping validator returns true exactly when the chain is valid |
| `Blockchain.AppendValidIff` | blockchain/index.test.js:84-88 | appending a block keeps a chain valid exactly when the chain was valid and the block links to its last block |
| `Blockchain.BrokenLinkInvalid` | blockchain/index.test.js:46-63 | any block whose lastHash, hash or difficulty step is wrong makes the chain invalid |
| `Blockchain.TamperedLastHashInvalid` | blockchain/index.test.js:46-54 | changing the lastHash of a later block of a valid chain makes it invalid |
| `Blockchain.TamperedHashInvalid` | blockchain/index.test.js:128-138 | overwriting the stored hash of a later block of a valid chain makes it invalid |
| `Blockchain.TamperedFieldsInvalid` | blockchain/index.test.js:56-63 | with a collision-free hasher, changing any hashed field of a later block of a valid chain makes it invalid |
| `Blockchain.TamperedDataInvalid` | blockchain/index.test.js:56-63 | with a collision-free hasher, changing the data of a later block of a valid chain makes it invalid |
| `Blockchain.JumpedDifficultyInvalid` | blockchain/index.test.js:65-81 | a correctly linked and correctly hashed block whose difficulty differs from its parent's by more than one makes the chain invalid |
| `Blockchain.GrowValid` | blockchain/index.test.js:39-44 | extending a valid chain with non-negative last difficulty by mined blocks keeps it valid, keeps its prefix and adds one block per step |
| `Blockchain.GenesisGrowValid` | blockchain/index.test.js:84-88 | every chain built from the genesis block by mining alone is valid and has one block per step plus the genesis block |
| `Blockchain.FloorBreaksNegativeChain` | blockchain/index.test.js:23-28 | a valid chain ending at difficulty -1 becomes invalid after one more mined block |
| `Blockchain.Adopt` | blockchain/index.test.js:103-153 | the result is the current chain or the candidate; it is the candidate exactly when that is strictly longer and valid; validity and length never decrease |
| `Blockchain.BlockChain.constructor` | blockchain/index.test.js:15-21 | a new chain is the genesis block alone, and valid |
| `Blockchain.BlockChain.AddBlock` | blockchain/index.test.js:23-28 | the chain grows by the mined block, earlier blocks are unchanged, the last block carries the data, and a valid chain stays valid when its last difficulty was not negative |
| `Blockchain.BlockChain.ReplaceChain` | blockchain/index.test.js:103-153 | the chain becomes the candidate when it is strictly longer and valid and is unchanged otherwise; the verdict says which of not-longer, invalid or replaced happened |
| `Transactions.Create` | wallet/index.test.js:55-75 | the input names the sender and its balance; the output map has the recipient and the sender as keys, the change is the balance minus the amount, and a recipient other than the sender gets the amount, outputs summing to the input amount |
| `Transactions.RewardTransaction` | wallet/index.test.js:172 | the reward is sent by the reward authority and its only output pays the mining reward to the miner |
| `Wallets.CalculateBalance` | wallet/index.test.js:95-193 | the nested backward loop with its early stop returns exactly the backward-scan balance |
| `Wallets.GenesisOnlyBalance` | wallet/index.test.js:102-109 | on a genesis-only chain the balance is the starting balance |
| `Wallets.NeverSentBalance` | wallet/index.test.js:129-140 | an address that never sends has the starting balance plus all outputs to it after the genesis block |
| `Wallets.IncomingOutputsAdded` | wallet/index.test.js:112-140 | two incoming transfers in one block add both outputs to the starting balance |
| `Wallets.ReceiveAdds` | wallet/index.test.js:112-140 | a new block in which the address does not send raises its balance by what the block pays it |
| `Wallets.LatestSendBalance` | wallet/index.test.js:142-193 | when block k is the newest in which the address sends, the balance is what block k and all newer blocks pay it, with no starting balance |
| `Wallets.NewestSendBalance` | wallet/index.test.js:142-161 | when the newest block is a single send by the address, the balance is that transaction's change |
| `Wallets.SameAndLaterBlockOutputs` | wallet/index.test.js:163-193 | the change of the latest send, a reward in the same block and an output in a newer block add up to the balance |
| `Wallets.Spend` | wallet/index.test.js:48-75 | an amount above the balance fails with the amount-exceeds-balance error, and only then; otherwise the transfer is signed by and names the wallet, pays the amount to another recipient and the rest back as change |
| `Wallets.SpendLowersBalance` | wallet/index.test.js:142-161 | spending to another address with the chain's balance and recording the transfer alone in a new block lowers the balance by exactly the amount |
| `Wallets.Wallet.constructor` | wallet/index.test.js:10-16 | a new wallet holds the starting balance |
| `Wallets.Wallet.CreateTransaction` | wallet/index.test.js:48-92 | with a chain, the balance is first set to the chain's balance for the wallet's key; an amount above the balance fails; otherwise the transfer names the wallet and pays the amount to the recipient |

## Left out

- Signing and signature verification (wallet/index.test.js:24-46): asymmetric cryptography; signing is a function parameter `Signer`, verification is not modelled.
- Proof of work: the nonce search, the leading-zero test on the hash and the hexadecimal-to-binary expansion are not modelled; `MineBlock` takes the timestamp and nonce of the successful attempt as parameters, and validity does not check proof of work either.
- The wall clock: every `Date.now()` timestamp is a parameter.
- Real hashing (SHA-256 over stringified fields): the hasher is a parameter; the tamper lemmas on hashed fields assume it is collision-free.
- Transaction ids and the transaction validity check (outputs summing to the input amount plus a signature check) belong to the transaction module, which the suites do not exercise.
- Console logging and error reports of `replaceChain` are returned as a `Verdict` instead; Jest mocking of `calculateBalance` (wallet/index.test.js:79-90) is stated as `CreateTransaction`'s contract on `balance`.
- Structural comparison of the first block with the genesis block (by stringification) is datatype equality, and the fake first block of blockchain/index.test.js:33 is any block other than the genesis block.
- A block whose data is text holds no transactions for the balance scan. The original iterates whatever `data` holds: for a text payload that yields characters, and reading `input` of a character fails. The suites never scan a block with text data, so the model's empty count replaces a read that would fail.
- Amounts are unbounded integers, not floating-point numbers; the call with a misspelt `account` argument (wallet/index.test.js:85) that leaves the amount undefined is not modelled.
- Configuration values are fixed constants: starting balance 1000, mining reward 50, mine rate 1000 ms, initial difficulty 1, genesis block (timestamp 1, lastHash "-", hash "hash-one", text data, nonce 0).
