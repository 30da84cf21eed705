/** Transactions: a signed input naming the sender and an output map from
    recipient address to amount. A mining reward is a transaction whose input
    names a fixed authority instead of a wallet. */
module Transactions {

  type Address = string
  type Signature = string

  /** Signing with a wallet's private key, abstracted to a function of the
      data being signed (here: an output map). */
  type Signer = map<Address, int> -> Signature

  /** Sentinel sender of every mining reward. */
  const REWARD_ADDRESS: Address := "*authorized-reward*"

  /** Amount paid to the miner by a reward transaction. */
  const MINING_REWARD: int := 50

  datatype Input =
    | SignedInput(timestamp: int, amount: int, address: Address, signature: Signature)
    | RewardInput(address: Address)

  datatype Transaction = Transaction(input: Input, outputMap: map<Address, int>)

  /** A transfer of `amount` from `sender` (whose balance is `senderBalance`)
      to `recipient`; the rest of the balance goes back to the sender as change.
      When the recipient is the sender, the change entry is the one kept. */
  function Create(sender: Address, senderBalance: int, signer: Signer,
                  recipient: Address, amount: int, timestamp: int): (t: Transaction)
    ensures t.input.SignedInput? && t.input.address == sender
    ensures t.input.amount == senderBalance && t.input.timestamp == timestamp
    ensures t.input.signature == signer(t.outputMap)
    ensures t.outputMap.Keys == {recipient, sender}
    ensures t.outputMap[sender] == senderBalance - amount
    ensures recipient != sender ==> t.outputMap[recipient] == amount
    ensures recipient != sender ==>
              t.outputMap[recipient] + t.outputMap[sender] == t.input.amount
  {
    var outputMap := map[recipient := amount][sender := senderBalance - amount];
    Transaction(SignedInput(timestamp, senderBalance, sender, signer(outputMap)), outputMap)
  }

  /** The reward paid to a miner: sent by the reward authority, one output. */
  function RewardTransaction(miner: Address): (t: Transaction)
    ensures t.input.RewardInput? && t.input.address == REWARD_ADDRESS
    ensures t.outputMap.Keys == {miner} && t.outputMap[miner] == MINING_REWARD
  {
    Transaction(RewardInput(REWARD_ADDRESS), map[miner := MINING_REWARD])
  }
}
