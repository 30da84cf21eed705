/** Blocks: the record unit of the ledger, the fixed genesis block, the
    difficulty adjustment rule and the block produced by a successful mining
    attempt. */
module Blocks {
  import opened Transactions

  type Digest = string

  /** A block's payload: the transactions it carries, or an opaque text
      (the genesis block, and the plain data the chain accepts as well). */
  datatype Data = Payload(text: string) | TxList(txs: seq<Transaction>)

  datatype Block = Block(timestamp: int, lastHash: Digest, hash: Digest,
                         data: Data, nonce: int, difficulty: int)

  /** The fields a block's hash is computed over. Keeping them in one record
      makes the hashed value independent of any argument order. */
  datatype Fields = Fields(timestamp: int, lastHash: Digest, data: Data,
                           nonce: int, difficulty: int)

  /** The hash function: deterministic, otherwise unknown. */
  type Hasher = Fields -> Digest

  /** Target time between two blocks, in milliseconds. */
  const MINE_RATE: int := 1000

  const INITIAL_DIFFICULTY: int := 1

  /** The fixed first block of every chain; it is not mined. */
  const GENESIS: Block :=
    Block(1, "-", "hash-one", Payload("genesis"), 0, INITIAL_DIFFICULTY)

  function FieldsOf(b: Block): Fields {
    Fields(b.timestamp, b.lastHash, b.data, b.nonce, b.difficulty)
  }

  /** A hasher that never maps two different field records to one digest
      (the idealised collision resistance of the real hash). */
  ghost predicate CollisionFree(hasher: Hasher) {
    forall f, g :: hasher(f) == hasher(g) ==> f == g
  }

  function Abs(x: int): nat {
    if x < 0 then -x else x
  }

  /** `curr` may follow `prev` in a chain: it names `prev`'s hash, its stored
      hash is the hash of its fields, and the difficulty moved by at most one. */
  predicate LinksTo(hasher: Hasher, prev: Block, curr: Block) {
    && curr.lastHash == prev.hash
    && curr.hash == hasher(FieldsOf(curr))
    && Abs(prev.difficulty - curr.difficulty) <= 1
  }

  /** Difficulty for a block mined at `timestamp` on top of `last`: floored
      at 1 when the parent's difficulty is below 1, lowered by one when the
      block took longer than MINE_RATE, raised by one otherwise. */
  function AdjustDifficulty(last: Block, timestamp: int): (d: int)
    ensures d >= 0
    ensures last.difficulty >= 0 ==> Abs(last.difficulty - d) <= 1
    ensures d < last.difficulty <==>
              last.difficulty >= 1 && timestamp - last.timestamp > MINE_RATE
    ensures last.difficulty < 1 ==> d == 1
    ensures last.difficulty >= 1 && timestamp - last.timestamp <= MINE_RATE ==>
              d == last.difficulty + 1
  {
    if last.difficulty < 1 then 1
    else if timestamp - last.timestamp > MINE_RATE then last.difficulty - 1
    else last.difficulty + 1
  }

  /** The block that the mining attempt with this `timestamp` and `nonce`
      produces on top of `last`. */
  function MineBlock(hasher: Hasher, last: Block, data: Data,
                     timestamp: int, nonce: int): (b: Block)
    ensures b.data == data && b.timestamp == timestamp && b.nonce == nonce
    ensures b.lastHash == last.hash && b.hash == hasher(FieldsOf(b))
    ensures b.difficulty == AdjustDifficulty(last, timestamp) && b.difficulty >= 0
    ensures last.difficulty >= 0 ==> LinksTo(hasher, last, b)
  {
    var difficulty := AdjustDifficulty(last, timestamp);
    var hash := hasher(Fields(timestamp, last.hash, data, nonce, difficulty));
    Block(timestamp, last.hash, hash, data, nonce, difficulty)
  }
}
