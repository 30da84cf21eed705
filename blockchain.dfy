/** The chain: validation of a whole candidate sequence of blocks, local
    extension by a mined block, and the longest-valid-chain replacement rule. */
module Blockchain {
  import opened Blocks

  function Last(chain: seq<Block>): Block
    requires chain != []
  {
    chain[|chain| - 1]
  }

  /** Every block from index `i` on links to its predecessor, checked in the
      order the validator walks the chain. */
  predicate LinksFrom(hasher: Hasher, chain: seq<Block>, i: nat)
    requires 1 <= i
    decreases |chain| - i
  {
    i >= |chain| || (LinksTo(hasher, chain[i - 1], chain[i]) && LinksFrom(hasher, chain, i + 1))
  }

  /** The validity rule: the chain starts with the genesis block, and every
      later block links to the one before it. */
  predicate IsValidChain(hasher: Hasher, chain: seq<Block>) {
    |chain| >= 1 && chain[0] == GENESIS && LinksFrom(hasher, chain, 1)
  }

  /** Every adjacent pair from index `i` on is linked. */
  ghost predicate AllLinked(hasher: Hasher, chain: seq<Block>, i: nat) {
    forall j :: i <= j < |chain| && j >= 1 ==> LinksTo(hasher, chain[j - 1], chain[j])
  }

  lemma {:induction false} LinksFromAll(hasher: Hasher, chain: seq<Block>, i: nat)
    requires 1 <= i
    ensures LinksFrom(hasher, chain, i) <==> AllLinked(hasher, chain, i)
    decreases |chain| - i
  {
    if i < |chain| {
      LinksFromAll(hasher, chain, i + 1);
    }
  }

  /** Validity stated pairwise over the whole chain, in both directions. */
  lemma ValidChainIff(hasher: Hasher, chain: seq<Block>)
    ensures IsValidChain(hasher, chain) <==>
              && |chain| >= 1 && chain[0] == GENESIS
              && forall j :: 1 <= j < |chain| ==> LinksTo(hasher, chain[j - 1], chain[j])
  {
    LinksFromAll(hasher, chain, 1);
  }

  /** The static validator, as a loop over the indices that stops at the
      first broken block. */
  method CheckChain(hasher: Hasher, chain: seq<Block>) returns (ok: bool)
    ensures ok == IsValidChain(hasher, chain)
  {
    ValidChainIff(hasher, chain);
    if |chain| == 0 || chain[0] != GENESIS {
      return false;
    }
    var i := 1;
    while i < |chain|
      invariant 1 <= i <= |chain|
      invariant forall j :: 1 <= j < i ==> LinksTo(hasher, chain[j - 1], chain[j])
    {
      var block := chain[i];
      var actualLastHash := chain[i - 1].hash;
      var lastDifficulty := chain[i - 1].difficulty;
      if block.lastHash != actualLastHash {
        return false;
      }
      var validatedHash := hasher(FieldsOf(block));
      if block.hash != validatedHash {
        return false;
      }
      if Abs(lastDifficulty - block.difficulty) > 1 {
        return false;
      }
      i := i + 1;
    }
    return true;
  }

  /** Appending one block keeps a chain valid exactly when the block links
      to the current last block. */
  lemma AppendValidIff(hasher: Hasher, chain: seq<Block>, b: Block)
    requires chain != []
    ensures IsValidChain(hasher, chain + [b]) <==>
              IsValidChain(hasher, chain) && LinksTo(hasher, Last(chain), b)
  {
    var c := chain + [b];
    ValidChainIff(hasher, chain);
    ValidChainIff(hasher, c);
    assert forall j :: 0 <= j < |chain| ==> c[j] == chain[j];
    assert c[|chain|] == b && c[|chain| - 1] == Last(chain);
    if IsValidChain(hasher, c) {
      forall j | 1 <= j < |chain| ensures LinksTo(hasher, chain[j - 1], chain[j]) {
        assert LinksTo(hasher, c[j - 1], c[j]);
      }
      assert LinksTo(hasher, c[|chain| - 1], c[|chain|]);
    }
  }

  /** A block whose link to its predecessor is broken makes the chain invalid. */
  lemma BrokenLinkInvalid(hasher: Hasher, chain: seq<Block>, i: nat)
    requires 1 <= i < |chain|
    requires !LinksTo(hasher, chain[i - 1], chain[i])
    ensures !IsValidChain(hasher, chain)
  {
    ValidChainIff(hasher, chain);
  }

  /** Changing the lastHash of a later block of a valid chain invalidates it. */
  lemma TamperedLastHashInvalid(hasher: Hasher, chain: seq<Block>, i: nat, h: Digest)
    requires IsValidChain(hasher, chain)
    requires 1 <= i < |chain| && h != chain[i].lastHash
    ensures !IsValidChain(hasher, chain[i := chain[i].(lastHash := h)])
  {
    ValidChainIff(hasher, chain);
    BrokenLinkInvalid(hasher, chain[i := chain[i].(lastHash := h)], i);
  }

  /** Overwriting the stored hash of a later block of a valid chain
      invalidates it. */
  lemma TamperedHashInvalid(hasher: Hasher, chain: seq<Block>, i: nat, h: Digest)
    requires IsValidChain(hasher, chain)
    requires 1 <= i < |chain| && h != chain[i].hash
    ensures !IsValidChain(hasher, chain[i := chain[i].(hash := h)])
  {
    ValidChainIff(hasher, chain);
    BrokenLinkInvalid(hasher, chain[i := chain[i].(hash := h)], i);
  }

  /** Under a collision-free hasher, changing any hashed field of a later
      block (data, timestamp, nonce, difficulty, lastHash) while keeping its
      stored hash invalidates a valid chain. */
  lemma TamperedFieldsInvalid(hasher: Hasher, chain: seq<Block>, i: nat, b: Block)
    requires CollisionFree(hasher) && IsValidChain(hasher, chain)
    requires 1 <= i < |chain|
    requires b.hash == chain[i].hash && FieldsOf(b) != FieldsOf(chain[i])
    ensures !IsValidChain(hasher, chain[i := b])
  {
    ValidChainIff(hasher, chain);
    BrokenLinkInvalid(hasher, chain[i := b], i);
  }

  /** The case exercised for the data field. */
  lemma TamperedDataInvalid(hasher: Hasher, chain: seq<Block>, i: nat, d: Data)
    requires CollisionFree(hasher) && IsValidChain(hasher, chain)
    requires 1 <= i < |chain| && d != chain[i].data
    ensures !IsValidChain(hasher, chain[i := chain[i].(data := d)])
  {
    TamperedFieldsInvalid(hasher, chain, i, chain[i].(data := d));
  }

  /** A difficulty jump of more than one makes a chain invalid, even when
      the block's lastHash and hash are correct. */
  lemma JumpedDifficultyInvalid(hasher: Hasher, chain: seq<Block>, b: Block)
    requires chain != []
    requires b.lastHash == Last(chain).hash && b.hash == hasher(FieldsOf(b))
    requires Abs(Last(chain).difficulty - b.difficulty) > 1
    ensures !IsValidChain(hasher, chain + [b])
  {
    AppendValidIff(hasher, chain, b);
  }

  /** The chain that results from a sequence of local `addBlock` calls,
      each given as the data, the final timestamp and the winning nonce. */
  datatype Mining = Mining(data: Data, timestamp: int, nonce: int)

  function Grow(hasher: Hasher, chain: seq<Block>, steps: seq<Mining>): seq<Block>
    requires chain != []
    decreases |steps|
  {
    if steps == [] then chain
    else
      var s := steps[0];
      Grow(hasher, chain + [MineBlock(hasher, Last(chain), s.data, s.timestamp, s.nonce)], steps[1..])
  }

  /** Extending a valid chain whose last difficulty is not negative by any
      number of mined blocks keeps it valid, keeps its prefix and adds one
      block per step. */
  lemma {:induction false} GrowValid(hasher: Hasher, chain: seq<Block>, steps: seq<Mining>)
    requires IsValidChain(hasher, chain) && Last(chain).difficulty >= 0
    ensures var g := Grow(hasher, chain, steps);
      && IsValidChain(hasher, g) && Last(g).difficulty >= 0
      && |g| == |chain| + |steps| && g[..|chain|] == chain
    decreases |steps|
  {
    if steps != [] {
      var s := steps[0];
      var b := MineBlock(hasher, Last(chain), s.data, s.timestamp, s.nonce);
      AppendValidIff(hasher, chain, b);
      GrowValid(hasher, chain + [b], steps[1..]);
      var g := Grow(hasher, chain, steps);
      assert g[..|chain| + 1] == chain + [b];
      assert g[..|chain|] == (chain + [b])[..|chain|];
    }
  }

  /** Any chain built from the genesis block by `addBlock` alone is valid. */
  lemma GenesisGrowValid(hasher: Hasher, steps: seq<Mining>)
    ensures IsValidChain(hasher, Grow(hasher, [GENESIS], steps))
    ensures |Grow(hasher, [GENESIS], steps)| == |steps| + 1
  {
    GrowValid(hasher, [GENESIS], steps);
  }

  /** With the floor at difficulty 1, a valid chain whose last difficulty is
      -1 (reachable through replacement) is no longer valid after `addBlock`. */
  lemma FloorBreaksNegativeChain(hasher: Hasher, data: Data, timestamp: int, nonce: int)
    ensures var b1 := Block(2, GENESIS.hash, hasher(Fields(2, GENESIS.hash, data, 0, 0)), data, 0, 0);
      var b2 := Block(3, b1.hash, hasher(Fields(3, b1.hash, data, 0, -1)), data, 0, -1);
      var c := [GENESIS, b1, b2];
      && IsValidChain(hasher, c)
      && !IsValidChain(hasher, c + [MineBlock(hasher, b2, data, timestamp, nonce)])
  {
    var b1 := Block(2, GENESIS.hash, hasher(Fields(2, GENESIS.hash, data, 0, 0)), data, 0, 0);
    var b2 := Block(3, b1.hash, hasher(Fields(3, b1.hash, data, 0, -1)), data, 0, -1);
    var c := [GENESIS, b1, b2];
    ValidChainIff(hasher, c);
    AppendValidIff(hasher, c, MineBlock(hasher, b2, data, timestamp, nonce));
  }

  /** The longest-valid-chain rule: the candidate is adopted only when it is
      strictly longer than the current chain and valid. */
  function Adopt(hasher: Hasher, current: seq<Block>, candidate: seq<Block>): (r: seq<Block>)
    ensures r == current || r == candidate
    ensures r != current ==> |r| > |current| && IsValidChain(hasher, r)
    ensures |candidate| > |current| && IsValidChain(hasher, candidate) ==> r == candidate
    ensures IsValidChain(hasher, current) ==> IsValidChain(hasher, r)
    ensures |r| >= |current|
  {
    if |candidate| <= |current| then current
    else if !IsValidChain(hasher, candidate) then current
    else candidate
  }

  /** What `replaceChain` reports. */
  datatype Verdict = Replaced | NotLonger | InvalidChain

  class BlockChain {
    const hasher: Hasher
    var chain: seq<Block>

    ghost predicate Valid()
      reads this
    {
      chain != [] && chain[0] == GENESIS
    }

    /** A new chain holds the genesis block alone. */
    constructor (hasher: Hasher)
      ensures Valid() && this.hasher == hasher
      ensures chain == [GENESIS] && IsValidChain(hasher, chain)
    {
      this.hasher := hasher;
      chain := [GENESIS];
    }

    /** Appends the block mined on top of the last block; `timestamp` and
        `nonce` are those of the successful mining attempt. */
    method AddBlock(data: Data, timestamp: int, nonce: int)
      requires Valid()
      modifies this
      ensures Valid()
      ensures chain == old(chain) + [MineBlock(hasher, Last(old(chain)), data, timestamp, nonce)]
      ensures |chain| == |old(chain)| + 1 && chain[..|old(chain)|] == old(chain)
      ensures Last(chain).data == data && Last(chain).difficulty >= 0
      ensures old(IsValidChain(hasher, chain) && Last(chain).difficulty >= 0) ==>
                IsValidChain(hasher, chain)
    {
      var newBlock := MineBlock(hasher, chain[|chain| - 1], data, timestamp, nonce);
      AppendValidIff(hasher, chain, newBlock);
      chain := chain + [newBlock];
      assert chain[..|old(chain)|] == old(chain);
    }

    /** Swaps in `candidate` when it is strictly longer and valid; otherwise
        leaves the chain untouched and reports why. */
    method ReplaceChain(candidate: seq<Block>) returns (verdict: Verdict)
      requires Valid()
      modifies this
      ensures Valid()
      ensures chain == Adopt(hasher, old(chain), candidate)
      ensures verdict == NotLonger <==> |candidate| <= |old(chain)|
      ensures verdict == InvalidChain <==>
                |candidate| > |old(chain)| && !IsValidChain(hasher, candidate)
      ensures verdict == Replaced <==> chain == candidate && chain != old(chain)
    {
      if |candidate| <= |chain| {
        return NotLonger;
      }
      var ok := CheckChain(hasher, candidate);
      if !ok {
        return InvalidChain;
      }
      chain := candidate;
      return Replaced;
    }
  }

  /** A client of the class contracts: a chain extended three times from
      genesis is valid and replaces a fresh chain; a fresh chain does not
      replace it back. */
  method ReplaceByLongerChain(hasher: Hasher)
  {
    var blockchain := new BlockChain(hasher);
    var newChain := new BlockChain(hasher);
    newChain.AddBlock(Payload("Bears"), 10, 1);
    newChain.AddBlock(Payload("Beets"), 20, 2);
    newChain.AddBlock(Payload("Battlestar galactica"), 30, 3);
    assert IsValidChain(hasher, newChain.chain);
    var verdict := blockchain.ReplaceChain(newChain.chain);
    assert verdict == Replaced && blockchain.chain == newChain.chain;
    var another := new BlockChain(hasher);
    verdict := blockchain.ReplaceChain(another.chain);
    assert verdict == NotLonger && blockchain.chain == newChain.chain;
  }
}
