/** Wallets: balance accounting over a chain and transaction creation. The
    balance is derived from the chain by a backward scan in which the most
    recent block where the address sent a transaction closes the window. */
module Wallets {
  import opened Wrappers
  import opened Transactions
  import opened Blocks
  import opened Blockchain

  const STARTING_BALANCE: int := 1000

  /** The transactions a block carries; a text payload carries none. */
  function TxsOf(d: Data): seq<Transaction> {
    if d.TxList? then d.txs else []
  }

  /** What one transaction pays to `address` (nothing when it has no entry). */
  function OutputTo(tx: Transaction, address: Address): int {
    if address in tx.outputMap then tx.outputMap[address] else 0
  }

  /** What a sequence of transactions pays to `address`. */
  function OutputsTo(txs: seq<Transaction>, address: Address): int {
    if txs == [] then 0
    else OutputsTo(txs[..|txs| - 1], address) + OutputTo(txs[|txs| - 1], address)
  }

  /** Some transaction of the sequence was sent by `address`. */
  predicate SentFrom(txs: seq<Transaction>, address: Address) {
    txs != [] && (SentFrom(txs[..|txs| - 1], address) || txs[|txs| - 1].input.address == address)
  }

  lemma {:induction false} SentFromIff(txs: seq<Transaction>, address: Address)
    ensures SentFrom(txs, address) <==>
              exists k :: 0 <= k < |txs| && txs[k].input.address == address
  {
    if txs != [] {
      var init := txs[..|txs| - 1];
      SentFromIff(init, address);
      if SentFrom(init, address) {
        var k :| 0 <= k < |init| && init[k].input.address == address;
        assert txs[k] == init[k];
      }
      if k :| 0 <= k < |txs| && txs[k].input.address == address {
        if k < |init| { assert init[k] == txs[k]; }
      }
    }
  }

  /** The state of the backward scan: the outputs counted so far and whether
      the address has been seen as a sender. */
  datatype Tally = Tally(total: int, conducted: bool)

  /** The backward scan over the blocks with indices n-1 down to 1 (the
      genesis block is never scanned): a block in which the address sends
      contributes its outputs to the address and ends the scan. */
  function Scan(chain: seq<Block>, address: Address, n: nat): Tally
    requires n <= |chain|
  {
    if n <= 1 then Tally(0, false)
    else
      var txs := TxsOf(chain[n - 1].data);
      var here := OutputsTo(txs, address);
      if SentFrom(txs, address) then Tally(here, true)
      else
        var older := Scan(chain, address, n - 1);
        Tally(here + older.total, older.conducted)
  }

  /** The balance once `counted` has been gathered from the newer blocks and
      the scan of the older ones gave `rest`. */
  function Settle(counted: int, rest: Tally): int {
    if rest.conducted then counted + rest.total
    else STARTING_BALANCE + counted + rest.total
  }

  /** The balance of `address` according to `chain`. */
  function BalanceOf(chain: seq<Block>, address: Address): int {
    Settle(0, Scan(chain, address, |chain|))
  }

  /** The static `calculateBalance`: newest block to oldest, each block's
      transactions in order, stopping after the first block in which the
      address is a sender. */
  method CalculateBalance(chain: seq<Block>, address: Address) returns (balance: int)
    ensures balance == BalanceOf(chain, address)
  {
    var hasConductedTransaction := false;
    var outputsTotal := 0;
    var i := |chain| - 1;
    while i > 0
      invariant -1 <= i < |chain|
      invariant !hasConductedTransaction
      invariant BalanceOf(chain, address) == Settle(outputsTotal, Scan(chain, address, i + 1))
    {
      var txs := TxsOf(chain[i].data);
      ghost var counted := outputsTotal;
      var j := 0;
      while j < |txs|
        invariant 0 <= j <= |txs|
        invariant outputsTotal == counted + OutputsTo(txs[..j], address)
        invariant hasConductedTransaction == SentFrom(txs[..j], address)
      {
        var transaction := txs[j];
        assert txs[..j + 1][..j] == txs[..j];
        if transaction.input.address == address {
          hasConductedTransaction := true;
        }
        if address in transaction.outputMap {
          outputsTotal := outputsTotal + transaction.outputMap[address];
        }
        j := j + 1;
      }
      assert txs[..j] == txs;
      if hasConductedTransaction {
        break;
      }
      i := i - 1;
    }
    balance := if hasConductedTransaction then outputsTotal
               else STARTING_BALANCE + outputsTotal;
  }

  /** On a chain holding only the genesis block every address has the
      starting balance. */
  lemma GenesisOnlyBalance(chain: seq<Block>, address: Address)
    requires |chain| <= 1
    ensures BalanceOf(chain, address) == STARTING_BALANCE
  {
  }

  /** What the blocks with indices lo..hi-1 pay to `address`. */
  function Received(chain: seq<Block>, address: Address, lo: nat, hi: nat): int
    requires lo <= hi <= |chain|
    decreases hi
  {
    if hi == lo then 0
    else Received(chain, address, lo, hi - 1) + OutputsTo(TxsOf(chain[hi - 1].data), address)
  }

  /** Over blocks in which the address never sends, the scan only adds up
      what those blocks pay to it. */
  lemma {:induction false} ScanQuiet(chain: seq<Block>, address: Address, lo: nat, n: nat)
    requires 1 <= lo <= n <= |chain|
    requires forall i :: lo <= i < n ==> !SentFrom(TxsOf(chain[i].data), address)
    ensures Scan(chain, address, n) ==
              Tally(Received(chain, address, lo, n) + Scan(chain, address, lo).total,
                    Scan(chain, address, lo).conducted)
    decreases n
  {
    if n > lo {
      ScanQuiet(chain, address, lo, n - 1);
    }
  }

  /** An address that never sends has the starting balance plus everything
      paid to it after the genesis block. */
  lemma NeverSentBalance(chain: seq<Block>, address: Address)
    requires chain != []
    requires forall i :: 1 <= i < |chain| ==> !SentFrom(TxsOf(chain[i].data), address)
    ensures BalanceOf(chain, address) == STARTING_BALANCE + Received(chain, address, 1, |chain|)
  {
    ScanQuiet(chain, address, 1, |chain|);
  }

  /** When block k is the newest block in which the address sends, its
      balance is what block k and every newer block pay to it, with no
      starting balance and nothing from older blocks. */
  lemma LatestSendBalance(chain: seq<Block>, address: Address, k: nat)
    requires 1 <= k < |chain|
    requires SentFrom(TxsOf(chain[k].data), address)
    requires forall i :: k < i < |chain| ==> !SentFrom(TxsOf(chain[i].data), address)
    ensures BalanceOf(chain, address) == Received(chain, address, k, |chain|)
  {
    ScanQuiet(chain, address, k + 1, |chain|);
    assert Received(chain, address, k, k + 1) == OutputsTo(TxsOf(chain[k].data), address);
    ReceivedSplit(chain, address, k, k + 1, |chain|);
  }

  lemma {:induction false} ReceivedSplit(chain: seq<Block>, address: Address, lo: nat, mid: nat, hi: nat)
    requires lo <= mid <= hi <= |chain|
    ensures Received(chain, address, lo, hi) ==
              Received(chain, address, lo, mid) + Received(chain, address, mid, hi)
    decreases hi
  {
    if hi > mid {
      ReceivedSplit(chain, address, lo, mid, hi - 1);
    }
  }

  /** When the newest block holds a single transaction sent by the address,
      the balance is that transaction's change to the address. */
  lemma NewestSendBalance(chain: seq<Block>, address: Address, tx: Transaction)
    requires |chain| >= 2 && Last(chain).data == TxList([tx])
    requires tx.input.address == address
    ensures BalanceOf(chain, address) == OutputTo(tx, address)
  {
    var k := |chain| - 1;
    assert [tx][..0] == [];
    assert SentFrom(TxsOf(chain[k].data), address);
    LatestSendBalance(chain, address, k);
    assert OutputsTo([tx], address) == OutputTo(tx, address);
  }

  lemma OutputsToPair(t1: Transaction, t2: Transaction, address: Address)
    ensures OutputsTo([t1], address) == OutputTo(t1, address)
    ensures OutputsTo([t1, t2], address) == OutputTo(t1, address) + OutputTo(t2, address)
  {
  }

  /** Two incoming transfers in one block, none sent by the address: the
      starting balance plus both outputs. */
  lemma IncomingOutputsAdded(b: Block, t1: Transaction, t2: Transaction, address: Address)
    requires b.data == TxList([t1, t2])
    requires t1.input.address != address && t2.input.address != address
    ensures BalanceOf([GENESIS, b], address) ==
              STARTING_BALANCE + OutputTo(t1, address) + OutputTo(t2, address)
  {
    var txs := [t1, t2];
    assert txs[..1] == [t1] && [t1][..0] == [];
    SentFromIff(txs, address);
    NeverSentBalance([GENESIS, b], address);
    OutputsToPair(t1, t2, address);
  }

  /** The send in block `b1` closes the window: its change, the other
      outputs of that same block (a mining reward here) and every output in
      the newer block `b2` make up the balance, and nothing older counts. */
  lemma SameAndLaterBlockOutputs(chain: seq<Block>, b1: Block, b2: Block,
                                 recent: Transaction, next: Transaction, address: Address)
    requires chain != []
    requires b1.data == TxList([recent, RewardTransaction(address)])
    requires b2.data == TxList([next])
    requires recent.input.address == address && next.input.address != address
    ensures BalanceOf(chain + [b1, b2], address) ==
              OutputTo(recent, address) + MINING_REWARD + OutputTo(next, address)
  {
    var c := chain + [b1, b2];
    var k := |chain|;
    var reward := RewardTransaction(address);
    assert c[k] == b1 && c[k + 1] == b2;
    assert [recent, reward][..1] == [recent] && [recent][..0] == [];
    assert [next][..0] == [];
    assert SentFrom(TxsOf(c[k].data), address);
    assert !SentFrom(TxsOf(c[k + 1].data), address);
    LatestSendBalance(c, address, k);
    OutputsToPair(recent, reward, address);
    OutputsToPair(next, next, address);
    assert OutputTo(reward, address) == MINING_REWARD;
    assert Received(c, address, k, k + 1) == OutputTo(recent, address) + MINING_REWARD;
  }

  /** The scan of the first n blocks does not look at later blocks. */
  lemma {:induction false} ScanPrefix(chain: seq<Block>, b: Block, address: Address, n: nat)
    requires n <= |chain|
    ensures Scan(chain + [b], address, n) == Scan(chain, address, n)
    decreases n
  {
    if n > 1 {
      assert (chain + [b])[n - 1] == chain[n - 1];
      ScanPrefix(chain, b, address, n - 1);
    }
  }

  /** A new block in which the address does not send adds what it pays to
      the address to the balance. */
  lemma ReceiveAdds(chain: seq<Block>, b: Block, address: Address)
    requires chain != []
    requires !SentFrom(TxsOf(b.data), address)
    ensures BalanceOf(chain + [b], address) ==
              BalanceOf(chain, address) + OutputsTo(TxsOf(b.data), address)
  {
    ScanPrefix(chain, b, address, |chain|);
    assert (chain + [b])[|chain|] == b;
  }

  /** What `createTransaction` signals when the amount is too large. */
  datatype WalletError = AmountExceedsBalance

  /** The decision `createTransaction` makes with the balance it holds: an
      amount above the balance is refused, anything else becomes a transfer
      signed by the wallet whose change is the rest of the balance. */
  function Spend(publicKey: Address, signer: Signer, balance: int,
                 recipient: Address, amount: int, timestamp: int): (r: Result<Transaction, WalletError>)
    ensures r.Failure? <==> amount > balance
    ensures r.Failure? ==> r.error == AmountExceedsBalance
    ensures r.Success? ==>
              && r.value.input.SignedInput?
              && r.value.input.address == publicKey
              && r.value.input.signature == signer(r.value.outputMap)
              && r.value.outputMap.Keys == {recipient, publicKey}
              && r.value.input.amount == balance
              && r.value.outputMap[publicKey] == balance - amount
              && (recipient != publicKey ==> r.value.outputMap[recipient] == amount)
  {
    if amount > balance then Failure(AmountExceedsBalance)
    else Success(Create(publicKey, balance, signer, recipient, amount, timestamp))
  }

  /** Spending with the balance read from the chain and recording the
      transfer alone in a new block lowers the balance by exactly the amount. */
  lemma SpendLowersBalance(chain: seq<Block>, b: Block, publicKey: Address, signer: Signer,
                           recipient: Address, amount: int, timestamp: int)
    requires |chain| >= 1 && recipient != publicKey
    requires var r := Spend(publicKey, signer, BalanceOf(chain, publicKey), recipient, amount, timestamp);
      r.Success? && b.data == TxList([r.value])
    ensures BalanceOf(chain + [b], publicKey) == BalanceOf(chain, publicKey) - amount
  {
    var r := Spend(publicKey, signer, BalanceOf(chain, publicKey), recipient, amount, timestamp);
    NewestSendBalance(chain + [b], publicKey, r.value);
  }

  class Wallet {
    var balance: int
    const publicKey: Address
    /** Signing with the wallet's private key. */
    const signer: Signer

    /** A new wallet holds the starting balance. */
    constructor (publicKey: Address, signer: Signer)
      ensures balance == STARTING_BALANCE
      ensures this.publicKey == publicKey && this.signer == signer
    {
      balance := STARTING_BALANCE;
      this.publicKey := publicKey;
      this.signer := signer;
    }

    /** Creates a transfer. When a chain is passed, the balance is first
        refreshed from it; then an amount above the balance is refused. */
    method CreateTransaction(recipient: Address, amount: int, chain: Option<seq<Block>>,
                             timestamp: int) returns (r: Result<Transaction, WalletError>)
      modifies this
      ensures balance == if chain.Some? then BalanceOf(chain.value, publicKey) else old(balance)
      ensures r == Spend(publicKey, signer, balance, recipient, amount, timestamp)
      ensures r.Failure? <==> amount > balance
      ensures r.Success? ==> r.value.input.address == publicKey
      ensures r.Success? && recipient != publicKey ==> r.value.outputMap[recipient] == amount
    {
      if chain.Some? {
        balance := CalculateBalance(chain.value, publicKey);
      }
      if amount > balance {
        return Failure(AmountExceedsBalance);
      }
      return Success(Create(publicKey, balance, signer, recipient, amount, timestamp));
    }
  }

  /** A client of the wallet contracts: a fresh wallet cannot send more than
      the starting balance, and after passing a genesis-only chain it can
      send 50 to "foo". */
  method SpendFromFreshWallet(publicKey: Address, signer: Signer, hasher: Hasher)
    requires publicKey != "foo"
  {
    var wallet := new Wallet(publicKey, signer);
    var r := wallet.CreateTransaction("foo-recipient", 10000, None, 0);
    assert r == Failure(AmountExceedsBalance);
    var blockchain := new BlockChain(hasher);
    GenesisOnlyBalance(blockchain.chain, publicKey);
    r := wallet.CreateTransaction("foo", 50, Some(blockchain.chain), 1);
    assert wallet.balance == STARTING_BALANCE;
    assert r.Success? && r.value.outputMap["foo"] == 50 && r.value.input.address == publicKey;
  }
}
