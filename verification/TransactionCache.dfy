/** The cache of one transaction stream: transactions and Merkle blocks waiting
    to be sent, and the hashes that may still get an instant lock. */
module TransactionCache {
  import opened Buffers
  import opened Options
  import opened TransactionFilter

  const CACHE_SIZE := 10
  const BLOCKS_TO_STAY_IN_INSTANT_LOCK_CACHE := 10

  datatype Block = Block(hash: Buffer, transactions: seq<Transaction>)

  /** What the Merkle block is built from. */
  datatype MerkleBlock = MerkleBlock(headerHash: Buffer, transactionHashes: seq<Buffer>, matchedFlags: seq<bool>)

  datatype InstantLock = InstantLock(txid: Buffer, signature: Buffer)

  datatype Cached<+T> = Cached(item: T, isRetrieved: bool)

  datatype Cache = Cache(
    transactions: seq<Cached<Transaction>>,
    merkleBlocks: seq<Cached<MerkleBlock>>,
    blocks: seq<Block>,
    registered: map<Buffer, nat>,   // the instant lock waiting list: hash to block count
    blocksProcessed: nat,
    locks: seq<InstantLock>         // collected, not yet handed out
  )

  const EMPTY := Cache([], [], [], map[], 0, [])

  // ------------------------------------------------------- functions on lists

  function Hashes(transactions: seq<Transaction>): (r: seq<Buffer>)
    ensures |r| == |transactions| && forall i :: 0 <= i < |r| ==> r[i] == transactions[i].hash
  {
    seq(|transactions|, i requires 0 <= i < |transactions| => transactions[i].hash)
  }

  function TransactionHash(tx: Transaction): Buffer {
    tx.hash
  }

  function HeaderHash(m: MerkleBlock): Buffer {
    m.headerHash
  }

  function CachedKeys<T>(key: T -> Buffer, s: seq<Cached<T>>): (r: seq<Buffer>)
    ensures |r| == |s| && forall i :: 0 <= i < |r| ==> r[i] == key(s[i].item)
  {
    seq(|s|, i requires 0 <= i < |s| => key(s[i].item))
  }

  function Flags(hashes: seq<Buffer>, cached: seq<Buffer>): (r: seq<bool>)
    ensures |r| == |hashes| && forall i :: 0 <= i < |r| ==> (r[i] <==> hashes[i] in cached)
  {
    seq(|hashes|, i requires 0 <= i < |hashes| => hashes[i] in cached)
  }

  /** The cached items whose keys are not among `keys`. */
  function Without<T>(key: T -> Buffer, s: seq<Cached<T>>, keys: seq<Buffer>): seq<Cached<T>> {
    if s == [] then []
    else
      var front, last := Without(key, s[..|s| - 1], keys), s[|s| - 1];
      if key(last.item) in keys then front else front + [last]
  }

  /** Without the last element that `p` holds of. */
  function WithoutLast<T>(s: seq<T>, p: T -> bool): seq<T> {
    if s == [] then []
    else if p(s[|s| - 1]) then s[..|s| - 1]
    else WithoutLast(s[..|s| - 1], p) + [s[|s| - 1]]
  }

  function IsBlock(hash: Buffer): Block -> bool {
    (b: Block) => b.hash == hash
  }

  function IsMerkleBlock(hash: Buffer): Cached<MerkleBlock> -> bool {
    (m: Cached<MerkleBlock>) => m.item.headerHash == hash
  }

  /** The items not handed out yet, and the list with all of them marked. */
  function Unretrieved<T>(s: seq<Cached<T>>): seq<T> {
    if s == [] then []
    else
      var front, last := Unretrieved(s[..|s| - 1]), s[|s| - 1];
      if last.isRetrieved then front else front + [last.item]
  }

  function Retrieved<T>(s: seq<Cached<T>>): (r: seq<Cached<T>>)
    ensures |r| == |s| && forall i :: 0 <= i < |s| ==> r[i] == Cached(s[i].item, true)
  {
    seq(|s|, i requires 0 <= i < |s| => Cached(s[i].item, true))
  }

  // ---------------------------------------------------------- the operations

  function WithTransaction(c: Cache, tx: Transaction): Cache {
    c.(transactions := if tx.hash in CachedKeys(TransactionHash, c.transactions) then c.transactions
                       else c.transactions + [Cached(tx, false)],
       registered := if tx.hash in c.registered then c.registered else c.registered[tx.hash := c.blocksProcessed])
  }

  /** Counting a block drops the hashes registered more than ten blocks ago. */
  function CountBlock(c: Cache): Cache {
    var count := c.blocksProcessed + 1;
    c.(blocksProcessed := count,
       registered := map h | h in c.registered && c.registered[h] >= count - BLOCKS_TO_STAY_IN_INSTANT_LOCK_CACHE
                       :: c.registered[h])
  }

  predicate HasMatch(c: Cache, b: Block) {
    exists i :: 0 <= i < |b.transactions| && b.transactions[i].hash in CachedKeys(TransactionHash, c.transactions)
  }

  function PushBlock(c: Cache, b: Block): Cache {
    var hashes := Hashes(b.transactions);
    var merkleBlock := MerkleBlock(b.hash, hashes, Flags(hashes, CachedKeys(TransactionHash, c.transactions)));
    c.(merkleBlocks := c.merkleBlocks + [Cached(merkleBlock, false)], blocks := c.blocks + [b])
  }

  function WithBlock(c: Cache, b: Block): Cache {
    var counted := CountBlock(c);
    if !HasMatch(c, b) then counted
    else
      var pushed := PushBlock(counted, b);
      if |pushed.blocks| <= CACHE_SIZE then pushed
      else WithoutBlock(pushed.(blocks := pushed.blocks[1..]), pushed.blocks[0])
  }

  function WithoutBlock(c: Cache, b: Block): Cache {
    c.(transactions := Without(TransactionHash, c.transactions, Hashes(b.transactions)),
       merkleBlocks := WithoutLast(c.merkleBlocks, IsMerkleBlock(b.hash)),
       blocks := WithoutLast(c.blocks, IsBlock(b.hash)))
  }

  function FindBlock(blocks: seq<Block>, hash: Buffer): (r: Option<Block>)
    ensures r.Some? <==> exists i :: 0 <= i < |blocks| && blocks[i].hash == hash
    ensures r.Some? ==> r.value in blocks && r.value.hash == hash
  {
    if blocks == [] then None
    else if blocks[0].hash == hash then Some(blocks[0])
    else
      assert forall i :: 0 <= i < |blocks[1..]| ==> blocks[1..][i] == blocks[i + 1];
      FindBlock(blocks[1..], hash)
  }

  function WithoutBlockHash(c: Cache, hash: Buffer): Cache {
    match FindBlock(c.blocks, hash)
    case None => c
    case Some(b) => WithoutBlock(c, b)
  }

  function WithoutHash(c: Cache, hash: Buffer): Cache {
    c.(registered := c.registered - {hash})
  }

  /** `Map.set`: a lock of the same transaction is replaced where it stands. */
  function SetLock(locks: seq<InstantLock>, lock: InstantLock): seq<InstantLock> {
    if locks == [] then [lock]
    else if locks[0].txid == lock.txid then [lock] + locks[1..]
    else [locks[0]] + SetLock(locks[1..], lock)
  }

  // ---------------------------------------------------------------- the class

  class TransactionHashesCache {
    var transactions: seq<Cached<Transaction>>
    var merkleBlocks: seq<Cached<MerkleBlock>>
    var blocks: seq<Block>
    var transactionHashesMap: map<Buffer, nat>
    var blocksProcessed: nat
    var unretrievedInstantLocks: seq<InstantLock>

    ghost function View(): Cache
      reads this
    {
      Cache(transactions, merkleBlocks, blocks, transactionHashesMap, blocksProcessed, unretrievedInstantLocks)
    }

    constructor ()
      ensures View() == EMPTY
    {
      transactions, merkleBlocks, blocks := [], [], [];
      transactionHashesMap, blocksProcessed, unretrievedInstantLocks := map[], 0, [];
    }

    /** False if a transaction of this hash is already cached. */
    method AddTransaction(transaction: Transaction) returns (added: bool)
      modifies this
      ensures View() == WithTransaction(old(View()), transaction)
      ensures added <==> transaction.hash !in CachedKeys(TransactionHash, old(transactions))
    {
      added := transaction.hash !in CachedKeys(TransactionHash, transactions);
      if added {
        transactions := transactions + [Cached(transaction, false)];
      }
      if transaction.hash !in transactionHashesMap {
        transactionHashesMap := transactionHashesMap[transaction.hash := blocksProcessed];
      }
    }

    method AddBlock(block: Block)
      modifies this
      ensures View() == WithBlock(old(View()), block)
    {
      blocksProcessed := blocksProcessed + 1;
      ExpireHashes(blocksProcessed - BLOCKS_TO_STAY_IN_INSTANT_LOCK_CACHE);
      assert View() == CountBlock(old(View()));

      var blockTransactionHashes := Hashes(block.transactions);
      var haveMatchingTransactions, matchedTransactionFlags :=
        MatchFlags(blockTransactionHashes, CachedKeys(TransactionHash, transactions));
      if !haveMatchingTransactions {
        return;
      }
      var merkleBlock := MerkleBlock(block.hash, blockTransactionHashes, matchedTransactionFlags);
      merkleBlocks := merkleBlocks + [Cached(merkleBlock, false)];
      blocks := blocks + [block];
      if |blocks| > CACHE_SIZE {
        var firstBlock := blocks[0];
        blocks := blocks[1..];
        RemoveDataByBlock(firstBlock);
      }
    }

    method MatchFlags(hashes: seq<Buffer>, cached: seq<Buffer>) returns (any: bool, flags: seq<bool>)
      ensures flags == Flags(hashes, cached)
      ensures any <==> exists i :: 0 <= i < |hashes| && hashes[i] in cached
    {
      any, flags := false, [];
      for i := 0 to |hashes|
        invariant |flags| == i && forall j :: 0 <= j < i ==> (flags[j] <==> hashes[j] in cached)
        invariant any <==> exists j :: 0 <= j < i && hashes[j] in cached
      {
        var isIncluded := hashes[i] in cached;
        any := any || isIncluded;
        flags := flags + [isIncluded];
      }
    }

    method ExpireHashes(removeAfterHeight: int)
      modifies this`transactionHashesMap
      ensures transactionHashesMap ==
        map h | h in old(transactionHashesMap) && old(transactionHashesMap)[h] >= removeAfterHeight
          :: old(transactionHashesMap)[h]
    {
      var rest := transactionHashesMap.Keys;
      while rest != {}
        invariant rest <= transactionHashesMap.Keys <= old(transactionHashesMap).Keys
        invariant forall h :: h in transactionHashesMap ==> transactionHashesMap[h] == old(transactionHashesMap)[h]
        invariant forall h :: h in old(transactionHashesMap) && h !in rest ==>
          (h in transactionHashesMap <==> old(transactionHashesMap)[h] >= removeAfterHeight)
        decreases |rest|
      {
        var hash :| hash in rest;
        if transactionHashesMap[hash] < removeAfterHeight {
          RemoveTransactionHashFromInstantSendLockWaitingList(hash);
        }
        rest := rest - {hash};
      }
    }

    method RemoveTransactionHashFromInstantSendLockWaitingList(hash: Buffer)
      modifies this`transactionHashesMap
      ensures transactionHashesMap == old(transactionHashesMap) - {hash}
    {
      if hash in transactionHashesMap {
        transactionHashesMap := transactionHashesMap - {hash};
      }
    }

    method RemoveDataByBlockHash(blockHash: Buffer)
      modifies this
      ensures View() == WithoutBlockHash(old(View()), blockHash)
    {
      var block := FindBlock(blocks, blockHash);
      if block.Some? {
        RemoveDataByBlock(block.value);
      }
    }

    /** All transactions of the block, the last Merkle block of its hash, and the
        last block of its hash. */
    method RemoveDataByBlock(block: Block)
      modifies this
      ensures View() == WithoutBlock(old(View()), block)
    {
      RemoveTransactions(Hashes(block.transactions));
      merkleBlocks := RemoveLast(merkleBlocks, IsMerkleBlock(block.hash));
      blocks := RemoveLast(blocks, IsBlock(block.hash));
    }

    method RemoveTransactions(blockTransactionHashes: seq<Buffer>)
      modifies this`transactions
      ensures transactions == Without(TransactionHash, old(transactions), blockTransactionHashes)
    {
      ghost var all, kept := transactions, [];
      var i := |transactions| - 1;
      while i >= 0
        invariant -1 <= i < |all|
        invariant transactions == all[..i + 1] + kept
        invariant kept == Without(TransactionHash, all[i + 1..], blockTransactionHashes)
      {
        WithoutCons(TransactionHash, all[i], all[i + 1..], blockTransactionHashes);
        assert all[i..] == [all[i]] + all[i + 1..];
        assert all[..i + 1] == all[..i] + [all[i]];
        if transactions[i].item.hash in blockTransactionHashes {
          transactions := transactions[..i] + transactions[i + 1..];
        } else {
          kept := [all[i]] + kept;
        }
        i := i - 1;
      }
      assert all[0..] == all;
    }

    method GetUnretrievedTransactions() returns (r: seq<Transaction>)
      modifies this
      ensures r == Unretrieved(old(transactions))
      ensures View() == old(View()).(transactions := Retrieved(old(transactions)))
    {
      r, transactions := TakeUnretrieved(transactions);
    }

    method GetUnretrievedMerkleBlocks() returns (r: seq<MerkleBlock>)
      modifies this
      ensures r == Unretrieved(old(merkleBlocks))
      ensures View() == old(View()).(merkleBlocks := Retrieved(old(merkleBlocks)))
    {
      r, merkleBlocks := TakeUnretrieved(merkleBlocks);
    }

    method AddInstantLock(lock: InstantLock)
      modifies this
      ensures View() == old(View()).(locks := SetLock(old(unretrievedInstantLocks), lock))
    {
      unretrievedInstantLocks := SetLock(unretrievedInstantLocks, lock);
    }

    method GetUnretrievedInstantLocks() returns (r: seq<InstantLock>)
      modifies this
      ensures r == old(unretrievedInstantLocks) && View() == old(View()).(locks := [])
    {
      r := unretrievedInstantLocks;
      unretrievedInstantLocks := [];
    }
  }

  /** Collects what is not handed out yet and marks it. */
  method TakeUnretrieved<T>(s: seq<Cached<T>>) returns (r: seq<T>, marked: seq<Cached<T>>)
    ensures r == Unretrieved(s) && marked == Retrieved(s)
  {
    r, marked := [], [];
    for i := 0 to |s|
      invariant r == Unretrieved(s[..i])
      invariant marked == Retrieved(s[..i])
    {
      assert s[..i + 1][..i] == s[..i];
      if !s[i].isRetrieved {
        r := r + [s[i].item];
      }
      marked := marked + [Cached(s[i].item, true)];
    }
    assert s[..|s|] == s;
  }

  /** Searches from the back and splices out the first hit. */
  method RemoveLast<T>(s: seq<T>, p: T -> bool) returns (r: seq<T>)
    ensures r == WithoutLast(s, p)
  {
    var i := |s| - 1;
    assert s[..|s|] == s;
    while i >= 0
      invariant -1 <= i < |s|
      invariant WithoutLast(s, p) == WithoutLast(s[..i + 1], p) + s[i + 1..]
    {
      assert s[..i + 1][..i] == s[..i];
      if p(s[i]) {
        return s[..i] + s[i + 1..];
      }
      assert s[i..] == [s[i]] + s[i + 1..];
      i := i - 1;
    }
    assert s[..0] == [] && s[0..] == s;
    return s;
  }

  lemma {:induction false} WithoutCons<T>(key: T -> Buffer, x: Cached<T>, s: seq<Cached<T>>, keys: seq<Buffer>)
    ensures Without(key, [x] + s, keys) == (if key(x.item) in keys then [] else [x]) + Without(key, s, keys)
    decreases |s|
  {
    if s == [] {
      assert [x] + s == [x];
      assert [x][..0] == [];
    } else {
      assert ([x] + s)[..|s|] == [x] + s[..|s| - 1];
      WithoutCons(key, x, s[..|s| - 1], keys);
    }
  }
}
