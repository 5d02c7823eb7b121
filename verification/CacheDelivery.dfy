/** When the cache hands things out, and how long a hash waits for its lock. */
module CacheDelivery {
  import opened Buffers
  import opened TransactionFilter
  import opened TransactionCache
  import opened CacheRuns

  // --------------------------------------------------------- instant lock window

  function BlockCount(events: seq<Event>): nat {
    if events == [] then 0
    else BlockCount(events[..|events| - 1]) + if events[|events| - 1].NewBlock? then 1 else 0
  }

  /** Every waiting hash was registered within the last ten blocks. */
  ghost predicate InWindow(c: Cache) {
    forall h :: h in c.registered ==>
      c.registered[h] <= c.blocksProcessed <= c.registered[h] + BLOCKS_TO_STAY_IN_INSTANT_LOCK_CACHE
  }

  /** The waiting list and the block count depend on nothing else. */
  function Waiting(c: Cache, event: Event): (map<Buffer, nat>, nat) {
    match event
    case Add(tx) =>
      (if tx.hash in c.registered then c.registered else c.registered[tx.hash := c.blocksProcessed], c.blocksProcessed)
    case NewBlock(b) => (CountBlock(c).registered, c.blocksProcessed + 1)
    case Unregister(hash) => (c.registered - {hash}, c.blocksProcessed)
    case _ => (c.registered, c.blocksProcessed)
  }

  lemma StepWaiting(c: Cache, event: Event)
    ensures (Step(c, event).registered, Step(c, event).blocksProcessed) == Waiting(c, event)
  {
  }

  lemma {:induction false} RunInWindow(c: Cache, events: seq<Event>)
    requires InWindow(c)
    ensures InWindow(Run(c, events))
    ensures Run(c, events).blocksProcessed == c.blocksProcessed + BlockCount(events)
    decreases |events|
  {
    if events != [] {
      RunInWindow(c, events[..|events| - 1]);
      StepWaiting(Run(c, events[..|events| - 1]), events[|events| - 1]);
    }
  }

  ghost predicate IsAdded(events: seq<Event>, h: Buffer) {
    exists e :: e in events && e.Add? && e.transaction.hash == h
  }

  /** A registered hash that no lock removes keeps its place exactly as long as it
      is at most ten blocks old, however often its transaction arrives again;
      an arrival after that registers it anew. */
  lemma {:induction false} WaitsTenBlocks(c: Cache, events: seq<Event>, h: Buffer)
    requires InWindow(c) && h in c.registered
    requires Unregister(h) !in events
    ensures var d := Run(c, events);
      && (h in d.registered && d.registered[h] == c.registered[h] <==>
          c.blocksProcessed + BlockCount(events) <= c.registered[h] + 10)
      && (h in d.registered && d.registered[h] != c.registered[h] ==>
            d.registered[h] > c.registered[h] + 10 && IsAdded(events, h))
    decreases |events|
  {
    if events != [] {
      var front, last := events[..|events| - 1], events[|events| - 1];
      assert events == front + [last];
      WaitsTenBlocks(c, front, h);
      RunInWindow(c, front);
      StepWaiting(Run(c, front), last);
    }
  }

  /** A transaction just added waits through exactly the next ten blocks; after
      them it waits only if it was added again. */
  lemma JustAddedWaitsTenBlocks(c: Cache, tx: Transaction, events: seq<Event>)
    requires InWindow(c) && tx.hash !in c.registered
    requires Unregister(tx.hash) !in events
    ensures var d := Run(WithTransaction(c, tx), events);
      && (tx.hash in d.registered && d.registered[tx.hash] == c.blocksProcessed <==>
          BlockCount(events) <= 10)
      && (!IsAdded(events, tx.hash) ==>
            (tx.hash in d.registered <==> BlockCount(events) <= 10))
  {
    WaitsTenBlocks(WithTransaction(c, tx), events, tx.hash);
  }

  // ------------------------------------------------------------ handing out

  function TransactionsTaken(c: Cache, event: Event): seq<Transaction> {
    if event.TakeTransactions? then Unretrieved(c.transactions) else []
  }

  function MerkleBlocksTaken(c: Cache, event: Event): seq<MerkleBlock> {
    if event.TakeMerkleBlocks? then Unretrieved(c.merkleBlocks) else []
  }

  /** How often a run hands out the transaction of hash `k`. */
  ghost function TransactionDeliveries(c: Cache, events: seq<Event>, k: Buffer): nat {
    if events == [] then 0
    else
      var front := events[..|events| - 1];
      TransactionDeliveries(c, front, k)
      + KeysOf(TransactionHash, TransactionsTaken(Run(c, front), events[|events| - 1]))[k]
  }

  ghost function MerkleBlockDeliveries(c: Cache, events: seq<Event>, k: Buffer): nat {
    if events == [] then 0
    else
      var front := events[..|events| - 1];
      MerkleBlockDeliveries(c, front, k)
      + KeysOf(HeaderHash, MerkleBlocksTaken(Run(c, front), events[|events| - 1]))[k]
  }

  /** The transaction is cached from the start of the run to its end. */
  ghost predicate TransactionStays(c: Cache, events: seq<Event>, k: Buffer)
    decreases |events|
  {
    && k in CachedKeys(TransactionHash, Run(c, events).transactions)
    && (events == [] || TransactionStays(c, events[..|events| - 1], k))
  }

  ghost predicate MerkleBlockStays(c: Cache, events: seq<Event>, k: Buffer)
    decreases |events|
  {
    && k in CachedKeys(HeaderHash, Run(c, events).merkleBlocks)
    && (events == [] || MerkleBlockStays(c, events[..|events| - 1], k))
  }

  lemma KeyStaysOutside<T>(key: T -> Buffer, s: seq<Cached<T>>, keys: seq<Buffer>, k: Buffer)
    requires k in CachedKeys(key, Without(key, s, keys))
    ensures k !in keys && Pending(key, Without(key, s, keys))[k] == Pending(key, s)[k]
  {
    var r := Without(key, s, keys);
    var i :| 0 <= i < |r| && CachedKeys(key, r)[i] == k;
    assert r[i] in r;
    WithoutMembers(key, s, keys);
    PendingWithout(key, s, keys, k);
  }

  lemma PendingAppend<T>(key: T -> Buffer, s: seq<Cached<T>>, x: T, k: Buffer)
    ensures Pending(key, s + [Cached(x, false)])[k] == Pending(key, s)[k] + if key(x) == k then 1 else 0
  {
    assert (s + [Cached(x, false)])[..|s|] == s;
  }

  lemma NewBlockKeepsPending(c: Cache, b: Block, k: Buffer)
    requires k in CachedKeys(TransactionHash, WithBlock(c, b).transactions)
    ensures Pending(TransactionHash, WithBlock(c, b).transactions)[k] == Pending(TransactionHash, c.transactions)[k]
  {
    if Evicts(c, b) {
      KeyStaysOutside(TransactionHash, c.transactions, Hashes((c.blocks + [b])[0].transactions), k);
    }
  }

  /** While a transaction stays cached, one step turns what is pending into what
      is handed out, and makes nothing pending again. */
  lemma StepDeliversTransaction(c: Cache, event: Event, k: Buffer)
    requires k in CachedKeys(TransactionHash, c.transactions)
    requires k in CachedKeys(TransactionHash, Step(c, event).transactions)
    ensures Pending(TransactionHash, Step(c, event).transactions)[k]
      + KeysOf(TransactionHash, TransactionsTaken(c, event))[k] == Pending(TransactionHash, c.transactions)[k]
    ensures event.TakeTransactions? ==> Pending(TransactionHash, Step(c, event).transactions)[k] == 0
  {
    match event
    case Add(tx) => PendingAppend(TransactionHash, c.transactions, tx, k);
    case NewBlock(b) => NewBlockKeepsPending(c, b, k);
    case Sent(hash) =>
      var b := FindBlock(c.blocks, hash);
      if b.Some? { KeyStaysOutside(TransactionHash, c.transactions, Hashes(b.value.transactions), k); }
    case TakeTransactions => RetrievingClears(TransactionHash, c.transactions);
    case _ =>
  }

  /** During one stay in the cache a transaction is handed out at most once, and
      it is by the next retrieval: deliveries plus what is still pending are what
      was pending at the start, which is at most one. */
  lemma {:induction false} TransactionDeliveredOnce(c: Cache, events: seq<Event>, k: Buffer)
    requires DistinctKeys(TransactionHash, c.transactions)
    requires TransactionStays(c, events, k)
    ensures TransactionDeliveries(c, events, k) + Pending(TransactionHash, Run(c, events).transactions)[k]
      == Pending(TransactionHash, c.transactions)[k] <= 1
    ensures TakeTransactions in events ==> Pending(TransactionHash, Run(c, events).transactions)[k] == 0
    decreases |events|
  {
    PendingBounded(TransactionHash, c.transactions, k);
    if events != [] {
      var front, last := events[..|events| - 1], events[|events| - 1];
      assert events == front + [last];
      TransactionDeliveredOnce(c, front, k);
      assert k in CachedKeys(TransactionHash, Run(c, front).transactions);
      StepDeliversTransaction(Run(c, front), last, k);
    }
  }

  // ------------------------------------------------------ and Merkle blocks

  /** How many of the cached items have the key `k`. */
  ghost function Occurrences<T>(key: T -> Buffer, s: seq<Cached<T>>, k: Buffer): nat {
    if s == [] then 0
    else Occurrences(key, s[..|s| - 1], k) + if key(s[|s| - 1].item) == k then 1 else 0
  }

  lemma {:induction false} PendingOccurs<T>(key: T -> Buffer, s: seq<Cached<T>>, k: Buffer)
    ensures Pending(key, s)[k] <= Occurrences(key, s, k)
    ensures k in CachedKeys(key, s) <==> Occurrences(key, s, k) > 0
  {
    if s != [] {
      PendingOccurs(key, s[..|s| - 1], k);
      assert CachedKeys(key, s) == CachedKeys(key, s[..|s| - 1]) + [key(s[|s| - 1].item)];
    }
  }

  lemma {:induction false} SameKeysOccur<T>(key: T -> Buffer, s: seq<Cached<T>>, r: seq<Cached<T>>, k: Buffer)
    requires |s| == |r| && forall i :: 0 <= i < |s| ==> r[i].item == s[i].item
    ensures Occurrences(key, r, k) == Occurrences(key, s, k)
  {
    if s != [] {
      SameKeysOccur(key, s[..|s| - 1], r[..|s| - 1], k);
    }
  }

  /** Removing the last Merkle block of one hash touches no other hash. */
  lemma {:induction false} WithoutLastOccurs(ms: seq<Cached<MerkleBlock>>, h: Buffer, k: Buffer)
    ensures var r := WithoutLast(ms, IsMerkleBlock(h));
      && (h != k ==> Occurrences(HeaderHash, r, k) == Occurrences(HeaderHash, ms, k)
                     && Pending(HeaderHash, r)[k] == Pending(HeaderHash, ms)[k])
      && (h == k && Occurrences(HeaderHash, ms, k) > 0 ==>
            Occurrences(HeaderHash, r, k) == Occurrences(HeaderHash, ms, k) - 1)
      && (h == k && Occurrences(HeaderHash, ms, k) == 0 ==> r == ms)
  {
    if ms != [] {
      var front, last := ms[..|ms| - 1], ms[|ms| - 1];
      WithoutLastOccurs(front, h, k);
      var r := WithoutLast(front, IsMerkleBlock(h));
      assert (r + [last])[..|r|] == r;
    }
  }

  /** A Merkle block that is still cached after a removal was not the one removed. */
  lemma RemovalSpares(ms: seq<Cached<MerkleBlock>>, h: Buffer, k: Buffer)
    requires Occurrences(HeaderHash, ms, k) <= 1
    ensures Occurrences(HeaderHash, WithoutLast(ms, IsMerkleBlock(h)), k) <= 1
    ensures k in CachedKeys(HeaderHash, WithoutLast(ms, IsMerkleBlock(h))) ==>
      Pending(HeaderHash, WithoutLast(ms, IsMerkleBlock(h)))[k] == Pending(HeaderHash, ms)[k]
  {
    WithoutLastOccurs(ms, h, k);
    PendingOccurs(HeaderHash, WithoutLast(ms, IsMerkleBlock(h)), k);
  }

  lemma PushOccurs(ms: seq<Cached<MerkleBlock>>, m: Cached<MerkleBlock>, k: Buffer)
    requires m.item.headerHash != k
    ensures Occurrences(HeaderHash, ms + [m], k) == Occurrences(HeaderHash, ms, k)
    ensures Pending(HeaderHash, ms + [m])[k] == Pending(HeaderHash, ms)[k]
  {
    assert (ms + [m])[..|ms|] == ms;
  }

  predicate IsBlockOf(event: Event, k: Buffer) {
    event.NewBlock? && event.block.hash == k
  }

  /** No block of hash `k` arrives. */
  ghost predicate NoBlockOf(events: seq<Event>, k: Buffer) {
    forall e :: e in events ==> !IsBlockOf(e, k)
  }

  lemma NewBlockDelivers(c: Cache, b: Block, k: Buffer)
    requires Occurrences(HeaderHash, c.merkleBlocks, k) <= 1 && b.hash != k
    ensures var ms := WithBlock(c, b).merkleBlocks;
      && Occurrences(HeaderHash, ms, k) <= 1
      && (k in CachedKeys(HeaderHash, ms) ==> Pending(HeaderHash, ms)[k] == Pending(HeaderHash, c.merkleBlocks)[k])
  {
    if HasMatch(c, b) {
      var d := PushBlock(CountBlock(c), b);
      var n := |c.merkleBlocks|;
      assert d.merkleBlocks == c.merkleBlocks + [d.merkleBlocks[n]];
      PushOccurs(c.merkleBlocks, d.merkleBlocks[n], k);
      if |d.blocks| > CACHE_SIZE {
        RemovalSpares(d.merkleBlocks, d.blocks[0].hash, k);
      }
    }
  }

  lemma StepDeliversMerkleBlock(c: Cache, event: Event, k: Buffer)
    requires Occurrences(HeaderHash, c.merkleBlocks, k) <= 1 && !IsBlockOf(event, k)
    requires k in CachedKeys(HeaderHash, Step(c, event).merkleBlocks)
    ensures Occurrences(HeaderHash, Step(c, event).merkleBlocks, k) <= 1
    ensures Pending(HeaderHash, Step(c, event).merkleBlocks)[k]
      + KeysOf(HeaderHash, MerkleBlocksTaken(c, event))[k] == Pending(HeaderHash, c.merkleBlocks)[k]
    ensures event.TakeMerkleBlocks? ==> Pending(HeaderHash, Step(c, event).merkleBlocks)[k] == 0
  {
    match event
    case NewBlock(b) => NewBlockDelivers(c, b, k);
    case Sent(hash) =>
      var b := FindBlock(c.blocks, hash);
      if b.Some? { RemovalSpares(c.merkleBlocks, b.value.hash, k); }
    case TakeMerkleBlocks =>
      RetrievingClears(HeaderHash, c.merkleBlocks);
      SameKeysOccur(HeaderHash, c.merkleBlocks, Retrieved(c.merkleBlocks), k);
    case _ =>
  }

  /** During one stay in the cache a Merkle block is handed out at most once, and
      it is by the next retrieval: all it takes is that no second block of its
      hash arrives. */
  lemma {:induction false} MerkleBlockDeliveredOnce(c: Cache, events: seq<Event>, k: Buffer)
    requires Occurrences(HeaderHash, c.merkleBlocks, k) <= 1 && NoBlockOf(events, k)
    requires MerkleBlockStays(c, events, k)
    ensures MerkleBlockDeliveries(c, events, k) + Pending(HeaderHash, Run(c, events).merkleBlocks)[k]
      == Pending(HeaderHash, c.merkleBlocks)[k] <= 1
    ensures TakeMerkleBlocks in events ==> Pending(HeaderHash, Run(c, events).merkleBlocks)[k] == 0
    ensures Occurrences(HeaderHash, Run(c, events).merkleBlocks, k) <= 1
    decreases |events|
  {
    if events == [] {
      PendingOccurs(HeaderHash, c.merkleBlocks, k);
    } else {
      var front, last := events[..|events| - 1], events[|events| - 1];
      LastOrBefore(events, TakeMerkleBlocks);
      assert last in events && forall e :: e in front ==> e in events;
      MerkleBlockDeliveredOnce(c, front, k);
      StepDeliversMerkleBlock(Run(c, front), last, k);
    }
  }

  lemma LastOrBefore(events: seq<Event>, event: Event)
    requires events != []
    ensures event in events ==> event in events[..|events| - 1] || event == events[|events| - 1]
  {
    assert events == events[..|events| - 1] + [events[|events| - 1]];
  }

  /** The Merkle block of a block that has a cached transaction is the last one,
      not handed out, and flags exactly the block's cached transactions; unless a
      block of the same hash is evicted for it. */
  lemma AddedMerkleBlock(c: Cache, b: Block)
    requires HasMatch(c, b) && !(Evicts(c, b) && c.blocks[0].hash == b.hash)
    ensures var ms := WithBlock(c, b).merkleBlocks;
      && ms != [] && !ms[|ms| - 1].isRetrieved
      && ms[|ms| - 1].item.headerHash == b.hash
      && ms[|ms| - 1].item.transactionHashes == Hashes(b.transactions)
      && |ms[|ms| - 1].item.matchedFlags| == |b.transactions|
      && forall i :: 0 <= i < |b.transactions| ==>
           (ms[|ms| - 1].item.matchedFlags[i] <==>
              b.transactions[i].hash in CachedKeys(TransactionHash, c.transactions))
  {
    var d := PushBlock(CountBlock(c), b);
    var n := |c.merkleBlocks|;
    assert d.merkleBlocks[..n] == c.merkleBlocks && d.blocks[..|c.blocks|] == c.blocks;
    assert d.merkleBlocks[n].item.headerHash == b.hash;
  }
}
