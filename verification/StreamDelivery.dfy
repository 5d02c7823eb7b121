/** How often one client is sent the same transaction, Merkle block or instant
    lock over a run of its stream. */
module StreamDelivery {
  import opened Buffers
  import opened TransactionFilter
  import opened TransactionCache
  import opened CacheRuns
  import opened CacheDelivery
  import opened TransactionStream

  // ------------------------------------------------------------------ counting

  ghost function Count(emitted: seq<Emission>, p: Emission -> bool): nat {
    if emitted == [] then 0
    else Count(emitted[..|emitted| - 1], p) + if p(emitted[|emitted| - 1]) then 1 else 0
  }

  function IsTransaction(k: Buffer): Emission -> bool {
    (e: Emission) => e.SentTransaction? && e.transaction.hash == k
  }

  function IsMerkleBlockOf(k: Buffer): Emission -> bool {
    (e: Emission) => e.SentMerkleBlock? && e.merkleBlock.headerHash == k
  }

  function IsLockOf(h: Buffer): Emission -> bool {
    (e: Emission) => e.SentLock? && e.lock.txid == h
  }

  lemma {:induction false} CountAppend(a: seq<Emission>, b: seq<Emission>, p: Emission -> bool)
    ensures Count(a + b, p) == Count(a, p) + Count(b, p)
    decreases |b|
  {
    if b == [] {
      assert a + b == a;
    } else {
      CountAppend(a, b[..|b| - 1], p);
      assert (a + b)[..|a + b| - 1] == a + b[..|b| - 1];
    }
  }

  lemma {:induction false} CountNone(emitted: seq<Emission>, p: Emission -> bool)
    requires forall i :: 0 <= i < |emitted| ==> !p(emitted[i])
    ensures Count(emitted, p) == 0
  {
    if emitted != [] {
      CountNone(emitted[..|emitted| - 1], p);
    }
  }

  lemma CountOne(e: Emission, p: Emission -> bool)
    ensures Count([e], p) == if p(e) then 1 else 0
  {
    assert [e][..0] == [];
  }

  lemma {:induction false} TransactionsSentCount(txs: seq<Transaction>, k: Buffer)
    ensures Count(TransactionsSent(txs), IsTransaction(k)) == KeysOf(TransactionHash, txs)[k]
  {
    if txs != [] {
      TransactionsSentCount(txs[..|txs| - 1], k);
      assert TransactionsSent(txs)[..|txs| - 1] == TransactionsSent(txs[..|txs| - 1]);
    }
  }

  lemma {:induction false} MerkleBlocksSentCount(ms: seq<MerkleBlock>, k: Buffer)
    ensures Count(MerkleBlocksSent(ms), IsMerkleBlockOf(k)) == KeysOf(HeaderHash, ms)[k]
  {
    if ms != [] {
      MerkleBlocksSentCount(ms[..|ms| - 1], k);
      assert MerkleBlocksSent(ms)[..|ms| - 1] == MerkleBlocksSent(ms[..|ms| - 1]);
    }
  }

  lemma SendableCount(c: Cache, p: Emission -> bool)
    ensures Count(Sendable(c), p) == Count(TransactionsSent(Unretrieved(c.transactions)), p)
      + Count(LocksSent(c.registered, c.locks), p) + Count(MerkleBlocksSent(Unretrieved(c.merkleBlocks)), p)
  {
    var txs, locks := TransactionsSent(Unretrieved(c.transactions)), LocksSent(c.registered, c.locks);
    CountAppend(txs, locks, p);
    CountAppend(txs + locks, MerkleBlocksSent(Unretrieved(c.merkleBlocks)), p);
  }

  lemma LocksAreLocks(registered: map<Buffer, nat>, locks: seq<InstantLock>)
    ensures forall i :: 0 <= i < |LocksSent(registered, locks)| ==> LocksSent(registered, locks)[i].SentLock?
  {
    var r := LocksSent(registered, locks);
    forall i | 0 <= i < |r| ensures r[i].SentLock? {
      assert r[i] in r;
    }
  }

  /** A turn of the loop sends what was pending and leaves nothing pending. */
  lemma TurnSendsTransactions(c: Cache, k: Buffer)
    ensures Count(Sendable(c), IsTransaction(k)) == Pending(TransactionHash, c.transactions)[k]
    ensures Pending(TransactionHash, Taken(c).transactions)[k] == 0
  {
    SendableCount(c, IsTransaction(k));
    TransactionsSentCount(Unretrieved(c.transactions), k);
    LocksAreLocks(c.registered, c.locks);
    CountNone(LocksSent(c.registered, c.locks), IsTransaction(k));
    CountNone(MerkleBlocksSent(Unretrieved(c.merkleBlocks)), IsTransaction(k));
    RetrievingClears(TransactionHash, c.transactions);
  }

  lemma TurnSendsMerkleBlocks(c: Cache, k: Buffer)
    ensures Count(Sendable(c), IsMerkleBlockOf(k)) == Pending(HeaderHash, c.merkleBlocks)[k]
    ensures Pending(HeaderHash, Taken(c).merkleBlocks)[k] == 0
  {
    SendableCount(c, IsMerkleBlockOf(k));
    MerkleBlocksSentCount(Unretrieved(c.merkleBlocks), k);
    LocksAreLocks(c.registered, c.locks);
    CountNone(LocksSent(c.registered, c.locks), IsMerkleBlockOf(k));
    CountNone(TransactionsSent(Unretrieved(c.transactions)), IsMerkleBlockOf(k));
    RetrievingClears(HeaderHash, c.merkleBlocks);
  }

  ghost predicate HasTurn(s: Stream, events: seq<StreamEvent>)
    decreases |events|
  {
    events != [] &&
    var front := events[..|events| - 1];
    HasTurn(s, front) || IsTurn(RunStream(s, front), events[|events| - 1])
  }

  /** One event counts what it adds. */
  lemma CountReact(s: Stream, event: StreamEvent, p: Emission -> bool)
    ensures Count(React(s, event).emitted, p) == Count(s.emitted, p) + Count(Added(s, event), p)
  {
    EmitsAdded(s, event);
    CountAppend(s.emitted, Added(s, event), p);
  }

  lemma {:induction false} CountGrows(s: Stream, events: seq<StreamEvent>, p: Emission -> bool)
    ensures Count(RunStream(s, events).emitted, p) >= Count(s.emitted, p)
    decreases |events|
  {
    if events != [] {
      CountGrows(s, events[..|events| - 1], p);
      CountReact(RunStream(s, events[..|events| - 1]), events[|events| - 1], p);
    }
  }

  /** An arriving lock adds no transaction and no Merkle block. */
  lemma LockAdds(s: Stream, lock: InstantLock, tx: Transaction, p: Emission -> bool)
    requires !p(SentLock(lock))
    ensures Count(Added(s, LockArrives(lock, tx)), p) == 0
  {
    CountNone(Added(s, LockArrives(lock, tx)), p);
  }

  // -------------------------------------------------------------- transactions

  ghost predicate IsCachedIn(s: Stream, k: Buffer) {
    k in CachedKeys(TransactionHash, s.cache.transactions)
  }

  lemma {:induction false} TestEachPending(s: Stream, txs: seq<Transaction>, k: Buffer)
    requires IsCachedIn(s, k)
    ensures IsCachedIn(TestEach(s, txs), k)
    ensures Pending(TransactionHash, TestEach(s, txs).cache.transactions)[k]
      == Pending(TransactionHash, s.cache.transactions)[k]
    decreases |txs|
  {
    if txs != [] {
      TestEachPending(s, txs[..|txs| - 1], k);
      TestPending(TestEach(s, txs[..|txs| - 1]), txs[|txs| - 1], k);
    }
  }

  lemma TestPending(s: Stream, tx: Transaction, k: Buffer)
    requires IsCachedIn(s, k)
    ensures IsCachedIn(Test(s, tx), k)
    ensures Pending(TransactionHash, Test(s, tx).cache.transactions)[k]
      == Pending(TransactionHash, s.cache.transactions)[k]
  {
    var keys, after := CachedKeys(TransactionHash, s.cache.transactions), Test(s, tx).cache.transactions;
    var i :| 0 <= i < |keys| && keys[i] == k;
    assert CachedKeys(TransactionHash, after)[i] == k;
    PendingAppend(TransactionHash, s.cache.transactions, tx, k);
  }

  lemma BlockPending(s: Stream, b: Block, k: Buffer)
    requires s.phase != Disconnected && IsCachedIn(s, k) && IsCachedIn(React(s, BlockArrives(b)), k)
    ensures Pending(TransactionHash, React(s, BlockArrives(b)).cache.transactions)[k]
      == Pending(TransactionHash, s.cache.transactions)[k]
  {
    var t := TestMissed(s, b);
    TestEachPending(s, b.transactions, k);
    StepDeliversTransaction(t.cache, NewBlock(b), k);
  }

  lemma HistoricalPending(s: Stream, hash: Buffer, hashes: seq<Buffer>, k: Buffer)
    requires s.phase != Disconnected && IsCachedIn(s, k)
    requires IsCachedIn(React(s, HistoricalBlockSent(hash, hashes)), k)
    ensures Pending(TransactionHash, React(s, HistoricalBlockSent(hash, hashes)).cache.transactions)[k]
      == Pending(TransactionHash, s.cache.transactions)[k]
  {
    StepDeliversTransaction(s.cache, Sent(hash), k);
  }

  lemma QuietPending(s: Stream, event: StreamEvent, k: Buffer)
    requires IsCachedIn(s, k) && IsCachedIn(React(s, event), k)
    requires !IsTurn(s, event) && !event.LockArrives?
    ensures Added(s, event) == []
    ensures Pending(TransactionHash, React(s, event).cache.transactions)[k]
      == Pending(TransactionHash, s.cache.transactions)[k]
  {
    if s.phase != Disconnected {
      match event
      case TransactionArrives(tx) => TestPending(s, tx, k);
      case BlockArrives(b) => BlockPending(s, b, k);
      case HistoricalBlockSent(hash, hashes) => HistoricalPending(s, hash, hashes, k);
      case _ =>
    }
  }

  /** While a transaction stays cached an event turns what is pending into what
      is sent, and a turn of the loop leaves nothing pending. */
  lemma ReactDelivers(s: Stream, event: StreamEvent, k: Buffer)
    requires IsCachedIn(s, k) && IsCachedIn(React(s, event), k)
    ensures Pending(TransactionHash, React(s, event).cache.transactions)[k] + Count(Added(s, event), IsTransaction(k))
      == Pending(TransactionHash, s.cache.transactions)[k]
    ensures IsTurn(s, event) ==> Pending(TransactionHash, React(s, event).cache.transactions)[k] == 0
  {
    if IsTurn(s, event) {
      TurnIsSend(s, event);
      TurnSendsTransactions(s.cache, k);
    } else if event.LockArrives? {
      LockAdds(s, event.lock, event.transaction, IsTransaction(k));
    } else {
      QuietPending(s, event, k);
    }
  }

  ghost predicate StaysCached(s: Stream, events: seq<StreamEvent>, k: Buffer)
    decreases |events|
  {
    IsCachedIn(RunStream(s, events), k) && (events == [] || StaysCached(s, events[..|events| - 1], k))
  }

  lemma {:induction false} PendingIsSent(s: Stream, events: seq<StreamEvent>, k: Buffer)
    requires StaysCached(s, events, k)
    ensures Count(RunStream(s, events).emitted, IsTransaction(k))
        + Pending(TransactionHash, RunStream(s, events).cache.transactions)[k]
      == Count(s.emitted, IsTransaction(k)) + Pending(TransactionHash, s.cache.transactions)[k]
    ensures HasTurn(s, events) ==> Pending(TransactionHash, RunStream(s, events).cache.transactions)[k] == 0
    decreases |events|
  {
    if events != [] {
      var front, last := events[..|events| - 1], events[|events| - 1];
      var t := RunStream(s, front);
      PendingIsSent(s, front, k);
      assert StaysCached(s, front, k) && IsCachedIn(t, k);
      ReactDelivers(t, last, k);
      CountReact(t, last, IsTransaction(k));
    }
  }

  ghost predicate Bounded(c: Cache) {
    DistinctKeys(TransactionHash, c.transactions) && |c.blocks| <= CACHE_SIZE
  }

  lemma {:induction false} TestEachBounded(s: Stream, txs: seq<Transaction>)
    requires Bounded(s.cache)
    ensures Bounded(TestEach(s, txs).cache)
    decreases |txs|
  {
    if txs != [] {
      TestEachBounded(s, txs[..|txs| - 1]);
      AddDistinct(TestEach(s, txs[..|txs| - 1]).cache, txs[|txs| - 1]);
    }
  }

  lemma ReactBounded(s: Stream, event: StreamEvent)
    requires Bounded(s.cache)
    ensures Bounded(React(s, event).cache)
  {
    match event
    case TransactionArrives(tx) => AddDistinct(s.cache, tx);
    case BlockArrives(b) =>
      TestEachBounded(s, b.transactions);
      StepBounded(TestMissed(s, b).cache, NewBlock(b));
    case HistoricalBlockSent(hash, _) => StepBounded(s.cache, Sent(hash));
    case _ =>
  }

  /** In every reachable state cached transactions are pairwise distinct and at
      most ten blocks are cached. */
  lemma {:induction false} StreamIsBounded(filter: Filter, events: seq<StreamEvent>)
    ensures Bounded(RunStream(Start(filter), events).cache)
    ensures |RunStream(Start(filter), events).cache.blocks| <= 10
    decreases |events|
  {
    if events != [] {
      StreamIsBounded(filter, events[..|events| - 1]);
      ReactBounded(RunStream(Start(filter), events[..|events| - 1]), events[|events| - 1]);
    }
  }

  /** From any reachable state on, a transaction is sent at most once during one
      stay in the cache; a turn of the loop sends it if it was not sent before. */
  lemma SentOncePerStay(filter: Filter, before: seq<StreamEvent>, stay: seq<StreamEvent>, k: Buffer)
    requires StaysCached(RunStream(Start(filter), before), stay, k)
    ensures var s := RunStream(Start(filter), before);
      var t, pending := RunStream(s, stay), Pending(TransactionHash, s.cache.transactions)[k];
      && Count(s.emitted, IsTransaction(k)) <= Count(t.emitted, IsTransaction(k))
        <= Count(s.emitted, IsTransaction(k)) + pending
      && pending <= 1
      && (HasTurn(s, stay) ==> Count(t.emitted, IsTransaction(k)) == Count(s.emitted, IsTransaction(k)) + pending)
  {
    var s := RunStream(Start(filter), before);
    StreamIsBounded(filter, before);
    PendingBounded(TransactionHash, s.cache.transactions, k);
    PendingIsSent(s, stay, k);
    CountGrows(s, stay, IsTransaction(k));
  }

  // -------------------------------------------------------------- Merkle blocks

  predicate IsArrivalOf(event: StreamEvent, k: Buffer) {
    event.BlockArrives? && event.block.hash == k
  }

  /** How often a block of hash `k` arrives. */
  ghost function Arrivals(events: seq<StreamEvent>, k: Buffer): nat {
    if events == [] then 0
    else Arrivals(events[..|events| - 1], k) + if IsArrivalOf(events[|events| - 1], k) then 1 else 0
  }

  lemma {:induction false} TestEachKeepsBlocks(s: Stream, txs: seq<Transaction>)
    ensures TestEach(s, txs).cache.merkleBlocks == s.cache.merkleBlocks
    ensures TestEach(s, txs).cache.blocks == s.cache.blocks
    decreases |txs|
  {
    if txs != [] {
      TestEachKeepsBlocks(s, txs[..|txs| - 1]);
    }
  }

  lemma {:induction false} WithoutLastShrinks(ms: seq<Cached<MerkleBlock>>, h: Buffer, k: Buffer)
    ensures Pending(HeaderHash, WithoutLast(ms, IsMerkleBlock(h)))[k] <= Pending(HeaderHash, ms)[k]
  {
    if ms != [] {
      var front, last := ms[..|ms| - 1], ms[|ms| - 1];
      var r := WithoutLast(front, IsMerkleBlock(h));
      WithoutLastShrinks(front, h, k);
      assert (r + [last])[..|r|] == r;
    }
  }

  lemma WithBlockPending(c: Cache, b: Block, k: Buffer)
    ensures Pending(HeaderHash, WithBlock(c, b).merkleBlocks)[k]
      <= Pending(HeaderHash, c.merkleBlocks)[k] + if b.hash == k then 1 else 0
  {
    if HasMatch(c, b) {
      var d := PushBlock(CountBlock(c), b);
      PendingAppend(HeaderHash, c.merkleBlocks, d.merkleBlocks[|c.merkleBlocks|].item, k);
      WithoutLastShrinks(d.merkleBlocks, d.blocks[0].hash, k);
    }
  }

  /** What is pending or sent grows by an arriving block only. */
  lemma ReactPends(s: Stream, event: StreamEvent, k: Buffer)
    ensures Pending(HeaderHash, React(s, event).cache.merkleBlocks)[k] + Count(Added(s, event), IsMerkleBlockOf(k))
      <= Pending(HeaderHash, s.cache.merkleBlocks)[k] + if IsArrivalOf(event, k) then 1 else 0
  {
    if IsTurn(s, event) {
      TurnIsSend(s, event);
      TurnSendsMerkleBlocks(s.cache, k);
    } else if event.LockArrives? {
      LockAdds(s, event.lock, event.transaction, IsMerkleBlockOf(k));
    } else {
      QuietPends(s, event, k);
    }
  }

  lemma QuietPends(s: Stream, event: StreamEvent, k: Buffer)
    requires !IsTurn(s, event) && !event.LockArrives?
    ensures Added(s, event) == []
    ensures Pending(HeaderHash, React(s, event).cache.merkleBlocks)[k]
      <= Pending(HeaderHash, s.cache.merkleBlocks)[k] + if IsArrivalOf(event, k) then 1 else 0
  {
    match event
    case BlockArrives(b) => BlockPends(s, b, k);
    case HistoricalBlockSent(hash, hashes) => HistoricalPends(s, hash, hashes, k);
    case _ =>
  }

  lemma HistoricalPends(s: Stream, hash: Buffer, hashes: seq<Buffer>, k: Buffer)
    ensures Pending(HeaderHash, React(s, HistoricalBlockSent(hash, hashes)).cache.merkleBlocks)[k]
      <= Pending(HeaderHash, s.cache.merkleBlocks)[k]
  {
    var t, b := React(s, HistoricalBlockSent(hash, hashes)), FindBlock(s.cache.blocks, hash);
    if s.phase == Disconnected || b.None? {
      assert t.cache.merkleBlocks == s.cache.merkleBlocks;
    } else {
      assert t.cache.merkleBlocks == WithoutLast(s.cache.merkleBlocks, IsMerkleBlock(b.value.hash));
      WithoutLastShrinks(s.cache.merkleBlocks, b.value.hash, k);
    }
  }

  lemma BlockPends(s: Stream, b: Block, k: Buffer)
    ensures Pending(HeaderHash, React(s, BlockArrives(b)).cache.merkleBlocks)[k]
      <= Pending(HeaderHash, s.cache.merkleBlocks)[k] + if b.hash == k then 1 else 0
  {
    var t := TestMissed(s, b);
    TestEachKeepsBlocks(s, b.transactions);
    assert t.cache.merkleBlocks == s.cache.merkleBlocks;
    WithBlockPending(t.cache, b, k);
  }

  /** Over any run, a Merkle block is sent at most as often as its block arrives. */
  lemma {:induction false} MerkleBlockSentPerArrival(filter: Filter, events: seq<StreamEvent>, k: Buffer)
    ensures var s := RunStream(Start(filter), events);
      Count(s.emitted, IsMerkleBlockOf(k)) + Pending(HeaderHash, s.cache.merkleBlocks)[k] <= Arrivals(events, k)
    decreases |events|
  {
    if events != [] {
      var front, last := events[..|events| - 1], events[|events| - 1];
      var s := RunStream(Start(filter), front);
      MerkleBlockSentPerArrival(filter, front, k);
      ReactPends(s, last, k);
      CountReact(s, last, IsMerkleBlockOf(k));
    }
  }

  ghost predicate MerkleBlockIsCached(s: Stream, k: Buffer) {
    k in CachedKeys(HeaderHash, s.cache.merkleBlocks)
  }

  ghost predicate MerkleBlockStaysIn(s: Stream, events: seq<StreamEvent>, k: Buffer)
    decreases |events|
  {
    && MerkleBlockIsCached(RunStream(s, events), k)
    && (events == [] || MerkleBlockStaysIn(s, events[..|events| - 1], k))
  }

  /** While the only Merkle block of hash `k` stays cached, an event turns what is
      pending into what is sent, and a turn of the loop leaves nothing pending. */
  lemma ReactDeliversMerkleBlock(s: Stream, event: StreamEvent, k: Buffer)
    requires Occurrences(HeaderHash, s.cache.merkleBlocks, k) <= 1 && !IsArrivalOf(event, k)
    requires MerkleBlockIsCached(React(s, event), k)
    ensures Occurrences(HeaderHash, React(s, event).cache.merkleBlocks, k) <= 1
    ensures Pending(HeaderHash, React(s, event).cache.merkleBlocks)[k] + Count(Added(s, event), IsMerkleBlockOf(k))
      == Pending(HeaderHash, s.cache.merkleBlocks)[k]
    ensures IsTurn(s, event) ==> Pending(HeaderHash, React(s, event).cache.merkleBlocks)[k] == 0
  {
    if IsTurn(s, event) {
      TurnIsSend(s, event);
      TurnSendsMerkleBlocks(s.cache, k);
      SameKeysOccur(HeaderHash, s.cache.merkleBlocks, Retrieved(s.cache.merkleBlocks), k);
    } else if event.LockArrives? {
      LockAdds(s, event.lock, event.transaction, IsMerkleBlockOf(k));
    } else {
      QuietDelivers(s, event, k);
    }
  }

  lemma QuietDelivers(s: Stream, event: StreamEvent, k: Buffer)
    requires Occurrences(HeaderHash, s.cache.merkleBlocks, k) <= 1 && !IsArrivalOf(event, k)
    requires MerkleBlockIsCached(React(s, event), k)
    requires !IsTurn(s, event) && !event.LockArrives?
    ensures Added(s, event) == []
    ensures Occurrences(HeaderHash, React(s, event).cache.merkleBlocks, k) <= 1
    ensures Pending(HeaderHash, React(s, event).cache.merkleBlocks)[k] == Pending(HeaderHash, s.cache.merkleBlocks)[k]
  {
    if s.phase != Disconnected {
      match event
      case BlockArrives(b) =>
        TestEachKeepsBlocks(s, b.transactions);
        NewBlockDelivers(TestMissed(s, b).cache, b, k);
      case HistoricalBlockSent(hash, _) => RemovalSpares(s.cache.merkleBlocks, hash, k);
      case _ =>
    }
  }

  lemma {:induction false} PendingMerkleBlockIsSent(s: Stream, events: seq<StreamEvent>, k: Buffer)
    requires Occurrences(HeaderHash, s.cache.merkleBlocks, k) <= 1 && Arrivals(events, k) == 0
    requires MerkleBlockStaysIn(s, events, k)
    ensures var t := RunStream(s, events);
      && Occurrences(HeaderHash, t.cache.merkleBlocks, k) <= 1
      && Count(t.emitted, IsMerkleBlockOf(k)) + Pending(HeaderHash, t.cache.merkleBlocks)[k]
        == Count(s.emitted, IsMerkleBlockOf(k)) + Pending(HeaderHash, s.cache.merkleBlocks)[k]
      && (HasTurn(s, events) ==> Pending(HeaderHash, t.cache.merkleBlocks)[k] == 0)
    decreases |events|
  {
    if events != [] {
      var front, last := events[..|events| - 1], events[|events| - 1];
      var t := RunStream(s, front);
      assert MerkleBlockStaysIn(s, front, k);
      PendingMerkleBlockIsSent(s, front, k);
      ReactDeliversMerkleBlock(t, last, k);
      CountReact(t, last, IsMerkleBlockOf(k));
    }
  }

  /** From any state in which one Merkle block of hash `k` is cached, and as long
      as it stays and no other block of that hash arrives, it is sent at most
      once; a turn of the loop sends it if it was not sent before. */
  lemma MerkleBlockSentOncePerStay(s: Stream, stay: seq<StreamEvent>, k: Buffer)
    requires Occurrences(HeaderHash, s.cache.merkleBlocks, k) <= 1 && Arrivals(stay, k) == 0
    requires MerkleBlockStaysIn(s, stay, k)
    ensures var t, pending := RunStream(s, stay), Pending(HeaderHash, s.cache.merkleBlocks)[k];
      && Count(s.emitted, IsMerkleBlockOf(k)) <= Count(t.emitted, IsMerkleBlockOf(k))
        <= Count(s.emitted, IsMerkleBlockOf(k)) + pending
      && pending <= 1
      && (HasTurn(s, stay) ==> Count(t.emitted, IsMerkleBlockOf(k)) == Count(s.emitted, IsMerkleBlockOf(k)) + pending)
  {
    PendingOccurs(HeaderHash, s.cache.merkleBlocks, k);
    PendingMerkleBlockIsSent(s, stay, k);
    CountGrows(s, stay, IsMerkleBlockOf(k));
  }

  // -------------------------------------------------------------- instant locks

  ghost predicate IsCollected(locks: seq<InstantLock>, h: Buffer) {
    exists i :: 0 <= i < |locks| && locks[i].txid == h
  }

  ghost predicate DistinctLocks(locks: seq<InstantLock>) {
    forall i, j :: 0 <= i < j < |locks| ==> locks[i].txid != locks[j].txid
  }

  lemma SplitCollected(locks: seq<InstantLock>, h: Buffer)
    requires locks != []
    ensures IsCollected(locks, h) <==> locks[0].txid == h || IsCollected(locks[1..], h)
  {
    if i :| 1 <= i < |locks| && locks[i].txid == h {
      assert locks[1..][i - 1].txid == h;
    }
  }

  lemma {:induction false} SetLockCollects(locks: seq<InstantLock>, lock: InstantLock, h: Buffer)
    ensures IsCollected(SetLock(locks, lock), h) <==> IsCollected(locks, h) || h == lock.txid
  {
    var r := SetLock(locks, lock);
    SplitCollected(r, h);
    if locks != [] {
      SplitCollected(locks, h);
      if locks[0].txid == lock.txid {
        assert r[1..] == locks[1..];
      } else {
        assert r[1..] == SetLock(locks[1..], lock);
        SetLockCollects(locks[1..], lock, h);
      }
    }
  }

  lemma {:induction false} SetLockDistinct(locks: seq<InstantLock>, lock: InstantLock)
    requires DistinctLocks(locks)
    ensures DistinctLocks(SetLock(locks, lock))
  {
    if locks != [] && locks[0].txid != lock.txid {
      var rest := SetLock(locks[1..], lock);
      SetLockDistinct(locks[1..], lock);
      SetLockCollects(locks[1..], lock, locks[0].txid);
      forall i | 0 <= i < |rest| ensures rest[i].txid != locks[0].txid {
        assert !IsCollected(rest, locks[0].txid);
      }
    }
  }

  /** At most one lock of a hash is collected, and it goes out if the hash waits. */
  lemma {:induction false} LocksSentCount(registered: map<Buffer, nat>, locks: seq<InstantLock>, h: Buffer)
    requires DistinctLocks(locks)
    ensures Count(LocksSent(registered, locks), IsLockOf(h))
      == if h in registered && IsCollected(locks, h) then 1 else 0
  {
    if locks != [] {
      var front, last := locks[..|locks| - 1], locks[|locks| - 1];
      LocksSentCount(registered, front, h);
      CountAppend(LocksSent(registered, front), [SentLock(last)], IsLockOf(h));
      CountOne(SentLock(last), IsLockOf(h));
      assert last.txid == h ==> !IsCollected(front, h);
      assert IsCollected(front, h) ==> IsCollected(locks, h);
    }
  }

  lemma TurnSendsLocks(c: Cache, h: Buffer)
    requires DistinctLocks(c.locks)
    ensures Count(Sendable(c), IsLockOf(h)) == if h in c.registered && IsCollected(c.locks, h) then 1 else 0
  {
    SendableCount(c, IsLockOf(h));
    LocksSentCount(c.registered, c.locks, h);
    CountNone(TransactionsSent(Unretrieved(c.transactions)), IsLockOf(h));
    CountNone(MerkleBlocksSent(Unretrieved(c.merkleBlocks)), IsLockOf(h));
  }

  /** Locks are collected before the mempool data is sent, one for each hash. */
  ghost predicate Collects(s: Stream) {
    DistinctLocks(s.cache.locks) && (s.phase == Sending ==> s.cache.locks == [])
  }

  predicate Waits(s: Stream, h: Buffer) {
    h in s.cache.registered
  }

  /** The first turn of the loop sends the lock collected for `h`. */
  ghost predicate CollectedGoesOut(s: Stream, event: StreamEvent, h: Buffer) {
    s.phase == Collecting && event.MempoolDataSent? && Waits(s, h) && IsCollected(s.cache.locks, h)
  }

  /** A lock for `h` arrives after that turn, while `h` waits, and is sent at once. */
  predicate ArrivesInTime(s: Stream, event: StreamEvent, h: Buffer) {
    s.phase == Sending && event.LockArrives? && event.lock.txid == h && Waits(s, h)
  }

  predicate StartsWaiting(s: Stream, event: StreamEvent, h: Buffer) {
    !Waits(s, h) && Waits(React(s, event), h)
  }

  ghost function CollectedLock(h: Buffer): (Stream, StreamEvent) -> bool {
    (s: Stream, event: StreamEvent) => CollectedGoesOut(s, event, h)
  }

  ghost function LockInTime(h: Buffer): (Stream, StreamEvent) -> bool {
    (s: Stream, event: StreamEvent) => ArrivesInTime(s, event, h)
  }

  ghost function Registration(h: Buffer): (Stream, StreamEvent) -> bool {
    (s: Stream, event: StreamEvent) => StartsWaiting(s, event, h)
  }

  /** For how many events of the run `p` holds in the state before them. */
  ghost function Times(s: Stream, events: seq<StreamEvent>, p: (Stream, StreamEvent) -> bool): nat
    decreases |events|
  {
    if events == [] then 0
    else
      var front := events[..|events| - 1];
      Times(s, front, p) + if p(RunStream(s, front), events[|events| - 1]) then 1 else 0
  }

  lemma TestEachKeepsLocks(s: Stream, txs: seq<Transaction>)
    ensures TestEach(s, txs).cache.locks == s.cache.locks
    decreases |txs|
  {
    if txs != [] {
      TestEachKeepsLocks(s, txs[..|txs| - 1]);
    }
  }

  lemma ReactCollects(s: Stream, event: StreamEvent)
    requires Collects(s)
    ensures Collects(React(s, event))
  {
    match event
    case BlockArrives(b) =>
      TestEachKeepsLocks(s, b.transactions);
      TestEachEmitsNothing(s, b.transactions);
    case LockArrives(lock, _) => SetLockDistinct(s.cache.locks, lock);
    case _ =>
  }

  lemma LockStep(s: Stream, event: StreamEvent, h: Buffer)
    requires Collects(s)
    ensures Count(Added(s, event), IsLockOf(h))
      == (if CollectedGoesOut(s, event, h) then 1 else 0) + if ArrivesInTime(s, event, h) then 1 else 0
  {
    if IsTurn(s, event) {
      TurnIsSend(s, event);
      TurnSendsLocks(s.cache, h);
    } else if event.LockArrives? && Added(s, event) != [] {
      CountOne(SentLock(event.lock), IsLockOf(h));
    }
  }

  /** Every lock sent is a collected one or one that arrived in time. */
  lemma {:induction false} LocksAreCounted(s: Stream, events: seq<StreamEvent>, h: Buffer)
    requires Collects(s)
    ensures Collects(RunStream(s, events))
    ensures Count(RunStream(s, events).emitted, IsLockOf(h))
      == Count(s.emitted, IsLockOf(h)) + Times(s, events, CollectedLock(h)) + Times(s, events, LockInTime(h))
    decreases |events|
  {
    if events != [] {
      var front, last := events[..|events| - 1], events[|events| - 1];
      var t := RunStream(s, front);
      LocksAreCounted(s, front, h);
      ReactCollects(t, last);
      LockStep(t, last, h);
      CountReact(t, last, IsLockOf(h));
    }
  }

  /** A hash has to start waiting again before another lock for it is in time. */
  lemma {:induction false} InTimeOncePerRegistration(s: Stream, events: seq<StreamEvent>, h: Buffer)
    ensures Times(s, events, LockInTime(h)) + (if Waits(RunStream(s, events), h) then 1 else 0)
      <= (if Waits(s, h) then 1 else 0) + Times(s, events, Registration(h))
    decreases |events|
  {
    if events != [] {
      InTimeOncePerRegistration(s, events[..|events| - 1], h);
    }
  }

  lemma ReactPhase(s: Stream, event: StreamEvent)
    ensures React(s, event).phase == Collecting ==> s.phase == Collecting && !event.MempoolDataSent?
  {
    if event.BlockArrives? {
      TestEachEmitsNothing(s, event.block.transactions);
    }
  }

  /** There is one first turn, and it sends a lock only for a hash that waits. */
  lemma {:induction false} CollectedOnce(s: Stream, events: seq<StreamEvent>, h: Buffer)
    ensures Times(s, events, CollectedLock(h)) <= 1
    ensures s.phase != Collecting || RunStream(s, events).phase == Collecting ==>
      Times(s, events, CollectedLock(h)) == 0
    ensures RunStream(s, events).phase == Collecting ==> s.phase == Collecting
    ensures Times(s, events, CollectedLock(h)) <= (if Waits(s, h) then 1 else 0) + Times(s, events, Registration(h))
    decreases |events|
  {
    if events != [] {
      var front := events[..|events| - 1];
      CollectedOnce(s, front, h);
      InTimeOncePerRegistration(s, front, h);
      ReactPhase(RunStream(s, front), events[|events| - 1]);
    }
  }

  /** Over any run, the locks sent for a hash are at most as many as the times it
      started waiting, and one more if a collected lock was sent. */
  lemma LocksSentPerRegistration(filter: Filter, events: seq<StreamEvent>, h: Buffer)
    ensures var s := RunStream(Start(filter), events);
      && Count(s.emitted, IsLockOf(h)) + (if Waits(s, h) then 1 else 0)
        <= Times(Start(filter), events, Registration(h)) + Times(Start(filter), events, CollectedLock(h))
      && Times(Start(filter), events, CollectedLock(h)) <= 1
  {
    LocksAreCounted(Start(filter), events, h);
    InTimeOncePerRegistration(Start(filter), events, h);
    CollectedOnce(Start(filter), events, h);
  }

  /** From any reachable state on: the locks sent for a hash are the collected one,
      of which there is at most one and none once the mempool data was sent, and
      those in time, one for each time it waits. So until it starts waiting again
      at most one is sent if and only if no collected lock is sent or none is in
      time afterwards, and none is sent if it does not wait. */
  lemma LockSentOnceIff(filter: Filter, before: seq<StreamEvent>, stay: seq<StreamEvent>, h: Buffer)
    ensures var s := RunStream(Start(filter), before);
      var t, waits := RunStream(s, stay), if Waits(s, h) then 1 else 0;
      var sent := Count(t.emitted, IsLockOf(h)) - Count(s.emitted, IsLockOf(h));
      var collected, inTime := Times(s, stay, CollectedLock(h)), Times(s, stay, LockInTime(h));
      var again := Times(s, stay, Registration(h));
      && sent == collected + inTime
      && collected <= 1 && (s.phase != Collecting ==> collected == 0)
      && collected <= waits + again && inTime <= waits + again
      && (again == 0 ==> (sent <= 1 <==> collected == 0 || inTime == 0))
  {
    var s := RunStream(Start(filter), before);
    LocksAreCounted(Start(filter), before, h);
    LocksAreCounted(s, stay, h);
    InTimeOncePerRegistration(s, stay, h);
    CollectedOnce(s, stay, h);
  }

  /** The transaction and its lock are cached, and nothing was sent. */
  ghost predicate LockIsCollected(s: Stream, tx: Transaction, lock: InstantLock) {
    && s.phase == Collecting && s.emitted == [] && s.cache.merkleBlocks == []
    && s.cache.transactions == [Cached(tx, false)] && s.cache.locks == [lock] && lock.txid in s.cache.registered
  }

  lemma LockGetsCollected(filter: Filter, tx: Transaction, lock: InstantLock)
    requires Matches(filter, tx) && lock.txid == tx.hash
    ensures LockIsCollected(React(React(Start(filter), TransactionArrives(tx)), LockArrives(lock, tx)), tx, lock)
  {
    var s := React(Start(filter), TransactionArrives(tx));
    assert s.cache.transactions == [Cached(tx, false)];
    MatchingIsMonotone(filter, Tested(filter, tx), tx);
  }

  lemma LockGoesOutTwice(s: Stream, tx: Transaction, lock: InstantLock, again: Transaction)
    requires LockIsCollected(s, tx, lock)
    ensures React(React(s, MempoolDataSent), LockArrives(lock, again)).emitted
      == [SentTransaction(tx), SentLock(lock), SentLock(lock)]
  {
    var c := s.cache;
    assert c.transactions[..0] == [] && c.locks[..0] == [];
    assert Unretrieved(c.transactions) == [tx];
    assert LocksSent(c.registered, c.locks) == [SentLock(lock)];
    assert Sendable(c) == [SentTransaction(tx), SentLock(lock)];
  }

  /** A lock collected before the mempool data that arrives once more is sent twice. */
  lemma CollectedLockIsSentTwice(filter: Filter, tx: Transaction, lock: InstantLock)
    requires Matches(filter, tx) && lock.txid == tx.hash
    ensures var events := [TransactionArrives(tx), LockArrives(lock, tx), MempoolDataSent, LockArrives(lock, tx)];
      RunStream(Start(filter), events).emitted == [SentTransaction(tx), SentLock(lock), SentLock(lock)]
  {
    RunFour(Start(filter), TransactionArrives(tx), LockArrives(lock, tx), MempoolDataSent, LockArrives(lock, tx));
    LockGetsCollected(filter, tx, lock);
    LockGoesOutTwice(React(React(Start(filter), TransactionArrives(tx)), LockArrives(lock, tx)), tx, lock, tx);
  }
}
