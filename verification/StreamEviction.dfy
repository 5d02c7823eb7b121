/** A run in which a Merkle block goes out without a transaction it flags. */
module StreamEviction {
  import opened Buffers
  import opened TransactionFilter
  import opened TransactionCache
  import opened CacheRuns
  import opened TransactionStream
  import opened StreamOrder

  function TransactionsArrive(txs: seq<Transaction>): (events: seq<StreamEvent>)
    ensures |events| == |txs| && forall i :: 0 <= i < |txs| ==> events[i] == TransactionArrives(txs[i])
  {
    seq(|txs|, i requires 0 <= i < |txs| => TransactionArrives(txs[i]))
  }

  function BlocksArrive(bs: seq<Block>): (events: seq<StreamEvent>)
    ensures |events| == |bs| && forall i :: 0 <= i < |bs| ==> events[i] == BlockArrives(bs[i])
  {
    seq(|bs|, i requires 0 <= i < |bs| => BlockArrives(bs[i]))
  }

  /** Nothing was sent so far. */
  ghost predicate Quiet(s: Stream) {
    s.phase == Collecting && s.emitted == [] && s.historical == map[]
  }

  ghost predicate HasCached(s: Stream, tx: Transaction) {
    tx.hash in CachedKeys(TransactionHash, s.cache.transactions)
  }

  lemma CachedLonger(s: Stream, t: Stream, tx: Transaction)
    requires s.cache.transactions <= t.cache.transactions && HasCached(s, tx)
    ensures HasCached(t, tx)
  {
    var i :| 0 <= i < |s.cache.transactions| && CachedKeys(TransactionHash, s.cache.transactions)[i] == tx.hash;
    assert CachedKeys(TransactionHash, t.cache.transactions)[i] == tx.hash;
  }

  lemma TestCaches(s: Stream, tx: Transaction)
    requires Matches(s.filter, tx)
    ensures HasCached(Test(s, tx), tx) && s.cache.transactions <= Test(s, tx).cache.transactions
  {
    AddKeepsCached(s.cache, tx);
  }

  /** Matching transactions that arrive are cached and change nothing else. */
  lemma {:induction false} ArrivingIsCached(filter: Filter, txs: seq<Transaction>)
    requires forall tx :: tx in txs ==> Matches(filter, tx)
    ensures var s := RunStream(Start(filter), TransactionsArrive(txs));
      && Quiet(s) && s.cache.blocks == [] && s.cache.merkleBlocks == [] && Within(filter, s.filter)
      && forall tx :: tx in txs ==> HasCached(s, tx)
  {
    if txs != [] {
      var front, last := txs[..|txs| - 1], txs[|txs| - 1];
      var s := RunStream(Start(filter), TransactionsArrive(front));
      assert TransactionsArrive(txs)[..|txs| - 1] == TransactionsArrive(front);
      ArrivingIsCached(filter, front);
      MatchingIsMonotone(filter, s.filter, last);
      TestCaches(s, last);
      forall tx | tx in front ensures HasCached(Test(s, last), tx) {
        CachedLonger(s, Test(s, last), tx);
      }
      assert txs == front + [last];
    }
  }

  function MadeFromBlock(ts: seq<Cached<Transaction>>, b: Block): MerkleBlock {
    var hashes := Hashes(b.transactions);
    MerkleBlock(b.hash, hashes, Flags(hashes, CachedKeys(TransactionHash, ts)))
  }

  function MadeFromBlocks(ts: seq<Cached<Transaction>>, bs: seq<Block>): (r: seq<Cached<MerkleBlock>>)
    ensures |r| == |bs| && forall i :: 0 <= i < |bs| ==> r[i] == Cached(MadeFromBlock(ts, bs[i]), false)
  {
    seq(|bs|, i requires 0 <= i < |bs| => Cached(MadeFromBlock(ts, bs[i]), false))
  }

  /** The blocks are cached with the Merkle blocks made from them, and nothing was
      sent. */
  ghost predicate Filled(s: Stream, ts: seq<Cached<Transaction>>, bs: seq<Block>) {
    && Quiet(s) && s.cache.transactions == ts && s.cache.blocks == bs
    && s.cache.merkleBlocks == MadeFromBlocks(ts, bs)
  }

  lemma OneMoreBlock(s: Stream, ts: seq<Cached<Transaction>>, bs: seq<Block>, b: Block)
    requires Filled(s, ts, bs) && |bs| < CACHE_SIZE && HasMatch(s.cache, b)
    ensures Filled(s.(cache := WithBlock(s.cache, b)), ts, bs + [b])
  {
    var c := WithBlock(s.cache, b);
    assert c.merkleBlocks == MadeFromBlocks(ts, bs) + [Cached(MadeFromBlock(ts, b), false)];
    assert MadeFromBlocks(ts, bs + [b]) == MadeFromBlocks(ts, bs) + [Cached(MadeFromBlock(ts, b), false)];
  }

  ghost predicate AllMatching(ts: seq<Cached<Transaction>>, bs: seq<Block>) {
    forall i :: 0 <= i < |bs| ==> HasMatch(EMPTY.(transactions := ts), bs[i])
  }

  /** Up to ten blocks with a cached transaction are simply kept. */
  lemma {:induction false} BlocksFill(s: Stream, bs: seq<Block>)
    requires Quiet(s) && s.cache.blocks == [] && s.cache.merkleBlocks == []
    requires 0 < |bs| <= CACHE_SIZE && AllMatching(TestMissed(s, bs[0]).cache.transactions, bs)
    ensures Filled(RunStream(s, BlocksArrive(bs)), TestMissed(s, bs[0]).cache.transactions, bs)
    decreases |bs|
  {
    var front, last := bs[..|bs| - 1], bs[|bs| - 1];
    var tested := TestMissed(s, bs[0]);
    assert BlocksArrive(bs)[..|bs| - 1] == BlocksArrive(front);
    assert bs == front + [last];
    assert HasMatch(EMPTY.(transactions := tested.cache.transactions), last);
    if front == [] {
      TestEachGrows(s, bs[0].transactions);
      TestEachEmitsNothing(s, bs[0].transactions);
      OneMoreBlock(tested, tested.cache.transactions, [], last);
    } else {
      BlocksFill(s, front);
      OneMoreBlock(RunStream(s, BlocksArrive(front)), tested.cache.transactions, front, last);
    }
  }

  /** The eleventh block makes the cache drop the first one: its transactions are
      gone, and only its Merkle block. */
  lemma EleventhEvicts(s: Stream, ts: seq<Cached<Transaction>>, bs: seq<Block>, b: Block)
    requires Filled(s, ts, bs) && |bs| == CACHE_SIZE && HasMatch(s.cache, b)
    requires b.hash != bs[0].hash && forall i :: 0 < i < |bs| ==> bs[i].hash != bs[0].hash
    ensures var t := React(s, BlockArrives(b));
      && Quiet(t) && t.cache.transactions == Without(TransactionHash, ts, Hashes(bs[0].transactions))
      && t.cache.merkleBlocks == MadeFromBlocks(ts, bs + [b])[1..]
  {
    var pushed := PushBlock(CountBlock(s.cache), b);
    assert pushed.merkleBlocks == MadeFromBlocks(ts, bs + [b]);
    OnlyFirstMatches(pushed.merkleBlocks, bs[0].hash);
  }

  ghost predicate Flagged(m: MerkleBlock, hash: Buffer) {
    |m.matchedFlags| == |m.transactionHashes| &&
    exists j :: 0 <= j < |m.matchedFlags| && m.matchedFlags[j] && m.transactionHashes[j] == hash
  }

  /** The next Merkle block to be sent is that of block `header` and flags `hash`. */
  ghost predicate NextFlags(t: Stream, header: Buffer, hash: Buffer) {
    var ms := t.cache.merkleBlocks;
    ms != [] && !ms[0].isRetrieved && ms[0].item.headerHash == header && Flagged(ms[0].item, hash)
  }

  /** The Merkle block of the second block flags a transaction that went with the
      first one. */
  lemma SecondIsNotReady(t: Stream, ts: seq<Cached<Transaction>>, bs: seq<Block>, tx: Transaction)
    requires Quiet(t) && |bs| > 1 && tx in bs[0].transactions && tx in bs[1].transactions
    requires tx.hash in CachedKeys(TransactionHash, ts)
    requires t.cache.transactions == Without(TransactionHash, ts, Hashes(bs[0].transactions))
    requires t.cache.merkleBlocks == MadeFromBlocks(ts, bs)[1..]
    ensures !IsCached(t.cache.transactions, tx.hash) && !PendingReady(t) && NextFlags(t, bs[1].hash, tx.hash)
  {
    var i :| 0 <= i < |bs[0].transactions| && bs[0].transactions[i] == tx;
    var j :| 0 <= j < |bs[1].transactions| && bs[1].transactions[j] == tx;
    assert Hashes(bs[0].transactions)[i] == tx.hash;
    WithoutCached(ts, Hashes(bs[0].transactions), tx.hash);
    assert t.cache.merkleBlocks[0] == Cached(MadeFromBlock(ts, bs[1]), false);
    assert MadeFromBlock(ts, bs[1]).matchedFlags[j] && MadeFromBlock(ts, bs[1]).transactionHashes[j] == tx.hash;
    assert !WasSent(t, tx.hash);
    assert !Ready(t, t.cache.merkleBlocks[0].item);
  }

  lemma {:induction false} RunStreamAppend(s: Stream, a: seq<StreamEvent>, b: seq<StreamEvent>)
    ensures RunStream(s, a + b) == RunStream(RunStream(s, a), b)
    decreases |b|
  {
    if b == [] {
      assert a + b == a;
    } else {
      assert (a + b)[..|a + b| - 1] == a + b[..|b| - 1];
      RunStreamAppend(s, a, b[..|b| - 1]);
    }
  }

  /** A Merkle block of block `header` that flags `hash` was sent. */
  ghost predicate WentOut(s: Stream, header: Buffer, hash: Buffer) {
    exists m :: SentMerkleBlock(m) in s.emitted && m.headerHash == header && Flagged(m, hash)
  }

  lemma NextGoesOut(t: Stream, header: Buffer, hash: Buffer)
    requires Quiet(t) && NextFlags(t, header, hash)
    ensures WentOut(React(t, MempoolDataSent), header, hash)
  {
    var m, ms := t.cache.merkleBlocks[0].item, Unretrieved(t.cache.merkleBlocks);
    UnretrievedMembers(t.cache.merkleBlocks);
    var i :| 0 <= i < |ms| && ms[i] == m;
    assert MerkleBlocksSent(ms)[i] == SentMerkleBlock(m);
    assert SentMerkleBlock(m) in MerkleBlocksSent(ms);
    assert SentMerkleBlock(m) in Sendable(t.cache);
  }

  lemma LostStaysUnsent(t: Stream, hash: Buffer)
    requires Quiet(t) && !IsCached(t.cache.transactions, hash)
    ensures !WasSent(React(t, MempoolDataSent), hash)
  {
    var txs, rest := Unretrieved(t.cache.transactions), AfterTransactions(t.cache);
    var all := SendAll(t).emitted;
    assert all == [] + TransactionsSent(txs) + rest;
    LoopSentInTurn([], txs, rest, |all|, hash);
    UnretrievedMembers(t.cache.transactions);
  }

  lemma AllMatchingTested(s: Stream, txs: seq<Transaction>, bs: seq<Block>)
    requires bs != [] && |txs| == |bs|
    requires forall i :: 0 <= i < |bs| ==> HasCached(s, txs[i]) && txs[i] in bs[i].transactions
    ensures var ts := TestMissed(s, bs[0]).cache.transactions;
      AllMatching(ts, bs) && txs[0].hash in CachedKeys(TransactionHash, ts)
  {
    var t := TestMissed(s, bs[0]);
    TestEachGrows(s, bs[0].transactions);
    forall i | 0 <= i < |bs|
      ensures HasMatch(EMPTY.(transactions := t.cache.transactions), bs[i]) && HasCached(t, txs[i])
    {
      CachedLonger(s, t, txs[i]);
      AddedMatches(EMPTY.(transactions := t.cache.transactions), txs[i], bs[i]);
    }
  }

  lemma EvictedIsLost(s: Stream, ts: seq<Cached<Transaction>>, front: seq<Block>, last: Block, tx: Transaction)
    requires |front| == CACHE_SIZE && Filled(s, ts, front) && AllMatching(ts, [last])
    requires tx in front[0].transactions && tx in front[1].transactions && tx.hash in CachedKeys(TransactionHash, ts)
    requires last.hash != front[0].hash && forall i :: 0 < i < |front| ==> front[i].hash != front[0].hash
    ensures var t := React(s, BlockArrives(last));
      && Quiet(t) && !IsCached(t.cache.transactions, tx.hash) && !PendingReady(t)
      && NextFlags(t, front[1].hash, tx.hash)
  {
    assert HasMatch(EMPTY.(transactions := ts), [last][0]) && HasMatch(s.cache, last);
    EleventhEvicts(s, ts, front, last);
    SecondIsNotReady(React(s, BlockArrives(last)), ts, front + [last], tx);
  }

  lemma ElevenBlocks(s: Stream, txs: seq<Transaction>, blocks: seq<Block>)
    requires Quiet(s) && s.cache.blocks == [] && s.cache.merkleBlocks == []
    requires |txs| == |blocks| == CACHE_SIZE + 1 && txs[0] in blocks[1].transactions
    requires forall i :: 0 <= i < |txs| ==> HasCached(s, txs[i]) && txs[i] in blocks[i].transactions
    requires forall i :: 0 < i < |blocks| ==> blocks[i].hash != blocks[0].hash
    ensures var t := RunStream(s, BlocksArrive(blocks));
      && Quiet(t) && !IsCached(t.cache.transactions, txs[0].hash) && !PendingReady(t)
      && NextFlags(t, blocks[1].hash, txs[0].hash)
  {
    var front, last := blocks[..CACHE_SIZE], blocks[CACHE_SIZE];
    var ts := TestMissed(s, blocks[0]).cache.transactions;
    AllMatchingTested(s, txs, blocks);
    BlocksFill(s, front);
    assert BlocksArrive(blocks)[..CACHE_SIZE] == BlocksArrive(front);
    EvictedIsLost(RunStream(s, BlocksArrive(front)), ts, front, last, txs[0]);
  }

  /** While the stream only collects, eleven matching blocks arrive, the first two of
      which share a transaction. The first one is evicted, its transactions with
      it; the Merkle block of the second goes out, and the transaction does not. */
  lemma EvictionLosesTransaction(filter: Filter, txs: seq<Transaction>, blocks: seq<Block>)
    requires |txs| == |blocks| == 11 && txs[0] in blocks[1].transactions
    requires forall i :: 0 <= i < |txs| ==> Matches(filter, txs[i]) && txs[i] in blocks[i].transactions
    requires forall i :: 0 < i < |blocks| ==> blocks[i].hash != blocks[0].hash
    ensures var s := RunStream(Start(filter), TransactionsArrive(txs) + BlocksArrive(blocks) + [MempoolDataSent]);
      && !Ordered(s) && !WasSent(s, txs[0].hash)
      && WentOut(s, blocks[1].hash, txs[0].hash)
  {
    var s, events := RunStream(Start(filter), TransactionsArrive(txs)), TransactionsArrive(txs) + BlocksArrive(blocks);
    ArrivingIsCached(filter, txs);
    ElevenBlocks(s, txs, blocks);
    RunStreamAppend(Start(filter), TransactionsArrive(txs), BlocksArrive(blocks));
    var t := RunStream(Start(filter), events);
    LostStaysUnsent(t, txs[0].hash);
    NextGoesOut(t, blocks[1].hash, txs[0].hash);
    var all := events + [MempoolDataSent];
    assert all[..|all| - 1] == events;
    assert !ReadyAtTurns(Start(filter), all);
    StreamIsCompleteIff(filter, all);
  }
}
