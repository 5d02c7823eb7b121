/** When the Merkle blocks of a stream come after the transactions they flag. */
module StreamOrder {
  import opened Buffers
  import opened TransactionFilter
  import opened TransactionCache
  import opened CacheRuns
  import opened TransactionStream

  // ------------------------------------------------------------- what is promised

  /** The loop sent a transaction of this hash among the first `n` emissions. */
  ghost predicate LoopSent(emitted: seq<Emission>, n: nat, hash: Buffer)
    requires n <= |emitted|
  {
    exists q :: 0 <= q < n && emitted[q].SentTransaction? && emitted[q].transaction.hash == hash
  }

  /** The client has the transaction before emission `n`, from the loop or with a
      historical block. */
  ghost predicate SentBefore(emitted: seq<Emission>, historical: map<Buffer, nat>, n: nat, hash: Buffer)
    requires n <= |emitted|
  {
    (hash in historical && historical[hash] <= n) || LoopSent(emitted, n, hash)
  }

  /** The client has all transactions the Merkle block flags. */
  ghost predicate Complete(emitted: seq<Emission>, historical: map<Buffer, nat>, n: nat, m: MerkleBlock)
    requires n <= |emitted|
  {
    && |m.matchedFlags| == |m.transactionHashes|
    && forall j :: 0 <= j < |m.matchedFlags| && m.matchedFlags[j] ==>
         SentBefore(emitted, historical, n, m.transactionHashes[j])
  }

  /** Whenever the loop sends a Merkle block, the client has all transactions that
      it flags. */
  ghost predicate InOrder(emitted: seq<Emission>, historical: map<Buffer, nat>) {
    forall p :: 0 <= p < |emitted| && emitted[p].SentMerkleBlock? ==>
      Complete(emitted, historical, p, emitted[p].merkleBlock)
  }

  ghost predicate Ordered(s: Stream) {
    InOrder(s.emitted, s.historical)
  }

  // ---------------------------------------------------------- what it depends on

  ghost predicate WasSent(s: Stream, hash: Buffer) {
    hash in s.historical || LoopSent(s.emitted, |s.emitted|, hash)
  }

  /** Every flagged transaction is cached or was sent. */
  ghost predicate Ready(s: Stream, m: MerkleBlock) {
    && |m.matchedFlags| == |m.transactionHashes|
    && forall j :: 0 <= j < |m.matchedFlags| && m.matchedFlags[j] ==>
         IsCached(s.cache.transactions, m.transactionHashes[j]) || WasSent(s, m.transactionHashes[j])
  }

  ghost predicate PendingReady(s: Stream) {
    forall i :: 0 <= i < |s.cache.merkleBlocks| && !s.cache.merkleBlocks[i].isRetrieved ==>
      Ready(s, s.cache.merkleBlocks[i].item)
  }

  /** Before each turn of the loop the Merkle blocks still to be sent are ready. */
  ghost predicate ReadyAtTurns(s: Stream, events: seq<StreamEvent>)
    decreases |events|
  {
    events == [] ||
    var front, last := events[..|events| - 1], events[|events| - 1];
    ReadyAtTurns(s, front) && (IsTurn(RunStream(s, front), last) ==> PendingReady(RunStream(s, front)))
  }

  // -------------------------------------------------------------------- one turn

  lemma LoopSentLonger(emitted: seq<Emission>, more: seq<Emission>, n: nat, hash: Buffer)
    requires n <= |emitted|
    ensures LoopSent(emitted + more, n, hash) <==> LoopSent(emitted, n, hash)
  {
    forall q | 0 <= q < n ensures (emitted + more)[q] == emitted[q] {
    }
  }

  lemma CompleteLonger(emitted: seq<Emission>, more: seq<Emission>, historical: map<Buffer, nat>, n: nat,
                       m: MerkleBlock)
    requires n <= |emitted|
    ensures Complete(emitted + more, historical, n, m) <==> Complete(emitted, historical, n, m)
  {
    forall hash ensures SentBefore(emitted + more, historical, n, hash) <==> SentBefore(emitted, historical, n, hash) {
      LoopSentLonger(emitted, more, n, hash);
    }
  }

  /** Later emissions change nothing for earlier ones. */
  lemma InOrderAppendIff(emitted: seq<Emission>, more: seq<Emission>, historical: map<Buffer, nat>)
    ensures InOrder(emitted + more, historical) <==>
      && InOrder(emitted, historical)
      && forall i :: 0 <= i < |more| && more[i].SentMerkleBlock? ==>
           Complete(emitted + more, historical, |emitted| + i, more[i].merkleBlock)
  {
    var all := emitted + more;
    forall p | 0 <= p < |emitted| && emitted[p].SentMerkleBlock?
      ensures Complete(all, historical, p, all[p].merkleBlock) <==>
        Complete(emitted, historical, p, emitted[p].merkleBlock)
    {
      CompleteLonger(emitted, more, historical, p, emitted[p].merkleBlock);
    }
    assert forall p :: 0 <= p < |emitted| ==> all[p] == emitted[p];
    assert forall i :: 0 <= i < |more| ==> all[|emitted| + i] == more[i];
    assert forall p :: |emitted| <= p < |all| ==> all[p] == more[p - |emitted|];
  }

  ghost predicate IsPending(ts: seq<Cached<Transaction>>, hash: Buffer) {
    exists tx :: tx in Unretrieved(ts) && tx.hash == hash
  }

  /** What is cached was sent or is still to be sent. */
  lemma CachedIsSentOrPending(s: Stream, hash: Buffer)
    requires Matched(s)
    ensures IsCached(s.cache.transactions, hash) || WasSent(s, hash) <==>
      IsPending(s.cache.transactions, hash) || WasSent(s, hash)
  {
    var ts := s.cache.transactions;
    UnretrievedMembers(ts);
    if IsCached(ts, hash) {
      var t :| t in ts && t.item.hash == hash;
      var i :| 0 <= i < |ts| && ts[i] == t;
      if ts[i].isRetrieved {
        assert SentTransaction(t.item) in s.emitted;
        var q :| 0 <= q < |s.emitted| && s.emitted[q] == SentTransaction(t.item);
        assert LoopSent(s.emitted, |s.emitted|, hash);
      } else {
        assert t.item in Unretrieved(ts);
      }
    }
    if IsPending(ts, hash) {
      var tx :| tx in Unretrieved(ts) && tx.hash == hash;
      assert Cached(tx, false) in ts;
    }
  }

  ghost predicate NoTransactions(emitted: seq<Emission>) {
    forall i :: 0 <= i < |emitted| ==> !emitted[i].SentTransaction?
  }

  lemma LoopSentInTurn(emitted: seq<Emission>, txs: seq<Transaction>, rest: seq<Emission>, p: nat, hash: Buffer)
    requires NoTransactions(rest) && |emitted| + |txs| <= p <= |emitted + TransactionsSent(txs) + rest|
    ensures LoopSent(emitted + TransactionsSent(txs) + rest, p, hash) <==>
      LoopSent(emitted, |emitted|, hash) || exists tx :: tx in txs && tx.hash == hash
  {
    var all, n := emitted + TransactionsSent(txs) + rest, |emitted|;
    forall q | n + |txs| <= q < |all| ensures !all[q].SentTransaction? {
      assert all[q] == rest[q - n - |txs|];
    }
    if LoopSent(all, p, hash) {
      var q :| 0 <= q < p && all[q].SentTransaction? && all[q].transaction.hash == hash;
      if q < n {
        assert emitted[q] == all[q];
      } else {
        assert all[q] == SentTransaction(txs[q - n]);
      }
    }
    if LoopSent(emitted, n, hash) {
      var q :| 0 <= q < n && emitted[q].SentTransaction? && emitted[q].transaction.hash == hash;
      assert all[q] == emitted[q];
    }
    if tx :| tx in txs && tx.hash == hash {
      var k :| 0 <= k < |txs| && txs[k] == tx;
      assert all[n + k] == SentTransaction(txs[k]);
    }
  }

  /** What follows the transactions in a turn. */
  ghost function AfterTransactions(c: Cache): (r: seq<Emission>)
    ensures NoTransactions(r)
  {
    var locks := LocksSent(c.registered, c.locks);
    assert forall i :: 0 <= i < |locks| ==> locks[i] in locks;
    locks + MerkleBlocksSent(Unretrieved(c.merkleBlocks))
  }

  /** In a turn, a Merkle block is complete if and only if it was ready before. */
  lemma CompleteInTurnIff(s: Stream, p: nat, m: MerkleBlock)
    requires Matched(s)
    requires |s.emitted| + |Unretrieved(s.cache.transactions)| <= p <= |SendAll(s).emitted|
    ensures Complete(SendAll(s).emitted, s.historical, p, m) <==> Ready(s, m)
  {
    var txs, rest := Unretrieved(s.cache.transactions), AfterTransactions(s.cache);
    var all := SendAll(s).emitted;
    assert all == s.emitted + TransactionsSent(txs) + rest;
    forall hash ensures SentBefore(all, s.historical, p, hash) <==>
      IsCached(s.cache.transactions, hash) || WasSent(s, hash)
    {
      LoopSentInTurn(s.emitted, txs, rest, p, hash);
      CachedIsSentOrPending(s, hash);
    }
  }

  ghost predicate AllReady(s: Stream, ms: seq<MerkleBlock>) {
    forall i :: 0 <= i < |ms| ==> Ready(s, ms[i])
  }

  lemma PendingReadyIff(s: Stream)
    ensures PendingReady(s) <==> AllReady(s, Unretrieved(s.cache.merkleBlocks))
  {
    var cached, ms := s.cache.merkleBlocks, Unretrieved(s.cache.merkleBlocks);
    UnretrievedMembers(cached);
    if PendingReady(s) {
      forall i | 0 <= i < |ms| ensures Ready(s, ms[i]) {
        assert Cached(ms[i], false) in cached;
        var k :| 0 <= k < |cached| && cached[k] == Cached(ms[i], false);
        assert Ready(s, cached[k].item);
      }
    }
    if AllReady(s, ms) {
      forall k | 0 <= k < |cached| && !cached[k].isRetrieved ensures Ready(s, cached[k].item) {
        var i :| 0 <= i < |ms| && ms[i] == cached[k].item;
      }
    }
  }

  /** The Merkle blocks are the last of a turn, and nothing before them is one. */
  ghost predicate MerkleBlocksLast(more: seq<Emission>, ms: seq<MerkleBlock>) {
    && |ms| <= |more|
    && (forall j :: 0 <= j < |more| - |ms| ==> !more[j].SentMerkleBlock?)
    && forall i :: 0 <= i < |ms| ==> more[|more| - |ms| + i] == SentMerkleBlock(ms[i])
  }

  lemma TurnEndsWithMerkleBlocks(c: Cache)
    ensures MerkleBlocksLast(Sendable(c), Unretrieved(c.merkleBlocks))
    ensures |Unretrieved(c.transactions)| + |Unretrieved(c.merkleBlocks)| <= |Sendable(c)|
  {
    var locks := LocksSent(c.registered, c.locks);
    assert forall i :: 0 <= i < |locks| ==> locks[i] in locks;
  }

  ghost predicate AllComplete(emitted: seq<Emission>, historical: map<Buffer, nat>, ms: seq<MerkleBlock>)
    requires |ms| <= |emitted|
  {
    forall i :: 0 <= i < |ms| ==> Complete(emitted, historical, |emitted| - |ms| + i, ms[i])
  }

  lemma LastInOrderIff(emitted: seq<Emission>, more: seq<Emission>, historical: map<Buffer, nat>, ms: seq<MerkleBlock>)
    requires MerkleBlocksLast(more, ms)
    ensures var all := emitted + more;
      InOrder(all, historical) <==> InOrder(emitted, historical) && AllComplete(all, historical, ms)
  {
    var all, k := emitted + more, |more| - |ms|;
    InOrderAppendIff(emitted, more, historical);
    if AllComplete(all, historical, ms) {
      forall j | 0 <= j < |more| && more[j].SentMerkleBlock?
        ensures Complete(all, historical, |emitted| + j, more[j].merkleBlock)
      {
        assert more[k + (j - k)] == SentMerkleBlock(ms[j - k]);
        assert Complete(all, historical, |all| - |ms| + (j - k), ms[j - k]);
      }
    } else {
      var i :| 0 <= i < |ms| && !Complete(all, historical, |all| - |ms| + i, ms[i]);
      assert more[k + i] == SentMerkleBlock(ms[i]);
    }
  }

  lemma AllCompleteIff(s: Stream, emitted: seq<Emission>, ms: seq<MerkleBlock>)
    requires Matched(s) && emitted == SendAll(s).emitted
    requires |s.emitted| + |Unretrieved(s.cache.transactions)| + |ms| <= |emitted|
    ensures AllComplete(emitted, s.historical, ms) <==> AllReady(s, ms)
  {
    forall i | 0 <= i < |ms|
      ensures Complete(emitted, s.historical, |emitted| - |ms| + i, ms[i]) <==> Ready(s, ms[i])
    {
      CompleteInTurnIff(s, |emitted| - |ms| + i, ms[i]);
    }
  }

  /** One turn of the loop keeps the order exactly when all it has to send is ready. */
  lemma TurnOrderedIff(s: Stream)
    requires Matched(s)
    ensures Ordered(SendAll(s)) <==> Ordered(s) && PendingReady(s)
  {
    var more, ms := Sendable(s.cache), Unretrieved(s.cache.merkleBlocks);
    TurnEndsWithMerkleBlocks(s.cache);
    LastInOrderIff(s.emitted, more, s.historical, ms);
    AllCompleteIff(s, s.emitted + more, ms);
    PendingReadyIff(s);
  }

  // ----------------------------------------------------------------- whole runs

  /** What comes with a historical block later changes nothing for earlier emissions. */
  lemma NotedOrderedIff(emitted: seq<Emission>, historical: map<Buffer, nat>, hashes: seq<Buffer>)
    ensures InOrder(emitted, Noted(historical, hashes, |emitted|)) <==> InOrder(emitted, historical)
  {
    var noted := Noted(historical, hashes, |emitted|);
    forall p | 0 <= p < |emitted| && emitted[p].SentMerkleBlock?
      ensures Complete(emitted, noted, p, emitted[p].merkleBlock) <==>
        Complete(emitted, historical, p, emitted[p].merkleBlock)
    {
      assert forall hash :: SentBefore(emitted, noted, p, hash) <==> SentBefore(emitted, historical, p, hash);
    }
  }

  lemma LockOrderedIff(emitted: seq<Emission>, historical: map<Buffer, nat>, lock: InstantLock)
    ensures InOrder(emitted + [SentLock(lock)], historical) <==> InOrder(emitted, historical)
  {
    InOrderAppendIff(emitted, [SentLock(lock)], historical);
  }

  lemma ReactOrderedIff(s: Stream, event: StreamEvent)
    requires Matched(s)
    ensures Ordered(React(s, event)) <==> Ordered(s) && (IsTurn(s, event) ==> PendingReady(s))
  {
    if IsTurn(s, event) {
      TurnOrderedIff(s.(phase := Sending));
    } else {
      match event
      case BlockArrives(b) => TestEachEmitsNothing(s, b.transactions);
      case LockArrives(lock, _) => LockOrderedIff(s.emitted, s.historical, lock);
      case HistoricalBlockSent(_, hashes) => NotedOrderedIff(s.emitted, s.historical, hashes);
      case _ =>
    }
  }

  /** Over any run at all: whenever the loop sends a Merkle block the client has
      all transactions it flags, if and only if before each turn of the loop every
      Merkle block still to be sent flags only what is cached or was sent. */
  lemma {:induction false} StreamIsCompleteIff(filter: Filter, events: seq<StreamEvent>)
    ensures Ordered(RunStream(Start(filter), events)) <==> ReadyAtTurns(Start(filter), events)
    decreases |events|
  {
    if events != [] {
      var front := events[..|events| - 1];
      StreamIsCompleteIff(filter, front);
      StreamMatches(filter, front);
      ReactOrderedIff(RunStream(Start(filter), front), events[|events| - 1]);
    }
  }

  // ------------------------------------------------- when readiness survives an event

  /** None of the transactions that a Merkle block still to be sent flags is lost
      with `removed`: what the removed block holds of them was sent. */
  ghost predicate SparesUnsent(t: Stream, removed: Block) {
    forall i :: 0 <= i < |t.cache.merkleBlocks| && !t.cache.merkleBlocks[i].isRetrieved ==>
      FlagsSent(t, t.cache.merkleBlocks[i].item, Hashes(removed.transactions))
  }

  ghost predicate FlagsSent(t: Stream, m: MerkleBlock, keys: seq<Buffer>) {
    && |m.matchedFlags| == |m.transactionHashes|
    && forall j :: 0 <= j < |m.matchedFlags| && m.matchedFlags[j] && m.transactionHashes[j] in keys ==>
         WasSent(t, m.transactionHashes[j])
  }

  /** If the event removes a block, it spares what was not sent. */
  ghost predicate SparedBy(s: Stream, event: StreamEvent) {
    s.phase != Disconnected ==>
      match event
      case BlockArrives(b) =>
        var c := TestMissed(s, b).cache;
        Evicts(c, b) ==> SparesUnsent(React(s, event), (c.blocks + [b])[0])
      case HistoricalBlockSent(hash, _) =>
        var b := FindBlock(s.cache.blocks, hash);
        b.Some? ==> SparesUnsent(React(s, event), b.value)
      case _ => true
  }

  lemma SentStays(s: Stream, t: Stream, hash: Buffer)
    requires s.emitted <= t.emitted && forall h :: h in s.historical ==> h in t.historical
    requires WasSent(s, hash)
    ensures WasSent(t, hash)
  {
    if hash !in s.historical {
      var q :| 0 <= q < |s.emitted| && s.emitted[q].SentTransaction? && s.emitted[q].transaction.hash == hash;
      assert t.emitted[q] == s.emitted[q];
    }
  }

  /** More cached, more sent: what was ready stays so. */
  lemma AddingReady(s: Stream, t: Stream)
    requires PendingReady(s) && t.cache.merkleBlocks == s.cache.merkleBlocks
    requires s.cache.transactions <= t.cache.transactions
    requires s.emitted <= t.emitted && forall h :: h in s.historical ==> h in t.historical
    ensures PendingReady(t)
  {
    forall h | IsCached(s.cache.transactions, h) ensures IsCached(t.cache.transactions, h) {
      var c :| c in s.cache.transactions && c.item.hash == h;
      assert c in t.cache.transactions;
    }
    forall h | WasSent(s, h) ensures WasSent(t, h) {
      SentStays(s, t, h);
    }
    forall i | 0 <= i < |t.cache.merkleBlocks| && !t.cache.merkleBlocks[i].isRetrieved
      ensures Ready(t, t.cache.merkleBlocks[i].item)
    {
      assert Ready(s, s.cache.merkleBlocks[i].item);
    }
  }

  /** Removing a block keeps the rest ready exactly when it spares what was not sent. */
  lemma RemovalReadyIff(s: Stream, t: Stream, b: Block)
    requires PendingReady(s)
    requires t.cache.transactions == Without(TransactionHash, s.cache.transactions, Hashes(b.transactions))
    requires t.cache.merkleBlocks == WithoutLast(s.cache.merkleBlocks, IsMerkleBlock(b.hash))
    requires s.emitted <= t.emitted && forall h :: h in s.historical ==> h in t.historical
    ensures PendingReady(t) <==> SparesUnsent(t, b)
  {
    var ms := t.cache.merkleBlocks;
    WithoutLastAbsent(s.cache.merkleBlocks, IsMerkleBlock(b.hash));
    forall i | 0 <= i < |ms| && !ms[i].isRetrieved
      ensures Ready(t, ms[i].item) <==> FlagsSent(t, ms[i].item, Hashes(b.transactions))
    {
      assert ms[i] in ms;
      var k :| 0 <= k < |s.cache.merkleBlocks| && s.cache.merkleBlocks[k] == ms[i];
      assert Ready(s, s.cache.merkleBlocks[k].item);
      OneReadyIff(s, t, ms[i].item, Hashes(b.transactions));
    }
  }

  lemma OneReadyIff(s: Stream, t: Stream, m: MerkleBlock, keys: seq<Buffer>)
    requires Ready(s, m)
    requires t.cache.transactions == Without(TransactionHash, s.cache.transactions, keys)
    requires s.emitted <= t.emitted && forall h :: h in s.historical ==> h in t.historical
    ensures Ready(t, m) <==> FlagsSent(t, m, keys)
  {
    forall j | 0 <= j < |m.matchedFlags| && m.matchedFlags[j]
      ensures var h := m.transactionHashes[j];
        IsCached(t.cache.transactions, h) || WasSent(t, h) <==> (h in keys ==> WasSent(t, h))
    {
      var h := m.transactionHashes[j];
      WithoutCached(s.cache.transactions, keys, h);
      if WasSent(s, h) {
        SentStays(s, t, h);
      }
    }
  }

  lemma {:induction false} TestEachGrows(s: Stream, txs: seq<Transaction>)
    ensures var t := TestEach(s, txs);
      && s.cache.transactions <= t.cache.transactions && t.cache.merkleBlocks == s.cache.merkleBlocks
      && t.cache.blocks == s.cache.blocks
    decreases |txs|
  {
    if txs != [] {
      TestEachGrows(s, txs[..|txs| - 1]);
    }
  }

  /** A new Merkle block flags only what is cached. */
  lemma PushingReady(s: Stream, b: Block)
    requires PendingReady(s) && HasMatch(s.cache, b)
    ensures PendingReady(s.(cache := PushBlock(CountBlock(s.cache), b)))
  {
    var t := s.(cache := PushBlock(CountBlock(s.cache), b));
    var n, hashes := |s.cache.merkleBlocks|, Hashes(b.transactions);
    var cached := CachedKeys(TransactionHash, s.cache.transactions);
    forall j | 0 <= j < |hashes| && hashes[j] in cached ensures IsCached(t.cache.transactions, hashes[j]) {
      var k :| 0 <= k < |cached| && cached[k] == hashes[j];
      assert s.cache.transactions[k] in s.cache.transactions;
    }
    assert Ready(t, t.cache.merkleBlocks[n].item);
    forall i | 0 <= i < n && !t.cache.merkleBlocks[i].isRetrieved ensures Ready(t, t.cache.merkleBlocks[i].item) {
      assert Ready(s, s.cache.merkleBlocks[i].item);
    }
  }

  lemma NewBlockReadyIff(s: Stream, b: Block)
    requires PendingReady(s)
    ensures var t := s.(cache := WithBlock(s.cache, b));
      PendingReady(t) <==> (Evicts(s.cache, b) ==> SparesUnsent(t, (s.cache.blocks + [b])[0]))
  {
    var t := s.(cache := WithBlock(s.cache, b));
    if HasMatch(s.cache, b) {
      var pushed := s.(cache := PushBlock(CountBlock(s.cache), b));
      PushingReady(s, b);
      if Evicts(s.cache, b) {
        RemovalReadyIff(pushed, t, (s.cache.blocks + [b])[0]);
      } else {
        assert t == pushed;
      }
    } else {
      AddingReady(s, t);
    }
  }

  lemma BlockReadyIff(s: Stream, b: Block)
    requires PendingReady(s) && s.phase != Disconnected
    ensures PendingReady(React(s, BlockArrives(b))) <==> SparedBy(s, BlockArrives(b))
  {
    var t := TestMissed(s, b);
    TestEachGrows(s, b.transactions);
    TestEachEmitsNothing(s, b.transactions);
    AddingReady(s, t);
    NewBlockReadyIff(t, b);
  }

  lemma HistoricalReadyIff(s: Stream, hash: Buffer, hashes: seq<Buffer>)
    requires PendingReady(s) && s.phase != Disconnected
    ensures PendingReady(React(s, HistoricalBlockSent(hash, hashes))) <==>
      SparedBy(s, HistoricalBlockSent(hash, hashes))
  {
    var t, b := React(s, HistoricalBlockSent(hash, hashes)), FindBlock(s.cache.blocks, hash);
    if b.Some? {
      RemovalReadyIff(s, t, b.value);
    } else {
      AddingReady(s, t);
    }
  }

  /** So it survives a historical block that comes with all cached transactions of
      the block removed for it. */
  lemma HistoricalBlockSpares(s: Stream, hash: Buffer, hashes: seq<Buffer>)
    requires PendingReady(s) && s.phase != Disconnected
    requires var b := FindBlock(s.cache.blocks, hash);
      b.Some? ==> forall h :: h in Hashes(b.value.transactions) && IsCached(s.cache.transactions, h) ==> h in hashes
    ensures PendingReady(React(s, HistoricalBlockSent(hash, hashes)))
  {
    var t, b := React(s, HistoricalBlockSent(hash, hashes)), FindBlock(s.cache.blocks, hash);
    HistoricalReadyIff(s, hash, hashes);
    if b.Some? {
      WithoutLastAbsent(s.cache.merkleBlocks, IsMerkleBlock(b.value.hash));
      var ms := t.cache.merkleBlocks;
      forall i | 0 <= i < |ms| && !ms[i].isRetrieved
        ensures FlagsSent(t, ms[i].item, Hashes(b.value.transactions))
      {
        assert ms[i] in ms;
        var k :| 0 <= k < |s.cache.merkleBlocks| && s.cache.merkleBlocks[k] == ms[i];
        FlaggedWereSent(s, t, s.cache.merkleBlocks[k].item, Hashes(b.value.transactions));
      }
    }
  }

  lemma FlaggedWereSent(s: Stream, t: Stream, m: MerkleBlock, keys: seq<Buffer>)
    requires Ready(s, m) && s.emitted <= t.emitted && forall h :: h in s.historical ==> h in t.historical
    requires forall h :: h in keys && IsCached(s.cache.transactions, h) ==> h in t.historical
    ensures FlagsSent(t, m, keys)
  {
    forall j | 0 <= j < |m.matchedFlags| && m.matchedFlags[j] && m.transactionHashes[j] in keys
      ensures WasSent(t, m.transactionHashes[j])
    {
      if !IsCached(s.cache.transactions, m.transactionHashes[j]) {
        SentStays(s, t, m.transactionHashes[j]);
      }
    }
  }

  /** Readiness survives an event if and only if a removal, should there be one,
      takes no unsent transaction that a Merkle block still to be sent flags. */
  lemma ReactReadyIff(s: Stream, event: StreamEvent)
    requires PendingReady(s)
    ensures PendingReady(React(s, event)) <==> SparedBy(s, event)
  {
    if s.phase != Disconnected {
      match event
      case BlockArrives(b) => BlockReadyIff(s, b);
      case HistoricalBlockSent(hash, hashes) => HistoricalReadyIff(s, hash, hashes);
      case MempoolDataSent => if s.phase == Collecting { TurnReady(s); }
      case Tick => if s.phase == Sending { TurnReady(s); }
      case _ => AddingReady(s, React(s, event));
    }
  }

  lemma TurnReady(s: Stream)
    ensures PendingReady(SendAll(s)) && PendingReady(SendAll(s.(phase := Sending)))
  {
  }

  ghost predicate AlwaysReady(s: Stream, events: seq<StreamEvent>)
    decreases |events|
  {
    PendingReady(RunStream(s, events)) && (events == [] || AlwaysReady(s, events[..|events| - 1]))
  }

  ghost predicate AlwaysSpared(s: Stream, events: seq<StreamEvent>)
    decreases |events|
  {
    events == [] ||
    var front := events[..|events| - 1];
    AlwaysSpared(s, front) && SparedBy(RunStream(s, front), events[|events| - 1])
  }

  /** All the time every Merkle block still to be sent is ready if and only if no
      removal takes an unsent transaction that one of them flags; and then every
      Merkle block is sent after the transactions it flags. */
  lemma {:induction false} StreamIsComplete(filter: Filter, events: seq<StreamEvent>)
    ensures AlwaysReady(Start(filter), events) <==> AlwaysSpared(Start(filter), events)
    ensures AlwaysSpared(Start(filter), events) ==>
      ReadyAtTurns(Start(filter), events) && Ordered(RunStream(Start(filter), events))
    decreases |events|
  {
    StreamIsCompleteIff(filter, events);
    if events != [] {
      var front := events[..|events| - 1];
      StreamIsComplete(filter, front);
      if AlwaysReady(Start(filter), front) {
        ReactReadyIff(RunStream(Start(filter), front), events[|events| - 1]);
      }
    }
  }

  // ---------------------------------------------------------- unrelated blocks

  lemma {:induction false} TestEachInStep(s: Stream, txs: seq<Transaction>)
    requires InStep(s.cache)
    ensures InStep(TestEach(s, txs).cache) && TestEach(s, txs).cache.blocks == s.cache.blocks
    decreases |txs|
  {
    if txs != [] {
      var t := TestEach(s, txs[..|txs| - 1]);
      TestEachInStep(s, txs[..|txs| - 1]);
      if Matches(t.filter, txs[|txs| - 1]) {
        WithTransactionInStep(t.cache, txs[|txs| - 1]);
      }
    }
  }

  lemma HistoricalBlockInStep(c: Cache, hash: Buffer)
    requires InStep(c)
    ensures InStep(WithoutBlockHash(c, hash))
  {
    var b := FindBlock(c.blocks, hash);
    if b.Some? {
      WithoutBlockInStep(c, b.value);
    }
  }

  lemma TurnInStep(c: Cache)
    requires InStep(c)
    ensures InStep(Taken(c))
  {
    RetrievedInStep(c);
    RetrievedInStep(c.(transactions := Retrieved(c.transactions)));
  }

  lemma ReactInStep(s: Stream, event: StreamEvent)
    requires InStep(s.cache) && (event.BlockArrives? ==> Fresh(s.cache.blocks, event.block))
    ensures InStep(React(s, event).cache)
  {
    match event
    case TransactionArrives(tx) => if Matches(s.filter, tx) { WithTransactionInStep(s.cache, tx); }
    case BlockArrives(b) =>
      TestEachInStep(s, b.transactions);
      WithBlockInStep(TestMissed(s, b).cache, b);
    case HistoricalBlockSent(hash, _) => HistoricalBlockInStep(s.cache, hash);
    case MempoolDataSent => TurnInStep(s.cache);
    case Tick => TurnInStep(s.cache);
    case _ =>
  }

  /** Every block that arrives is unrelated to those cached at that time. */
  ghost predicate FreshBlocks(s: Stream, events: seq<StreamEvent>)
    decreases |events|
  {
    events == [] ||
    var front, last := events[..|events| - 1], events[|events| - 1];
    FreshBlocks(s, front) && (last.BlockArrives? ==> Fresh(RunStream(s, front).cache.blocks, last.block))
  }

  lemma InStepIsReady(s: Stream)
    requires InStep(s.cache)
    ensures PendingReady(s)
  {
    forall i | 0 <= i < |s.cache.merkleBlocks| ensures Ready(s, s.cache.merkleBlocks[i].item) {
      assert Backed(s.cache.transactions, s.cache.merkleBlocks[i].item);
    }
  }

  /** While arriving blocks share neither hash nor transactions with the cached
      ones, all is ready all the time. */
  lemma {:induction false} FreshBlocksAreComplete(filter: Filter, events: seq<StreamEvent>)
    requires FreshBlocks(Start(filter), events)
    ensures AlwaysReady(Start(filter), events) && Ordered(RunStream(Start(filter), events))
    ensures InStep(RunStream(Start(filter), events).cache)
    decreases |events|
  {
    if events != [] {
      var s, last := RunStream(Start(filter), events[..|events| - 1]), events[|events| - 1];
      FreshBlocksAreComplete(filter, events[..|events| - 1]);
      ReactInStep(s, last);
    }
    InStepIsReady(RunStream(Start(filter), events));
    StreamIsComplete(filter, events);
  }
}
