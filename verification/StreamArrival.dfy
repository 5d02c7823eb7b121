/** What each event of a transaction stream achieves: what arrives is tested and
    cached, a turn of the loop sends all that waits, and what is removed is gone. */
module StreamArrival {
  import opened Buffers
  import opened Options
  import opened TransactionFilter
  import opened TransactionCache
  import opened CacheRuns
  import opened CacheDelivery
  import opened TransactionStream

  ghost predicate Caches(s: Stream, h: Buffer) {
    exists i :: 0 <= i < |s.cache.transactions| && s.cache.transactions[i].item.hash == h
  }

  lemma CachesKey(s: Stream, h: Buffer)
    ensures Caches(s, h) <==> h in CachedKeys(TransactionHash, s.cache.transactions)
  {
    var ts := s.cache.transactions;
    var keys := CachedKeys(TransactionHash, ts);
    if i :| 0 <= i < |ts| && ts[i].item.hash == h {
      assert keys[i] == h;
    }
    if h in keys {
      var i :| 0 <= i < |keys| && keys[i] == h;
      assert ts[i].item.hash == h;
    }
  }

  // ----------------------------------------------------------------- arriving

  /** The transaction `i` matches the filter as the ones before it left it. */
  ghost predicate MatchesInTurn(f: Filter, txs: seq<Transaction>, i: nat) {
    i < |txs| && Matches(TestAll(f, txs[..i]), txs[i])
  }

  ghost predicate SomeMatches(f: Filter, txs: seq<Transaction>, h: Buffer) {
    exists i: nat :: MatchesInTurn(f, txs, i) && txs[i].hash == h
  }

  lemma SomeMatchesMore(f: Filter, txs: seq<Transaction>, h: Buffer)
    requires txs != []
    ensures var front, last := txs[..|txs| - 1], txs[|txs| - 1];
      SomeMatches(f, txs, h) <==> SomeMatches(f, front, h) || (Matches(TestAll(f, front), last) && last.hash == h)
  {
    var front := txs[..|txs| - 1];
    forall i: nat | i < |front| ensures MatchesInTurn(f, txs, i) <==> MatchesInTurn(f, front, i) {
      assert txs[..i] == front[..i];
    }
    if i: nat :| MatchesInTurn(f, front, i) && front[i].hash == h {
      assert MatchesInTurn(f, txs, i);
    }
    if Matches(TestAll(f, front), txs[|front|]) {
      assert MatchesInTurn(f, txs, |front|);
    }
  }

  lemma TestCaches(s: Stream, tx: Transaction, h: Buffer)
    ensures Caches(Test(s, tx), h) <==> Caches(s, h) || (Matches(s.filter, tx) && tx.hash == h)
    ensures s.cache.transactions <= Test(s, tx).cache.transactions
    ensures forall i :: |s.cache.transactions| <= i < |Test(s, tx).cache.transactions| ==>
      Test(s, tx).cache.transactions[i] == Cached(tx, false)
  {
    var t := Test(s, tx);
    CachesKey(s, h);
    CachesKey(s, tx.hash);
    var ts, us := s.cache.transactions, t.cache.transactions;
    if i :| 0 <= i < |ts| && ts[i].item.hash == h {
      assert us[i].item.hash == h;
    }
    if Matches(s.filter, tx) {
      if Caches(s, tx.hash) {
        assert us == ts;
      } else {
        assert us[|ts|].item.hash == tx.hash;
      }
    }
  }

  /** Testing transactions one after another caches exactly those that match in
      their turn, on top of what was cached. */
  lemma {:induction false} TestEachCaches(s: Stream, txs: seq<Transaction>, h: Buffer)
    ensures var t := TestEach(s, txs);
      && t.filter == TestAll(s.filter, txs) && t.phase == s.phase
      && t.cache.blocks == s.cache.blocks && t.cache.merkleBlocks == s.cache.merkleBlocks
      && (Caches(t, h) <==> Caches(s, h) || SomeMatches(s.filter, txs, h))
      && s.cache.transactions <= t.cache.transactions
    decreases |txs|
  {
    if txs != [] {
      var front, last := txs[..|txs| - 1], txs[|txs| - 1];
      TestEachCaches(s, front, h);
      SomeMatchesMore(s.filter, txs, h);
      TestCaches(TestEach(s, front), last, h);
    }
  }

  /** Whatever matches the filter at first matches in its turn. */
  lemma MatchesAtOnce(f: Filter, txs: seq<Transaction>, i: nat)
    requires i < |txs| && Matches(f, txs[i])
    ensures MatchesInTurn(f, txs, i) && SomeMatches(f, txs, txs[i].hash)
  {
    FilterGrows(f, txs[..i]);
    MatchingIsMonotone(f, TestAll(f, txs[..i]), txs[i]);
    assert MatchesInTurn(f, txs, i);
  }

  /** The last Merkle block is that of `b`, still to be sent, and flags exactly the
      transactions whose hash is cached. */
  ghost predicate EndsWithMerkleBlockOf(s: Stream, b: Block) {
    var ms := s.cache.merkleBlocks;
    && ms != [] && !ms[|ms| - 1].isRetrieved && ms[|ms| - 1].item.headerHash == b.hash
    && |ms[|ms| - 1].item.transactionHashes| == |b.transactions| == |ms[|ms| - 1].item.matchedFlags|
    && forall i :: 0 <= i < |b.transactions| ==>
         && ms[|ms| - 1].item.transactionHashes[i] == b.transactions[i].hash
         && (ms[|ms| - 1].item.matchedFlags[i] <==> Caches(s, b.transactions[i].hash))
  }

  /** A block that arrives while no block is cached: each of its transactions is
      tested, those that match are cached, and the block is cached with its Merkle
      block if one of its transactions is now cached; the filter is as the tests
      leave it. */
  lemma BlockIsTested(s: Stream, b: Block)
    requires s.phase != Disconnected && s.cache.blocks == []
    ensures var t := React(s, BlockArrives(b));
      && t.filter == TestAll(s.filter, b.transactions)
      && (forall h :: Caches(t, h) <==> Caches(s, h) || SomeMatches(s.filter, b.transactions, h))
      && (forall i: nat :: i < |b.transactions| && Matches(s.filter, b.transactions[i]) ==>
            Caches(t, b.transactions[i].hash))
      && if SomeIsCached(t, b) then t.cache.blocks == [b] && EndsWithMerkleBlockOf(t, b)
         else t.cache.blocks == [] && t.cache.merkleBlocks == s.cache.merkleBlocks
  {
    var tested, t := TestEach(s, b.transactions), React(s, BlockArrives(b));
    forall h ensures Caches(t, h) <==> Caches(s, h) || SomeMatches(s.filter, b.transactions, h) {
      TestEachCaches(s, b.transactions, h);
      assert t.cache.transactions == tested.cache.transactions;
    }
    forall i: nat | i < |b.transactions| && Matches(s.filter, b.transactions[i])
      ensures Caches(t, b.transactions[i].hash)
    {
      MatchesAtOnce(s.filter, b.transactions, i);
    }
    TestEachCaches(s, b.transactions, []);
    AddFirstBlock(tested, b);
  }

  ghost predicate SomeIsCached(s: Stream, b: Block) {
    exists i: nat :: i < |b.transactions| && Caches(s, b.transactions[i].hash)
  }

  lemma SomeIsCachedIff(s: Stream, b: Block)
    ensures SomeIsCached(s, b) <==> HasMatch(s.cache, b)
    ensures forall i: nat :: i < |b.transactions| ==>
      (Caches(s, b.transactions[i].hash) <==>
         b.transactions[i].hash in CachedKeys(TransactionHash, s.cache.transactions))
  {
    forall i: nat | i < |b.transactions|
      ensures Caches(s, b.transactions[i].hash) <==>
        b.transactions[i].hash in CachedKeys(TransactionHash, s.cache.transactions)
    {
      CachesKey(s, b.transactions[i].hash);
    }
  }

  lemma AddFirstBlock(s: Stream, b: Block)
    requires s.cache.blocks == []
    ensures var t := s.(cache := WithBlock(s.cache, b));
      && t.cache.transactions == s.cache.transactions
      && if SomeIsCached(s, b) then t.cache.blocks == [b] && EndsWithMerkleBlockOf(t, b)
         else t.cache.blocks == [] && t.cache.merkleBlocks == s.cache.merkleBlocks
  {
    SomeIsCachedIff(s, b);
    if HasMatch(s.cache, b) {
      AddedMerkleBlock(s.cache, b);
    }
  }

  /** While a block is cached no transaction of another is tested: the block is
      added to cache and filter as they are. */
  lemma LaterBlockIsNotTested(s: Stream, b: Block)
    requires s.phase != Disconnected && s.cache.blocks != []
    ensures var t := React(s, BlockArrives(b));
      && t.filter == s.filter && t.emitted == s.emitted
      && t.cache == WithBlock(s.cache, b)
      && (!Evicts(s.cache, b) ==> t.cache.transactions == s.cache.transactions)
      && (!Evicts(s.cache, b) && SomeIsCached(s, b) ==>
            t.cache.blocks == s.cache.blocks + [b] && EndsWithMerkleBlockOf(t, b))
  {
    var t := React(s, BlockArrives(b));
    SomeIsCachedIff(s, b);
    if !Evicts(s.cache, b) && HasMatch(s.cache, b) {
      AddedMerkleBlock(s.cache, b);
      assert t.cache.transactions == s.cache.transactions;
    }
  }

  /** A transaction that matches is cached when it arrives, still to be sent unless
      its hash was cached before; one that does not match changes nothing. */
  lemma TransactionIsTested(s: Stream, tx: Transaction)
    requires s.phase != Disconnected
    ensures var t := React(s, TransactionArrives(tx));
      && t.filter == Tested(s.filter, tx)
      && (Matches(s.filter, tx) ==> Caches(t, tx.hash) && tx.hash in t.cache.registered)
      && (Matches(s.filter, tx) && !Caches(s, tx.hash) ==>
            t.cache.transactions == s.cache.transactions + [Cached(tx, false)])
      && (Matches(s.filter, tx) && Caches(s, tx.hash) ==> t.cache.transactions == s.cache.transactions)
      && (!Matches(s.filter, tx) ==> t.cache == s.cache)
  {
    TestCaches(s, tx, tx.hash);
    CachesKey(s, tx.hash);
  }

  // ------------------------------------------------------------------- sending

  lemma {:induction false} LocksSentIff(registered: map<Buffer, nat>, locks: seq<InstantLock>, lock: InstantLock)
    ensures SentLock(lock) in LocksSent(registered, locks) <==> lock in locks && lock.txid in registered
  {
    if locks != [] {
      var front, last := locks[..|locks| - 1], locks[|locks| - 1];
      LocksSentIff(registered, front, lock);
      assert locks == front + [last];
    }
  }

  /** A turn of the loop sends every transaction, Merkle block and collected lock
      that waits, the locks for waiting hashes only, and leaves nothing to send. */
  lemma TurnSendsAll(s: Stream, event: StreamEvent)
    requires IsTurn(s, event)
    ensures var t, sent := React(s, event), Added(s, event);
      && t.phase == Sending && t.emitted == s.emitted + sent
      && (forall i :: 0 <= i < |s.cache.transactions| && !s.cache.transactions[i].isRetrieved ==>
            SentTransaction(s.cache.transactions[i].item) in sent)
      && (forall i :: 0 <= i < |s.cache.merkleBlocks| && !s.cache.merkleBlocks[i].isRetrieved ==>
            SentMerkleBlock(s.cache.merkleBlocks[i].item) in sent)
      && (forall lock :: lock in s.cache.locks && lock.txid in s.cache.registered ==> SentLock(lock) in sent)
      && (forall i :: 0 <= i < |t.cache.transactions| ==> t.cache.transactions[i].isRetrieved)
      && (forall i :: 0 <= i < |t.cache.merkleBlocks| ==> t.cache.merkleBlocks[i].isRetrieved)
      && t.cache.locks == []
  {
    var txs, ms := Unretrieved(s.cache.transactions), Unretrieved(s.cache.merkleBlocks);
    var locks := LocksSent(s.cache.registered, s.cache.locks);
    EmitsAdded(s, event);
    TurnIsSend(s, event);
    UnretrievedMembers(s.cache.transactions);
    UnretrievedMembers(s.cache.merkleBlocks);
    forall tx | tx in txs ensures SentTransaction(tx) in Added(s, event) {
      var j :| 0 <= j < |txs| && txs[j] == tx;
      assert TransactionsSent(txs)[j] == SentTransaction(tx);
    }
    forall m | m in ms ensures SentMerkleBlock(m) in Added(s, event) {
      var j :| 0 <= j < |ms| && ms[j] == m;
      assert MerkleBlocksSent(ms)[j] == SentMerkleBlock(m);
    }
    forall lock | lock in s.cache.locks && lock.txid in s.cache.registered ensures SentLock(lock) in Added(s, event) {
      LocksSentIff(s.cache.registered, s.cache.locks, lock);
    }
  }

  /** So after a turn in any reachable state the client has every cached
      transaction. */
  lemma CachedWereSent(filter: Filter, events: seq<StreamEvent>, event: StreamEvent, i: nat)
    requires IsTurn(RunStream(Start(filter), events), event)
    requires i < |React(RunStream(Start(filter), events), event).cache.transactions|
    ensures var t := React(RunStream(Start(filter), events), event);
      SentTransaction(t.cache.transactions[i].item) in t.emitted
  {
    var s := RunStream(Start(filter), events);
    StreamMatches(filter, events);
    ReactMatches(s, event);
    TurnSendsAll(s, event);
    assert React(s, event).cache.transactions[i].isRetrieved;
  }

  // ------------------------------------------------------------- instant locks

  /** The locks of other transactions, in order. */
  function Others(locks: seq<InstantLock>, h: Buffer): seq<InstantLock> {
    if locks == [] then []
    else (if locks[0].txid == h then [] else [locks[0]]) + Others(locks[1..], h)
  }

  /** Collecting a lock keeps the others in order, and of this transaction the
      latest one. */
  lemma {:induction false} SetLockHolds(locks: seq<InstantLock>, lock: InstantLock)
    requires forall i, j :: 0 <= i < j < |locks| ==> locks[i].txid != locks[j].txid
    ensures var r := SetLock(locks, lock);
      && Others(r, lock.txid) == Others(locks, lock.txid)
      && lock in r && forall other :: other in r && other.txid == lock.txid ==> other == lock
  {
    if locks != [] && locks[0].txid != lock.txid {
      SetLockHolds(locks[1..], lock);
      assert SetLock(locks, lock)[1..] == SetLock(locks[1..], lock);
    } else if locks != [] {
      assert SetLock(locks, lock)[1..] == locks[1..];
      assert forall i :: 0 <= i < |locks[1..]| ==> locks[1..][i] == locks[i + 1];
    } else {
      assert Others([lock], lock.txid) == [];
    }
  }

  /** Before the mempool data is sent, a lock is collected if its transaction
      matches; afterwards it is sent at once if its hash waits, which then no
      longer does. */
  lemma LockIsTaken(s: Stream, lock: InstantLock, tx: Transaction)
    ensures var t := React(s, LockArrives(lock, tx));
      && (s.phase == Collecting && Matches(s.filter, tx) ==> lock in t.cache.locks && t.emitted == s.emitted)
      && (s.phase == Collecting && !Matches(s.filter, tx) ==> t.cache == s.cache && t.emitted == s.emitted)
      && (s.phase == Collecting ==> t.filter == Tested(s.filter, tx))
      && (s.phase == Sending && lock.txid in s.cache.registered ==>
            t.emitted == s.emitted + [SentLock(lock)] && lock.txid !in t.cache.registered)
      && (s.phase == Sending && lock.txid !in s.cache.registered ==> t == s)
  {
    LockIsSet(s.cache.locks, lock);
  }

  lemma {:induction false} LockIsSet(locks: seq<InstantLock>, lock: InstantLock)
    ensures lock in SetLock(locks, lock)
  {
    if locks != [] && locks[0].txid != lock.txid {
      LockIsSet(locks[1..], lock);
    }
  }

  // ------------------------------------------------------- removing and leaving

  /** `p` holds of `s[i]` and of nothing behind it, and `r` is `s` without it. */
  ghost predicate LosesAt<T>(s: seq<T>, p: T -> bool, i: nat, r: seq<T>) {
    i < |s| && p(s[i]) && (forall j :: i < j < |s| ==> !p(s[j])) && r == s[..i] + s[i + 1..]
  }

  /** `r` is `s` without the last element that `p` holds of, if there is one. */
  ghost predicate LosesLast<T>(s: seq<T>, p: T -> bool, r: seq<T>) {
    if forall j :: 0 <= j < |s| ==> !p(s[j]) then r == s else exists i: nat :: LosesAt(s, p, i, r)
  }

  ghost predicate IsLast<T>(s: seq<T>, p: T -> bool, i: nat) {
    i < |s| && p(s[i]) && forall j :: i < j < |s| ==> !p(s[j])
  }

  lemma {:induction false} LastHit<T>(s: seq<T>, p: T -> bool, j: nat) returns (i: nat)
    requires j < |s| && p(s[j])
    ensures IsLast(s, p, i)
    decreases |s|
  {
    var front := s[..|s| - 1];
    if p(s[|s| - 1]) {
      i := |s| - 1;
    } else {
      i := LastHit(front, p, j);
      assert forall k :: i < k < |front| ==> s[k] == front[k];
    }
  }

  lemma {:induction false} WithoutLastCuts<T>(s: seq<T>, p: T -> bool, i: nat)
    requires IsLast(s, p, i)
    ensures WithoutLast(s, p) == s[..i] + s[i + 1..]
    decreases |s|
  {
    var front, last := s[..|s| - 1], s[|s| - 1];
    assert s == front + [last];
    if i < |front| {
      WithoutLastCuts(front, p, i);
      CutInFront(front, last, i);
    }
  }

  lemma WithoutLastLoses<T>(s: seq<T>, p: T -> bool)
    ensures LosesLast(s, p, WithoutLast(s, p))
  {
    if j :| 0 <= j < |s| && p(s[j]) {
      var i := LastHit(s, p, j);
      WithoutLastCuts(s, p, i);
      assert LosesAt(s, p, i, WithoutLast(s, p));
    } else {
      WithoutLastAbsent(s, p);
    }
  }

  lemma CutInFront<T>(front: seq<T>, last: T, i: nat)
    requires i < |front|
    ensures front[..i] + front[i + 1..] + [last] == (front + [last])[..i] + (front + [last])[i + 1..]
  {
    assert (front + [last])[..i] == front[..i];
    assert (front + [last])[i + 1..] == front[i + 1..] + [last];
  }

  ghost predicate IsFirstOf(blocks: seq<Block>, hash: Buffer, i: nat) {
    i < |blocks| && blocks[i].hash == hash && forall j :: 0 <= j < i ==> blocks[j].hash != hash
  }

  lemma {:induction false} FindsFirst(blocks: seq<Block>, hash: Buffer, i: nat)
    requires IsFirstOf(blocks, hash, i)
    ensures FindBlock(blocks, hash) == Some(blocks[i])
  {
    if i > 0 {
      assert forall j :: 0 <= j < |blocks| - 1 ==> blocks[1..][j] == blocks[j + 1];
      FindsFirst(blocks[1..], hash, i - 1);
    }
  }

  /** After a historical block was sent, its transactions are no longer cached and
      all others still are, as they were; the last Merkle block and the last block
      of its hash are gone. Without a cached block of that hash nothing goes. */
  lemma HistoricalBlockIsDropped(s: Stream, hash: Buffer, hashes: seq<Buffer>, i: nat)
    requires s.phase != Disconnected
    ensures var t := React(s, HistoricalBlockSent(hash, hashes));
      && t.filter == s.filter && t.emitted == s.emitted
      && (IsFirstOf(s.cache.blocks, hash, i) ==>
            && (forall x :: x in t.cache.transactions <==>
                  x in s.cache.transactions && x.item.hash !in Hashes(s.cache.blocks[i].transactions))
            && LosesLast(s.cache.merkleBlocks, IsMerkleBlock(hash), t.cache.merkleBlocks)
            && LosesLast(s.cache.blocks, IsBlock(hash), t.cache.blocks))
      && ((forall b :: b in s.cache.blocks ==> b.hash != hash) ==> t.cache == s.cache)
  {
    if IsFirstOf(s.cache.blocks, hash, i) {
      var b := s.cache.blocks[i];
      FindsFirst(s.cache.blocks, hash, i);
      WithoutMembers(TransactionHash, s.cache.transactions, Hashes(b.transactions));
      WithoutLastLoses(s.cache.merkleBlocks, IsMerkleBlock(hash));
      WithoutLastLoses(s.cache.blocks, IsBlock(hash));
    }
  }

  /** Once the client is gone nothing happens any more. */
  lemma {:induction false} DisconnectedForGood(s: Stream, events: seq<StreamEvent>)
    ensures var t := React(s, ClientDisconnected);
      && t == s.(phase := Disconnected)
      && RunStream(t, events) == t
    decreases |events|
  {
    if events != [] {
      DisconnectedForGood(s, events[..|events| - 1]);
    }
  }
}
