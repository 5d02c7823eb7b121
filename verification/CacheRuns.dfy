/** What every run of the cache keeps: two lists in step, hashes in a window of
    ten blocks, and nothing handed out twice. */
module CacheRuns {
  import opened Buffers
  import opened TransactionFilter
  import opened TransactionCache

  // -------------------------------------------------------- lists of cached items

  ghost predicate DistinctKeys<T>(key: T -> Buffer, s: seq<Cached<T>>) {
    forall i, j :: 0 <= i < j < |s| ==> key(s[i].item) != key(s[j].item)
  }

  /** The keys of the items not handed out yet. */
  ghost function Pending<T>(key: T -> Buffer, s: seq<Cached<T>>): multiset<Buffer> {
    if s == [] then multiset{}
    else
      Pending(key, s[..|s| - 1]) + if s[|s| - 1].isRetrieved then multiset{} else multiset{key(s[|s| - 1].item)}
  }

  ghost function KeysOf<T>(key: T -> Buffer, items: seq<T>): multiset<Buffer> {
    if items == [] then multiset{} else KeysOf(key, items[..|items| - 1]) + multiset{key(items[|items| - 1])}
  }

  lemma {:induction false} WithoutMembers<T>(key: T -> Buffer, s: seq<Cached<T>>, keys: seq<Buffer>)
    ensures forall x :: x in Without(key, s, keys) ==> x in s && key(x.item) !in keys
    ensures forall x :: x in s && key(x.item) !in keys ==> x in Without(key, s, keys)
  {
    if s != [] {
      WithoutMembers(key, s[..|s| - 1], keys);
      assert s == s[..|s| - 1] + [s[|s| - 1]];
    }
  }

  lemma {:induction false} WithoutDistinct<T>(key: T -> Buffer, s: seq<Cached<T>>, keys: seq<Buffer>)
    requires DistinctKeys(key, s)
    ensures DistinctKeys(key, Without(key, s, keys))
  {
    if s != [] {
      var front, last := s[..|s| - 1], s[|s| - 1];
      WithoutDistinct(key, front, keys);
      WithoutMembers(key, front, keys);
      var r := Without(key, front, keys);
      forall i | 0 <= i < |r| ensures key(r[i].item) != key(last.item) {
        assert r[i] in r;
        var j :| 0 <= j < |front| && front[j] == r[i];
        assert key(s[j].item) != key(s[|s| - 1].item);
      }
    }
  }

  lemma {:induction false} PendingWithout<T>(key: T -> Buffer, s: seq<Cached<T>>, keys: seq<Buffer>, k: Buffer)
    ensures Pending(key, Without(key, s, keys))[k] == if k in keys then 0 else Pending(key, s)[k]
  {
    if s != [] {
      var front, last := s[..|s| - 1], s[|s| - 1];
      var r := Without(key, front, keys);
      PendingWithout(key, front, keys, k);
      assert (r + [last])[..|r|] == r;
    }
  }

  /** Retrieving hands out exactly what was pending, and leaves nothing pending. */
  lemma {:induction false} RetrievingClears<T>(key: T -> Buffer, s: seq<Cached<T>>)
    ensures KeysOf(key, Unretrieved(s)) == Pending(key, s)
    ensures Pending(key, Retrieved(s)) == multiset{}
  {
    if s != [] {
      var front, last := s[..|s| - 1], s[|s| - 1];
      RetrievingClears(key, front);
      assert Retrieved(s)[..|s| - 1] == Retrieved(front);
      var u := Unretrieved(front);
      assert (u + [last.item])[..|u|] == u;
    }
  }

  lemma {:induction false} PendingBounded<T>(key: T -> Buffer, s: seq<Cached<T>>, k: Buffer)
    ensures k !in CachedKeys(key, s) ==> Pending(key, s)[k] == 0
    ensures DistinctKeys(key, s) ==> Pending(key, s)[k] <= 1
  {
    if s != [] {
      var front, last := s[..|s| - 1], s[|s| - 1];
      PendingBounded(key, front, k);
      assert CachedKeys(key, s) == CachedKeys(key, front) + [key(last.item)];
      if DistinctKeys(key, s) && k == key(last.item) {
        assert k !in CachedKeys(key, front);
      }
    }
  }

  // ----------------------------------------------------- the two block lists

  ghost predicate MadeFrom(m: MerkleBlock, b: Block) {
    && m.headerHash == b.hash && m.transactionHashes == Hashes(b.transactions)
    && |m.matchedFlags| == |m.transactionHashes|
  }

  /** The Merkle blocks are those of the cached blocks, position by position. */
  ghost predicate Aligned(ms: seq<Cached<MerkleBlock>>, bs: seq<Block>) {
    |ms| == |bs| && forall i :: 0 <= i < |bs| ==> MadeFrom(ms[i].item, bs[i])
  }

  lemma {:induction false} WithoutLastAligned(ms: seq<Cached<MerkleBlock>>, bs: seq<Block>, h: Buffer)
    requires Aligned(ms, bs)
    ensures Aligned(WithoutLast(ms, IsMerkleBlock(h)), WithoutLast(bs, IsBlock(h)))
  {
    if bs != [] && bs[|bs| - 1].hash != h {
      WithoutLastAligned(ms[..|ms| - 1], bs[..|bs| - 1], h);
    }
  }

  lemma {:induction false} WithoutLastAbsent<T>(s: seq<T>, p: T -> bool)
    ensures (forall x :: x in s ==> !p(x)) ==> WithoutLast(s, p) == s
    ensures (exists x :: x in s && p(x)) ==> |WithoutLast(s, p)| == |s| - 1
    ensures forall x :: x in WithoutLast(s, p) ==> x in s
  {
    if s != [] {
      var front, last := s[..|s| - 1], s[|s| - 1];
      assert s == front + [last];
      WithoutLastAbsent(front, p);
    }
  }

  predicate Evicts(c: Cache, b: Block) {
    HasMatch(c, b) && |c.blocks| >= CACHE_SIZE
  }

  /** Adding a block keeps the two lists in step if and only if it does not make
      the cache evict a block whose hash another cached block, or the new one,
      has as well. */
  lemma AddingKeepsAlignedIff(c: Cache, b: Block)
    requires Aligned(c.merkleBlocks, c.blocks)
    ensures var d := WithBlock(c, b);
      Aligned(d.merkleBlocks, d.blocks) <==>
        !(Evicts(c, b) && exists i :: 0 <= i < |c.blocks| && (c.blocks[1..] + [b])[i].hash == c.blocks[0].hash)
  {
    if Evicts(c, b) {
      var pushed := PushBlock(CountBlock(c), b);
      assert pushed.blocks[1..] == c.blocks[1..] + [b];
      EvictionAlignedIff(pushed.merkleBlocks, pushed.blocks[1..], pushed.blocks[0].hash);
    }
  }

  /** Removing the first block's data when the block itself is gone already. */
  lemma EvictionAlignedIff(ms: seq<Cached<MerkleBlock>>, rest: seq<Block>, h: Buffer)
    requires |ms| == |rest| + 1 && ms[0].item.headerHash == h
    requires forall i :: 0 <= i < |rest| ==> MadeFrom(ms[i + 1].item, rest[i])
    ensures Aligned(WithoutLast(ms, IsMerkleBlock(h)), WithoutLast(rest, IsBlock(h))) <==>
      !exists i :: 0 <= i < |rest| && rest[i].hash == h
  {
    if i :| 0 <= i < |rest| && rest[i].hash == h {
      HitShortens(ms, IsMerkleBlock(h), 0);
      HitShortens(rest, IsBlock(h), i);
    } else {
      forall i | 1 <= i < |ms| ensures ms[i].item.headerHash != h {
        assert MadeFrom(ms[(i - 1) + 1].item, rest[i - 1]);
      }
      OnlyFirstMatches(ms, h);
      WithoutLastAbsent(rest, IsBlock(h));
    }
  }

  lemma HitShortens<T>(s: seq<T>, p: T -> bool, i: nat)
    requires i < |s| && p(s[i])
    ensures |WithoutLast(s, p)| == |s| - 1
  {
    WithoutLastAbsent(s, p);
    assert s[i] in s;
  }

  lemma {:induction false} OnlyFirstMatches(ms: seq<Cached<MerkleBlock>>, h: Buffer)
    requires ms != [] && ms[0].item.headerHash == h
    requires forall i :: 1 <= i < |ms| ==> ms[i].item.headerHash != h
    ensures WithoutLast(ms, IsMerkleBlock(h)) == ms[1..]
  {
    if |ms| > 1 {
      OnlyFirstMatches(ms[..|ms| - 1], h);
    }
  }

  // -------------------------------------------------------- the cached blocks

  /** Different hashes and no transaction in common. */
  ghost predicate Unrelated(a: Block, b: Block) {
    && a.hash != b.hash
    && forall h :: h in Hashes(a.transactions) ==> h !in Hashes(b.transactions)
  }

  ghost predicate UnrelatedBlocks(bs: seq<Block>) {
    forall i, j :: 0 <= i < |bs| && 0 <= j < |bs| && i != j ==> Unrelated(bs[i], bs[j])
  }

  ghost predicate Fresh(bs: seq<Block>, b: Block) {
    forall i :: 0 <= i < |bs| ==> Unrelated(bs[i], b) && Unrelated(b, bs[i])
  }

  ghost predicate IsCached(ts: seq<Cached<Transaction>>, hash: Buffer) {
    exists t :: t in ts && t.item.hash == hash
  }

  /** All transactions the Merkle block flags are cached, and there is one. */
  ghost predicate Backed(ts: seq<Cached<Transaction>>, m: MerkleBlock) {
    && |m.matchedFlags| == |m.transactionHashes|
    && (exists j :: 0 <= j < |m.matchedFlags| && m.matchedFlags[j])
    && forall j :: 0 <= j < |m.matchedFlags| && m.matchedFlags[j] ==> IsCached(ts, m.transactionHashes[j])
  }

  ghost predicate AllBacked(ts: seq<Cached<Transaction>>, ms: seq<Cached<MerkleBlock>>) {
    forall i :: 0 <= i < |ms| ==> Backed(ts, ms[i].item)
  }

  /** Whatever is cached stays backed when no cached hash is lost. */
  lemma BackedMonotone(ts: seq<Cached<Transaction>>, us: seq<Cached<Transaction>>, ms: seq<Cached<MerkleBlock>>)
    requires AllBacked(ts, ms)
    requires forall h :: IsCached(ts, h) ==> IsCached(us, h)
    ensures AllBacked(us, ms)
  {
  }

  lemma {:induction false} WithoutLastUnrelated(bs: seq<Block>, h: Buffer)
    requires UnrelatedBlocks(bs)
    ensures var r := WithoutLast(bs, IsBlock(h));
      && UnrelatedBlocks(r) && |r| <= |bs|
      && forall i :: 0 <= i < |r| ==> r[i] in bs && r[i].hash != h
  {
    if bs != [] {
      var front, last := bs[..|bs| - 1], bs[|bs| - 1];
      assert bs == front + [last];
      WithoutLastUnrelated(front, h);
      var r := WithoutLast(front, IsBlock(h));
      if last.hash == h {
        forall i | 0 <= i < |front| ensures front[i].hash != h {
          assert Unrelated(bs[i], bs[|bs| - 1]);
        }
      } else {
        forall i | 0 <= i < |r| ensures Unrelated(r[i], last) && Unrelated(last, r[i]) {
          var j :| 0 <= j < |front| && front[j] == r[i];
          assert Unrelated(bs[j], bs[|bs| - 1]) && Unrelated(bs[|bs| - 1], bs[j]);
        }
      }
    }
  }

  ghost predicate FlagsNoneOf(m: MerkleBlock, keys: seq<Buffer>)
    requires |m.matchedFlags| == |m.transactionHashes|
  {
    forall j :: 0 <= j < |m.matchedFlags| && m.matchedFlags[j] ==> m.transactionHashes[j] !in keys
  }

  lemma WithoutCached(ts: seq<Cached<Transaction>>, keys: seq<Buffer>, h: Buffer)
    ensures IsCached(Without(TransactionHash, ts, keys), h) <==> IsCached(ts, h) && h !in keys
  {
    var us := Without(TransactionHash, ts, keys);
    WithoutMembers(TransactionHash, ts, keys);
    if IsCached(us, h) {
      var t :| t in us && t.item.hash == h;
      assert t in ts && TransactionHash(t.item) !in keys;
    }
    if IsCached(ts, h) && h !in keys {
      var t :| t in ts && t.item.hash == h;
      assert TransactionHash(t.item) !in keys;
      assert t in us;
    }
  }

  /** A Merkle block stays backed exactly when no flagged transaction is removed. */
  lemma BackedWithoutIff(ts: seq<Cached<Transaction>>, keys: seq<Buffer>, m: MerkleBlock)
    requires Backed(ts, m)
    ensures Backed(Without(TransactionHash, ts, keys), m) <==> FlagsNoneOf(m, keys)
  {
    forall j | 0 <= j < |m.matchedFlags| && m.matchedFlags[j]
      ensures IsCached(Without(TransactionHash, ts, keys), m.transactionHashes[j]) <==> m.transactionHashes[j] !in keys
    {
      assert IsCached(ts, m.transactionHashes[j]);
      WithoutCached(ts, keys, m.transactionHashes[j]);
    }
  }

  /** Removing the transactions of one block leaves what was made from an
      unrelated block backed. */
  lemma BackingStays(ts: seq<Cached<Transaction>>, removed: Block, m: MerkleBlock, b: Block)
    requires Backed(ts, m) && MadeFrom(m, b) && Unrelated(b, removed)
    ensures Backed(Without(TransactionHash, ts, Hashes(removed.transactions)), m)
  {
    BackedWithoutIff(ts, Hashes(removed.transactions), m);
  }

  // ------------------------------------------------------------- the invariant

  ghost predicate InStep(c: Cache) {
    && Aligned(c.merkleBlocks, c.blocks) && |c.blocks| <= CACHE_SIZE
    && UnrelatedBlocks(c.blocks)
    && DistinctKeys(TransactionHash, c.transactions)
    && AllBacked(c.transactions, c.merkleBlocks)
  }

  lemma WithoutBlockInStep(c: Cache, b: Block)
    requires InStep(c) && b in c.blocks
    ensures InStep(WithoutBlock(c, b))
  {
    var keys := Hashes(b.transactions);
    WithoutDistinct(TransactionHash, c.transactions, keys);
    WithoutLastAligned(c.merkleBlocks, c.blocks, b.hash);
    WithoutLastUnrelated(c.blocks, b.hash);
    var r, rs := WithoutLast(c.blocks, IsBlock(b.hash)), WithoutLast(c.merkleBlocks, IsMerkleBlock(b.hash));
    WithoutLastAbsent(c.merkleBlocks, IsMerkleBlock(b.hash));
    forall i | 0 <= i < |rs| ensures Backed(Without(TransactionHash, c.transactions, keys), rs[i].item) {
      assert rs[i] in rs;
      var j :| 0 <= j < |c.merkleBlocks| && c.merkleBlocks[j] == rs[i];
      var k :| 0 <= k < |c.blocks| && c.blocks[k] == b;
      assert MadeFrom(rs[i].item, r[i]) && r[i].hash != b.hash;
      assert Unrelated(c.blocks[j], c.blocks[k]);
      BackingStays(c.transactions, b, rs[i].item, c.blocks[j]);
    }
  }

  lemma PushBlockInStep(c: Cache, b: Block)
    requires InStep(c) && Fresh(c.blocks, b) && HasMatch(c, b)
    ensures var d := PushBlock(CountBlock(c), b);
      && Aligned(d.merkleBlocks, d.blocks) && UnrelatedBlocks(d.blocks)
      && DistinctKeys(TransactionHash, d.transactions) && AllBacked(d.transactions, d.merkleBlocks)
      && d.transactions == c.transactions && d.blocks == c.blocks + [b]
  {
    PushBlockBacked(c, b);
  }

  lemma PushBlockBacked(c: Cache, b: Block)
    requires AllBacked(c.transactions, c.merkleBlocks) && HasMatch(c, b)
    ensures AllBacked(c.transactions, PushBlock(CountBlock(c), b).merkleBlocks)
  {
    var hashes, cached := Hashes(b.transactions), CachedKeys(TransactionHash, c.transactions);
    var m := MerkleBlock(b.hash, hashes, Flags(hashes, cached));
    forall j | 0 <= j < |hashes| && hashes[j] in cached ensures IsCached(c.transactions, hashes[j]) {
      var k :| 0 <= k < |cached| && cached[k] == hashes[j];
      assert c.transactions[k] in c.transactions;
    }
    var i :| 0 <= i < |b.transactions| && b.transactions[i].hash in cached;
    assert m.matchedFlags[i];
    assert Backed(c.transactions, m);
  }

  lemma {:induction false} EvictionInStep(ts: seq<Cached<Transaction>>, ms: seq<Cached<MerkleBlock>>, bs: seq<Block>)
    requires bs != [] && Aligned(ms, bs) && UnrelatedBlocks(bs)
    requires DistinctKeys(TransactionHash, ts) && AllBacked(ts, ms)
    ensures var b, rest := bs[0], bs[1..];
      && Aligned(WithoutLast(ms, IsMerkleBlock(b.hash)), WithoutLast(rest, IsBlock(b.hash)))
      && WithoutLast(rest, IsBlock(b.hash)) == rest && UnrelatedBlocks(rest)
      && WithoutLast(ms, IsMerkleBlock(b.hash)) == ms[1..]
      && DistinctKeys(TransactionHash, Without(TransactionHash, ts, Hashes(b.transactions)))
      && AllBacked(Without(TransactionHash, ts, Hashes(b.transactions)), ms[1..])
  {
    var b, rest := bs[0], bs[1..];
    forall i | 0 <= i < |rest| ensures rest[i].hash != b.hash {
      assert Unrelated(bs[0], bs[i + 1]);
    }
    EvictionAlignedIff(ms, rest, b.hash);
    WithoutLastAbsent(rest, IsBlock(b.hash));
    WithoutDistinct(TransactionHash, ts, Hashes(b.transactions));
    forall i | 1 <= i < |ms| ensures ms[i].item.headerHash != b.hash {
      assert MadeFrom(ms[i].item, bs[i]) && Unrelated(bs[i], bs[0]);
    }
    assert MadeFrom(ms[0].item, bs[0]);
    OnlyFirstMatches(ms, b.hash);
    var ts' := Without(TransactionHash, ts, Hashes(b.transactions));
    forall i | 1 <= i < |ms| ensures Backed(ts', ms[i].item) {
      assert Unrelated(bs[i], bs[0]);
      assert MadeFrom(ms[i].item, bs[i]);
      BackingStays(ts, b, ms[i].item, bs[i]);
    }
  }

  lemma WithBlockInStep(c: Cache, b: Block)
    requires InStep(c) && Fresh(c.blocks, b)
    ensures InStep(WithBlock(c, b))
  {
    if HasMatch(c, b) {
      var d := PushBlock(CountBlock(c), b);
      PushBlockInStep(c, b);
      if |d.blocks| > CACHE_SIZE {
        EvictionInStep(d.transactions, d.merkleBlocks, d.blocks);
      }
    }
  }

  lemma WithTransactionInStep(c: Cache, tx: Transaction)
    requires InStep(c)
    ensures InStep(WithTransaction(c, tx))
  {
    WithTransactionBacked(c, tx);
    AddDistinct(c, tx);
  }

  lemma AddDistinct(c: Cache, tx: Transaction)
    requires DistinctKeys(TransactionHash, c.transactions)
    ensures DistinctKeys(TransactionHash, WithTransaction(c, tx).transactions)
  {
    var keys := CachedKeys(TransactionHash, c.transactions);
    if tx.hash !in keys {
      forall i | 0 <= i < |c.transactions| ensures c.transactions[i].item.hash != tx.hash {
        assert keys[i] in keys;
      }
    }
  }

  lemma WithTransactionBacked(c: Cache, tx: Transaction)
    requires AllBacked(c.transactions, c.merkleBlocks)
    ensures AllBacked(WithTransaction(c, tx).transactions, c.merkleBlocks)
  {
    var d := WithTransaction(c, tx);
    forall h | IsCached(c.transactions, h) ensures IsCached(d.transactions, h) {
      var t :| t in c.transactions && t.item.hash == h;
      assert t in d.transactions;
    }
    BackedMonotone(c.transactions, d.transactions, c.merkleBlocks);
  }

  lemma RetrievedBacked(c: Cache)
    requires AllBacked(c.transactions, c.merkleBlocks)
    ensures AllBacked(Retrieved(c.transactions), c.merkleBlocks)
    ensures AllBacked(c.transactions, Retrieved(c.merkleBlocks))
  {
    var marked := Retrieved(c.transactions);
    forall h | IsCached(c.transactions, h) ensures IsCached(marked, h) {
      var t :| t in c.transactions && t.item.hash == h;
      var j :| 0 <= j < |c.transactions| && c.transactions[j] == t;
      assert marked[j] in marked;
    }
    BackedMonotone(c.transactions, marked, c.merkleBlocks);
  }

  lemma RetrievedInStep(c: Cache)
    requires InStep(c)
    ensures InStep(c.(transactions := Retrieved(c.transactions)))
    ensures InStep(c.(merkleBlocks := Retrieved(c.merkleBlocks)))
  {
    RetrievedBacked(c);
    forall i | 0 <= i < |c.blocks| ensures MadeFrom(Retrieved(c.merkleBlocks)[i].item, c.blocks[i]) {
      assert MadeFrom(c.merkleBlocks[i].item, c.blocks[i]);
    }
  }

  // -------------------------------------------------------------------- runs

  datatype Event =
    | Add(transaction: Transaction)
    | NewBlock(block: Block)
    | Sent(blockHash: Buffer)          // the historical block was sent
    | TakeTransactions
    | TakeMerkleBlocks
    | Unregister(hash: Buffer)         // the instant lock arrived
    | Collect(lock: InstantLock)
    | TakeLocks

  function Step(c: Cache, event: Event): Cache {
    match event
    case Add(tx) => WithTransaction(c, tx)
    case NewBlock(b) => WithBlock(c, b)
    case Sent(hash) => WithoutBlockHash(c, hash)
    case TakeTransactions => c.(transactions := Retrieved(c.transactions))
    case TakeMerkleBlocks => c.(merkleBlocks := Retrieved(c.merkleBlocks))
    case Unregister(hash) => WithoutHash(c, hash)
    case Collect(lock) => c.(locks := SetLock(c.locks, lock))
    case TakeLocks => c.(locks := [])
  }

  function Run(c: Cache, events: seq<Event>): Cache {
    if events == [] then c else Step(Run(c, events[..|events| - 1]), events[|events| - 1])
  }

  /** Every block that arrives is unrelated to those cached at that time. */
  ghost predicate FreshRun(c: Cache, events: seq<Event>) {
    forall n {:trigger events[..n]} :: 0 <= n < |events| && events[n].NewBlock? ==>
      Fresh(Run(c, events[..n]).blocks, events[n].block)
  }

  lemma StepInStep(c: Cache, event: Event)
    requires InStep(c) && (event.NewBlock? ==> Fresh(c.blocks, event.block))
    ensures InStep(Step(c, event))
  {
    match event
    case Add(tx) => WithTransactionInStep(c, tx);
    case NewBlock(b) => WithBlockInStep(c, b);
    case Sent(hash) =>
      var b := FindBlock(c.blocks, hash);
      if b.Some? { WithoutBlockInStep(c, b.value); }
    case TakeTransactions => RetrievedInStep(c);
    case TakeMerkleBlocks => RetrievedInStep(c);
    case _ =>
  }

  lemma FreshPrefix(c: Cache, events: seq<Event>)
    requires events != [] && FreshRun(c, events)
    ensures FreshRun(c, events[..|events| - 1])
    ensures events[|events| - 1].NewBlock? ==>
      Fresh(Run(c, events[..|events| - 1]).blocks, events[|events| - 1].block)
  {
    var front := events[..|events| - 1];
    forall n {:trigger front[..n]} | 0 <= n < |front| && front[n].NewBlock?
      ensures Fresh(Run(c, front[..n]).blocks, front[n].block)
    {
      assert front[..n] == events[..n] && front[n] == events[n];
    }
  }

  /** Block cache alignment over any run: Merkle blocks and blocks stay in step,
      at most ten of each, cached transactions are pairwise distinct, and every
      cached block flags a transaction, and only transactions that are cached. */
  lemma {:induction false} RunInStep(c: Cache, events: seq<Event>)
    requires InStep(c) && FreshRun(c, events)
    ensures InStep(Run(c, events))
    decreases |events|
  {
    if events != [] {
      FreshPrefix(c, events);
      RunInStep(c, events[..|events| - 1]);
      StepInStep(Run(c, events[..|events| - 1]), events[|events| - 1]);
    }
  }

  // ------------------------------------------- when flagged transactions are lost

  /** No Merkle block of the list flags a transaction of `b`. */
  ghost predicate Spares(b: Block, ms: seq<Cached<MerkleBlock>>) {
    forall i :: 0 <= i < |ms| ==>
      && |ms[i].item.matchedFlags| == |ms[i].item.transactionHashes|
      && FlagsNoneOf(ms[i].item, Hashes(b.transactions))
  }

  /** Removing a block keeps all remaining Merkle blocks backed exactly when none
      of them flags one of its transactions. */
  lemma RemovalKeepsBackedIff(c: Cache, b: Block)
    requires AllBacked(c.transactions, c.merkleBlocks)
    ensures var d := WithoutBlock(c, b);
      AllBacked(d.transactions, d.merkleBlocks) <==> Spares(b, d.merkleBlocks)
  {
    var d := WithoutBlock(c, b);
    WithoutLastAbsent(c.merkleBlocks, IsMerkleBlock(b.hash));
    forall i | 0 <= i < |d.merkleBlocks|
      ensures Backed(c.transactions, d.merkleBlocks[i].item)
      ensures Backed(d.transactions, d.merkleBlocks[i].item) <==>
        FlagsNoneOf(d.merkleBlocks[i].item, Hashes(b.transactions))
    {
      assert d.merkleBlocks[i] in d.merkleBlocks;
      var j :| 0 <= j < |c.merkleBlocks| && c.merkleBlocks[j] == d.merkleBlocks[i];
      BackedWithoutIff(c.transactions, Hashes(b.transactions), d.merkleBlocks[i].item);
    }
  }

  /** If the event makes the cache remove a block, no remaining Merkle block flags
      one of its transactions. */
  ghost predicate Spared(c: Cache, event: Event) {
    match event
    case NewBlock(b) => Evicts(c, b) ==> Spares((c.blocks + [b])[0], WithBlock(c, b).merkleBlocks)
    case Sent(hash) =>
      var b := FindBlock(c.blocks, hash);
      b.Some? ==> Spares(b.value, WithoutBlockHash(c, hash).merkleBlocks)
    case _ => true
  }

  lemma NewBlockKeepsBackedIff(c: Cache, b: Block)
    requires AllBacked(c.transactions, c.merkleBlocks)
    ensures AllBacked(WithBlock(c, b).transactions, WithBlock(c, b).merkleBlocks) <==> Spared(c, NewBlock(b))
  {
    if HasMatch(c, b) {
      var pushed := PushBlock(CountBlock(c), b);
      PushBlockBacked(c, b);
      if Evicts(c, b) {
        RemovalKeepsBackedIff(pushed.(blocks := pushed.blocks[1..]), pushed.blocks[0]);
      }
    }
  }

  lemma StepKeepsBackedIff(c: Cache, event: Event)
    requires AllBacked(c.transactions, c.merkleBlocks)
    ensures AllBacked(Step(c, event).transactions, Step(c, event).merkleBlocks) <==> Spared(c, event)
  {
    match event
    case Add(tx) => WithTransactionBacked(c, tx);
    case NewBlock(b) => NewBlockKeepsBackedIff(c, b);
    case Sent(hash) =>
      var b := FindBlock(c.blocks, hash);
      if b.Some? { RemovalKeepsBackedIff(c, b.value); }
    case TakeTransactions => RetrievedBacked(c);
    case TakeMerkleBlocks => RetrievedBacked(c);
    case _ =>
  }

  ghost predicate AlwaysBacked(c: Cache, events: seq<Event>)
    decreases |events|
  {
    && AllBacked(Run(c, events).transactions, Run(c, events).merkleBlocks)
    && (events == [] || AlwaysBacked(c, events[..|events| - 1]))
  }

  ghost predicate AlwaysSpared(c: Cache, events: seq<Event>)
    decreases |events|
  {
    events == [] ||
    var front := events[..|events| - 1];
    AlwaysSpared(c, front) && Spared(Run(c, front), events[|events| - 1])
  }

  /** Over any run, whatever blocks arrive: all the time every cached Merkle block
      flags a transaction, and only cached ones, if and only if no removal of a
      block takes a transaction that another Merkle block flags. */
  lemma {:induction false} RunBackedIff(c: Cache, events: seq<Event>)
    requires AllBacked(c.transactions, c.merkleBlocks)
    ensures AlwaysBacked(c, events) <==> AlwaysSpared(c, events)
    decreases |events|
  {
    if events != [] {
      var front := events[..|events| - 1];
      RunBackedIff(c, front);
      if AlwaysBacked(c, front) {
        StepKeepsBackedIff(Run(c, front), events[|events| - 1]);
      }
    }
  }

  // ------------------------------------------- when the two lists get out of step

  /** The event does not make the cache evict a block whose hash another cached
      block, or the new one, has as well. */
  ghost predicate EvictsUnique(c: Cache, event: Event) {
    event.NewBlock? && Evicts(c, event.block) ==>
      forall i :: 0 <= i < |c.blocks| ==> (c.blocks[1..] + [event.block])[i].hash != c.blocks[0].hash
  }

  lemma StepKeepsAlignedIff(c: Cache, event: Event)
    requires Aligned(c.merkleBlocks, c.blocks)
    ensures Aligned(Step(c, event).merkleBlocks, Step(c, event).blocks) <==> EvictsUnique(c, event)
  {
    match event
    case NewBlock(b) => AddingKeepsAlignedIff(c, b);
    case Sent(hash) =>
      var b := FindBlock(c.blocks, hash);
      if b.Some? { WithoutLastAligned(c.merkleBlocks, c.blocks, b.value.hash); }
    case TakeMerkleBlocks =>
      forall i | 0 <= i < |c.blocks| ensures MadeFrom(Retrieved(c.merkleBlocks)[i].item, c.blocks[i]) {
        assert MadeFrom(c.merkleBlocks[i].item, c.blocks[i]);
      }
    case _ =>
  }

  ghost predicate AlwaysAligned(c: Cache, events: seq<Event>)
    decreases |events|
  {
    && Aligned(Run(c, events).merkleBlocks, Run(c, events).blocks)
    && (events == [] || AlwaysAligned(c, events[..|events| - 1]))
  }

  ghost predicate AlwaysEvictsUnique(c: Cache, events: seq<Event>)
    decreases |events|
  {
    events == [] ||
    var front := events[..|events| - 1];
    AlwaysEvictsUnique(c, front) && EvictsUnique(Run(c, front), events[|events| - 1])
  }

  /** Over any run: blocks and Merkle blocks match position by position all the
      time if and only if no evicted block has the hash of another one. */
  lemma {:induction false} RunAlignedIff(c: Cache, events: seq<Event>)
    requires Aligned(c.merkleBlocks, c.blocks)
    ensures AlwaysAligned(c, events) <==> AlwaysEvictsUnique(c, events)
    decreases |events|
  {
    if events != [] {
      var front := events[..|events| - 1];
      RunAlignedIff(c, front);
      if AlwaysAligned(c, front) {
        StepKeepsAlignedIff(Run(c, front), events[|events| - 1]);
      }
    }
  }

  lemma StepBounded(c: Cache, event: Event)
    requires DistinctKeys(TransactionHash, c.transactions) && |c.blocks| <= CACHE_SIZE
    ensures DistinctKeys(TransactionHash, Step(c, event).transactions) && |Step(c, event).blocks| <= CACHE_SIZE
  {
    match event
    case Add(tx) => AddDistinct(c, tx);
    case NewBlock(b) =>
      if Evicts(c, b) {
        WithoutDistinct(TransactionHash, c.transactions, Hashes((c.blocks + [b])[0].transactions));
        WithoutLastAbsent((c.blocks + [b])[1..], IsBlock((c.blocks + [b])[0].hash));
      }
    case Sent(hash) =>
      var b := FindBlock(c.blocks, hash);
      if b.Some? {
        WithoutDistinct(TransactionHash, c.transactions, Hashes(b.value.transactions));
        WithoutLastAbsent(c.blocks, IsBlock(b.value.hash));
      }
    case _ =>
  }

  /** Over any run, whatever blocks arrive, cached transactions are pairwise
      distinct and at most ten blocks are cached. */
  lemma {:induction false} RunBounded(c: Cache, events: seq<Event>)
    requires DistinctKeys(TransactionHash, c.transactions) && |c.blocks| <= CACHE_SIZE
    ensures DistinctKeys(TransactionHash, Run(c, events).transactions) && |Run(c, events).blocks| <= 10
    decreases |events|
  {
    if events != [] {
      RunBounded(c, events[..|events| - 1]);
      StepBounded(Run(c, events[..|events| - 1]), events[|events| - 1]);
    }
  }

  // -------------------------------------------------- a run that gets out of step

  function NewBlocks(bs: seq<Block>): (events: seq<Event>)
    ensures |events| == |bs| && forall i :: 0 <= i < |bs| ==> events[i] == NewBlock(bs[i])
  {
    seq(|bs|, i requires 0 <= i < |bs| => NewBlock(bs[i]))
  }

  function Adds(txs: seq<Transaction>): (events: seq<Event>)
    ensures |events| == |txs| && forall i :: 0 <= i < |txs| ==> events[i] == Add(txs[i])
  {
    seq(|txs|, i requires 0 <= i < |txs| => Add(txs[i]))
  }

  lemma {:induction false} AddsAreCached(txs: seq<Transaction>)
    ensures var c := Run(EMPTY, Adds(txs));
      && c.blocks == [] && c.merkleBlocks == []
      && forall tx :: tx in txs ==> tx.hash in CachedKeys(TransactionHash, c.transactions)
  {
    if txs != [] {
      var front, last := txs[..|txs| - 1], txs[|txs| - 1];
      var c, d := Run(EMPTY, Adds(front)), Run(EMPTY, Adds(txs));
      assert Adds(txs)[..|txs| - 1] == Adds(front);
      AddsAreCached(front);
      AddKeepsCached(c, last);
      assert txs == front + [last];
    }
  }

  lemma AddKeepsCached(c: Cache, tx: Transaction)
    ensures var keys := CachedKeys(TransactionHash, WithTransaction(c, tx).transactions);
      tx.hash in keys && forall k :: k in CachedKeys(TransactionHash, c.transactions) ==> k in keys
  {
    var before := CachedKeys(TransactionHash, c.transactions);
    var after := CachedKeys(TransactionHash, WithTransaction(c, tx).transactions);
    assert before <= after;
    if tx.hash !in before {
      assert after[|before|] == tx.hash;
    }
  }

  lemma BlockIsKept(c: Cache, d: Cache, b: Block)
    requires HasMatch(c, b) && d.transactions == c.transactions
    requires Aligned(d.merkleBlocks, d.blocks) && |d.blocks| < CACHE_SIZE
    ensures var e := WithBlock(d, b);
      e.blocks == d.blocks + [b] && Aligned(e.merkleBlocks, e.blocks) && e.transactions == c.transactions
  {
    assert HasMatch(d, b);
  }

  /** Up to ten blocks with a cached transaction are simply kept. */
  lemma {:induction false} BlocksAreKept(c: Cache, bs: seq<Block>)
    requires c.blocks == [] && c.merkleBlocks == []
    requires |bs| <= 10 && forall b :: b in bs ==> HasMatch(c, b)
    ensures var d := Run(c, NewBlocks(bs));
      d.blocks == bs && Aligned(d.merkleBlocks, d.blocks) && d.transactions == c.transactions
    decreases |bs|
  {
    if bs != [] {
      var front, last := bs[..|bs| - 1], bs[|bs| - 1];
      assert NewBlocks(bs)[..|bs| - 1] == NewBlocks(front);
      assert bs == front + [last];
      BlocksAreKept(c, front);
      BlockIsKept(c, Run(c, NewBlocks(front)), last);
    }
  }

  /** Evicting the first of two equal blocks. */
  lemma EvictingDuplicateMisaligns(d: Cache, last: Block)
    requires Aligned(d.merkleBlocks, d.blocks) && |d.blocks| == CACHE_SIZE
    requires d.blocks[0] == d.blocks[1] && HasMatch(d, last)
    ensures !Aligned(WithBlock(d, last).merkleBlocks, WithBlock(d, last).blocks)
  {
    AddingKeepsAlignedIff(d, last);
    assert (d.blocks[1..] + [last])[0].hash == d.blocks[0].hash;
  }

  lemma RepeatedBlockMisaligns(c: Cache, front: seq<Block>, last: Block)
    requires c.blocks == [] && c.merkleBlocks == []
    requires |front| == CACHE_SIZE && front[0] == front[1]
    requires HasMatch(c, last) && forall b :: b in front ==> HasMatch(c, b)
    ensures var d := Run(c, NewBlocks(front + [last]));
      !Aligned(d.merkleBlocks, d.blocks)
  {
    var d, events := Run(c, NewBlocks(front)), NewBlocks(front + [last]);
    BlocksAreKept(c, front);
    assert events[..CACHE_SIZE] == NewBlocks(front);
    assert Run(c, events) == Step(d, NewBlock(last));
    EvictingDuplicateMisaligns(d, last);
  }

  lemma AddedMatches(c: Cache, tx: Transaction, b: Block)
    requires tx in b.transactions && tx.hash in CachedKeys(TransactionHash, c.transactions)
    ensures HasMatch(c, b)
  {
    var j :| 0 <= j < |b.transactions| && b.transactions[j] == tx;
  }

  /** Ten blocks, each with an added transaction of its own: when the first one
      arrives twice, one list loses two of its entries and the other one only. */
  lemma DuplicateBlockMisaligns(txs: seq<Transaction>, blocks: seq<Block>)
    requires |txs| == |blocks| == 10
    requires forall i :: 0 <= i < 10 ==> txs[i] in blocks[i].transactions
    ensures var c := Run(Run(EMPTY, Adds(txs)), NewBlocks([blocks[0]] + blocks));
      !Aligned(c.merkleBlocks, c.blocks)
  {
    var c, n := Run(EMPTY, Adds(txs)), CACHE_SIZE - 1;
    var front := [blocks[0]] + blocks[..n];
    AddsAreCached(txs);
    forall b | b in blocks ensures HasMatch(c, b) {
      var i :| 0 <= i < |blocks| && blocks[i] == b;
      AddedMatches(c, txs[i], b);
    }
    assert forall b :: b in front ==> b in blocks;
    assert [blocks[0]] + blocks == front + [blocks[n]];
    RepeatedBlockMisaligns(c, front, blocks[n]);
  }
}
