/** One client's stream of new transactions: events fill the cache, a loop sends
    what the cache holds. */
module TransactionStream {
  import opened Buffers
  import opened TransactionFilter
  import opened TransactionCache
  import opened CacheRuns
  import opened CacheDelivery

  datatype Phase = Collecting | Sending | Disconnected

  datatype Emission =
    | SentTransaction(transaction: Transaction)
    | SentLock(lock: InstantLock)
    | SentMerkleBlock(merkleBlock: MerkleBlock)

  /** `historical` says of each transaction that the client got with a historical
      block how much the loop had emitted by then. */
  datatype Stream = Stream(
    cache: Cache,
    filter: Filter,
    phase: Phase,
    emitted: seq<Emission>,
    historical: map<Buffer, nat>
  )

  datatype StreamEvent =
    | TransactionArrives(transaction: Transaction)
    | BlockArrives(block: Block)
    | LockArrives(lock: InstantLock, transaction: Transaction)
    | HistoricalBlockSent(blockHash: Buffer, transactionHashes: seq<Buffer>) // sent before it, on the same call
    | MempoolDataSent
    | Tick                      // the loop's wait is over
    | ClientDisconnected

  // ---------------------------------------------------------------- the events

  /** The filter emitter's `test`, with the `match` listener. */
  function Test(s: Stream, tx: Transaction): Stream {
    s.(filter := Tested(s.filter, tx),
       cache := if Matches(s.filter, tx) then WithTransaction(s.cache, tx) else s.cache)
  }

  function TestEach(s: Stream, txs: seq<Transaction>): Stream {
    if txs == [] then s else Test(TestEach(s, txs[..|txs| - 1]), txs[|txs| - 1])
  }

  /** Without a cached block, all transactions of the one that arrives are tested. */
  function TestMissed(s: Stream, b: Block): Stream {
    if |s.cache.blocks| == 0 then TestEach(s, b.transactions) else s
  }

  function TransactionsSent(txs: seq<Transaction>): (r: seq<Emission>)
    ensures |r| == |txs| && forall i :: 0 <= i < |r| ==> r[i] == SentTransaction(txs[i])
  {
    seq(|txs|, i requires 0 <= i < |txs| => SentTransaction(txs[i]))
  }

  function MerkleBlocksSent(ms: seq<MerkleBlock>): (r: seq<Emission>)
    ensures |r| == |ms| && forall i :: 0 <= i < |r| ==> r[i] == SentMerkleBlock(ms[i])
  {
    seq(|ms|, i requires 0 <= i < |ms| => SentMerkleBlock(ms[i]))
  }

  /** The collected locks whose hash is on the waiting list. */
  function LocksSent(registered: map<Buffer, nat>, locks: seq<InstantLock>): (r: seq<Emission>)
    ensures forall e :: e in r ==> e.SentLock? && e.lock.txid in registered
  {
    if locks == [] then []
    else
      var front := LocksSent(registered, locks[..|locks| - 1]);
      if locks[|locks| - 1].txid in registered then front + [SentLock(locks[|locks| - 1])] else front
  }

  /** What one turn of the loop sends: transactions, locks, Merkle blocks. */
  function Sendable(c: Cache): seq<Emission> {
    TransactionsSent(Unretrieved(c.transactions)) + LocksSent(c.registered, c.locks)
    + MerkleBlocksSent(Unretrieved(c.merkleBlocks))
  }

  function Taken(c: Cache): Cache {
    c.(transactions := Retrieved(c.transactions), locks := [], merkleBlocks := Retrieved(c.merkleBlocks))
  }

  function SendAll(s: Stream): Stream {
    s.(cache := Taken(s.cache), emitted := s.emitted + Sendable(s.cache))
  }

  /** What the client got earlier stays as it is. */
  function Noted(historical: map<Buffer, nat>, hashes: seq<Buffer>, n: nat): map<Buffer, nat> {
    (map h | h in hashes :: n) + historical
  }

  function React(s: Stream, event: StreamEvent): Stream {
    if s.phase == Disconnected then s
    else
      match event
      case TransactionArrives(tx) => Test(s, tx)
      case BlockArrives(b) =>
        var tested := TestMissed(s, b);
        tested.(cache := WithBlock(tested.cache, b))
      case LockArrives(lock, tx) =>
        if s.phase == Collecting then
          s.(filter := Tested(s.filter, tx),
             cache := if Matches(s.filter, tx) then s.cache.(locks := SetLock(s.cache.locks, lock)) else s.cache)
        else if lock.txid in s.cache.registered then
          s.(cache := WithoutHash(s.cache, lock.txid), emitted := s.emitted + [SentLock(lock)])
        else s
      case HistoricalBlockSent(hash, transactionHashes) =>
        s.(cache := WithoutBlockHash(s.cache, hash),
           historical := Noted(s.historical, transactionHashes, |s.emitted|))
      case MempoolDataSent => if s.phase == Collecting then SendAll(s.(phase := Sending)) else s
      case Tick => if s.phase == Sending then SendAll(s) else s
      case ClientDisconnected => s.(phase := Disconnected)
  }

  function RunStream(s: Stream, events: seq<StreamEvent>): Stream {
    if events == [] then s else React(RunStream(s, events[..|events| - 1]), events[|events| - 1])
  }

  lemma JoinThree(s: seq<Emission>, a: seq<Emission>, b: seq<Emission>, c: seq<Emission>)
    ensures s + a + b + c == s + (a + b + c)
  {
  }

  // ---------------------------------------------------------------- the object

  class Subscription {
    const cache: TransactionHashesCache
    const filter: BloomFilter
    var isClientConnected: bool
    var isSending: bool          // which of the two instant lock listeners is installed
    var emitted: seq<Emission>
    ghost var historical: map<Buffer, nat>

    ghost function View(): Stream
      reads this, cache, filter
    {
      Stream(cache.View(), filter.Value(),
             if !isClientConnected then Disconnected else if isSending then Sending else Collecting,
             emitted, historical)
    }

    constructor (filter: BloomFilter)
      ensures View() == Stream(EMPTY, filter.Value(), Collecting, [], map[]) && this.filter == filter && fresh(cache)
    {
      cache := new TransactionHashesCache();
      this.filter := filter;
      isClientConnected, isSending, emitted, historical := true, false, [], map[];
    }

    method TestTransaction(tx: Transaction)
      requires isClientConnected
      modifies cache, filter
      ensures View() == Test(old(View()), tx)
    {
      var matched := filter.TestTransactionAgainstFilter(tx);
      if matched {
        var _ := cache.AddTransaction(tx);
      }
    }

    method OnTransaction(tx: Transaction)
      modifies cache, filter
      ensures View() == React(old(View()), TransactionArrives(tx))
    {
      if isClientConnected {
        TestTransaction(tx);
      }
    }

    method OnBlock(block: Block)
      modifies cache, filter
      ensures View() == React(old(View()), BlockArrives(block))
    {
      if !isClientConnected {
        return;
      }
      if |cache.blocks| == 0 {
        for i := 0 to |block.transactions|
          invariant isClientConnected == old(isClientConnected)
          invariant View() == TestEach(old(View()), block.transactions[..i])
        {
          assert block.transactions[..i + 1][..i] == block.transactions[..i];
          TestTransaction(block.transactions[i]);
        }
        assert block.transactions[..|block.transactions|] == block.transactions;
      }
      cache.AddBlock(block);
    }

    method OnInstantLock(lock: InstantLock, tx: Transaction)
      modifies this`emitted, cache, filter
      ensures View() == React(old(View()), LockArrives(lock, tx))
    {
      if !isClientConnected {
        return;
      }
      if !isSending {
        var matched := filter.TestTransactionAgainstFilter(tx);
        if matched {
          cache.AddInstantLock(lock);
        }
      } else if lock.txid in cache.transactionHashesMap {
        cache.RemoveTransactionHashFromInstantSendLockWaitingList(lock.txid);
        emitted := emitted + [SentLock(lock)];
      }
    }

    method OnHistoricalBlockSent(blockHash: Buffer, ghost transactionHashes: seq<Buffer>)
      modifies this`historical, cache
      ensures View() == React(old(View()), HistoricalBlockSent(blockHash, transactionHashes))
    {
      if isClientConnected {
        historical := Noted(historical, transactionHashes, |emitted|);
        cache.RemoveDataByBlockHash(blockHash);
      }
    }

    method OnMempoolDataSent()
      modifies this, cache
      ensures View() == React(old(View()), MempoolDataSent)
    {
      if isClientConnected && !isSending {
        isSending := true;
        SendCached();
      }
    }

    /** One turn of the loop that runs until the client is gone. */
    method OnTick()
      modifies this`emitted, cache
      ensures View() == React(old(View()), Tick)
    {
      if isClientConnected && isSending {
        SendCached();
      }
    }

    method SendCached()
      modifies this`emitted, cache
      ensures View() == SendAll(old(View()))
    {
      ghost var before := View();
      var unsentTransactions := cache.GetUnretrievedTransactions();
      emitted := emitted + TransactionsSent(unsentTransactions);
      var unretrievedInstantLocks := cache.GetUnretrievedInstantLocks();
      SendLocks(unretrievedInstantLocks);
      var unsentMerkleBlocks := cache.GetUnretrievedMerkleBlocks();
      emitted := emitted + MerkleBlocksSent(unsentMerkleBlocks);
      assert cache.View() == Taken(before.cache);
      JoinThree(before.emitted, TransactionsSent(unsentTransactions),
                LocksSent(before.cache.registered, before.cache.locks), MerkleBlocksSent(unsentMerkleBlocks));
    }

    method SendLocks(locks: seq<InstantLock>)
      modifies this`emitted
      ensures emitted == old(emitted) + LocksSent(cache.transactionHashesMap, locks)
    {
      for i := 0 to |locks|
        invariant emitted == old(emitted) + LocksSent(cache.transactionHashesMap, locks[..i])
      {
        assert locks[..i + 1][..i] == locks[..i];
        if locks[i].txid in cache.transactionHashesMap {
          emitted := emitted + [SentLock(locks[i])];
        }
      }
      assert locks[..|locks|] == locks;
    }

    method OnClientDisconnected()
      modifies this
      ensures View() == React(old(View()), ClientDisconnected)
    {
      isClientConnected := false;
    }
  }

  // ------------------------------------------------------ what a stream keeps

  /** Everything cached matched the filter, and still does. */
  ghost predicate AllMatch(f: Filter, ts: seq<Cached<Transaction>>) {
    forall i :: 0 <= i < |ts| ==> Matches(f, ts[i].item)
  }

  /** What the cache marks as handed out was sent. */
  ghost predicate MarkedWereSent(ts: seq<Cached<Transaction>>, emitted: seq<Emission>) {
    forall i :: 0 <= i < |ts| && ts[i].isRetrieved ==> SentTransaction(ts[i].item) in emitted
  }

  ghost predicate SentMatch(f: Filter, emitted: seq<Emission>) {
    forall i :: 0 <= i < |emitted| && emitted[i].SentTransaction? ==> Matches(f, emitted[i].transaction)
  }

  /** What every run keeps, whatever blocks arrive. */
  ghost predicate Matched(s: Stream) {
    && InWindow(s.cache)
    && AllMatch(s.filter, s.cache.transactions) && MarkedWereSent(s.cache.transactions, s.emitted)
    && SentMatch(s.filter, s.emitted)
    && forall h :: h in s.historical ==> s.historical[h] <= |s.emitted|
  }

  // ------------------------------------------------------------- step by step

  lemma TestedMatches(s: Stream, tx: Transaction)
    requires Matched(s)
    ensures Matched(s.(filter := Tested(s.filter, tx)))
  {
    var g := Tested(s.filter, tx);
    forall i | 0 <= i < |s.cache.transactions| ensures Matches(g, s.cache.transactions[i].item) {
      MatchingIsMonotone(s.filter, g, s.cache.transactions[i].item);
    }
    forall i | 0 <= i < |s.emitted| && s.emitted[i].SentTransaction? ensures Matches(g, s.emitted[i].transaction) {
      MatchingIsMonotone(s.filter, g, s.emitted[i].transaction);
    }
  }

  lemma TestMatches(s: Stream, tx: Transaction)
    requires Matched(s)
    ensures Matched(Test(s, tx))
  {
    TestedMatches(s, tx);
    if Matches(s.filter, tx) {
      MatchingIsMonotone(s.filter, Tested(s.filter, tx), tx);
    }
  }

  lemma {:induction false} TestEachMatches(s: Stream, txs: seq<Transaction>)
    requires Matched(s)
    ensures Matched(TestEach(s, txs))
    decreases |txs|
  {
    if txs != [] {
      TestEachMatches(s, txs[..|txs| - 1]);
      TestMatches(TestEach(s, txs[..|txs| - 1]), txs[|txs| - 1]);
    }
  }

  /** Removing transactions cannot break what is said of each of them. */
  lemma WithoutKeeps(f: Filter, ts: seq<Cached<Transaction>>, keys: seq<Buffer>, emitted: seq<Emission>)
    requires AllMatch(f, ts) && MarkedWereSent(ts, emitted)
    ensures var us := Without(TransactionHash, ts, keys);
      AllMatch(f, us) && MarkedWereSent(us, emitted)
  {
    var us := Without(TransactionHash, ts, keys);
    WithoutMembers(TransactionHash, ts, keys);
    forall i | 0 <= i < |us|
      ensures Matches(f, us[i].item) && (us[i].isRetrieved ==> SentTransaction(us[i].item) in emitted)
    {
      assert us[i] in us;
      var j :| 0 <= j < |ts| && ts[j] == us[i];
    }
  }

  lemma BlockMatches(s: Stream, b: Block)
    requires Matched(s)
    ensures Matched(s.(cache := WithBlock(s.cache, b)))
  {
    if Evicts(s.cache, b) {
      WithoutKeeps(s.filter, s.cache.transactions, Hashes(s.cache.blocks[0].transactions), s.emitted);
      assert PushBlock(CountBlock(s.cache), b).blocks[0] == s.cache.blocks[0];
    }
  }

  lemma HistoricalBlockMatches(s: Stream, hash: Buffer, hashes: seq<Buffer>)
    requires Matched(s) && s.phase != Disconnected
    ensures Matched(React(s, HistoricalBlockSent(hash, hashes)))
  {
    var b := FindBlock(s.cache.blocks, hash);
    if b.Some? {
      WithoutKeeps(s.filter, s.cache.transactions, Hashes(b.value.transactions), s.emitted);
    }
  }

  lemma {:induction false} UnretrievedMembers<T>(s: seq<Cached<T>>)
    ensures forall x :: x in Unretrieved(s) ==> Cached(x, false) in s
    ensures forall i :: 0 <= i < |s| && !s[i].isRetrieved ==> s[i].item in Unretrieved(s)
  {
    if s != [] {
      UnretrievedMembers(s[..|s| - 1]);
      assert s == s[..|s| - 1] + [s[|s| - 1]];
    }
  }

  /** After the transactions of a turn, every cached transaction was sent. */
  lemma AllCachedSent(s: Stream, i: nat)
    requires Matched(s) && i < |s.cache.transactions|
    ensures SentTransaction(s.cache.transactions[i].item) in
      s.emitted + TransactionsSent(Unretrieved(s.cache.transactions))
  {
    var ts := s.cache.transactions;
    var us := Unretrieved(ts);
    if !ts[i].isRetrieved {
      UnretrievedMembers(ts);
      var j :| 0 <= j < |us| && us[j] == ts[i].item;
      assert TransactionsSent(us)[j] == SentTransaction(ts[i].item);
      assert SentTransaction(ts[i].item) in TransactionsSent(us);
    }
  }

  lemma SendAllSent(s: Stream)
    requires Matched(s)
    ensures SentMatch(s.filter, SendAll(s).emitted)
    ensures MarkedWereSent(SendAll(s).cache.transactions, SendAll(s).emitted)
  {
    var us := Unretrieved(s.cache.transactions);
    UnretrievedMembers(s.cache.transactions);
    forall i | 0 <= i < |us| ensures Matches(s.filter, us[i]) {
      var j :| 0 <= j < |s.cache.transactions| && s.cache.transactions[j] == Cached(us[i], false);
    }
    var t, locks := SendAll(s), LocksSent(s.cache.registered, s.cache.locks);
    forall i | 0 <= i < |locks| ensures locks[i].SentLock? {
      assert locks[i] in locks;
    }
    forall i | 0 <= i < |s.cache.transactions| ensures SentTransaction(s.cache.transactions[i].item) in t.emitted {
      AllCachedSent(s, i);
    }
  }

  lemma SendAllMatches(s: Stream)
    requires Matched(s)
    ensures Matched(SendAll(s))
  {
    SendAllSent(s);
  }

  lemma ReactMatches(s: Stream, event: StreamEvent)
    requires Matched(s)
    ensures Matched(React(s, event))
  {
    if s.phase != Disconnected {
      match event
      case TransactionArrives(tx) => TestMatches(s, tx);
      case BlockArrives(b) =>
        TestEachMatches(s, b.transactions);
        BlockMatches(TestMissed(s, b), b);
      case LockArrives(lock, tx) => if s.phase == Collecting { TestedMatches(s, tx); }
      case HistoricalBlockSent(hash, hashes) => HistoricalBlockMatches(s, hash, hashes);
      case MempoolDataSent => SendAllMatches(s.(phase := Sending));
      case Tick => SendAllMatches(s);
      case ClientDisconnected =>
    }
  }

  // -------------------------------------------------------------------- runs

  ghost function Start(filter: Filter): Stream {
    Stream(EMPTY, filter, Collecting, [], map[])
  }

  /** Over any run at all, everything cached or sent matches the filter, and
      every waiting hash is at most ten blocks old. */
  lemma {:induction false} StreamMatches(filter: Filter, events: seq<StreamEvent>)
    ensures Matched(RunStream(Start(filter), events))
    decreases |events|
  {
    if events != [] {
      StreamMatches(filter, events[..|events| - 1]);
      ReactMatches(RunStream(Start(filter), events[..|events| - 1]), events[|events| - 1]);
    }
  }

  lemma RunFour(s: Stream, a: StreamEvent, b: StreamEvent, c: StreamEvent, d: StreamEvent)
    ensures RunStream(s, [a, b, c, d]) == React(React(React(React(s, a), b), c), d)
  {
    assert [a, b, c, d][..3] == [a, b, c];
    assert [a, b, c][..2] == [a, b];
    assert [a, b][..1] == [a];
    assert [a][..0] == [];
    assert RunStream(s, [a]) == React(s, a);
    assert RunStream(s, [a, b]) == React(React(s, a), b);
    assert RunStream(s, [a, b, c]) == React(React(React(s, a), b), c);
  }

  /** What an event adds to the emissions. */
  function Added(s: Stream, event: StreamEvent): seq<Emission> {
    match event
    case LockArrives(lock, _) => if s.phase == Sending && lock.txid in s.cache.registered then [SentLock(lock)] else []
    case MempoolDataSent => if s.phase == Collecting then Sendable(s.cache) else []
    case Tick => if s.phase == Sending then Sendable(s.cache) else []
    case _ => []
  }

  lemma {:induction false} TestEachEmitsNothing(s: Stream, txs: seq<Transaction>)
    ensures var t := TestEach(s, txs);
      t.emitted == s.emitted && t.phase == s.phase && t.historical == s.historical
    decreases |txs|
  {
    if txs != [] {
      TestEachEmitsNothing(s, txs[..|txs| - 1]);
    }
  }

  /** A turn of the loop: `Tick` while sending, or the first one. */
  predicate IsTurn(s: Stream, event: StreamEvent) {
    (event.Tick? && s.phase == Sending) || (event.MempoolDataSent? && s.phase == Collecting)
  }

  lemma TurnIsSend(s: Stream, event: StreamEvent)
    requires IsTurn(s, event)
    ensures React(s, event).cache == Taken(s.cache) && Added(s, event) == Sendable(s.cache)
  {
  }

  lemma EmitsAdded(s: Stream, event: StreamEvent)
    ensures React(s, event).emitted == s.emitted + Added(s, event)
  {
    if event.BlockArrives? {
      TestEachEmitsNothing(s, event.block.transactions);
    }
  }

  /** Every instant lock the stream emits is for a hash on the waiting list,
      registered at most ten blocks ago; a disconnected client gets nothing. */
  lemma LocksAreRecent(s: Stream, event: StreamEvent)
    requires InWindow(s.cache)
    ensures React(s, event).emitted == s.emitted + Added(s, event)
    ensures s.phase == Disconnected ==> Added(s, event) == [] && React(s, event) == s
    ensures forall e :: e in Added(s, event) && e.SentLock? ==>
      && e.lock.txid in s.cache.registered
      && s.cache.blocksProcessed - s.cache.registered[e.lock.txid] <= 10
  {
    if event.BlockArrives? {
      TestEachEmitsNothing(s, event.block.transactions);
    }
    var txs := TransactionsSent(Unretrieved(s.cache.transactions));
    var ms := MerkleBlocksSent(Unretrieved(s.cache.merkleBlocks));
    forall e | e in Added(s, event) && e.SentLock? ensures e.lock.txid in s.cache.registered {
      assert e !in txs && e !in ms;
    }
  }

  /** So in every reachable state, whatever event comes next. */
  lemma LocksAreRecentOverRuns(filter: Filter, events: seq<StreamEvent>, event: StreamEvent)
    ensures var s := RunStream(Start(filter), events);
      && React(s, event).emitted == s.emitted + Added(s, event)
      && forall e :: e in Added(s, event) && e.SentLock? ==>
        && e.lock.txid in s.cache.registered
        && s.cache.blocksProcessed - s.cache.registered[e.lock.txid] <= 10
  {
    StreamMatches(filter, events);
    LocksAreRecent(RunStream(Start(filter), events), event);
  }
}
