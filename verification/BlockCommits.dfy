/** What the commit handler does with a running block: it is cloned onto the
    stores of the previous block and then committed on its own. */
module BlockCommits {
  import opened Buffers
  import opened Options
  import opened MerkDb
  import opened BlockExecution
  import Documents

  /** With the index accepting, a running block turns its stores into their views. */
  method Commit(b: BlockExecutionStoreTransactions)
    requires b.Steady() && b.isTransactionsStarted
    modifies b.Cells(), b.Overlays(), b.Bases()
    ensures b.Steady() && !b.isTransactionsStarted && b.Overlays() <= old(b.Overlays())
    ensures forall i :: 0 <= i < COUNT ==>
      b.merk[i].merkDB.contents == View(old(b.merk[i].merkDB.contents), old(b.merk[i].Changes()))
  {
    ghost var before := b.BlockView();
    SteadyIsMatching(b);
    StepMatches(before, CommitAll(true));
    assert forall i :: 0 <= i < COUNT ==> before.subs[i] == Sub(b.merk[i].merkDB.contents, Some(b.merk[i].Changes()));
    var _ := b.Commit(true);
    SteadyIsMatching(b);
    CommitsViews(before);
    assert b.BlockView() == Step(before, CommitAll(true));
    assert forall i :: 0 <= i < COUNT ==> b.SubView(i) == b.BlockView().subs[i];
  }

  lemma CommitsViews(block: Block)
    requires FlagMatches(block) && block.started
    ensures var t := Step(block, CommitAll(true));
      !t.started && |t.subs| == COUNT && forall i :: 0 <= i < COUNT ==>
        t.subs[i] == Sub(View(block.subs[i].base, block.subs[i].overlay.value), None)
  {
  }

  /** The state of a running block's own objects, whatever its stores hold. */
  ghost predicate Running(b: BlockExecutionStoreTransactions, changes: seq<Overlay>)
    reads b.Cells(), b.Overlays()
  {
    && b.Steady() && b.isTransactionsStarted
    && |changes| == COUNT
    && forall i :: 0 <= i < COUNT ==> b.merk[i].Changes() == changes[i]
  }

  method CloneOf(main: BlockExecutionStoreTransactions, ghost changes: seq<Overlay>,
                 stores: seq<MerkDbStore>, mongo: Documents.Mongo) returns (next: BlockExecutionStoreTransactions)
    requires DifferentTrees(stores) && Running(main, changes)
    ensures Running(next, changes) && fresh(next.Cells()) && fresh(next.Overlays())
    ensures next.documents.mongoDbTransaction.mongo == mongo
    ensures forall i :: 0 <= i < COUNT ==> next.merk[i].merkDB == stores[i].db
  {
    var clone := CloneToPreviousStoreTransactions(stores, mongo, main);
    next := clone;
    forall i | 0 <= i < COUNT ensures next.merk[i].db != null && next.merk[i].Changes() == changes[i] {
      assert next.SubView(i).overlay == main.SubView(i).overlay == Some(changes[i]);
    }
  }

  /** With the flag right, aborting a running block leaves its stores alone. */
  method Abort(b: BlockExecutionStoreTransactions)
    requires b.Steady() && b.isTransactionsStarted
    modifies b.Cells(), b.Overlays()
    ensures b.Steady() && !b.isTransactionsStarted
  {
    SteadyIsMatching(b);
    ghost var before := b.BlockView();
    StepMatches(before, AbortAll);
    var _ := b.Abort();
    assert Succeeds(before, AbortAll);
    SteadyIsMatching(b);
  }

  // ------------------------------------------- a block and what it leaves alone

  ghost function Own(b: BlockExecutionStoreTransactions): set<object>
    reads b.merk
  {
    b.Cells() + b.Overlays()
  }

  /** A block with its changes if it runs, whose own objects are within `own`. */
  ghost predicate Held(b: BlockExecutionStoreTransactions, changes: Option<seq<Overlay>>, own: set<object>)
    reads own
  {
    && b.Cells() <= own && b.Overlays() <= own
    && b.Steady() && (b.isTransactionsStarted <==> changes.Some?)
    && (changes.Some? ==> Running(b, changes.value))
  }

  ghost predicate IsOn(b: BlockExecutionStoreTransactions, stores: seq<MerkDbStore>, mongo: Documents.Mongo) {
    && |stores| == COUNT == |b.merk| && b.documents.mongoDbTransaction.mongo == mongo
    && forall i :: 0 <= i < COUNT ==> b.merk[i].merkDB == stores[i].db
  }

  ghost function Trees(stores: seq<MerkDbStore>, mongo: Documents.Mongo): set<object> {
    {mongo} + set s | s in stores :: s.db
  }

  lemma BasesAreTrees(b: BlockExecutionStoreTransactions, stores: seq<MerkDbStore>, mongo: Documents.Mongo)
    requires IsOn(b, stores, mongo)
    ensures b.Bases() == Trees(stores, mongo)
  {
    forall o | o in b.Bases() ensures o in Trees(stores, mongo) {
      if o != mongo {
        var i :| 0 <= i < COUNT && b.merk[i].merkDB == o;
        assert stores[i] in stores;
      }
    }
    forall o | o in Trees(stores, mongo) ensures o in b.Bases() {
      if o != mongo {
        var i :| 0 <= i < COUNT && stores[i].db == o;
        assert b.merk[i] in b.merk;
      }
    }
  }

  /** The trees a block runs on hold `contents`. */
  ghost predicate Holds(b: BlockExecutionStoreTransactions, contents: seq<Entries>)
    reads b.Bases()
  {
    |b.merk| == COUNT == |contents| && forall i :: 0 <= i < COUNT ==> b.merk[i].merkDB.contents == contents[i]
  }

  function Views(contents: seq<Entries>, changes: seq<Overlay>): (r: seq<Entries>)
    requires |contents| == |changes|
    ensures |r| == |contents| && forall i :: 0 <= i < |r| ==> r[i] == View(contents[i], changes[i])
  {
    seq(|contents|, i requires 0 <= i < |contents| => View(contents[i], changes[i]))
  }

  /** Blocks beside the one that is committed. */
  datatype Beside = Beside(blocks: seq<BlockExecutionStoreTransactions>, changes: seq<Option<seq<Overlay>>>,
                           owns: seq<set<object>>)
  {
    ghost predicate Shape() {
      |blocks| == |changes| == |owns|
    }

    ghost function With(b: BlockExecutionStoreTransactions, c: Option<seq<Overlay>>, own: set<object>): Beside {
      Beside(blocks + [b], changes + [c], owns + [own])
    }
  }

  ghost predicate AllHeld(others: Beside)
    reads set own, o | own in others.owns && o in own :: o
  {
    others.Shape() && forall j :: 0 <= j < |others.blocks| ==> Held(others.blocks[j], others.changes[j], others.owns[j])
  }

  ghost predicate AllApart(others: Beside, objects: set<object>) {
    forall j :: 0 <= j < |others.owns| ==> objects !! others.owns[j]
  }

  lemma OneMore(others: Beside, b: BlockExecutionStoreTransactions, c: Option<seq<Overlay>>, own: set<object>)
    requires others.Shape()
    ensures AllHeld(others.With(b, c, own)) <==> AllHeld(others) && Held(b, c, own)
    ensures forall objects :: AllApart(others.With(b, c, own), objects) <==> AllApart(others, objects) && objects !! own
  {
    var more, n := others.With(b, c, own), |others.blocks|;
    assert more.blocks[n] == b && more.changes[n] == c && more.owns[n] == own;
    assert forall j :: 0 <= j < n ==>
      more.blocks[j] == others.blocks[j] && more.changes[j] == others.changes[j] && more.owns[j] == others.owns[j];
  }

  /** Committing one block leaves all others as they were. */
  method CommitBesideHeld(b: BlockExecutionStoreTransactions, ghost changes: seq<Overlay>, ghost own: set<object>,
                          ghost contents: seq<Entries>, ghost others: Beside)
    requires Held(b, Some(changes), own) && Holds(b, contents)
    requires AllHeld(others) && AllApart(others, own + b.Bases())
    modifies own, b.Bases()
    ensures Held(b, None, own) && Holds(b, Views(contents, changes))
    ensures AllHeld(others)
  {
    Commit(b);
    forall j | 0 <= j < |others.blocks| ensures Held(others.blocks[j], others.changes[j], others.owns[j]) {
      assert unchanged(others.owns[j]);
    }
  }

  /** The clone of a running block consists of new objects. */
  method CloneHeld(main: BlockExecutionStoreTransactions, ghost changes: seq<Overlay>, ghost own: set<object>,
                   stores: seq<MerkDbStore>, mongo: Documents.Mongo)
      returns (next: BlockExecutionStoreTransactions, ghost nextOwn: set<object>)
    requires DifferentTrees(stores) && Held(main, Some(changes), own)
    ensures Held(next, Some(changes), nextOwn) && fresh(nextOwn) && IsOn(next, stores, mongo)
    ensures own + main.Bases() !! nextOwn
  {
    next := CloneOf(main, changes, stores, mongo);
    nextOwn := Own(next);
  }

  method CloneBeside(main: BlockExecutionStoreTransactions, ghost changes: seq<Overlay>, ghost own: set<object>,
                     stores: seq<MerkDbStore>, mongo: Documents.Mongo, ghost others: Beside)
      returns (next: BlockExecutionStoreTransactions, ghost nextOwn: set<object>)
    requires DifferentTrees(stores) && Held(main, Some(changes), own)
    requires AllHeld(others) && AllApart(others, own + main.Bases())
    ensures fresh(nextOwn) && IsOn(next, stores, mongo)
    ensures Held(main, Some(changes), own)
    ensures var more := others.With(next, Some(changes), nextOwn);
      AllHeld(more) && AllApart(more, own + main.Bases())
  {
    next, nextOwn := CloneHeld(main, changes, own, stores, mongo);
    OneMore(others, next, Some(changes), nextOwn);
  }

  /** A block is cloned onto the previous stores and committed, while other blocks
      wait. */
  method CloneThenCommit(main: BlockExecutionStoreTransactions, ghost changes: seq<Overlay>, ghost own: set<object>,
                         ghost contents: seq<Entries>, stores: seq<MerkDbStore>, mongo: Documents.Mongo,
                         ghost others: Beside)
      returns (next: BlockExecutionStoreTransactions, ghost nextOwn: set<object>)
    requires DifferentTrees(stores) && Held(main, Some(changes), own) && Holds(main, contents)
    requires AllHeld(others) && AllApart(others, own + main.Bases())
    modifies own, main.Bases()
    ensures fresh(nextOwn) && IsOn(next, stores, mongo)
    ensures Held(main, None, own) && Holds(main, Views(contents, changes))
    ensures AllHeld(others.With(next, Some(changes), nextOwn))
  {
    next, nextOwn := CloneBeside(main, changes, own, stores, mongo, others);
    CommitBesideHeld(main, changes, own, contents, others.With(next, Some(changes), nextOwn));
  }

  ghost predicate TreesHold(stores: seq<MerkDbStore>, contents: seq<Entries>)
    reads set s | s in stores :: s.db
  {
    |stores| == COUNT == |contents| && forall i :: 0 <= i < COUNT ==> stores[i].db.contents == contents[i]
  }

  lemma TreesOfBlock(b: BlockExecutionStoreTransactions, stores: seq<MerkDbStore>, mongo: Documents.Mongo,
                     contents: seq<Entries>)
    requires IsOn(b, stores, mongo)
    ensures b.Bases() == Trees(stores, mongo)
    ensures Holds(b, contents) <==> TreesHold(stores, contents)
  {
    BasesAreTrees(b, stores, mongo);
  }

  /** The waiting clone is committed on the previous stores, beside the block and
      its own clone. */
  method CommitWaiting(waiting: BlockExecutionStoreTransactions, ghost waits: seq<Overlay>,
                       ghost waitingOwn: set<object>,
                       ghost previous: seq<Entries>, ghost others: Beside,
                       main: BlockExecutionStoreTransactions, ghost contents: seq<Entries>)
    requires Held(waiting, Some(waits), waitingOwn) && Holds(waiting, previous)
    requires AllHeld(others) && AllApart(others, waitingOwn + waiting.Bases())
    requires Holds(main, contents) && waitingOwn + waiting.Bases() !! main.Bases()
    modifies waitingOwn, waiting.Bases()
    ensures Holds(waiting, Views(previous, waits)) && AllHeld(others) && Holds(main, contents)
  {
    CommitBesideHeld(waiting, waits, waitingOwn, previous, others);
  }

  const NOBODY := Beside([], [], [])

  lemma Single(b: BlockExecutionStoreTransactions, c: Option<seq<Overlay>>, own: set<object>)
    ensures AllHeld(NOBODY.With(b, c, own)) <==> Held(b, c, own)
    ensures forall objects :: AllApart(NOBODY.With(b, c, own), objects) <==> objects !! own
  {
    OneMore(NOBODY, b, c, own);
  }

  lemma Two(a: BlockExecutionStoreTransactions, c: Option<seq<Overlay>>, own: set<object>,
            b: BlockExecutionStoreTransactions, d: Option<seq<Overlay>>, next: set<object>)
    ensures AllHeld(NOBODY.With(a, c, own).With(b, d, next)) <==> Held(a, c, own) && Held(b, d, next)
    ensures forall objects ::
      AllApart(NOBODY.With(a, c, own).With(b, d, next), objects) <==> objects !! own && objects !! next
  {
    OneMore(NOBODY, a, c, own);
    OneMore(NOBODY.With(a, c, own), b, d, next);
  }

  /** The clone that waited is committed on the previous stores: neither the block
      nor its own clone notices. */
  method CommitPrevious(waiting: BlockExecutionStoreTransactions, ghost waits: seq<Overlay>,
                        ghost waitingOwn: set<object>,
                        stores: seq<MerkDbStore>, mongo: Documents.Mongo, ghost previous: seq<Entries>,
                        main: BlockExecutionStoreTransactions, ghost own: set<object>, ghost contents: seq<Entries>,
                        next: BlockExecutionStoreTransactions, ghost changes: seq<Overlay>, ghost nextOwn: set<object>)
    requires Held(waiting, Some(waits), waitingOwn) && IsOn(waiting, stores, mongo) && TreesHold(stores, previous)
    requires Held(main, None, own) && Holds(main, contents) && Held(next, Some(changes), nextOwn)
    requires own + main.Bases() !! waitingOwn + Trees(stores, mongo)
    requires nextOwn !! waitingOwn + Trees(stores, mongo)
    modifies waitingOwn, Trees(stores, mongo)
    ensures Held(main, None, own) && Holds(main, contents) && Held(next, Some(changes), nextOwn)
    ensures TreesHold(stores, Views(previous, waits))
  {
    TreesOfBlock(waiting, stores, mongo, previous);
    Two(main, None, own, next, Some(changes), nextOwn);
    CommitWaiting(waiting, waits, waitingOwn, previous, NOBODY.With(main, None, own).With(next, Some(changes), nextOwn),
                  main, contents);
    Two(main, None, own, next, Some(changes), nextOwn);
    TreesOfBlock(waiting, stores, mongo, Views(previous, waits));
  }

  /** The block is cloned and committed: the clone that waits does not notice. */
  method CommitMain(main: BlockExecutionStoreTransactions, ghost changes: seq<Overlay>, ghost own: set<object>,
                    ghost contents: seq<Entries>, stores: seq<MerkDbStore>, mongo: Documents.Mongo,
                    ghost previous: seq<Entries>, waiting: BlockExecutionStoreTransactions, ghost waits: seq<Overlay>,
                    ghost waitingOwn: set<object>)
      returns (next: BlockExecutionStoreTransactions, ghost nextOwn: set<object>)
    requires DifferentTrees(stores) && Held(main, Some(changes), own) && Holds(main, contents)
    requires Held(waiting, Some(waits), waitingOwn) && TreesHold(stores, previous)
    requires own + main.Bases() !! waitingOwn + Trees(stores, mongo)
    modifies own, main.Bases()
    ensures Held(main, None, own) && Holds(main, Views(contents, changes))
    ensures Held(next, Some(changes), nextOwn) && fresh(nextOwn) && IsOn(next, stores, mongo)
    ensures Held(waiting, Some(waits), waitingOwn) && TreesHold(stores, previous)
  {
    Single(waiting, Some(waits), waitingOwn);
    next, nextOwn := CloneThenCommit(main, changes, own, contents, stores, mongo,
                                     NOBODY.With(waiting, Some(waits), waitingOwn));
    Two(waiting, Some(waits), waitingOwn, next, Some(changes), nextOwn);
  }

  /** The commit of a block while the clone of the block before waits. */
  method CommitBoth(main: BlockExecutionStoreTransactions, ghost changes: seq<Overlay>, ghost own: set<object>,
                    ghost contents: seq<Entries>, stores: seq<MerkDbStore>, mongo: Documents.Mongo,
                    ghost previous: seq<Entries>, waiting: BlockExecutionStoreTransactions, ghost waits: seq<Overlay>,
                    ghost waitingOwn: set<object>)
      returns (next: BlockExecutionStoreTransactions, ghost nextOwn: set<object>)
    requires DifferentTrees(stores) && Held(main, Some(changes), own) && Holds(main, contents)
    requires Held(waiting, Some(waits), waitingOwn) && IsOn(waiting, stores, mongo) && TreesHold(stores, previous)
    requires own + main.Bases() !! waitingOwn + Trees(stores, mongo)
    modifies own, main.Bases(), waitingOwn, Trees(stores, mongo)
    ensures Held(main, None, own) && Holds(main, Views(contents, changes))
    ensures Held(next, Some(changes), nextOwn) && fresh(nextOwn) && IsOn(next, stores, mongo)
    ensures TreesHold(stores, Views(previous, waits))
  {
    next, nextOwn := CommitMain(main, changes, own, contents, stores, mongo, previous, waiting, waits, waitingOwn);
    CommitPrevious(waiting, waits, waitingOwn, stores, mongo, previous, main, own, Views(contents, changes), next,
                   changes, nextOwn);
  }

  /** The first block: no clone waits yet. */
  method CommitFirst(main: BlockExecutionStoreTransactions, ghost changes: seq<Overlay>, ghost own: set<object>,
                     ghost contents: seq<Entries>, stores: seq<MerkDbStore>, mongo: Documents.Mongo,
                     ghost previous: seq<Entries>)
      returns (next: BlockExecutionStoreTransactions, ghost nextOwn: set<object>)
    requires DifferentTrees(stores) && Held(main, Some(changes), own) && Holds(main, contents)
    requires TreesHold(stores, previous) && own + main.Bases() !! Trees(stores, mongo)
    modifies own, main.Bases()
    ensures Held(main, None, own) && Holds(main, Views(contents, changes))
    ensures Held(next, Some(changes), nextOwn) && fresh(nextOwn) && IsOn(next, stores, mongo)
    ensures TreesHold(stores, previous)
  {
    next, nextOwn := CloneThenCommit(main, changes, own, contents, stores, mongo, NOBODY);
    Single(next, Some(changes), nextOwn);
  }

  // ----------------------------------------------------------- before the commit

  function NoChanges(): (r: seq<Overlay>)
    ensures |r| == COUNT && forall i :: 0 <= i < COUNT ==> r[i] == EMPTY
  {
    seq(COUNT, _ => EMPTY)
  }

  method StartHeld(b: BlockExecutionStoreTransactions, ghost own: set<object>) returns (ghost newOwn: set<object>)
    requires Held(b, None, own)
    modifies own
    ensures Held(b, Some(NoChanges()), newOwn) && own <= newOwn && fresh(newOwn - own)
  {
    ghost var before := b.BlockView();
    SteadyIsMatching(b);
    var _ := b.Start();
    SteadyIsMatching(b);
    StartsEmpty(before);
    StepMatches(before, StartAll);
    assert b.BlockView() == Step(before, StartAll);
    newOwn := own + Own(b);
    forall i | 0 <= i < COUNT ensures b.merk[i].db != null && b.merk[i].Changes() == NoChanges()[i] {
      assert b.SubView(i).overlay == Some(EMPTY);
    }
  }

  method WriteHeld(b: BlockExecutionStoreTransactions, ghost changes: seq<Overlay>, ghost own: set<object>, i: nat,
                   key: Buffer, value: Buffer)
    requires Held(b, Some(changes), own) && i < COUNT
    modifies own
    ensures Held(b, Some(changes[i := MerkDb.PutIn(changes[i], key, value)]), own)
  {
    b.merk[i].db.Put(key, value);
  }

  method RemoveHeld(b: BlockExecutionStoreTransactions, ghost changes: seq<Overlay>, ghost own: set<object>,
                    ghost contents: seq<Entries>, i: nat, key: Buffer)
    requires Held(b, Some(changes), own) && Holds(b, contents) && i < COUNT
    modifies own
    ensures Held(b, Some(changes[i := DeleteFrom(contents[i], changes[i], key)]), own)
  {
    var _ := b.merk[i].db.Delete(key);
  }

  method AbortHeld(b: BlockExecutionStoreTransactions, ghost changes: seq<Overlay>, ghost own: set<object>)
    requires Held(b, Some(changes), own)
    modifies own
    ensures Held(b, None, own)
  {
    Abort(b);
  }

  // ------------------------------------------------------------- before and after

  /** What is known of the main block, the waiting clone and their stores. */
  datatype Ledger = Ledger(
    changes: Option<seq<Overlay>>,   // of the running block
    contents: seq<Entries>,          // of the main stores
    previous: seq<Entries>,          // of the previous stores
    waits: seq<Overlay>,             // of the waiting clone
    own: set<object>,
    waitingOwn: set<object>
  )

  /** With its clone, the previous stores are where the main stores are. */
  ghost predicate OneBehind(waiting: BlockExecutionStoreTransactions?, l: Ledger) {
    && |l.waits| == COUNT == |l.previous|
    && l.contents == if waiting == null then l.previous else Views(l.previous, l.waits)
  }

  ghost predicate Separate(bases: set<object>, trees: set<object>, l: Ledger) {
    && l.own + bases !! l.waitingOwn + trees
    && l.own !! bases && l.waitingOwn !! trees
  }

  ghost predicate Standing(main: BlockExecutionStoreTransactions, stores: seq<MerkDbStore>, mongo: Documents.Mongo,
                           waiting: BlockExecutionStoreTransactions?, l: Ledger)
    reads l.own, l.waitingOwn, main.Bases(), Trees(stores, mongo)
  {
    && DifferentTrees(stores) && Separate(main.Bases(), Trees(stores, mongo), l) && OneBehind(waiting, l)
    && Held(main, l.changes, l.own) && Holds(main, l.contents) && TreesHold(stores, l.previous)
    && (waiting != null ==> Held(waiting, Some(l.waits), l.waitingOwn) && IsOn(waiting, stores, mongo))
  }

  method Starting(main: BlockExecutionStoreTransactions, stores: seq<MerkDbStore>, mongo: Documents.Mongo,
                  waiting: BlockExecutionStoreTransactions?, ghost l: Ledger) returns (ghost m: Ledger)
    requires Standing(main, stores, mongo, waiting, l) && l.changes.None?
    modifies l.own
    ensures Standing(main, stores, mongo, waiting, m) && m == l.(changes := Some(NoChanges()), own := m.own)
    ensures l.own <= m.own && fresh(m.own - l.own)
  {
    ghost var newOwn := StartHeld(main, l.own);
    m := l.(changes := Some(NoChanges()), own := newOwn);
  }

  method Aborting(main: BlockExecutionStoreTransactions, stores: seq<MerkDbStore>, mongo: Documents.Mongo,
                  waiting: BlockExecutionStoreTransactions?, ghost l: Ledger)
    requires Standing(main, stores, mongo, waiting, l) && l.changes.Some?
    modifies l.own
    ensures Standing(main, stores, mongo, waiting, l.(changes := None))
  {
    AbortHeld(main, l.changes.value, l.own);
  }

  function Written(l: Ledger, i: nat, key: Buffer, value: Buffer): Ledger
    requires l.changes.Some? && i < |l.changes.value|
  {
    l.(changes := Some(l.changes.value[i := MerkDb.PutIn(l.changes.value[i], key, value)]))
  }

  function Removed(l: Ledger, i: nat, key: Buffer): Ledger
    requires l.changes.Some? && i < |l.changes.value| && i < |l.contents|
  {
    l.(changes := Some(l.changes.value[i := DeleteFrom(l.contents[i], l.changes.value[i], key)]))
  }

  /** The block is committed, its clone waits, and the clone that waited has
      brought the previous stores along. */
  function Committed(l: Ledger): Ledger
    requires l.changes.Some? && |l.changes.value| == |l.contents|
  {
    l.(changes := None, contents := Views(l.contents, l.changes.value),
       previous := l.contents, waits := l.changes.value)
  }

  method Writing(main: BlockExecutionStoreTransactions, stores: seq<MerkDbStore>, mongo: Documents.Mongo,
                 waiting: BlockExecutionStoreTransactions?, ghost l: Ledger, i: nat, key: Buffer, value: Buffer)
    requires Standing(main, stores, mongo, waiting, l) && l.changes.Some? && i < COUNT
    modifies l.own
    ensures |l.changes.value| == COUNT && Standing(main, stores, mongo, waiting, Written(l, i, key, value))
  {
    WriteHeld(main, l.changes.value, l.own, i, key, value);
  }

  method Removing(main: BlockExecutionStoreTransactions, stores: seq<MerkDbStore>, mongo: Documents.Mongo,
                  waiting: BlockExecutionStoreTransactions?, ghost l: Ledger, i: nat, key: Buffer)
    requires Standing(main, stores, mongo, waiting, l) && l.changes.Some? && i < COUNT
    modifies l.own
    ensures |l.changes.value| == COUNT == |l.contents| && Standing(main, stores, mongo, waiting, Removed(l, i, key))
  {
    RemoveHeld(main, l.changes.value, l.own, l.contents, i, key);
  }

  method CommittingFirst(main: BlockExecutionStoreTransactions, stores: seq<MerkDbStore>, mongo: Documents.Mongo,
                         ghost l: Ledger)
      returns (next: BlockExecutionStoreTransactions, ghost m: Ledger)
    requires Standing(main, stores, mongo, null, l) && l.changes.Some?
    modifies l.own, main.Bases()
    ensures fresh(m.waitingOwn) && Standing(main, stores, mongo, next, m)
    ensures |l.changes.value| == COUNT == |l.contents| && m == Committed(l).(waitingOwn := m.waitingOwn)
  {
    ghost var nextOwn;
    next, nextOwn := CommitFirst(main, l.changes.value, l.own, l.contents, stores, mongo, l.previous);
    m := Committed(l).(waitingOwn := nextOwn);
  }

  method CommittingLater(main: BlockExecutionStoreTransactions, stores: seq<MerkDbStore>, mongo: Documents.Mongo,
                         waiting: BlockExecutionStoreTransactions, ghost l: Ledger)
      returns (next: BlockExecutionStoreTransactions, ghost m: Ledger)
    requires Standing(main, stores, mongo, waiting, l) && l.changes.Some?
    modifies l.own, main.Bases(), l.waitingOwn, Trees(stores, mongo)
    ensures fresh(m.waitingOwn) && Standing(main, stores, mongo, next, m)
    ensures |l.changes.value| == COUNT == |l.contents| && m == Committed(l).(waitingOwn := m.waitingOwn)
  {
    ghost var nextOwn;
    next, nextOwn := CommitBoth(main, l.changes.value, l.own, l.contents, stores, mongo, l.previous, waiting, l.waits,
                                l.waitingOwn);
    m := Committed(l).(waitingOwn := nextOwn);
  }

  method BlockOn(stores: seq<MerkDbStore>, mongo: Documents.Mongo) returns (b: BlockExecutionStoreTransactions)
    requires DifferentTrees(stores)
    ensures Held(b, None, Own(b)) && fresh(Own(b)) && IsOn(b, stores, mongo)
  {
    b := new BlockExecutionStoreTransactions(stores, mongo);
    assert forall i :: 0 <= i < COUNT ==> b.SubView(i).overlay == None;
  }

  method Beginning(stores: seq<MerkDbStore>, mongo: Documents.Mongo, previousStores: seq<MerkDbStore>,
                   previousMongo: Documents.Mongo, ghost contents: seq<Entries>)
      returns (main: BlockExecutionStoreTransactions, ghost l: Ledger)
    requires DifferentTrees(stores) && DifferentTrees(previousStores)
    requires Trees(stores, mongo) !! Trees(previousStores, previousMongo)
    requires TreesHold(stores, contents) && TreesHold(previousStores, contents)
    ensures Standing(main, previousStores, previousMongo, null, l)
    ensures IsOn(main, stores, mongo) && fresh(l.own) && l == Ledger(None, contents, contents, NoChanges(), l.own, {})
  {
    main := BlockOn(stores, mongo);
    TreesOfBlock(main, stores, mongo, contents);
    l := Ledger(None, contents, contents, NoChanges(), Own(main), {});
  }
}
