/** Stores of the previous block that follow the main stores by clones of the
    block transactions, committed later in block order. */
module BlockReplay {
  import opened Buffers
  import opened Options
  import opened MerkDb
  import BE = BlockExecution
  import Documents

  type Stores = seq<Entries>

  /** A clone keeps its own flag and overlays; the stores it is on are shared with
      all other clones and change below it. */
  datatype Clone = Clone(started: bool, overlays: seq<Option<Overlay>>)

  function OnStores(stores: Stores, c: Clone): BE.Block
    requires |stores| == |c.overlays|
  {
    BE.Block(c.started, seq(|stores|, i requires 0 <= i < |stores| => BE.Sub(stores[i], c.overlays[i])))
  }

  function StoresOf(b: BE.Block): (r: Stores)
    ensures |r| == |b.subs|
  {
    seq(|b.subs|, i requires 0 <= i < |b.subs| => b.subs[i].base)
  }

  function Detached(b: BE.Block): (r: Clone)
    ensures |r.overlays| == |b.subs|
  {
    Clone(b.started, seq(|b.subs|, i requires 0 <= i < |b.subs| => b.subs[i].overlay))
  }

  // ------------------------------------------------------- export and population

  predicate AllStarted(b: BE.Block) {
    forall i :: 0 <= i < |b.subs| ==> b.subs[i].overlay.Some?
  }

  /** `toObject`: an error unless all are started. */
  function Exported(b: BE.Block): (r: Option<seq<Overlay>>)
    ensures r.Some? <==> AllStarted(b)
    ensures r.Some? ==> |r.value| == |b.subs|
  {
    if !AllStarted(b) then None
    else Some(seq(|b.subs|, i requires 0 <= i < |b.subs| => b.subs[i].overlay.value))
  }

  /** `populateFromObject` on started transactions. */
  function Populated(b: BE.Block, raw: seq<Overlay>): (r: BE.Block)
    requires |raw| == |b.subs| && AllStarted(b)
    ensures |r.subs| == |b.subs|
  {
    b.(subs := seq(|b.subs|, i requires 0 <= i < |b.subs| =>
      b.subs[i].(overlay := Some(BE.Merged(b.subs[i].overlay.value, raw[i])))))
  }

  function NotStarted(): (r: Clone)
    ensures |r.overlays| == BE.COUNT
  {
    Clone(false, seq(BE.COUNT, _ => None))
  }

  lemma StartsOn(stores: Stores)
    requires |stores| == BE.COUNT
    ensures var b := BE.Step(OnStores(stores, NotStarted()), BE.StartAll);
      && b.started && |b.subs| == BE.COUNT
      && forall i :: 0 <= i < BE.COUNT ==> b.subs[i] == BE.Sub(stores[i], Some(EMPTY))
  {
  }

  /** `cloneToPreviousStoreTransactions`: created on the previous stores, started
      there, and populated with the exported changes of `main`. */
  function CloneOf(previous: Stores, main: BE.Block): (r: Option<Clone>)
    requires |previous| == BE.COUNT == |main.subs|
    ensures r.Some? <==> AllStarted(main)
    ensures r.Some? ==> |r.value.overlays| == BE.COUNT
  {
    StartsOn(previous);
    match Exported(main)
    case None => None
    case Some(raw) => Some(Detached(Populated(BE.Step(OnStores(previous, NotStarted()), BE.StartAll), raw)))
  }

  /** Whatever the previous stores hold, the clone has the changes of the block. */
  lemma CloneHasChanges(previous: Stores, main: BE.Block)
    requires |previous| == BE.COUNT == |main.subs| && AllStarted(main)
    ensures var c := CloneOf(previous, main).value;
      c.started && forall i :: 0 <= i < BE.COUNT ==> c.overlays[i] == main.subs[i].overlay
  {
    StartsOn(previous);
    forall i | 0 <= i < BE.COUNT ensures CloneOf(previous, main).value.overlays[i] == main.subs[i].overlay {
      BE.MergedWithEmpty(main.subs[i].overlay.value);
    }
  }

  /** What the previous stores of `CloneToPreviousStoreTransactions` hold. */
  ghost function Contents(stores: seq<MerkDbStore>): (r: Stores)
    reads set s | s in stores :: s.db
    ensures |r| == |stores| && forall i :: 0 <= i < |r| ==> r[i] == stores[i].db.contents
  {
    seq(|stores|, i requires 0 <= i < |stores| reads set s | s in stores :: s.db => stores[i].db.contents)
  }

  lemma StartedAlike(main: BE.BlockExecutionStoreTransactions)
    requires main.Valid()
    ensures main.AllStarted() <==> AllStarted(main.BlockView())
  {
    main.ViewsAre();
    if AllStarted(main.BlockView()) {
      forall i | 0 <= i < BE.COUNT ensures main.merk[i].db != null {
        assert main.BlockView().subs[i] == main.SubView(i);
      }
    }
  }

  /** The object that `CloneToPreviousStoreTransactions` makes is this clone, on
      the previous stores. */
  method CloneObject(previousStores: seq<MerkDbStore>, previousMongo: Documents.Mongo,
                     main: BE.BlockExecutionStoreTransactions)
      returns (clone: BE.BlockExecutionStoreTransactions?)
    requires BE.DifferentTrees(previousStores) && main.Valid()
    ensures clone != null <==> AllStarted(old(main.BlockView()))
    ensures clone != null ==>
      && clone.Valid() && fresh(clone.Cells()) && fresh(clone.Overlays())
      && clone.BlockView() ==
           OnStores(old(Contents(previousStores)), CloneOf(old(Contents(previousStores)), old(main.BlockView())).value)
  {
    ghost var block, stores := main.BlockView(), Contents(previousStores);
    StartedAlike(main);
    main.ViewsAre();
    clone := BE.CloneToPreviousStoreTransactions(previousStores, previousMongo, main);
    if clone != null {
      clone.ViewsAre();
      CloneHasChanges(stores, block);
    }
  }

  // -------------------------------------------------------------------- the run

  /** `history` records what the main stores held at the start and after each
      committed block; `clones` wait for their commit on the previous stores, on
      which `done` of them were committed. */
  datatype Replica = Replica(main: BE.Block, previous: Stores, clones: seq<Clone>, history: seq<Stores>, done: nat)

  datatype Event =
    | StartBlock
    | Write(i: nat, key: Buffer, value: Buffer)
    | Remove(i: nat, key: Buffer)
    | AbortBlock
    | CommitBlock(indexCommits: bool)   // the handler clones first
    | CommitOldest                      // the oldest clone, on the previous stores

  function MainEvent(event: Event): BE.BlockEvent
    requires !event.CommitOldest?
  {
    match event
    case StartBlock => BE.StartAll
    case Write(i, key, value) => BE.PutIn(i, key, value)
    case Remove(i, key) => BE.DeleteIn(i, key)
    case AbortBlock => BE.AbortAll
    case CommitBlock(indexCommits) => BE.CommitAll(indexCommits)
  }

  ghost predicate Shaped(r: Replica) {
    && |r.main.subs| == BE.COUNT == |r.previous|
    && forall n :: 0 <= n < |r.clones| ==> |r.clones[n].overlays| == BE.COUNT
  }

  /** Without a started block to clone the commit handler fails; after a refused
      commit it drops the clone and tries to abort. */
  ghost function Step(r: Replica, event: Event): (t: Replica)
    requires Shaped(r)
    ensures Shaped(t)
  {
    match event
    case CommitOldest =>
      if r.clones == [] then r
      else
        var after := BE.Step(OnStores(r.previous, r.clones[0]), BE.CommitAll(true));
        r.(previous := StoresOf(after), clones := r.clones[1..], done := r.done + 1)
    case CommitBlock(indexCommits) =>
      var clone, after := CloneOf(r.previous, r.main), BE.Step(r.main, BE.CommitAll(indexCommits));
      if clone.None? then r
      else if !BE.Succeeds(r.main, BE.CommitAll(indexCommits)) then r.(main := BE.Step(after, BE.AbortAll))
      else r.(main := after, clones := r.clones + [clone.value], history := r.history + [StoresOf(after)])
    case _ => r.(main := BE.Step(r.main, MainEvent(event)))
  }

  ghost function Run(r: Replica, events: seq<Event>): (t: Replica)
    requires Shaped(r)
    ensures Shaped(t)
    decreases |events|
  {
    if events == [] then r else Step(Run(r, events[..|events| - 1]), events[|events| - 1])
  }

  function Start(stores: Stores): Replica {
    Replica(OnStores(stores, Clone(false, seq(|stores|, _ => None))), stores, [], [stores], 0)
  }

  // --------------------------------------------------------------- the invariant

  /** Committed on `before`, the clone leaves `after`. */
  ghost predicate Leads(c: Clone, before: Stores, after: Stores) {
    && |before| == |after| == |c.overlays| == BE.COUNT
    && BE.Succeeds(OnStores(before, c), BE.CommitAll(true))
    && StoresOf(BE.Step(OnStores(before, c), BE.CommitAll(true))) == after
  }

  /** The previous stores are earlier recorded ones, and each waiting clone leads
      from one recorded state to the next. */
  ghost predicate Replays(r: Replica) {
    && Shaped(r)
    && |r.history| == r.done + 1 + |r.clones|
    && r.previous == r.history[r.done]
    && forall n :: 0 <= n < |r.clones| ==> Leads(r.clones[n], r.history[r.done + n], r.history[r.done + n + 1])
  }

  /** The main stores are the last recorded ones. */
  ghost predicate Follows(r: Replica) {
    Replays(r) && BE.FlagMatches(r.main) && StoresOf(r.main) == r.history[|r.history| - 1]
  }

  /** After a refused commit: the flag says started, and nothing is. */
  ghost predicate Dead(b: BE.Block) {
    |b.subs| == BE.COUNT && b.started && forall i :: 0 <= i < BE.COUNT ==> b.subs[i].overlay.None?
  }

  predicate Refused(r: Replica, event: Event) {
    event.CommitBlock? && r.main.started && !event.indexCommits
  }

  ghost predicate NoneRefused(r: Replica, events: seq<Event>)
    requires Shaped(r)
    decreases |events|
  {
    events == [] ||
    var front := events[..|events| - 1];
    NoneRefused(r, front) && !Refused(Run(r, front), events[|events| - 1])
  }

  lemma StartFollows(stores: Stores)
    requires |stores| == BE.COUNT
    ensures Follows(Start(stores))
  {
    assert StoresOf(Start(stores).main) == stores;
  }

  /** The clone of a block does on equal stores what the block's own commit does. */
  lemma CloneLeads(previous: Stores, main: BE.Block)
    requires |previous| == BE.COUNT && BE.FlagMatches(main) && main.started
    ensures CloneOf(previous, main).Some?
    ensures Leads(CloneOf(previous, main).value, StoresOf(main), StoresOf(BE.Step(main, BE.CommitAll(true))))
  {
    CloneHasChanges(previous, main);
    var c := CloneOf(previous, main).value;
    assert OnStores(StoresOf(main), c) == main;
  }

  lemma CommitBlockFollows(r: Replica, indexCommits: bool)
    requires Follows(r) && (r.main.started ==> indexCommits)
    ensures Follows(Step(r, CommitBlock(indexCommits)))
  {
    if r.main.started {
      var t := Step(r, CommitBlock(true));
      CloneLeads(r.previous, r.main);
      BE.StepMatches(r.main, BE.CommitAll(true));
      forall n | 0 <= n < |t.clones|
        ensures Leads(t.clones[n], t.history[t.done + n], t.history[t.done + n + 1])
      {
        assert n < |r.clones| ==> t.clones[n] == r.clones[n];
      }
    } else {
      assert r.main.subs[0].overlay.None?;
    }
  }

  lemma CommitOldestReplays(r: Replica)
    requires Replays(r)
    ensures Replays(Step(r, CommitOldest)) && (Follows(r) ==> Follows(Step(r, CommitOldest)))
  {
    if r.clones != [] {
      var t := Step(r, CommitOldest);
      assert Leads(r.clones[0], r.history[r.done + 0], r.history[r.done + 0 + 1]);
      forall n | 0 <= n < |t.clones|
        ensures Leads(t.clones[n], t.history[t.done + n], t.history[t.done + n + 1])
      {
        assert Leads(r.clones[n + 1], r.history[r.done + (n + 1)], r.history[r.done + (n + 1) + 1]);
      }
    }
  }

  /** Only a commit changes stores. */
  lemma OtherFollows(r: Replica, event: Event)
    requires Follows(r) && !event.CommitBlock? && !event.CommitOldest?
    ensures Follows(Step(r, event))
  {
    var t := Step(r, event);
    BE.StepMatches(r.main, MainEvent(event));
    assert StoresOf(t.main) == StoresOf(r.main);
  }

  /** A refused commit, and the abort after it, leave the block dead and nothing
      recorded. */
  lemma RefusedIsDead(r: Replica)
    requires Follows(r) && r.main.started
    ensures var t := Step(r, CommitBlock(false));
      Replays(t) && Dead(t.main) && t == r.(main := t.main)
  {
    var refused := BE.Step(r.main, BE.CommitAll(false));
    assert !BE.SubSucceeds(BE.CommitAll(false), BE.DOCUMENTS, r.main.subs[BE.DOCUMENTS]);
    assert refused.started && refused.subs[0].overlay.None? && !BE.SubSucceeds(BE.AbortAll, 0, refused.subs[0]);
  }

  /** Nothing brings a dead block back: only waiting clones are still committed. */
  lemma DeadStays(r: Replica, event: Event)
    requires Replays(r) && Dead(r.main)
    ensures Replays(Step(r, event)) && Dead(Step(r, event).main)
    ensures Step(r, event).history == r.history
  {
    if event.CommitOldest? {
      CommitOldestReplays(r);
    } else {
      assert r.main.subs[0].overlay.None?;
      DeadStep(r.main, MainEvent(event));
    }
  }

  lemma DeadStep(b: BE.Block, event: BE.BlockEvent)
    requires Dead(b)
    ensures BE.Step(b, event) == b
  {
    if !event.StartAll? {
      assert !BE.SubSucceeds(event, 0, b.subs[0]);
      assert BE.SubSteps(event, b.subs) == b.subs;
    }
  }

  lemma FollowsStep(r: Replica, event: Event)
    requires Follows(r) && !Refused(r, event)
    ensures Follows(Step(r, event))
  {
    match event
    case CommitBlock(_) => CommitBlockFollows(r, event.indexCommits);
    case CommitOldest => CommitOldestReplays(r);
    case _ => OtherFollows(r, event);
  }

  /** Over any run: reads and writes of any block, aborts, commits that the index
      accepts or refuses, and clones committed whenever their turn comes. Until a
      commit is refused the main stores are the last recorded ones; from then on
      the block is dead, and the clones that wait lead on all the same. */
  lemma {:induction false} RunFollows(stores: Stores, events: seq<Event>)
    requires |stores| == BE.COUNT
    ensures var r := Run(Start(stores), events);
      Replays(r) && if NoneRefused(Start(stores), events) then Follows(r) else Dead(r.main)
    decreases |events|
  {
    StartFollows(stores);
    if events != [] {
      var front, last := events[..|events| - 1], events[|events| - 1];
      var r := Run(Start(stores), front);
      RunFollows(stores, front);
      if !NoneRefused(Start(stores), front) {
        DeadStays(r, last);
      } else if Refused(r, last) {
        RefusedIsDead(r);
      } else {
        FollowsStep(r, last);
      }
    }
  }

  // ------------------------------------------------------------------- the replay

  function Oldest(n: nat): (events: seq<Event>)
    ensures |events| == n && forall i :: 0 <= i < n ==> events[i] == CommitOldest
  {
    seq(n, _ => CommitOldest)
  }

  lemma {:induction false} OldestReachesHistory(r: Replica, n: nat)
    requires Replays(r) && n <= |r.clones|
    ensures var t := Run(r, Oldest(n));
      && Replays(t) && t.main == r.main && t.history == r.history
      && t.done == r.done + n && |t.clones| == |r.clones| - n
    decreases n
  {
    if n > 0 {
      assert Oldest(n)[..n - 1] == Oldest(n - 1);
      OldestReachesHistory(r, n - 1);
      CommitOldestReplays(Run(r, Oldest(n - 1)));
    }
  }

  /** Replica replay: in every reachable state, however far behind, committing the
      next `n` clones brings the previous stores to exactly what the main stores
      held `n` blocks later; after all of them, to what they hold now, unless the
      index refused a commit. */
  lemma ReplicaReplays(stores: Stores, events: seq<Event>, n: nat)
    requires |stores| == BE.COUNT
    requires n <= |Run(Start(stores), events).clones|
    ensures var r := Run(Start(stores), events);
      && |r.history| == r.done + 1 + |r.clones| && r.previous == r.history[r.done]
      && Run(r, Oldest(n)).previous == r.history[r.done + n]
      && (n == |r.clones| && NoneRefused(Start(stores), events) ==>
            Run(r, Oldest(n)).previous == StoresOf(r.main))
  {
    RunFollows(stores, events);
    OldestReachesHistory(Run(Start(stores), events), n);
  }

  /** What the commit handler does: the clone of the block before, if there is
      one, is committed after the block itself. */
  ghost function HandlerCommit(r: Replica): Replica
    requires Shaped(r)
  {
    var t := Step(r, CommitBlock(true));
    if r.clones == [] then t else Step(t, CommitOldest)
  }

  /** So at most one clone waits, and right after the commit of a block the
      previous stores hold what the main stores held before it. */
  lemma StaysOneBehind(r: Replica)
    requires Follows(r) && r.main.started && |r.clones| <= 1
    ensures var t := HandlerCommit(r);
      Follows(t) && |t.clones| == 1 && !t.main.started && t.previous == StoresOf(r.main)
  {
    var t := Step(r, CommitBlock(true));
    CloneLeads(r.previous, r.main);
    CommitBlockFollows(r, true);
    CommitOldestReplays(t);
  }
}
