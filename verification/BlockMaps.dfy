/** Six plain maps under the events of a block: what the block transactions, their
    replica on the stores of the previous block, and the commit handler's ledger
    stand for. */
module BlockMaps {
  import opened Buffers
  import opened Options
  import opened MerkDb
  import BE = BlockExecution
  import BlockCommits
  import R = BlockReplay

  type Maps = seq<Entries>

  /** The committed maps, and the copies that a running block works on. */
  datatype Plain = Plain(committed: Maps, open: Option<Maps>)

  function Started(p: Plain): Plain {
    if p.open.Some? then p else p.(open := Some(p.committed))
  }

  function Put(p: Plain, i: nat, k: Buffer, v: Buffer): Plain {
    if p.open.None? || i >= |p.open.value| then p
    else p.(open := Some(p.open.value[i := p.open.value[i][k := v]]))
  }

  /** A block does not let go of the keys it added itself. */
  function Deleted(p: Plain, i: nat, k: Buffer): Plain {
    if p.open.None? || i >= |p.open.value| || i >= |p.committed| || k !in p.committed[i] then p
    else p.(open := Some(p.open.value[i := p.open.value[i] - {k}]))
  }

  function Committed(p: Plain): Plain {
    if p.open.None? then p else Plain(p.open.value, None)
  }

  function Aborted(p: Plain): Plain {
    p.(open := None)
  }

  // -------------------------------------------------------- the transactions

  ghost predicate SubShows(sub: BE.Sub, p: Plain, i: nat)
    requires i < |p.committed| && (p.open.Some? ==> i < |p.open.value|)
  {
    && sub.base == p.committed[i] && (sub.overlay.Some? <==> p.open.Some?)
    && (sub.overlay.Some? ==>
          Consistent(sub.base, sub.overlay.value) && View(sub.base, sub.overlay.value) == p.open.value[i])
  }

  ghost predicate Shows(block: BE.Block, p: Plain) {
    && |block.subs| == BE.COUNT == |p.committed| && (p.open.Some? ==> |p.open.value| == BE.COUNT)
    && (block.started <==> p.open.Some?)
    && forall i :: 0 <= i < BE.COUNT ==> SubShows(block.subs[i], p, i)
  }

  function PlainStep(p: Plain, event: BE.BlockEvent): Plain {
    match event
    case StartAll => Started(p)
    case CommitAll(_) => Committed(p)
    case AbortAll => Aborted(p)
    case PutIn(i, k, v) => Put(p, i, k, v)
    case DeleteIn(i, k) => Deleted(p, i, k)
  }

  lemma SubStepShows(sub: BE.Sub, p: Plain, i: nat, event: BE.BlockEvent)
    requires |p.committed| == BE.COUNT && (p.open.Some? ==> |p.open.value| == BE.COUNT) && i < BE.COUNT
    requires SubShows(sub, p, i) && (event.CommitAll? ==> event.indexCommits)
    ensures SubShows(BE.SubStep(event, i, sub), PlainStep(p, event), i)
  {
    if sub.overlay.Some? {
      match event
      case PutIn(_, k, v) => PutKeeps(sub.base, sub.overlay.value, k, v);
      case DeleteIn(_, k) => DeleteKeeps(sub.base, sub.overlay.value, k);
      case _ =>
    }
  }

  lemma StepShows(block: BE.Block, p: Plain, event: BE.BlockEvent)
    requires Shows(block, p) && !BE.Refused(block, event)
    ensures Shows(BE.Step(block, event), PlainStep(p, event))
  {
    var t := BE.Step(block, event);
    if event.CommitAll? && !event.indexCommits {
      assert !block.started;
    } else {
      forall i | 0 <= i < BE.COUNT ensures SubShows(BE.SubStep(event, i, block.subs[i]), PlainStep(p, event), i) {
        SubStepShows(block.subs[i], p, i, event);
      }
      StartedAlike(block, p, event);
    }
  }

  lemma StartedAlike(block: BE.Block, p: Plain, event: BE.BlockEvent)
    requires Shows(block, p) && (event.CommitAll? ==> event.indexCommits)
    ensures var t := BE.Step(block, event);
      && (t.started <==> PlainStep(p, event).open.Some?)
      && |t.subs| == BE.COUNT
      && forall i :: 0 <= i < BE.COUNT ==> t.subs[i] == BE.SubStep(event, i, block.subs[i])
  {
  }

  function RunPlainly(p: Plain, events: seq<BE.BlockEvent>): Plain {
    if events == [] then p else PlainStep(RunPlainly(p, events[..|events| - 1]), events[|events| - 1])
  }

  /** Over any run in which the index refuses no commit, the six transactions stand
      for six plain maps: the stores hold the committed ones, a running block shows
      the working copies, in which every write and deletion lands in its own store. */
  lemma {:induction false} BlockRefinesMaps(block: BE.Block, p: Plain, events: seq<BE.BlockEvent>)
    requires Shows(block, p) && BE.NoneRefused(block, events)
    ensures Shows(BE.Run(block, events), RunPlainly(p, events))
    decreases |events|
  {
    if events != [] {
      var front := events[..|events| - 1];
      BlockRefinesMaps(block, p, front);
      StepShows(BE.Run(block, front), RunPlainly(p, front), events[|events| - 1]);
    }
  }

  // ------------------------------------------------------------- the replica

  /** All states that were committed, and how far the previous stores got. */
  datatype Journal = Journal(main: Plain, history: seq<Maps>, cursor: nat)

  function JournalStep(j: Journal, event: R.Event): Journal {
    match event
    case StartBlock => j.(main := Started(j.main))
    case Write(i, k, v) => j.(main := Put(j.main, i, k, v))
    case Remove(i, k) => j.(main := Deleted(j.main, i, k))
    case AbortBlock => j.(main := Aborted(j.main))
    case CommitBlock(_) =>
      if j.main.open.None? then j
      else j.(main := Committed(j.main), history := j.history + [j.main.open.value])
    case CommitOldest => if j.cursor + 1 < |j.history| then j.(cursor := j.cursor + 1) else j
  }

  function RunJournal(j: Journal, events: seq<R.Event>): Journal {
    if events == [] then j else JournalStep(RunJournal(j, events[..|events| - 1]), events[|events| - 1])
  }

  ghost predicate Journals(r: R.Replica, j: Journal) {
    && R.Follows(r) && Shows(r.main, j.main)
    && r.history == j.history && r.done == j.cursor < |j.history|
  }

  lemma StoresAreCommitted(block: BE.Block, p: Plain)
    requires Shows(block, p)
    ensures R.StoresOf(block) == p.committed
  {
    forall i | 0 <= i < BE.COUNT ensures R.StoresOf(block)[i] == p.committed[i] {
      assert SubShows(block.subs[i], p, i);
    }
  }

  lemma CommitBlockJournals(r: R.Replica, j: Journal, indexCommits: bool)
    requires Journals(r, j) && (r.main.started ==> indexCommits)
    ensures Journals(R.Step(r, R.CommitBlock(indexCommits)), JournalStep(j, R.CommitBlock(indexCommits)))
  {
    var event := BE.CommitAll(indexCommits);
    R.CommitBlockFollows(r, indexCommits);
    assert SubShows(r.main.subs[0], j.main, 0);
    if r.main.started {
      forall i | 0 <= i < BE.COUNT ensures r.main.subs[i].overlay.Some? {
        assert SubShows(r.main.subs[i], j.main, i);
      }
      StepShows(r.main, j.main, event);
      StoresAreCommitted(BE.Step(r.main, event), PlainStep(j.main, event));
    }
  }

  lemma JournalStepKeeps(r: R.Replica, j: Journal, event: R.Event)
    requires Journals(r, j) && !R.Refused(r, event)
    ensures Journals(R.Step(r, event), JournalStep(j, event))
  {
    match event
    case CommitBlock(indexCommits) => CommitBlockJournals(r, j, indexCommits);
    case CommitOldest => R.CommitOldestReplays(r);
    case _ =>
      R.OtherFollows(r, event);
      StepShows(r.main, j.main, R.MainEvent(event));
  }

  /** Over any run without a refused commit, the replica is a journal with a cursor:
      the main stores hold the committed maps, a running block shows its working
      copies, the journal records every committed state, and the previous stores
      hold the state at the cursor. */
  lemma {:induction false} ReplicaRefinesJournal(stores: Maps, events: seq<R.Event>)
    requires |stores| == BE.COUNT && R.NoneRefused(R.Start(stores), events)
    ensures var r, j := R.Run(R.Start(stores), events), RunJournal(Journal(Plain(stores, None), [stores], 0), events);
      && Journals(r, j)
      && R.StoresOf(r.main) == j.main.committed
      && r.previous == j.history[j.cursor]
    decreases |events|
  {
    var r, j := R.Run(R.Start(stores), events), RunJournal(Journal(Plain(stores, None), [stores], 0), events);
    if events == [] {
      R.RunFollows(stores, []);
    } else {
      var front := events[..|events| - 1];
      ReplicaRefinesJournal(stores, front);
      JournalStepKeeps(R.Run(R.Start(stores), front),
                       RunJournal(Journal(Plain(stores, None), [stores], 0), front), events[|events| - 1]);
    }
    StoresAreCommitted(r.main, j.main);
  }

  // --------------------------------------------------------------- the ledger

  /** The ledger of the commit handler stands for these maps. */
  ghost predicate LedgerShows(l: BlockCommits.Ledger, p: Plain) {
    && |l.contents| == BE.COUNT && l.contents == p.committed
    && (l.changes.Some? <==> p.open.Some?)
    && (l.changes.Some? ==>
          && |l.changes.value| == BE.COUNT == |p.open.value|
          && forall i :: 0 <= i < BE.COUNT ==>
               && Consistent(l.contents[i], l.changes.value[i])
               && View(l.contents[i], l.changes.value[i]) == p.open.value[i])
  }

  /** What the handler's operations do to its ledger is what the plain operations do
      to the maps; a commit leaves the state before it to the previous stores. */
  lemma LedgerRefinesMaps(l: BlockCommits.Ledger, p: Plain, i: nat, k: Buffer, v: Buffer)
    requires LedgerShows(l, p) && i < BE.COUNT
    ensures l.changes.None? ==> LedgerShows(l.(changes := Some(BlockCommits.NoChanges())), Started(p))
    ensures LedgerShows(l.(changes := None), Aborted(p))
    ensures l.changes.Some? ==>
      && LedgerShows(BlockCommits.Written(l, i, k, v), Put(p, i, k, v))
      && LedgerShows(BlockCommits.Removed(l, i, k), Deleted(p, i, k))
      && LedgerShows(BlockCommits.Committed(l), Committed(p))
      && BlockCommits.Committed(l).previous == p.committed
  {
    if l.changes.Some? {
      PutKeeps(l.contents[i], l.changes.value[i], k, v);
      DeleteKeeps(l.contents[i], l.changes.value[i], k);
      assert BlockCommits.Views(l.contents, l.changes.value) == p.open.value;
    }
  }
}
