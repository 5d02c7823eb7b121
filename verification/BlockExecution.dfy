/** The six store transactions of a block, their clone on the stores of the
    previous block, and the commits that keep those stores one block behind. */
module BlockExecution {
  import opened Buffers
  import opened Options
  import opened MerkDb
  import Documents

  /** The sub-transactions in order: common, identities, documents, data
      contracts, public keys to identities, asset locks. */
  const COUNT := 6
  const DOCUMENTS := 2

  // ------------------------------------------------------------- as values

  datatype Sub = Sub(base: Entries, overlay: Option<Overlay>)

  datatype Block = Block(started: bool, subs: seq<Sub>)

  datatype BlockEvent =
    | StartAll
    | CommitAll(indexCommits: bool)   // whether the document index accepts its commit
    | AbortAll
    | PutIn(i: nat, key: Buffer, value: Buffer)
    | DeleteIn(i: nat, key: Buffer)

  predicate SubSucceeds(event: BlockEvent, i: nat, sub: Sub) {
    match event
    case StartAll => sub.overlay.None?
    case CommitAll(indexCommits) => sub.overlay.Some? && (i == DOCUMENTS ==> indexCommits)
    case _ => sub.overlay.Some?
  }

  /** What an event does to the sub-transaction `i` it reaches. */
  function SubStep(event: BlockEvent, i: nat, sub: Sub): Sub {
    if !SubSucceeds(event, i, sub) then sub
    else
      match event
      case StartAll => sub.(overlay := Some(EMPTY))
      case CommitAll(_) => Sub(View(sub.base, sub.overlay.value), None)
      case AbortAll => sub.(overlay := None)
      case PutIn(j, k, v) => if i == j then sub.(overlay := Some(MerkDb.PutIn(sub.overlay.value, k, v))) else sub
      case DeleteIn(j, k) =>
        if i == j then sub.(overlay := Some(DeleteFrom(sub.base, sub.overlay.value, k))) else sub
  }

  /** `start`, `commit` and `abort` check the common flag, run all six, and set
      the flag only when all six succeed. */
  predicate Permitted(block: Block, event: BlockEvent) {
    match event
    case StartAll => !block.started
    case CommitAll(_) => block.started
    case AbortAll => block.started
    case _ => true
  }

  predicate Succeeds(block: Block, event: BlockEvent) {
    Permitted(block, event) && forall i :: 0 <= i < |block.subs| ==> SubSucceeds(event, i, block.subs[i])
  }

  function SubSteps(event: BlockEvent, subs: seq<Sub>): (r: seq<Sub>)
    ensures |r| == |subs| && forall i :: 0 <= i < |subs| ==> r[i] == SubStep(event, i, subs[i])
  {
    seq(|subs|, i requires 0 <= i < |subs| => SubStep(event, i, subs[i]))
  }

  lemma SubStepsAre(event: BlockEvent, before: seq<Sub>, after: seq<Sub>)
    requires |before| == |after| && forall i :: 0 <= i < |before| ==> after[i] == SubStep(event, i, before[i])
    ensures after == SubSteps(event, before)
  {
  }

  function Step(block: Block, event: BlockEvent): Block {
    if !Permitted(block, event) then block
    else if !Succeeds(block, event) then block.(subs := SubSteps(event, block.subs))
    else
      Block(if event.StartAll? then true else if event.CommitAll? || event.AbortAll? then false else block.started,
            SubSteps(event, block.subs))
  }

  function Run(block: Block, events: seq<BlockEvent>): Block {
    if events == [] then block else Step(Run(block, events[..|events| - 1]), events[|events| - 1])
  }

  /** The flag holds exactly when all six are started, and then none is not. */
  ghost predicate FlagMatches(block: Block) {
    && |block.subs| == COUNT
    && forall i :: 0 <= i < COUNT ==> (block.started <==> block.subs[i].overlay.Some?)
  }

  /** The index refuses the commit of a running block. */
  predicate Refused(block: Block, event: BlockEvent) {
    event.CommitAll? && block.started && !event.indexCommits
  }

  lemma StepMatches(block: Block, event: BlockEvent)
    requires FlagMatches(block)
    ensures FlagMatches(Step(block, event)) <==> !Refused(block, event)
  {
    if Refused(block, event) {
      assert !SubSucceeds(event, DOCUMENTS, block.subs[DOCUMENTS]);
      assert SubStep(event, 0, block.subs[0]).overlay.None?;
    }
  }

  /** Five sub-transactions are closed but the flag says started. */
  ghost predicate Stuck(block: Block) {
    |block.subs| == COUNT && block.started && block.subs[0].overlay.None?
  }

  ghost predicate NoneRefused(block: Block, events: seq<BlockEvent>)
    decreases |events|
  {
    events == [] ||
    var front := events[..|events| - 1];
    NoneRefused(block, front) && !Refused(Run(block, front), events[|events| - 1])
  }

  /** Over any run: the flag is right in the end if and only if the index refused
      no commit of a running block. */
  lemma {:induction false} FlagMatchesOverRuns(block: Block, events: seq<BlockEvent>)
    requires FlagMatches(block)
    ensures FlagMatches(Run(block, events)) <==> NoneRefused(block, events)
    ensures NoneRefused(block, events) || Stuck(Run(block, events))
    decreases |events|
  {
    if events != [] {
      var front, last := events[..|events| - 1], events[|events| - 1];
      var before := Run(block, front);
      FlagMatchesOverRuns(block, front);
      if NoneRefused(block, front) {
        StepMatches(before, last);
        if Refused(before, last) { RefusedIsStuck(before, last); }
      } else {
        StuckStep(before, last);
      }
    }
  }

  lemma RefusedIsStuck(block: Block, event: BlockEvent)
    requires FlagMatches(block) && Refused(block, event)
    ensures Stuck(Step(block, event))
  {
    assert !SubSucceeds(event, DOCUMENTS, block.subs[DOCUMENTS]);
  }

  lemma StuckStep(block: Block, event: BlockEvent)
    requires Stuck(block)
    ensures Stuck(Step(block, event))
  {
    assert !SubSucceeds(CommitAll(true), 0, block.subs[0]);
  }

  /** One refused index commit is enough to wedge the object: the other five
      stores are committed, and no later start, commit or abort ever succeeds. */
  lemma {:induction false} RefusedCommitWedges(block: Block, events: seq<BlockEvent>, next: BlockEvent)
    requires FlagMatches(block) && block.started
    ensures var refused := Step(block, CommitAll(false));
      && (forall i :: 0 <= i < COUNT && i != DOCUMENTS ==>
            refused.subs[i] == Sub(View(block.subs[i].base, block.subs[i].overlay.value), None))
      && refused.subs[DOCUMENTS] == block.subs[DOCUMENTS]
      && Stuck(Run(refused, events))
      && (next.StartAll? || next.CommitAll? || next.AbortAll? ==> !Succeeds(Run(refused, events), next))
    decreases |events|
  {
    var refused := Step(block, CommitAll(false));
    assert !SubSucceeds(CommitAll(false), DOCUMENTS, block.subs[DOCUMENTS]);
    StuckStays(refused, events);
  }

  lemma {:induction false} StuckStays(block: Block, events: seq<BlockEvent>)
    requires Stuck(block)
    ensures Stuck(Run(block, events))
    decreases |events|
  {
    if events != [] {
      var front := events[..|events| - 1];
      StuckStays(block, front);
      StuckStep(Run(block, front), events[|events| - 1]);
    }
  }

  function Merged(o: Overlay, raw: Overlay): Overlay {
    Overlay(o.data + raw.data, o.deleted + raw.deleted)
  }

  // ------------------------------------------------------------ the objects

  ghost predicate DifferentTrees(stores: seq<MerkDbStore>) {
    |stores| == COUNT && forall i, j :: 0 <= i < j < COUNT ==> stores[i].db != stores[j].db
  }

  class BlockExecutionStoreTransactions {
    const merk: seq<MerkDbTransaction>
    const documents: Documents.DocumentsIndexedTransaction
    var isTransactionsStarted: bool

    /** Six transactions on six different stores. */
    ghost predicate Shape() {
      && |merk| == COUNT
      && merk[DOCUMENTS] == documents.storeTransaction
      && forall i, j :: 0 <= i < j < COUNT ==> merk[i] != merk[j] && merk[i].merkDB != merk[j].merkDB
    }

    ghost function Cells(): set<object> {
      {this, documents, documents.mongoDbTransaction} + set t | t in merk
    }

    ghost function Bases(): set<object> {
      {documents.mongoDbTransaction.mongo} + set t | t in merk :: t.merkDB
    }

    ghost function Overlays(): set<object>
      reads merk
    {
      set t | t in merk && t.db != null :: t.db
    }

    ghost predicate Valid()
      reads Cells(), Overlays()
    {
      && Shape()
      && documents.Valid()
      && (forall i :: 0 <= i < COUNT ==> merk[i].Valid())
      && forall i, j :: 0 <= i < j < COUNT && merk[i].db != null ==> merk[i].db != merk[j].db
    }

    ghost function SubView(i: nat): Sub
      requires i < |merk|
      reads merk, Overlays(), Bases()
    {
      Sub(merk[i].merkDB.contents, if merk[i].db == null then None else Some(merk[i].Changes()))
    }

    ghost function BlockView(): Block
      requires Shape()
      reads Cells(), Overlays(), Bases()
    {
      Block(isTransactionsStarted, seq(COUNT, i requires 0 <= i < COUNT reads merk, Overlays(), Bases() => SubView(i)))
    }

    lemma ViewsAre()
      requires Shape()
      ensures |BlockView().subs| == COUNT && forall i :: 0 <= i < COUNT ==> BlockView().subs[i] == SubView(i)
    {
    }

    /** The stores are six different Merk trees. */
    constructor (stores: seq<MerkDbStore>, mongo: Documents.Mongo)
      requires DifferentTrees(stores)
      ensures Valid() && !isTransactionsStarted && fresh(Cells()) && Overlays() == {}
      ensures forall i :: 0 <= i < COUNT ==> merk[i].merkDB == stores[i].db
      ensures documents.mongoDbTransaction.mongo == mongo
      ensures forall i :: 0 <= i < COUNT ==> SubView(i) == Sub(stores[i].db.contents, None)
    {
      var created: seq<MerkDbTransaction> := [];
      for i := 0 to COUNT
        invariant |created| == i
        invariant forall j :: 0 <= j < i ==>
          fresh(created[j]) && created[j].Valid() && created[j].db == null && created[j].merkDB == stores[j].db
        invariant forall j, k :: 0 <= j < k < i ==> created[j] != created[k]
      {
        var t := stores[i].CreateTransaction();
        created := created + [t];
      }
      var session := new Documents.MongoDBTransaction(mongo);
      documents := new Documents.DocumentsIndexedTransaction(created[DOCUMENTS], session);
      merk := created;
      isTransactionsStarted := false;
    }

    method Start() returns (r: Outcome)
      requires Valid()
      modifies Cells()
      ensures Valid() && fresh(Overlays() - old(Overlays()))
      ensures r == Ok <==> Succeeds(old(BlockView()), StartAll)
      ensures BlockView() == Step(old(BlockView()), StartAll)
    {
      if isTransactionsStarted {
        return AlreadyStarted;
      }
      ghost var before := BlockView();
      ViewsAre();
      r := StartEach();
      ViewsAre();
      SubStepsAre(StartAll, before.subs, BlockView().subs);
      if r == Ok {
        isTransactionsStarted := true;
      }
    }

    /** All six, whether or not one of them fails; then the failure, if any. */
    method StartEach() returns (r: Outcome)
      requires Valid()
      modifies Cells()
      ensures Valid() && fresh(Overlays() - old(Overlays()))
      ensures isTransactionsStarted == old(isTransactionsStarted)
      ensures r == Ok <==> forall i :: 0 <= i < COUNT ==> SubSucceeds(StartAll, i, old(SubView(i)))
      ensures forall i :: 0 <= i < COUNT ==> SubView(i) == SubStep(StartAll, i, old(SubView(i)))
    {
      r := Ok;
      for i := 0 to COUNT
        invariant Valid() && fresh(Overlays() - old(Overlays()))
        invariant isTransactionsStarted == old(isTransactionsStarted)
        invariant forall j :: 0 <= j < i ==> SubView(j) == SubStep(StartAll, j, old(SubView(j)))
        invariant forall j :: i <= j < COUNT ==> SubView(j) == old(SubView(j))
        invariant r == Ok <==> forall j :: 0 <= j < i ==> SubSucceeds(StartAll, j, old(SubView(j)))
      {
        var o := StartSub(i);
        if o != Ok {
          r := o;
        }
      }
    }

    method StartSub(i: nat) returns (r: Outcome)
      requires Valid() && i < COUNT
      modifies Cells()
      ensures Valid() && fresh(Overlays() - old(Overlays()))
      ensures isTransactionsStarted == old(isTransactionsStarted)
      ensures r == Ok <==> SubSucceeds(StartAll, i, old(SubView(i)))
      ensures SubView(i) == SubStep(StartAll, i, old(SubView(i)))
      ensures forall j :: 0 <= j < COUNT && j != i ==> SubView(j) == old(SubView(j))
    {
      if i == DOCUMENTS {
        r := documents.Start();
      } else {
        r := merk[i].Start();
      }
    }

    /** `indexCommits` is whether the document index accepts its commit. */
    method Commit(indexCommits: bool) returns (r: Outcome)
      requires Valid()
      modifies Cells(), Overlays(), Bases()
      ensures Valid() && fresh(Overlays() - old(Overlays()))
      ensures r == Ok <==> Succeeds(old(BlockView()), CommitAll(indexCommits))
      ensures BlockView() == Step(old(BlockView()), CommitAll(indexCommits))
    {
      if !isTransactionsStarted {
        return NotStarted;
      }
      ghost var before := BlockView();
      ViewsAre();
      r := CommitEach(indexCommits);
      ViewsAre();
      SubStepsAre(CommitAll(indexCommits), before.subs, BlockView().subs);
      if r == Ok {
        isTransactionsStarted := false;
      }
    }

    /** All six, whether or not one of them fails; then the failure, if any. */
    method CommitEach(indexCommits: bool) returns (r: Outcome)
      requires Valid()
      modifies Cells(), Overlays(), Bases()
      ensures Valid() && fresh(Overlays() - old(Overlays()))
      ensures isTransactionsStarted == old(isTransactionsStarted)
      ensures r == Ok <==> forall i :: 0 <= i < COUNT ==> SubSucceeds(CommitAll(indexCommits), i, old(SubView(i)))
      ensures forall i :: 0 <= i < COUNT ==> SubView(i) == SubStep(CommitAll(indexCommits), i, old(SubView(i)))
    {
      r := Ok;
      for i := 0 to COUNT
        invariant Valid() && fresh(Overlays() - old(Overlays()))
        invariant isTransactionsStarted == old(isTransactionsStarted)
        invariant forall j :: 0 <= j < i ==> SubView(j) == SubStep(CommitAll(indexCommits), j, old(SubView(j)))
        invariant forall j :: i <= j < COUNT ==> SubView(j) == old(SubView(j))
        invariant r == Ok <==> forall j :: 0 <= j < i ==> SubSucceeds(CommitAll(indexCommits), j, old(SubView(j)))
      {
        var o := CommitSub(i, indexCommits);
        if o != Ok {
          r := o;
        }
      }
    }

    method CommitSub(i: nat, indexCommits: bool) returns (r: Outcome)
      requires Valid() && i < COUNT
      modifies Cells(), Overlays(), Bases()
      ensures Valid() && fresh(Overlays() - old(Overlays()))
      ensures isTransactionsStarted == old(isTransactionsStarted)
      ensures r == Ok <==> SubSucceeds(CommitAll(indexCommits), i, old(SubView(i)))
      ensures SubView(i) == SubStep(CommitAll(indexCommits), i, old(SubView(i)))
      ensures forall j :: 0 <= j < COUNT && j != i ==> SubView(j) == old(SubView(j))
    {
      if i == DOCUMENTS {
        r := documents.Commit(indexCommits);
      } else {
        r := merk[i].Commit();
      }
    }

    method Abort() returns (r: Outcome)
      requires Valid()
      modifies Cells(), Overlays()
      ensures Valid() && fresh(Overlays() - old(Overlays()))
      ensures r == Ok <==> Succeeds(old(BlockView()), AbortAll)
      ensures BlockView() == Step(old(BlockView()), AbortAll)
    {
      if !isTransactionsStarted {
        return NotStarted;
      }
      ghost var before := BlockView();
      ViewsAre();
      r := AbortEach();
      ViewsAre();
      SubStepsAre(AbortAll, before.subs, BlockView().subs);
      if r == Ok {
        isTransactionsStarted := false;
      }
    }

    /** All six, whether or not one of them fails; then the failure, if any. */
    method AbortEach() returns (r: Outcome)
      requires Valid()
      modifies Cells(), Overlays()
      ensures Valid() && fresh(Overlays() - old(Overlays()))
      ensures isTransactionsStarted == old(isTransactionsStarted)
      ensures r == Ok <==> forall i :: 0 <= i < COUNT ==> SubSucceeds(AbortAll, i, old(SubView(i)))
      ensures forall i :: 0 <= i < COUNT ==> SubView(i) == SubStep(AbortAll, i, old(SubView(i)))
    {
      r := Ok;
      for i := 0 to COUNT
        invariant Valid() && fresh(Overlays() - old(Overlays()))
        invariant isTransactionsStarted == old(isTransactionsStarted)
        invariant forall j :: 0 <= j < i ==> SubView(j) == SubStep(AbortAll, j, old(SubView(j)))
        invariant forall j :: i <= j < COUNT ==> SubView(j) == old(SubView(j))
        invariant r == Ok <==> forall j :: 0 <= j < i ==> SubSucceeds(AbortAll, j, old(SubView(j)))
      {
        var o := AbortSub(i);
        if o != Ok {
          r := o;
        }
      }
    }

    method AbortSub(i: nat) returns (r: Outcome)
      requires Valid() && i < COUNT
      modifies Cells(), Overlays()
      ensures Valid() && fresh(Overlays() - old(Overlays()))
      ensures isTransactionsStarted == old(isTransactionsStarted)
      ensures r == Ok <==> SubSucceeds(AbortAll, i, old(SubView(i)))
      ensures SubView(i) == SubStep(AbortAll, i, old(SubView(i)))
      ensures forall j :: 0 <= j < COUNT && j != i ==> SubView(j) == old(SubView(j))
    {
      if i == DOCUMENTS {
        r := documents.Abort();
      } else {
        r := merk[i].Abort();
      }
    }

    /** The flag says of each sub-transaction whether it is started. */
    ghost predicate Steady()
      reads Cells(), Overlays()
    {
      Valid() && forall i :: 0 <= i < COUNT ==> (isTransactionsStarted <==> merk[i].db != null)
    }

    ghost predicate AllStarted()
      requires Valid()
      reads Cells(), Overlays()
    {
      forall i :: 0 <= i < COUNT ==> merk[i].db != null
    }

    /** `None` stands for the error of a sub-transaction that is not started. */
    method ToObject() returns (r: Option<seq<Overlay>>)
      requires Valid()
      ensures r.Some? <==> AllStarted()
      ensures r.Some? ==> |r.value| == COUNT && forall i :: 0 <= i < COUNT ==> SubView(i).overlay == Some(r.value[i])
    {
      var raw: seq<Overlay> := [];
      for i := 0 to COUNT
        invariant |raw| == i
        invariant forall j :: 0 <= j < i ==> merk[j].db != null
        invariant forall j :: 0 <= j < i ==> SubView(j).overlay == Some(raw[j])
      {
        var o := merk[i].ToObject();
        if o.None? {
          return None;
        }
        raw := raw + [o.value];
      }
      return Some(raw);
    }

    /** Adds the changes of `raw` to the transactions in turn, up to the first one
        that is not started. */
    method PopulateFromObject(raw: seq<Overlay>) returns (r: Outcome)
      requires Valid() && |raw| == COUNT
      modifies Overlays()
      ensures Valid() && Overlays() == old(Overlays())
      ensures r == Ok <==> AllStarted()
      ensures forall i :: 0 <= i < COUNT ==> SubView(i).base == old(SubView(i).base)
      ensures r == Ok ==> forall i :: 0 <= i < COUNT ==>
        SubView(i).overlay == Some(Merged(old(merk[i].Changes()), raw[i]))
      ensures r != Ok ==> exists n: nat :: n < COUNT && merk[n].db == null && PopulatedUpTo(n, old(BlockView()), raw)
    {
      for i := 0 to COUNT
        invariant Valid() && Overlays() == old(Overlays())
        invariant forall j :: 0 <= j < COUNT ==> merk[j].db == old(merk[j].db)
        invariant forall j :: 0 <= j < i ==> merk[j].db != null
        invariant forall j :: 0 <= j < i ==>
          SubView(j) == Sub(old(SubView(j)).base, Some(Merged(old(merk[j].Changes()), raw[j])))
        invariant forall j :: i <= j < COUNT ==> SubView(j) == old(SubView(j))
      {
        r := PopulateSub(i, raw[i]);
        if r != Ok {
          assert PopulatedUpTo(i, old(BlockView()), raw);
          return;
        }
      }
      return Ok;
    }

    ghost predicate PopulatedUpTo(n: nat, before: Block, raw: seq<Overlay>)
      requires Shape()
      reads Cells(), Overlays(), Bases()
    {
      && |before.subs| == COUNT == |raw|
      && (forall i :: 0 <= i < COUNT && i < n ==>
            before.subs[i].overlay.Some? && SubView(i).overlay == Some(Merged(before.subs[i].overlay.value, raw[i])))
      && forall i :: n <= i < COUNT ==> SubView(i) == before.subs[i]
    }

    method PopulateSub(i: nat, raw: Overlay) returns (r: Outcome)
      requires Valid() && i < COUNT
      modifies Overlays()
      ensures Valid() && Overlays() == old(Overlays())
      ensures forall j :: 0 <= j < COUNT ==> merk[j].db == old(merk[j].db)
      ensures r == if merk[i].db == null then NotStarted else Ok
      ensures r == Ok ==> SubView(i) == Sub(old(SubView(i)).base, Some(Merged(old(merk[i].Changes()), raw)))
      ensures r != Ok ==> SubView(i) == old(SubView(i))
      ensures forall j :: 0 <= j < COUNT && j != i ==> SubView(j) == old(SubView(j))
    {
      if i == DOCUMENTS && !documents.transactionIsStarted {
        return NotStarted;
      }
      r := merk[i].PopulateFromObject(raw);
    }
  }

  lemma SteadyIsMatching(b: BlockExecutionStoreTransactions)
    requires b.Valid()
    ensures b.Steady() <==> FlagMatches(b.BlockView())
    ensures forall i :: 0 <= i < COUNT ==> b.BlockView().subs[i] == b.SubView(i)
  {
    assert forall i :: 0 <= i < COUNT ==> b.BlockView().subs[i] == b.SubView(i);
    assert forall i :: 0 <= i < COUNT ==> (b.SubView(i).overlay.Some? <==> b.merk[i].db != null);
  }

  /** The clone is a set of new objects with the same changes, on other stores:
      later changes, commit or abort of the original cannot reach it. */
  method CloneToPreviousStoreTransactions(previousStores: seq<MerkDbStore>, previousMongo: Documents.Mongo,
      storeTransactions: BlockExecutionStoreTransactions) returns (clone: BlockExecutionStoreTransactions?)
    requires DifferentTrees(previousStores)
    requires storeTransactions.Valid()
    ensures clone != null <==> storeTransactions.AllStarted()
    ensures clone != null ==>
      && clone.Valid() && clone.isTransactionsStarted
      && fresh(clone.Cells()) && fresh(clone.Overlays())
      && clone.documents.mongoDbTransaction.mongo == previousMongo
      && forall i :: 0 <= i < COUNT ==>
           && clone.merk[i].merkDB == previousStores[i].db
           && clone.SubView(i) == Sub(previousStores[i].db.contents, storeTransactions.SubView(i).overlay)
  {
    clone := StartedOn(previousStores, previousMongo);
    var raw := storeTransactions.ToObject();
    if raw.None? {
      return null;
    }
    var populated := clone.PopulateFromObject(raw.value);
    forall i | 0 <= i < COUNT ensures clone.SubView(i).overlay == Some(raw.value[i]) {
      MergedWithEmpty(raw.value[i]);
    }
  }

  method StartedOn(stores: seq<MerkDbStore>, mongo: Documents.Mongo) returns (b: BlockExecutionStoreTransactions)
    requires DifferentTrees(stores)
    ensures b.Valid() && b.isTransactionsStarted && b.AllStarted()
    ensures fresh(b.Cells()) && fresh(b.Overlays())
    ensures b.documents.mongoDbTransaction.mongo == mongo
    ensures forall i :: 0 <= i < COUNT ==>
      b.merk[i].merkDB == stores[i].db && b.SubView(i) == Sub(stores[i].db.contents, Some(EMPTY))
  {
    b := new BlockExecutionStoreTransactions(stores, mongo);
    ghost var before := b.BlockView();
    var _ := b.Start();
    StartsEmpty(before);
    assert b.BlockView() == Step(before, StartAll);
    assert forall i :: 0 <= i < COUNT ==> b.SubView(i) == b.BlockView().subs[i];
    assert forall i :: 0 <= i < COUNT ==> b.SubView(i).overlay.Some? ==> b.merk[i].db != null;
  }

  lemma StartsEmpty(block: Block)
    requires FlagMatches(block) && !block.started
    ensures var t := Step(block, StartAll);
      t.started && |t.subs| == COUNT && forall i :: 0 <= i < COUNT ==> t.subs[i] == Sub(block.subs[i].base, Some(EMPTY))
  {
  }

  lemma MergedWithEmpty(raw: Overlay)
    ensures Merged(EMPTY, raw) == raw
  {
  }
}
