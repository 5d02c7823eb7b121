/** The commit handler's objects: the block transactions, the stores of the
    previous block, and the clone that waits to bring them along. */
module CommitHandling {
  import opened Buffers
  import opened Options
  import opened MerkDb
  import opened BlockExecution
  import opened BlockCommits
  import Documents

  /** The block transactions, the stores of the previous block, and the clone of
      the last committed block, which waits for the next commit. */
  class CommitHandler {
    const main: BlockExecutionStoreTransactions
    const previousStores: seq<MerkDbStore>
    const previousMongo: Documents.Mongo
    var waiting: BlockExecutionStoreTransactions?
    ghost var ledger: Ledger

    ghost predicate Valid()
      reads this, ledger.own, ledger.waitingOwn, main.Bases(), Trees(previousStores, previousMongo)
    {
      && this !in ledger.own + ledger.waitingOwn + main.Bases() + Trees(previousStores, previousMongo)
      && Standing(main, previousStores, previousMongo, waiting, ledger)
    }

    /** Both sets of stores hold the same, on different trees. */
    constructor (stores: seq<MerkDbStore>, mongo: Documents.Mongo, previousStores: seq<MerkDbStore>,
                 previousMongo: Documents.Mongo, ghost contents: seq<Entries>)
      requires DifferentTrees(stores) && DifferentTrees(previousStores)
      requires Trees(stores, mongo) !! Trees(previousStores, previousMongo)
      requires TreesHold(stores, contents) && TreesHold(previousStores, contents)
      ensures Valid() && waiting == null && IsOn(main, stores, mongo)
      ensures this.previousStores == previousStores && this.previousMongo == previousMongo
      ensures ledger.changes.None? && ledger.contents == ledger.previous == contents
      ensures fresh(ledger.own) && ledger.waitingOwn == {}
    {
      var block;
      ghost var l;
      block, l := Beginning(stores, mongo, previousStores, previousMongo, contents);
      BasesAreTrees(block, stores, mongo);
      main, this.previousStores, this.previousMongo, waiting, ledger := block, previousStores, previousMongo, null, l;
    }

    method Record(waiting: BlockExecutionStoreTransactions?, ghost l: Ledger)
      requires Standing(main, previousStores, previousMongo, waiting, l)
      requires this !in l.own + l.waitingOwn + main.Bases() + Trees(previousStores, previousMongo)
      modifies this
      ensures Valid() && this.waiting == waiting && ledger == l
    {
      this.waiting, ledger := waiting, l;
    }

    method StartBlock() returns (ok: bool)
      requires Valid()
      modifies this, ledger.own
      ensures Valid() && ok == old(ledger.changes.None?)
      ensures ledger.changes == if ok then Some(NoChanges()) else old(ledger.changes)
      ensures ledger == old(ledger).(changes := ledger.changes, own := ledger.own) && waiting == old(waiting)
      ensures old(ledger.own) <= ledger.own && fresh(ledger.own - old(ledger.own))
    {
      ok := !main.isTransactionsStarted;
      if ok {
        ghost var l := Starting(main, previousStores, previousMongo, waiting, ledger);
        Record(waiting, l);
      }
    }

    method Write(i: nat, key: Buffer, value: Buffer)
      requires Valid() && ledger.changes.Some? && i < COUNT
      modifies this, ledger.own
      ensures Valid() && |old(ledger).changes.value| == COUNT
      ensures ledger == Written(old(ledger), i, key, value) && waiting == old(waiting)
    {
      Writing(main, previousStores, previousMongo, waiting, ledger, i, key, value);
      Record(waiting, Written(ledger, i, key, value));
    }

    method Remove(i: nat, key: Buffer)
      requires Valid() && ledger.changes.Some? && i < COUNT
      modifies this, ledger.own
      ensures Valid() && |old(ledger).changes.value| == COUNT == |ledger.contents|
      ensures ledger == Removed(old(ledger), i, key) && waiting == old(waiting)
    {
      Removing(main, previousStores, previousMongo, waiting, ledger, i, key);
      Record(waiting, Removed(ledger, i, key));
    }

    method AbortBlock() returns (ok: bool)
      requires Valid()
      modifies this, ledger.own
      ensures Valid() && ok == old(ledger.changes.Some?)
      ensures ledger == old(ledger).(changes := None) && waiting == old(waiting)
    {
      ok := main.isTransactionsStarted;
      if ok {
        Aborting(main, previousStores, previousMongo, waiting, ledger);
        Record(waiting, ledger.(changes := None));
      }
    }

    /** Without a started block the clone cannot be made and nothing happens. Else
        the block is committed, and the clone that waited brings the previous
        stores to what the main stores held before it. */
    method HandleCommit() returns (ok: bool)
      requires Valid()
      modifies this, ledger.own, main.Bases(), ledger.waitingOwn, Trees(previousStores, previousMongo)
      ensures Valid() && ok == old(ledger.changes.Some?)
      ensures !ok ==> ledger == old(ledger) && waiting == old(waiting)
      ensures ok ==>
        && waiting != null && fresh(ledger.waitingOwn)
        && |old(ledger).changes.value| == COUNT == |old(ledger).contents|
        && ledger == Committed(old(ledger)).(waitingOwn := ledger.waitingOwn)
      ensures ok ==> forall i :: 0 <= i < COUNT ==>
        previousStores[i].db.contents == old(main.merk[i].merkDB.contents)
    {
      assert Holds(main, ledger.contents);
      ok := main.isTransactionsStarted;
      if ok {
        var next;
        ghost var l;
        if waiting == null {
          next, l := CommittingFirst(main, previousStores, previousMongo, ledger);
        } else {
          next, l := CommittingLater(main, previousStores, previousMongo, waiting, ledger);
        }
        Record(next, l);
        assert TreesHold(previousStores, old(ledger).contents);
      }
    }
  }
}
