/** Documents live twice: whole in a Merk store, and by id in a MongoDB index per
    contract and document type. One transaction spans both. */
module Documents {
  import opened Buffers
  import opened Options
  import opened MerkDb

  datatype Kind = Kind(contractId: Buffer, documentType: string)

  datatype Entry = Entry(kind: Kind, id: Buffer)

  // ------------------------------------------------------- both as values

  /** The index side of a transaction. */
  datatype Session = Session(added: set<Entry>, removed: set<Entry>)

  const NO_SESSION := Session({}, {})

  function IndexView(index: set<Entry>, session: Session): set<Entry> {
    (index - session.removed) + session.added
  }

  datatype Transaction = Transaction(session: Session, overlay: Overlay)

  datatype State = State(index: set<Entry>, store: Entries, transaction: Option<Transaction>)

  function VisibleIndex(s: State): set<Entry> {
    match s.transaction
    case None => s.index
    case Some(t) => IndexView(s.index, t.session)
  }

  function VisibleStore(s: State): Entries {
    match s.transaction
    case None => s.store
    case Some(t) => View(s.store, t.overlay)
  }

  /** Writes go to the open transaction, or to the databases when there is none. */
  datatype Event =
    | Start
    | Commit
    | Abort
    | StoreDocument(entry: Entry, document: Buffer)
    | DeleteDocument(entry: Entry)

  function Step(s: State, event: Event): State {
    match event
    case Start => if s.transaction.Some? then s else s.(transaction := Some(Transaction(NO_SESSION, EMPTY)))
    case Commit => State(VisibleIndex(s), VisibleStore(s), None)
    case Abort => s.(transaction := None)
    case StoreDocument(e, document) => (
      match s.transaction
      case None => State(s.index + {e}, s.store[e.id := document], None)
      case Some(t) => s.(transaction := Some(Transaction(
        Session(t.session.added + {e}, t.session.removed - {e}), PutIn(t.overlay, e.id, document)))))
    case DeleteDocument(e) => (
      match s.transaction
      case None => State(s.index - {e}, s.store - {e.id}, None)
      case Some(t) => s.(transaction := Some(Transaction(
        Session(t.session.added - {e}, t.session.removed + {e}), DeleteFrom(s.store, t.overlay, e.id)))))
  }

  function Run(s: State, events: seq<Event>): State {
    if events == [] then s else Step(Run(s, events[..|events| - 1]), events[|events| - 1])
  }

  const EMPTY_STATE := State({}, map[], None)

  // ------------------------------------------------ the index and the store

  /** Every id keeps one contract and type. */
  ghost predicate KeepsKinds(kindOf: Buffer -> Kind, events: seq<Event>) {
    forall i :: 0 <= i < |events| && (events[i].StoreDocument? || events[i].DeleteDocument?) ==>
      events[i].entry.kind == kindOf(events[i].entry.id)
  }

  ghost predicate Inv(kindOf: Buffer -> Kind, s: State) {
    && (forall e :: e in s.index ==> e.kind == kindOf(e.id) && e.id in s.store)
    && (s.transaction.Some? ==>
        var t := s.transaction.value;
        && Consistent(s.store, t.overlay)
        && (forall e :: e in t.session.added ==> e.kind == kindOf(e.id) && e.id in View(s.store, t.overlay))
        && (forall id :: id in t.overlay.deleted ==> Entry(kindOf(id), id) in t.session.removed - t.session.added))
  }

  lemma StepKeeps(kindOf: Buffer -> Kind, s: State, event: Event)
    requires Inv(kindOf, s)
    requires event.StoreDocument? || event.DeleteDocument? ==> event.entry.kind == kindOf(event.entry.id)
    ensures Inv(kindOf, Step(s, event))
  {
    match event
    case Commit => VisibleInv(kindOf, s);
    case StoreDocument(e, document) =>
      if s.transaction.Some? { PutKeeps(s.store, s.transaction.value.overlay, e.id, document); }
    case DeleteDocument(e) =>
      if s.transaction.Some? {
        DeleteKeeps(s.store, s.transaction.value.overlay, e.id);
        RemoveKeeps(kindOf, s, e);
      }
    case _ =>
  }

  lemma RemoveKeeps(kindOf: Buffer -> Kind, s: State, e: Entry)
    requires Inv(kindOf, s) && s.transaction.Some? && e.kind == kindOf(e.id)
    requires Consistent(s.store, DeleteFrom(s.store, s.transaction.value.overlay, e.id))
    ensures Inv(kindOf, Step(s, DeleteDocument(e)))
  {
    var t := s.transaction.value;
    forall x | x in t.session.added - {e} ensures x.id in View(s.store, DeleteFrom(s.store, t.overlay, e.id)) {
      assert x == Entry(kindOf(x.id), x.id);
    }
  }

  /** Every id the index shows is in the store the same reader sees. */
  lemma VisibleInv(kindOf: Buffer -> Kind, s: State)
    requires Inv(kindOf, s)
    ensures forall e :: e in VisibleIndex(s) ==> e.kind == kindOf(e.id) && e.id in VisibleStore(s)
  {
    if s.transaction.Some? {
      var t := s.transaction.value;
      forall e | e in s.index - t.session.removed ensures e.id in View(s.store, t.overlay) {
        assert e == Entry(kindOf(e.id), e.id);
      }
    }
  }

  /** Over any run in which each id keeps its contract and type, the index stays
      inside the store, seen from inside the transaction and from outside. */
  lemma {:induction false} IndexStaysInStore(kindOf: Buffer -> Kind, events: seq<Event>)
    requires KeepsKinds(kindOf, events)
    ensures var s := Run(EMPTY_STATE, events);
      && Inv(kindOf, s)
      && (forall e :: e in VisibleIndex(s) ==> e.id in VisibleStore(s))
      && (forall e :: e in s.index ==> e.id in s.store)
    decreases |events|
  {
    if events != [] {
      var front, last := events[..|events| - 1], events[|events| - 1];
      assert forall i :: 0 <= i < |front| ==> front[i] == events[i];
      IndexStaysInStore(kindOf, front);
      StepKeeps(kindOf, Run(EMPTY_STATE, front), last);
    }
    VisibleInv(kindOf, Run(EMPTY_STATE, events));
  }

  /** The deletion takes the index entry away and then throws in the store. */
  predicate DeleteFails(s: State, text: MissingKeyText, e: Entry) {
    s.transaction.Some? && DeleteThrows(s.store, text, e.id)
  }

  /** A deletion inside a transaction takes the document out of the index but
      leaves it in the store exactly when only this transaction stored it; the
      caller hears of it exactly when the base's text is not the known one. */
  lemma RemoveLeavesOrphanIff(kindOf: Buffer -> Kind, s: State, text: MissingKeyText, e: Entry)
    requires Inv(kindOf, s) && s.transaction.Some? && e.kind == kindOf(e.id)
    requires e in VisibleIndex(s)
    ensures var t := Step(s, DeleteDocument(e));
      && e !in VisibleIndex(t)
      && (e.id in VisibleStore(t) <==> e.id !in s.store)
      && (e.id in VisibleStore(t) && !DeleteFails(s, text, e) <==> e.id !in s.store && text == KeyNotFound)
  {
    VisibleInv(kindOf, s);
    DeleteDeletesIff(s.store, s.transaction.value.overlay, text, e.id);
  }

  /** A document stored and deleted in one transaction: either the deletion throws,
      or a commit leaves the document in the store, without an index entry. */
  lemma StoredAndDeletedStays(e: Entry, document: Buffer, text: MissingKeyText)
    ensures var stored := Run(EMPTY_STATE, [Start, StoreDocument(e, document)]);
      DeleteFails(stored, text, e) <==> text != KeyNotFound
    ensures var s := Run(EMPTY_STATE, [Start, StoreDocument(e, document), DeleteDocument(e), Commit]);
      e !in s.index && e.id in s.store
  {
    var events := [Start, StoreDocument(e, document), DeleteDocument(e), Commit];
    assert events[..3] == [Start, StoreDocument(e, document), DeleteDocument(e)];
    assert events[..3][..2] == [Start, StoreDocument(e, document)];
    assert events[..3][..2][..1] == [Start] && [Start][..0] == [];
    var started := Step(EMPTY_STATE, Start);
    assert Run(EMPTY_STATE, [Start]) == started;
    var stored := Step(started, StoreDocument(e, document));
    assert Run(EMPTY_STATE, events[..3]) == Step(stored, DeleteDocument(e));
  }

  /** What `find` does with the ids a query returned. */
  function FetchAll(store: Entries, ids: seq<Buffer>): seq<Buffer> {
    if ids == [] then []
    else
      var rest := FetchAll(store, ids[..|ids| - 1]);
      match Lookup(store, ids[|ids| - 1])
      case None => rest
      case Some(document) => rest + [document]
  }

  /** The null filter of `find` drops an answer exactly when an id is missing
      from the store; otherwise the answers are the documents of the ids, in order. */
  lemma {:induction false} FetchAllDropsNothingIff(store: Entries, ids: seq<Buffer>)
    ensures |FetchAll(store, ids)| <= |ids|
    ensures |FetchAll(store, ids)| == |ids| <==> forall id :: id in ids ==> id in store
    ensures |FetchAll(store, ids)| == |ids| ==>
      forall i :: 0 <= i < |ids| ==> ids[i] in store && FetchAll(store, ids)[i] == store[ids[i]]
    decreases |ids|
  {
    if ids != [] {
      var front, last := ids[..|ids| - 1], ids[|ids| - 1];
      FetchAllDropsNothingIff(store, front);
      assert ids == front + [last];
    }
  }

  /** In every reachable state `find` answers with one document per id. */
  lemma FindDropsNothing(kindOf: Buffer -> Kind, events: seq<Event>, kind: Kind, ids: seq<Buffer>)
    requires KeepsKinds(kindOf, events)
    requires forall id :: id in ids ==> Entry(kind, id) in VisibleIndex(Run(EMPTY_STATE, events))
    ensures |FetchAll(VisibleStore(Run(EMPTY_STATE, events)), ids)| == |ids|
  {
    var s := Run(EMPTY_STATE, events);
    IndexStaysInStore(kindOf, events);
    forall id | id in ids ensures id in VisibleStore(s) {
      assert Entry(kind, id) in VisibleIndex(s);
    }
    FetchAllDropsNothingIff(VisibleStore(s), ids);
  }

  /** Without that discipline it fails: deleting an id under another type leaves
      the index entry behind, and `find` drops it. */
  lemma OtherKindBreaks(kind: Kind, other: Kind, id: Buffer, document: Buffer)
    requires kind != other
    ensures var stored := Step(EMPTY_STATE, StoreDocument(Entry(kind, id), document));
      var s := Step(stored, DeleteDocument(Entry(other, id)));
      Entry(kind, id) in s.index && FetchAll(s.store, [id]) == []
  {
    assert [id][..0] == [];
  }

  // ------------------------------------------------------------ the objects

  class Mongo {
    var ids: set<Entry>

    constructor ()
      ensures ids == {}
    {
      ids := {};
    }
  }

  class MongoDBTransaction {
    const mongo: Mongo
    var isTransactionStarted: bool
    var session: Session

    constructor (mongo: Mongo)
      ensures this.mongo == mongo && !isTransactionStarted
    {
      this.mongo := mongo;
      isTransactionStarted, session := false, NO_SESSION;
    }

    method Start() returns (r: Outcome)
      modifies this
      ensures isTransactionStarted
      ensures if old(isTransactionStarted) then r == AlreadyStarted && session == old(session)
                                           else r == Ok && session == NO_SESSION
    {
      if isTransactionStarted {
        return AlreadyStarted;
      }
      session := NO_SESSION;
      isTransactionStarted := true;
      return Ok;
    }

    /** `succeeds` is the database's answer. */
    method Commit(succeeds: bool) returns (r: Outcome)
      modifies this, mongo
      ensures !old(isTransactionStarted) ==> r == NotStarted
      ensures old(isTransactionStarted) ==> r == if succeeds then Ok else Failed
      ensures r == Ok ==> !isTransactionStarted && mongo.ids == IndexView(old(mongo.ids), old(session))
      ensures r != Ok ==> unchanged(this) && unchanged(mongo)
    {
      if !isTransactionStarted {
        return NotStarted;
      }
      if !succeeds {
        return Failed;
      }
      mongo.ids := IndexView(mongo.ids, session);
      isTransactionStarted := false;
      return Ok;
    }

    method Abort() returns (r: Outcome)
      modifies this
      ensures !isTransactionStarted
      ensures r == if old(isTransactionStarted) then Ok else NotStarted
    {
      if !isTransactionStarted {
        return NotStarted;
      }
      isTransactionStarted := false;
      return Ok;
    }
  }

  class DocumentsIndexedTransaction {
    const storeTransaction: MerkDbTransaction
    const mongoDbTransaction: MongoDBTransaction
    var transactionIsStarted: bool

    /** The three flags always agree. */
    ghost predicate Valid()
      reads this, storeTransaction, storeTransaction.db, mongoDbTransaction
    {
      && storeTransaction.Valid()
      && (transactionIsStarted <==> storeTransaction.db != null)
      && (transactionIsStarted <==> mongoDbTransaction.isTransactionStarted)
    }

    ghost function Changes(): Transaction
      requires storeTransaction.db != null
      reads storeTransaction, storeTransaction.db, mongoDbTransaction
    {
      Transaction(mongoDbTransaction.session, storeTransaction.Changes())
    }

    constructor (storeTransaction: MerkDbTransaction, mongoDbTransaction: MongoDBTransaction)
      requires storeTransaction.Valid() && storeTransaction.db == null
      requires !mongoDbTransaction.isTransactionStarted
      ensures Valid() && !transactionIsStarted
      ensures this.storeTransaction == storeTransaction && this.mongoDbTransaction == mongoDbTransaction
    {
      this.storeTransaction := storeTransaction;
      this.mongoDbTransaction := mongoDbTransaction;
      transactionIsStarted := false;
    }

    method Start() returns (r: Outcome)
      requires Valid()
      modifies this, storeTransaction, mongoDbTransaction
      ensures Valid() && transactionIsStarted
      ensures old(transactionIsStarted) ==>
        r == AlreadyStarted && unchanged(storeTransaction) && unchanged(mongoDbTransaction)
      ensures !old(transactionIsStarted) ==>
        r == Ok && fresh(storeTransaction.db) && Changes() == Transaction(NO_SESSION, EMPTY)
    {
      if transactionIsStarted {
        return AlreadyStarted;
      }
      r := storeTransaction.Start();
      r := mongoDbTransaction.Start();
      transactionIsStarted := true;
    }

    /** A failing index commit leaves the store transaction open. */
    method Commit(succeeds: bool) returns (r: Outcome)
      requires Valid()
      modifies this, storeTransaction, storeTransaction.db, storeTransaction.merkDB
      modifies mongoDbTransaction, mongoDbTransaction.mongo
      ensures Valid()
      ensures r == if !old(transactionIsStarted) then NotStarted else if succeeds then Ok else Failed
      ensures r == Ok ==>
        && !transactionIsStarted
        && mongoDbTransaction.mongo.ids == IndexView(old(mongoDbTransaction.mongo.ids), old(Changes()).session)
        && storeTransaction.merkDB.contents == View(old(storeTransaction.merkDB.contents), old(Changes()).overlay)
      ensures r != Ok ==>
        && unchanged(this) && unchanged(storeTransaction) && unchanged(mongoDbTransaction)
        && unchanged(storeTransaction.merkDB) && unchanged(mongoDbTransaction.mongo)
        && (storeTransaction.db != null ==> unchanged(storeTransaction.db))
    {
      if !transactionIsStarted {
        return NotStarted;
      }
      r := mongoDbTransaction.Commit(succeeds);
      if r != Ok {
        return;
      }
      r := storeTransaction.Commit();
      transactionIsStarted := false;
    }

    method Abort() returns (r: Outcome)
      requires Valid()
      modifies this, storeTransaction, storeTransaction.db, mongoDbTransaction
      ensures Valid() && !transactionIsStarted
      ensures r == if old(transactionIsStarted) then Ok else NotStarted
    {
      if !transactionIsStarted {
        return NotStarted;
      }
      r := mongoDbTransaction.Abort();
      r := storeTransaction.Abort();
      transactionIsStarted := false;
    }
  }

  class DocumentIndexedStoreRepository {
    const store: MerkDbStore
    const index: Mongo

    constructor (store: MerkDbStore, index: Mongo)
      ensures this.store == store && this.index == index
    {
      this.store, this.index := store, index;
    }

    /** `transaction` works on the databases of this repository. */
    ghost predicate Owns(transaction: DocumentsIndexedTransaction)
      reads transaction, transaction.storeTransaction, transaction.storeTransaction.db, transaction.mongoDbTransaction
    {
      && transaction.Valid()
      && transaction.storeTransaction.merkDB == store.db
      && transaction.mongoDbTransaction.mongo == index
    }

    /** What a caller holding `transaction` works on. */
    ghost function Seen(transaction: DocumentsIndexedTransaction?): State
      reads index, store.db
      reads if transaction == null then {} else
        {transaction, transaction.storeTransaction, transaction.storeTransaction.db, transaction.mongoDbTransaction}
    {
      State(index.ids, store.db.contents,
        if transaction == null || transaction.storeTransaction.db == null then None
        else Some(transaction.Changes()))
    }

    method Store(entry: Entry, document: Buffer, transaction: DocumentsIndexedTransaction?) returns (r: Outcome)
      requires transaction != null ==> Owns(transaction)
      modifies if transaction == null then {index, store.db}
               else {transaction.mongoDbTransaction, transaction.storeTransaction.db}
      ensures transaction != null ==> Owns(transaction)
      ensures r == if transaction != null && !transaction.transactionIsStarted then NotStarted else Ok
      ensures r == Ok ==> Seen(transaction) == Step(old(Seen(transaction)), StoreDocument(entry, document))
      ensures r != Ok ==> Seen(transaction) == old(Seen(transaction))
    {
      if transaction == null {
        index.ids := index.ids + {entry};
        r := store.Put(entry.id, document, null);
      } else {
        var mongo := transaction.mongoDbTransaction;
        if !mongo.isTransactionStarted {
          return NotStarted;
        }
        mongo.session := Session(mongo.session.added + {entry}, mongo.session.removed - {entry});
        r := store.Put(entry.id, document, transaction.storeTransaction);
      }
    }

    method Delete(entry: Entry, transaction: DocumentsIndexedTransaction?) returns (r: Outcome)
      requires transaction != null ==> Owns(transaction)
      modifies if transaction == null then {index, store.db}
               else {transaction.mongoDbTransaction, transaction.storeTransaction.db}
      ensures transaction != null ==> Owns(transaction)
      ensures r ==
        if transaction != null && !transaction.transactionIsStarted then NotStarted
        else if DeleteFails(old(Seen(transaction)), store.db.missingKeyText, entry) then Failed
        else Ok
      ensures r != NotStarted ==> Seen(transaction) == Step(old(Seen(transaction)), DeleteDocument(entry))
      ensures r == NotStarted ==> Seen(transaction) == old(Seen(transaction))
    {
      if transaction == null {
        index.ids := index.ids - {entry};
        r := store.Delete(entry.id, null);
      } else {
        var mongo := transaction.mongoDbTransaction;
        if !mongo.isTransactionStarted {
          return NotStarted;
        }
        mongo.session := Session(mongo.session.added - {entry}, mongo.session.removed + {entry});
        r := store.Delete(entry.id, transaction.storeTransaction);
      }
    }

    /** `documentIds` is what the query found in the index. */
    method Find(documentIds: seq<Buffer>, transaction: DocumentsIndexedTransaction?)
        returns (r: Outcome, documents: seq<Buffer>)
      requires transaction != null ==> Owns(transaction)
      ensures r == if transaction != null && !transaction.transactionIsStarted then NotStarted else Ok
      ensures r == Ok ==> documents == FetchAll(VisibleStore(Seen(transaction)), documentIds)
    {
      documents := [];
      if transaction != null && !transaction.mongoDbTransaction.isTransactionStarted {
        return NotStarted, [];
      }
      for i := 0 to |documentIds|
        invariant documents == FetchAll(VisibleStore(Seen(transaction)), documentIds[..i])
      {
        assert documentIds[..i + 1][..i] == documentIds[..i];
        var storeTransaction := if transaction == null then null else transaction.storeTransaction;
        var _, document := store.Get(documentIds[i], storeTransaction);
        if document.Some? {
          documents := documents + [document.value];
        }
      }
      assert documentIds[..|documentIds|] == documentIds;
      return Ok, documents;
    }
  }
}
