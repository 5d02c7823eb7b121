/** The document repository against a plain model: what was written is what is
    read, inside the transaction and, after its commit, outside. */
module DocumentRuns {
  import opened Buffers
  import opened Options
  import opened MerkDb
  import opened Documents

  /** The entries a query can find, and the documents by id. */
  datatype Contents = Contents(entries: set<Entry>, documents: Entries)

  /** What is committed, and the copy that an open transaction works on. */
  datatype Model = Model(committed: Contents, open: Option<Contents>)

  const EMPTY_MODEL := Model(Contents({}, map[]), None)

  function Current(m: Model): Contents {
    if m.open.Some? then m.open.value else m.committed
  }

  function Changed(m: Model, c: Contents): Model {
    if m.open.Some? then m.(open := Some(c)) else m.(committed := c)
  }

  /** The documents after a deletion: an open transaction does not let go of the
      documents it added itself. */
  function WithoutDocument(m: Model, id: Buffer): Entries {
    var documents := Current(m).documents;
    if m.open.Some? && id !in m.committed.documents then documents else documents - {id}
  }

  function ModelStep(m: Model, event: Event): Model {
    match event
    case Start => if m.open.Some? then m else m.(open := Some(m.committed))
    case Commit => if m.open.Some? then Model(m.open.value, None) else m
    case Abort => m.(open := None)
    case StoreDocument(e, document) =>
      Changed(m, Contents(Current(m).entries + {e}, Current(m).documents[e.id := document]))
    case DeleteDocument(e) => Changed(m, Contents(Current(m).entries - {e}, WithoutDocument(m, e.id)))
  }

  function RunModel(events: seq<Event>): Model {
    if events == [] then EMPTY_MODEL else ModelStep(RunModel(events[..|events| - 1]), events[|events| - 1])
  }

  /** `s` shows what the model holds, to readers inside and outside. */
  ghost predicate Shows(s: State, m: Model) {
    && s.index == m.committed.entries && s.store == m.committed.documents
    && (s.transaction.Some? <==> m.open.Some?)
    && VisibleIndex(s) == Current(m).entries && VisibleStore(s) == Current(m).documents
    && (s.transaction.Some? ==> Consistent(s.store, s.transaction.value.overlay))
  }

  lemma StepShows(s: State, m: Model, event: Event)
    requires Shows(s, m)
    ensures Shows(Step(s, event), ModelStep(m, event))
  {
    match event
    case StoreDocument(e, document) =>
      if s.transaction.Some? { PutKeeps(s.store, s.transaction.value.overlay, e.id, document); }
    case DeleteDocument(e) =>
      if s.transaction.Some? { DeleteKeeps(s.store, s.transaction.value.overlay, e.id); }
    case _ =>
  }

  /** Over any run at all, whatever ids and types it mixes, index and store show
      exactly what the plain model holds: committed contents outside, the working
      copy inside. */
  lemma {:induction false} RepositoryRefinesModel(events: seq<Event>)
    ensures var s, m := Run(EMPTY_STATE, events), RunModel(events);
      && Shows(s, m)
      && s.index == m.committed.entries && s.store == m.committed.documents
      && VisibleIndex(s) == Current(m).entries && VisibleStore(s) == Current(m).documents
    decreases |events|
  {
    if events != [] {
      RepositoryRefinesModel(events[..|events| - 1]);
      StepShows(Run(EMPTY_STATE, events[..|events| - 1]), RunModel(events[..|events| - 1]), events[|events| - 1]);
    }
  }

  /** The event writes the id of `e`, or drops the changes of the transaction. */
  predicate Bears(event: Event, e: Entry) {
    match event
    case StoreDocument(other, _) => other.id == e.id
    case DeleteDocument(other) => other.id == e.id
    case Abort => true
    case _ => false
  }

  lemma {:induction false} StaysRead(s: State, e: Entry, document: Buffer, later: seq<Event>)
    requires s.transaction.Some? ==> Consistent(s.store, s.transaction.value.overlay)
    requires e in VisibleIndex(s) && Lookup(VisibleStore(s), e.id) == Some(document)
    requires forall i :: 0 <= i < |later| ==> !Bears(later[i], e)
    ensures var t := Run(s, later);
      && (t.transaction.Some? ==> Consistent(t.store, t.transaction.value.overlay))
      && e in VisibleIndex(t) && Lookup(VisibleStore(t), e.id) == Some(document)
    decreases |later|
  {
    if later != [] {
      var front, last := later[..|later| - 1], later[|later| - 1];
      assert forall i :: 0 <= i < |front| ==> front[i] == later[i];
      StaysRead(s, e, document, front);
      var t := Run(s, front);
      match last
      case StoreDocument(other, d) =>
        if t.transaction.Some? { PutKeeps(t.store, t.transaction.value.overlay, other.id, d); }
      case DeleteDocument(other) =>
        if t.transaction.Some? { DeleteKeeps(t.store, t.transaction.value.overlay, other.id); }
      case _ =>
    }
  }

  /** Writes are read: after a document is stored in any reachable state, every
      query for its entry finds it with these bytes, nothing else changes, and it
      stays so, through commits, until its id is written again or the transaction
      is aborted. */
  lemma StoredIsRead(events: seq<Event>, e: Entry, document: Buffer, later: seq<Event>)
    requires forall i :: 0 <= i < |later| ==> !Bears(later[i], e)
    ensures var s := Run(EMPTY_STATE, events);
      var t := Step(s, StoreDocument(e, document));
      && VisibleIndex(t) == VisibleIndex(s) + {e}
      && VisibleStore(t) == VisibleStore(s)[e.id := document]
      && e in VisibleIndex(Run(t, later)) && Lookup(VisibleStore(Run(t, later)), e.id) == Some(document)
  {
    var s := Run(EMPTY_STATE, events);
    RepositoryRefinesModel(events);
    StepShows(s, RunModel(events), StoreDocument(e, document));
    StaysRead(Step(s, StoreDocument(e, document)), e, document, later);
  }

  lemma FetchOne(store: Entries, ids: seq<Buffer>, id: Buffer)
    ensures FetchAll(store, ids + [id]) == FetchAll(store, ids) + if id in store then [store[id]] else []
  {
    assert (ids + [id])[..|ids|] == ids;
  }

  lemma {:induction false} FetchAllJoins(store: Entries, ids: seq<Buffer>, more: seq<Buffer>)
    ensures FetchAll(store, ids + more) == FetchAll(store, ids) + FetchAll(store, more)
    decreases |more|
  {
    if more == [] {
      assert ids + more == ids;
    } else {
      var front, last := more[..|more| - 1], more[|more| - 1];
      FetchAllJoins(store, ids, front);
      FetchOne(store, front, last);
      FetchOne(store, ids + front, last);
      assert more == front + [last] && ids + more == (ids + front) + [last];
    }
  }

  /** The answers to a list of ids are those to its parts, in order; one id is
      answered with its document, or not at all. */
  lemma FetchAllSplits(store: Entries, ids: seq<Buffer>, more: seq<Buffer>, id: Buffer)
    ensures FetchAll(store, ids + more) == FetchAll(store, ids) + FetchAll(store, more)
    ensures FetchAll(store, [id]) == if id in store then [store[id]] else []
  {
    FetchAllJoins(store, ids, more);
    FetchOne(store, [], id);
    assert [] + [id] == [id];
  }
}
