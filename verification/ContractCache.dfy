/** Data contracts are created through the block transaction, after a check that
    they do not exist, read from the committed store, and kept in one cache that
    two readers share and fill. A contract is identified with its serialized
    bytes. */
module ContractCache {
  import opened Buffers
  import opened Options
  import opened MerkDb

  /** `fetched` holds the committed contracts that readers fetched on a cache miss
      and have not yet put into the cache; `checked` is the contract that passed
      its check and is about to be stored. */
  datatype State = State(
    committed: Entries,
    transaction: Option<Overlay>,
    cache: Entries,
    fetched: set<(Buffer, Buffer)>,
    checked: Option<Buffer>
  )

  const EMPTY_STATE := State(map[], None, map[], {}, None)

  /** What `fetchDataContract` answers. */
  function Fetch(s: State, id: Buffer): Option<Buffer> {
    if id in s.cache then Some(s.cache[id]) else Lookup(s.committed, id)
  }

  datatype Event =
    | Start
    | Commit
    | Abort
    | CheckCreation(id: Buffer)              // rejected if fetching the id finds a contract
    | ApplyCreation(contract: Buffer)        // the checked contract is stored
    | BeginRead(id: Buffer)                  // a reader misses the cache and asks the store
    | EndRead(id: Buffer, contract: Buffer)  // its answer arrives and is cached
    | Evict(id: Buffer)

  function Stored(s: State, id: Buffer, contract: Buffer): State {
    if s.transaction.None? then s
    else s.(transaction := Some(PutIn(s.transaction.value, id, contract)))
  }

  /** A creation is delivered as a whole before the next request of the same
      connection, so no block starts or ends between its check and its end; reads
      come at any time. */
  function Step(s: State, event: Event): State {
    match event
    case Start => if s.checked.Some? || s.transaction.Some? then s else s.(transaction := Some(EMPTY))
    case Commit =>
      if s.checked.Some? || s.transaction.None? then s
      else s.(committed := View(s.committed, s.transaction.value), transaction := None)
    case Abort => if s.checked.Some? then s else s.(transaction := None)
    case CheckCreation(id) => if s.checked.Some? || Fetch(s, id).Some? then s else s.(checked := Some(id))
    case ApplyCreation(contract) =>
      if s.checked.None? then s else Stored(s, s.checked.value, contract).(checked := None)
    case BeginRead(id) =>
      if id in s.cache || id !in s.committed then s
      else s.(fetched := s.fetched + {(id, s.committed[id])})
    case EndRead(id, contract) =>
      if (id, contract) !in s.fetched then s
      else s.(cache := s.cache[id := contract], fetched := s.fetched - {(id, contract)})
    case Evict(id) => s.(cache := s.cache - {id})
  }

  function Run(s: State, events: seq<Event>): State {
    if events == [] then s else Step(Run(s, events[..|events| - 1]), events[|events| - 1])
  }

  ghost predicate Coherent(s: State) {
    && (forall id :: id in s.cache ==> id in s.committed && s.cache[id] == s.committed[id])
    && (forall r :: r in s.fetched ==> r.0 in s.committed && r.1 == s.committed[r.0])
  }

  /** The running block only adds contracts. */
  ghost predicate OnlyAdds(s: State) {
    && (s.transaction.Some? ==>
          s.transaction.value.deleted == map[] && s.transaction.value.data.Keys !! s.committed.Keys)
    && (s.checked.Some? ==> s.checked.value !in s.committed)
  }

  lemma StepKeeps(s: State, event: Event)
    requires Coherent(s) && OnlyAdds(s)
    ensures Coherent(Step(s, event)) && OnlyAdds(Step(s, event))
  {
  }

  /** Cache coherence over any run of fetches, document queries, creations,
      commits, aborts and evictions: a cached contract is the committed one, so the
      cached fetch answers what the uncached fetch would. In particular nothing of
      an aborted block, or of the running one, is cached. */
  lemma {:induction false} CacheIsCoherent(events: seq<Event>, id: Buffer)
    ensures var s := Run(EMPTY_STATE, events);
      && Coherent(s) && OnlyAdds(s)
      && Fetch(s, id) == Lookup(s.committed, id)
      && (s.transaction.Some? && id in s.transaction.value.data ==> id !in s.cache && Fetch(s, id) == None)
    decreases |events|
  {
    if events != [] {
      CacheIsCoherent(events[..|events| - 1], id);
      StepKeeps(Run(EMPTY_STATE, events[..|events| - 1]), events[|events| - 1]);
    }
  }

  // ------------------------------------------------- the same without a cache

  /** The contracts by id: committed ones, and those of the running block. */
  datatype Plain = Plain(committed: Entries, pending: Option<Entries>, checked: Option<Buffer>)

  const EMPTY_PLAIN := Plain(map[], None, None)

  function PlainStep(p: Plain, event: Event): Plain {
    match event
    case Start => if p.checked.Some? || p.pending.Some? then p else p.(pending := Some(map[]))
    case Commit =>
      if p.checked.Some? || p.pending.None? then p else Plain(p.committed + p.pending.value, None, None)
    case Abort => if p.checked.Some? then p else p.(pending := None)
    case CheckCreation(id) => if p.checked.Some? || id in p.committed then p else p.(checked := Some(id))
    case ApplyCreation(contract) =>
      if p.checked.None? then p
      else if p.pending.None? then p.(checked := None)
      else Plain(p.committed, Some(p.pending.value[p.checked.value := contract]), None)
    case _ => p
  }

  function RunPlainly(events: seq<Event>): Plain {
    if events == [] then EMPTY_PLAIN else PlainStep(RunPlainly(events[..|events| - 1]), events[|events| - 1])
  }

  ghost predicate IsPlain(s: State, p: Plain) {
    && s.committed == p.committed && s.checked == p.checked
    && s.transaction == if p.pending.None? then None else Some(Overlay(p.pending.value, map[]))
  }

  lemma StepIsPlain(s: State, p: Plain, event: Event)
    requires Coherent(s) && OnlyAdds(s) && IsPlain(s, p)
    ensures IsPlain(Step(s, event), PlainStep(p, event))
  {
    match event
    case Commit =>
      if s.transaction.Some? { assert View(s.committed, s.transaction.value) == p.committed + p.pending.value; }
    case ApplyCreation(contract) =>
      if s.checked.Some? && s.transaction.Some? {
        assert s.transaction.value.deleted - {s.checked.value} == map[];
      }
    case _ =>
  }

  /** Over any run the cached repository is the one without a cache: the same
      creations pass, the same contracts are committed, and every fetch answers
      what the committed contracts say. */
  lemma {:induction false} CacheRefinesPlain(events: seq<Event>, id: Buffer)
    ensures var s, p := Run(EMPTY_STATE, events), RunPlainly(events);
      && IsPlain(s, p) && s.committed == p.committed
      && Fetch(s, id) == Lookup(p.committed, id)
    decreases |events|
  {
    CacheIsCoherent(events, id);
    if events != [] {
      var front := events[..|events| - 1];
      CacheRefinesPlain(front, id);
      CacheIsCoherent(front, id);
      StepIsPlain(Run(EMPTY_STATE, front), RunPlainly(front), events[|events| - 1]);
    }
  }

  /** A contract that passes its check in a running block is fetched once the block
      is committed, not before, and never if it is aborted. */
  lemma CreatedIsFetched(events: seq<Event>, id: Buffer, contract: Buffer)
    requires var s := Run(EMPTY_STATE, events);
      s.transaction.Some? && s.checked.None? && id !in s.committed
    ensures var s := Run(EMPTY_STATE, events);
      var created := Step(Step(s, CheckCreation(id)), ApplyCreation(contract));
      && Fetch(created, id) == None
      && Fetch(Step(created, Commit), id) == Some(contract)
      && Fetch(Step(created, Abort), id) == None
      && forall other :: other != id ==> Fetch(created, other) == Fetch(s, other)
  {
    CacheIsCoherent(events, id);
    var s := Run(EMPTY_STATE, events);
    assert id !in s.cache;
  }

  /** So no committed contract is ever rewritten or removed. */
  lemma CommittedStays(events: seq<Event>, event: Event, id: Buffer)
    requires id in Run(EMPTY_STATE, events).committed
    ensures var s := Run(EMPTY_STATE, events);
      id in Step(s, event).committed && Step(s, event).committed[id] == s.committed[id]
  {
    CacheIsCoherent(events, id);
  }

  /** A commit keeps the cache coherent if and only if the block rewrites no
      contract that is cached or about to be, unless with the same content. */
  lemma CommitCoherentIff(s: State)
    requires Coherent(s) && s.checked.None? && s.transaction.Some? && s.transaction.value.deleted == map[]
    ensures var data := s.transaction.value.data;
      Coherent(Step(s, Commit)) <==>
        && (forall id :: id in data && id in s.cache ==> data[id] == s.cache[id])
        && (forall r :: r in s.fetched && r.0 in data ==> data[r.0] == r.1)
  {
    var t := Step(s, Commit);
    assert t.committed == s.committed + s.transaction.value.data;
    if Coherent(t) {
      assert forall id :: id in s.cache ==> t.cache[id] == t.committed[id];
    }
  }

  /** This is what the check before a creation is for: in a state that it keeps from
      being reached, a rewritten contract leaves a stale answer behind. */
  lemma RewriteLeavesStaleAnswer(id: Buffer, old': Buffer, new': Buffer)
    requires old' != new'
    ensures var s := State(map[id := old'], Some(PutIn(EMPTY, id, new')), map[id := old'], {}, None);
      Coherent(s) && Lookup(Step(s, Commit).committed, id) == Some(new') && Fetch(Step(s, Commit), id) == Some(old')
  {
  }

  // ------------------------------------------------------------ the object

  /** `CachedStateRepositoryDecorator` over `DriveStateRepository`, and the part
      of `fetchDocuments` that works on the same cache. */
  class ContractRepository {
    const store: MerkDbStore
    const transaction: MerkDbTransaction?   // the "dataContracts" one, if there are block transactions
    var contractCache: Entries

    ghost predicate Valid()
      reads this, if transaction == null then {} else {transaction, transaction.db}
    {
      transaction != null ==> transaction.Valid() && transaction.merkDB == store.db
    }

    ghost function Seen(): State
      reads this, store.db, if transaction == null then {} else {transaction, transaction.db}
    {
      State(store.db.contents,
            if transaction == null || transaction.db == null then None else Some(transaction.Changes()),
            contractCache, {}, None)
    }

    constructor (store: MerkDbStore, transaction: MerkDbTransaction?)
      requires transaction != null ==> transaction.Valid() && transaction.merkDB == store.db
      ensures Valid() && this.store == store && this.transaction == transaction
      ensures contractCache == map[]
    {
      this.store, this.transaction := store, transaction;
      contractCache := map[];
    }

    /** The committed store is read even while a block is running. */
    method FetchDataContract(id: Buffer) returns (contract: Option<Buffer>)
      requires Valid()
      modifies this
      ensures Valid() && contract == Fetch(old(Seen()), id)
      ensures Seen() == FetchedAndCached(old(Seen()), id)
    {
      if id in contractCache {
        return Some(contractCache[id]);
      }
      var _, found := store.Get(id, null);
      contract := found;
      if contract.Some? {
        contractCache := contractCache[id := contract.value];
      }
    }

    /** The contract part of `fetchDocuments`: false for an unknown contract. */
    method FindContractForQuery(id: Buffer) returns (known: bool)
      requires Valid()
      modifies this
      ensures Valid() && known == Fetch(old(Seen()), id).Some?
      ensures Seen() == FetchedAndCached(old(Seen()), id)
    {
      var contract := Lookup(contractCache, id);
      if contract.None? {
        var _, found := store.Get(id, null);
        contract := found;
        if contract.None? {
          return false;
        }
        contractCache := contractCache[id := contract.value];
      }
      return true;
    }

    method StoreDataContract(id: Buffer, contract: Buffer) returns (r: Outcome)
      requires Valid()
      modifies if transaction == null then {store.db} else {transaction.db}
      ensures Valid() && contractCache == old(contractCache)
      ensures transaction == null ==> r == Ok && store.db.contents == old(store.db.contents)[id := contract]
      ensures transaction != null && transaction.db == null ==> r == NotStarted
      ensures transaction != null && transaction.db != null ==>
        r == Ok && Seen() == Stored(old(Seen()), id, contract)
    {
      r := store.Put(id, contract, transaction);
    }

    /** The check and the application of a creation; `Failed` stands for the error
        that the contract is already present. */
    method CreateDataContract(id: Buffer, contract: Buffer) returns (r: Outcome)
      requires Valid() && transaction != null && transaction.db != null
      modifies this, transaction.db
      ensures Valid() && r == if Fetch(old(Seen()), id).Some? then Failed else Ok
      ensures r == Failed ==> Seen() == FetchedAndCached(old(Seen()), id)
      ensures r == Ok ==> Seen() == Step(Step(old(Seen()), CheckCreation(id)), ApplyCreation(contract))
    {
      var existing := FetchDataContract(id);
      if existing.Some? {
        return Failed;
      }
      r := StoreDataContract(id, contract);
    }
  }

  function FetchedAndCached(s: State, id: Buffer): State {
    if id in s.cache || id !in s.committed then s else s.(cache := s.cache[id := s.committed[id]])
  }

  /** A fetch is the two read events with nothing in between. */
  lemma FetchIsTwoEvents(s: State, id: Buffer)
    requires s.fetched == {} && id !in s.cache && id in s.committed
    ensures Step(Step(s, BeginRead(id)), EndRead(id, s.committed[id])) == FetchedAndCached(s, id)
  {
  }
}
