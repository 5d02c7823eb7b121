/** The in-memory overlay a Merk transaction works on, the transaction, and the
    store that routes reads and writes to one or the other. Keys are byte
    buffers; the hexadecimal strings the overlay's Maps use stand for them. */
module MerkDb {
  import opened Buffers
  import opened Options

  type Entries = map<Buffer, Buffer>

  function Lookup(m: Entries, k: Buffer): Option<Buffer> {
    if k in m then Some(m[k]) else None
  }

  datatype Outcome = Ok | AlreadyStarted | NotStarted | Failed

  // ------------------------------------------------------------- the base

  /** How the message of the base's error for a missing key begins. The readers
      know both texts, `delete` only the first. */
  datatype MissingKeyText = KeyNotFound | NoValueFoundForKey

  datatype BatchOp = Put(key: Buffer, value: Buffer) | Delete(key: Buffer)

  function ApplyBatch(base: Entries, ops: seq<BatchOp>): Entries {
    if ops == [] then base
    else
      var before, op := ApplyBatch(base, ops[..|ops| - 1]), ops[|ops| - 1];
      match op
      case Put(k, v) => before[k := v]
      case Delete(k) => before - {k}
  }

  class Merk {
    const missingKeyText: MissingKeyText
    var contents: Entries

    constructor (missingKeyText: MissingKeyText)
      ensures contents == map[] && this.missingKeyText == missingKeyText
    {
      this.missingKeyText := missingKeyText;
      contents := map[];
    }

    method CommitBatch(ops: seq<BatchOp>)
      modifies this
      ensures contents == ApplyBatch(old(contents), ops)
    {
      for i := 0 to |ops|
        invariant contents == ApplyBatch(old(contents), ops[..i])
      {
        assert ops[..i + 1][..i] == ops[..i];
        match ops[i]
        case Put(k, v) => contents := contents[k := v];
        case Delete(k) => contents := contents - {k};
      }
      assert ops[..|ops|] == ops;
    }
  }

  // ------------------------------------------------- overlays as values

  datatype Overlay = Overlay(data: Entries, deleted: Entries)

  const EMPTY := Overlay(map[], map[])

  /** The map an overlay stands for; a deletion hides an update of its key. */
  function View(base: Entries, o: Overlay): Entries {
    (base + o.data) - o.deleted.Keys
  }

  /** No key is both updated and deleted; deletions hold what the base holds. */
  ghost predicate Consistent(base: Entries, o: Overlay) {
    && o.data.Keys !! o.deleted.Keys
    && forall k :: k in o.deleted ==> k in base && o.deleted[k] == base[k]
  }

  function PutIn(o: Overlay, k: Buffer, v: Buffer): Overlay {
    Overlay(o.data[k := v], o.deleted - {k})
  }

  function DeleteFrom(base: Entries, o: Overlay, k: Buffer): Overlay {
    if k in base then Overlay(o.data - {k}, o.deleted[k := base[k]]) else o
  }

  /** The error for a key that the base lacks is passed on unless its text is known. */
  predicate DeleteThrows(base: Entries, text: MissingKeyText, k: Buffer) {
    k !in base && text != KeyNotFound
  }

  lemma PutKeeps(base: Entries, o: Overlay, k: Buffer, v: Buffer)
    requires Consistent(base, o)
    ensures Consistent(base, PutIn(o, k, v))
    ensures View(base, PutIn(o, k, v)) == View(base, o)[k := v]
  {
    assert View(base, PutIn(o, k, v)).Keys == View(base, o).Keys + {k};
  }

  /** A deletion takes the key out of the view for keys of the base, and leaves
      the view as it was for all others. */
  lemma DeleteKeeps(base: Entries, o: Overlay, k: Buffer)
    requires Consistent(base, o)
    ensures Consistent(base, DeleteFrom(base, o, k))
    ensures View(base, DeleteFrom(base, o, k)) == if k in base then View(base, o) - {k} else View(base, o)
  {
  }

  /** `delete` fails to delete for exactly the keys the transaction itself added;
      it throws for those, too, or says nothing, depending on the base's text. */
  lemma DeleteDeletesIff(base: Entries, o: Overlay, text: MissingKeyText, k: Buffer)
    requires Consistent(base, o)
    ensures k !in View(base, DeleteFrom(base, o, k)) <==> k in base || k !in o.data
    ensures k in View(base, DeleteFrom(base, o, k)) && !DeleteThrows(base, text, k) <==>
      k !in base && k in o.data && text == KeyNotFound
    ensures DeleteThrows(base, text, k) ==> DeleteFrom(base, o, k) == o
  {
    DeleteKeeps(base, o, k);
  }

  // ---------------------------------------------- the batch of a commit

  function OpKeys(ops: seq<BatchOp>): (ks: seq<Buffer>)
    ensures |ks| == |ops| && forall i :: 0 <= i < |ops| ==> ks[i] == ops[i].key
  {
    seq(|ops|, i requires 0 <= i < |ops| => ops[i].key)
  }

  ghost predicate SortedPuts(ops: seq<BatchOp>, data: Entries) {
    && StrictlyAscending(OpKeys(ops))
    && (forall k :: k in OpKeys(ops) <==> k in data)
    && forall i :: 0 <= i < |ops| ==> ops[i].key in data && ops[i] == Put(ops[i].key, data[ops[i].key])
  }

  ghost predicate SortedDeletes(ops: seq<BatchOp>, keys: set<Buffer>) {
    && StrictlyAscending(OpKeys(ops))
    && (forall k :: k in OpKeys(ops) <==> k in keys)
    && forall i :: 0 <= i < |ops| ==> ops[i].Delete?
  }

  /** Each updated key once, ascending, then each deleted key once, ascending. */
  ghost predicate IsBatch(ops: seq<BatchOp>, o: Overlay) {
    |o.data| <= |ops| && SortedPuts(ops[..|o.data|], o.data) && SortedDeletes(ops[|o.data|..], o.deleted.Keys)
  }

  lemma {:induction false} ApplyPuts(base: Entries, ops: seq<BatchOp>, data: Entries)
    requires forall i :: 0 <= i < |ops| ==> ops[i].key in data && ops[i] == Put(ops[i].key, data[ops[i].key])
    ensures var r := ApplyBatch(base, ops);
      forall k :: (k in r <==> k in base || k in OpKeys(ops))
               && (k in r ==> r[k] == if k in OpKeys(ops) then data[k] else base[k])
    decreases |ops|
  {
    if ops != [] {
      var front, last := ops[..|ops| - 1], ops[|ops| - 1];
      ApplyPuts(base, front, data);
      assert OpKeys(ops) == OpKeys(front) + [last.key];
      assert ApplyBatch(base, ops) == ApplyBatch(base, front)[last.key := data[last.key]];
    }
  }

  lemma {:induction false} ApplyDeletes(base: Entries, ops: seq<BatchOp>)
    requires forall i :: 0 <= i < |ops| ==> ops[i].Delete?
    ensures ApplyBatch(base, ops) == base - set k | k in OpKeys(ops)
    decreases |ops|
  {
    if ops != [] {
      var front, last := ops[..|ops| - 1], ops[|ops| - 1];
      ApplyDeletes(base, front);
      assert OpKeys(ops) == OpKeys(front) + [last.key];
    }
  }

  lemma {:induction false} ApplyAppend(base: Entries, a: seq<BatchOp>, b: seq<BatchOp>)
    ensures ApplyBatch(base, a + b) == ApplyBatch(ApplyBatch(base, a), b)
    decreases |b|
  {
    if b == [] {
      assert a + b == a;
    } else {
      assert (a + b)[..|a + b| - 1] == a + b[..|b| - 1];
      ApplyAppend(base, a, b[..|b| - 1]);
    }
  }

  lemma PutsCommit(base: Entries, ops: seq<BatchOp>, data: Entries)
    requires SortedPuts(ops, data)
    ensures ApplyBatch(base, ops) == base + data
  {
    ApplyPuts(base, ops, data);
  }

  lemma DeletesCommit(base: Entries, ops: seq<BatchOp>, keys: set<Buffer>)
    requires SortedDeletes(ops, keys)
    ensures ApplyBatch(base, ops) == base - keys
  {
    ApplyDeletes(base, ops);
    assert (set k | k in OpKeys(ops)) == keys;
  }

  /** Committing the batch of an overlay turns the base into the overlay's view. */
  lemma BatchCommitsView(base: Entries, ops: seq<BatchOp>, o: Overlay)
    requires IsBatch(ops, o)
    ensures ApplyBatch(base, ops) == View(base, o)
  {
    var puts, deletes := ops[..|o.data|], ops[|o.data|..];
    assert ops == puts + deletes;
    ApplyAppend(base, puts, deletes);
    PutsCommit(base, puts, o.data);
    DeletesCommit(base + o.data, deletes, o.deleted.Keys);
  }

  /** The batch depends on the overlay alone, not on the order its Maps grew. */
  lemma BatchIsCanonical(a: seq<BatchOp>, b: seq<BatchOp>, o: Overlay)
    requires IsBatch(a, o) && IsBatch(b, o)
    ensures a == b
  {
    var n := |o.data|;
    AscendingIsCanonical(OpKeys(a[..n]), OpKeys(b[..n]));
    AscendingIsCanonical(OpKeys(a[n..]), OpKeys(b[n..]));
    assert |a| == |OpKeys(a[..n])| + |OpKeys(a[n..])|;
    assert |b| == |OpKeys(b[..n])| + |OpKeys(b[n..])|;
    forall i | 0 <= i < |a| ensures a[i] == b[i] {
      if i < n {
        assert a[..n][i].key == OpKeys(a[..n])[i] == OpKeys(b[..n])[i] == b[..n][i].key;
      } else {
        assert a[n..][i - n].key == OpKeys(a[n..])[i - n] == OpKeys(b[n..])[i - n] == b[n..][i - n].key;
      }
    }
  }

  lemma BatchKeysSplit(ops: seq<BatchOp>, o: Overlay)
    requires IsBatch(ops, o)
    ensures OpKeys(ops) == OpKeys(ops[..|o.data|]) + OpKeys(ops[|o.data|..])
  {
  }

  /** A batch names each key once. As a whole it is ascending, which is what the
      comments beside both loops ask of it, exactly when every updated key is
      below every deleted one. */
  lemma BatchOrder(ops: seq<BatchOp>, o: Overlay)
    requires IsBatch(ops, o) && o.data.Keys !! o.deleted.Keys
    ensures Distinct(OpKeys(ops))
    ensures StrictlyAscending(OpKeys(ops)) <==> forall p, d :: p in o.data && d in o.deleted ==> Less(p, d)
  {
    var puts, deletes := OpKeys(ops[..|o.data|]), OpKeys(ops[|o.data|..]);
    BatchKeysSplit(ops, o);
    JoinDistinct(puts, deletes);
    JoinAscendingIff(puts, deletes);
  }

  /** An update of one key and the deletion of a lower one: the batch as a whole
      is not ascending. */
  lemma BatchOutOfOrder(ops: seq<BatchOp>)
    requires IsBatch(ops, Overlay(map[[1] := []], map[[0] := []]))
    ensures !StrictlyAscending(OpKeys(ops))
  {
    var o := Overlay(map[[1] := []], map[[0] := []]);
    var update: Buffer, removal: Buffer := [1], [0];
    BatchOrder(ops, o);
    assert update in o.data && removal in o.deleted && !Less(update, removal);
  }

  // ----------------------------------------------- runs over one overlay

  datatype Access = Read(key: Buffer) | Write(key: Buffer, value: Buffer) | Remove(key: Buffer)

  function RunOverlay(base: Entries, accesses: seq<Access>): Overlay {
    if accesses == [] then EMPTY
    else
      var o := RunOverlay(base, accesses[..|accesses| - 1]);
      match accesses[|accesses| - 1]
      case Read(k) => o
      case Write(k, v) => PutIn(o, k, v)
      case Remove(k) => DeleteFrom(base, o, k)
  }

  /** A plain map under the same accesses. `strict`: a removal takes effect only
      on the keys the map started with. */
  function RunPlain(base: Entries, accesses: seq<Access>, strict: bool): Entries {
    if accesses == [] then base
    else
      var m := RunPlain(base, accesses[..|accesses| - 1], strict);
      match accesses[|accesses| - 1]
      case Read(k) => m
      case Write(k, v) => m[k := v]
      case Remove(k) => if strict && k !in base then m else m - {k}
  }

  /** Over any accesses the overlay stands for the plain map whose removals
      spare the keys added since the start, so every read agrees with it. */
  lemma {:induction false} OverlayRefinesMap(base: Entries, accesses: seq<Access>)
    ensures Consistent(base, RunOverlay(base, accesses))
    ensures View(base, RunOverlay(base, accesses)) == RunPlain(base, accesses, true)
    decreases |accesses|
  {
    if accesses != [] {
      var front, last := accesses[..|accesses| - 1], accesses[|accesses| - 1];
      OverlayRefinesMap(base, front);
      var o := RunOverlay(base, front);
      match last
      case Read(k) =>
      case Write(k, v) => PutKeeps(base, o, k, v);
      case Remove(k) => DeleteKeeps(base, o, k);
    }
  }

  /** The removals of `accesses` that the overlay ignores although the key is
      there: those of keys that only the transaction added. */
  predicate IgnoredRemoval(base: Entries, accesses: seq<Access>, i: nat)
    requires i < |accesses|
  {
    accesses[i].Remove? && accesses[i].key !in base && accesses[i].key in RunPlain(base, accesses[..i], false)
  }

  /** The overlay behaves like a plain map with plain removals, after every
      access, if and only if no removal is of a key the transaction added. */
  lemma {:induction false} OverlayIsPlainMapIff(base: Entries, accesses: seq<Access>)
    ensures (forall n {:trigger accesses[..n]} :: 0 <= n <= |accesses| ==>
               View(base, RunOverlay(base, accesses[..n])) == RunPlain(base, accesses[..n], false))
       <==> forall i :: 0 <= i < |accesses| ==> !IgnoredRemoval(base, accesses, i)
  {
    if forall i :: 0 <= i < |accesses| ==> !IgnoredRemoval(base, accesses, i) {
      forall n {:trigger accesses[..n]} | 0 <= n <= |accesses|
        ensures View(base, RunOverlay(base, accesses[..n])) == RunPlain(base, accesses[..n], false)
      {
        PlainWithoutIgnored(base, accesses, n);
        OverlayRefinesMap(base, accesses[..n]);
      }
    } else {
      var i :| 0 <= i < |accesses| && IgnoredRemoval(base, accesses, i);
      var k := accesses[i].key;
      var before, after := accesses[..i], accesses[..i + 1];
      assert after[..i] == before;
      OverlayRefinesMap(base, before);
      OverlayRefinesMap(base, after);
      assert k !in RunPlain(base, after, false);
      if View(base, RunOverlay(base, before)) == RunPlain(base, before, false) {
        assert k in View(base, RunOverlay(base, after));
      }
    }
  }

  lemma {:induction false} PlainWithoutIgnored(base: Entries, accesses: seq<Access>, n: nat)
    requires n <= |accesses|
    requires forall i :: 0 <= i < n ==> !IgnoredRemoval(base, accesses, i)
    ensures RunPlain(base, accesses[..n], true) == RunPlain(base, accesses[..n], false)
  {
    if n > 0 {
      PlainWithoutIgnored(base, accesses, n - 1);
      assert accesses[..n][..n - 1] == accesses[..n - 1];
      assert !IgnoredRemoval(base, accesses, n - 1);
    }
  }

  /** A key added and removed in one transaction is still there. */
  lemma AddedKeyOutlivesRemoval(k: Buffer, v: Buffer)
    ensures var accesses := [Write(k, v), Remove(k)];
      Lookup(View(map[], RunOverlay(map[], accesses)), k) == Some(v)
      && k !in RunPlain(map[], accesses, false)
  {
    var accesses := [Write(k, v), Remove(k)];
    assert accesses[..1] == [Write(k, v)];
    assert [Write(k, v)][..0] == [];
    assert RunOverlay(map[], [Write(k, v)]) == PutIn(EMPTY, k, v);
    assert RunOverlay(map[], accesses) == DeleteFrom(map[], RunOverlay(map[], accesses[..1]), k);
  }

  // ------------------------------------------------------ the overlay object

  function EntryKey(e: (Buffer, Buffer)): Buffer {
    e.0
  }

  ghost predicate AreEntries(entries: seq<(Buffer, Buffer)>, m: Entries) {
    forall e :: e in entries <==> e.0 in m && m[e.0] == e.1
  }

  /** Takes the entries out of a Map one at a time, in no particular order. */
  method EntriesOf(m: Entries) returns (entries: seq<(Buffer, Buffer)>)
    ensures |entries| == |m| && AreEntries(entries, m)
    ensures DistinctBy(EntryKey, entries)
  {
    entries := [];
    var rest := m;
    while rest != map[]
      invariant rest.Keys <= m.Keys && forall k :: k in rest ==> rest[k] == m[k]
      invariant |entries| + |rest| == |m|
      invariant DistinctBy(EntryKey, entries)
      invariant forall e :: e in entries <==> e.0 in m && e.0 !in rest && m[e.0] == e.1
      decreases |rest|
    {
      var k :| k in rest;
      entries := entries + [(k, rest[k])];
      assert (rest - {k}).Keys == rest.Keys - {k};
      assert |rest.Keys| == |rest| && |(rest - {k}).Keys| == |rest - {k}|;
      rest := rest - {k};
    }
  }

  /** `sorted` holds each entry of `m` once, by ascending key. */
  ghost predicate IsSortedEntries(sorted: seq<(Buffer, Buffer)>, m: Entries) {
    && |sorted| == |m|
    && StrictlyAscending(Keys(EntryKey, sorted))
    && AreEntries(sorted, m)
    && (forall k :: k in Keys(EntryKey, sorted) <==> k in m)
  }

  lemma SortedEntries(entries: seq<(Buffer, Buffer)>, m: Entries)
    requires |entries| == |m| && AreEntries(entries, m)
    requires DistinctBy(EntryKey, entries)
    ensures IsSortedEntries(SortBy(EntryKey, entries), m)
  {
    var sorted := SortBy(EntryKey, entries);
    SortDistinct(EntryKey, entries);
    SortByIsSorted(EntryKey, entries);
    SameEntries(sorted, entries, m);
    EntriesCoverKeys(sorted, m);
  }

  lemma SameEntries(s: seq<(Buffer, Buffer)>, t: seq<(Buffer, Buffer)>, m: Entries)
    requires multiset(s) == multiset(t) && AreEntries(t, m)
    ensures |s| == |t| && AreEntries(s, m)
  {
    SameMembers(s, t);
  }

  lemma EntriesCoverKeys(entries: seq<(Buffer, Buffer)>, m: Entries)
    requires AreEntries(entries, m)
    ensures forall k :: k in Keys(EntryKey, entries) <==> k in m
  {
    forall k | k in m ensures k in Keys(EntryKey, entries) {
      assert (k, m[k]) in entries;
      var i :| 0 <= i < |entries| && entries[i] == (k, m[k]);
      assert Keys(EntryKey, entries)[i] == k;
    }
    forall k | k in Keys(EntryKey, entries) ensures k in m {
      var i :| 0 <= i < |entries| && Keys(EntryKey, entries)[i] == k;
      assert entries[i] in entries;
    }
  }

  method SortedEntriesOf(m: Entries) returns (sorted: seq<(Buffer, Buffer)>)
    ensures IsSortedEntries(sorted, m)
  {
    var entries := EntriesOf(m);
    SortedEntries(entries, m);
    sorted := SortBy(EntryKey, entries);
  }

  function PutOps(entries: seq<(Buffer, Buffer)>): (ops: seq<BatchOp>)
    ensures |ops| == |entries|
  {
    seq(|entries|, i requires 0 <= i < |entries| => BatchOp.Put(entries[i].0, entries[i].1))
  }

  function DeleteOps(entries: seq<(Buffer, Buffer)>): (ops: seq<BatchOp>)
    ensures |ops| == |entries|
  {
    seq(|entries|, i requires 0 <= i < |entries| => BatchOp.Delete(entries[i].0))
  }

  lemma SortedEntriesArePuts(sorted: seq<(Buffer, Buffer)>, m: Entries)
    requires IsSortedEntries(sorted, m)
    ensures SortedPuts(PutOps(sorted), m)
  {
    var ops := PutOps(sorted);
    assert OpKeys(ops) == Keys(EntryKey, sorted);
    forall i | 0 <= i < |ops| ensures ops[i].key in m && ops[i] == BatchOp.Put(ops[i].key, m[ops[i].key]) {
      assert sorted[i] in sorted;
    }
  }

  method BatchPuts(sorted: seq<(Buffer, Buffer)>) returns (ops: seq<BatchOp>)
    ensures ops == PutOps(sorted)
  {
    ops := [];
    for i := 0 to |sorted|
      invariant ops == PutOps(sorted[..i])
    {
      assert sorted[..i + 1] == sorted[..i] + [sorted[i]];
      ops := ops + [BatchOp.Put(sorted[i].0, sorted[i].1)];
    }
    assert sorted[..|sorted|] == sorted;
  }

  method BatchDeletes(sorted: seq<(Buffer, Buffer)>) returns (ops: seq<BatchOp>)
    ensures ops == DeleteOps(sorted)
  {
    ops := [];
    for i := 0 to |sorted|
      invariant ops == DeleteOps(sorted[..i])
    {
      assert sorted[..i + 1] == sorted[..i] + [sorted[i]];
      ops := ops + [BatchOp.Delete(sorted[i].0)];
    }
    assert sorted[..|sorted|] == sorted;
  }

  lemma JoinedBatch(puts: seq<BatchOp>, deletes: seq<BatchOp>, o: Overlay)
    requires |puts| == |o.data| && SortedPuts(puts, o.data) && SortedDeletes(deletes, o.deleted.Keys)
    ensures IsBatch(puts + deletes, o)
  {
    assert (puts + deletes)[..|puts|] == puts && (puts + deletes)[|puts|..] == deletes;
  }

  method BatchOf(o: Overlay) returns (batch: seq<BatchOp>)
    ensures IsBatch(batch, o)
  {
    var updates := SortedEntriesOf(o.data);
    var puts := BatchPuts(updates);
    SortedEntriesArePuts(updates, o.data);

    var removals := SortedEntriesOf(o.deleted);
    var deletes := BatchDeletes(removals);
    assert OpKeys(deletes) == Keys(EntryKey, removals);

    JoinedBatch(puts, deletes, o);
    return puts + deletes;
  }

  lemma NothingToPersist(base: Entries, o: Overlay)
    requires |o.data| == 0 && |o.deleted| == 0
    ensures o == EMPTY && IsBatch([], o) && View(base, o) == base
  {
    assert o.data == map[] && o.deleted == map[];
  }

  class MerkDbInMemoryDecorator {
    const db: Merk
    var data: Entries
    var deleted: Entries

    ghost function Changes(): Overlay
      reads this
    {
      Overlay(data, deleted)
    }

    constructor (merkDB: Merk)
      ensures db == merkDB && Changes() == EMPTY
    {
      db := merkDB;
      data, deleted := map[], map[];
    }

    /** `None` stands for the error "key not found". */
    method GetSync(key: Buffer) returns (r: Option<Buffer>)
      ensures r == Lookup(View(db.contents, Changes()), key)
    {
      if key in deleted {
        return None;
      }
      if key in data {
        return Some(data[key]);
      }
      return Lookup(db.contents, key);
    }

    method Put(key: Buffer, value: Buffer)
      modifies this
      ensures Changes() == PutIn(old(Changes()), key, value)
    {
      deleted := deleted - {key};
      data := data[key := value];
    }

    method Delete(key: Buffer) returns (r: Outcome)
      modifies this
      ensures Changes() == DeleteFrom(db.contents, old(Changes()), key)
      ensures r == if DeleteThrows(db.contents, db.missingKeyText, key) then Failed else Ok
    {
      var serialized := Lookup(db.contents, key);
      if serialized.Some? {
        data := data - {key};
        deleted := deleted[key := serialized.value];
      } else if db.missingKeyText != KeyNotFound {
        return Failed;
      }
      return Ok;
    }

    /** Returns the batch it commits. */
    method Persist() returns (batch: seq<BatchOp>)
      modifies this, db
      ensures IsBatch(batch, old(Changes()))
      ensures db.contents == View(old(db.contents), old(Changes()))
      ensures Changes() == EMPTY
    {
      if |data| == 0 && |deleted| == 0 {
        NothingToPersist(db.contents, Changes());
        return [];
      }
      batch := BatchOf(Overlay(data, deleted));
      BatchCommitsView(db.contents, batch, Changes());
      db.CommitBatch(batch);
      Reset();
    }

    method Reset()
      modifies this
      ensures Changes() == EMPTY
    {
      data, deleted := map[], map[];
    }
  }

  // --------------------------------------------------------- transactions

  class MerkDbTransaction {
    const merkDB: Merk
    var db: MerkDbInMemoryDecorator?

    ghost predicate Valid()
      reads this, db
    {
      db != null ==> db.db == merkDB
    }

    /** The changes of a started transaction. */
    ghost function Changes(): Overlay
      requires db != null
      reads this, db
    {
      db.Changes()
    }

    constructor (merkDB: Merk)
      ensures Valid() && this.merkDB == merkDB && db == null
    {
      this.merkDB := merkDB;
      db := null;
    }

    method Start() returns (r: Outcome)
      requires Valid()
      modifies this
      ensures Valid()
      ensures old(db) != null ==> r == AlreadyStarted && db == old(db)
      ensures old(db) == null ==> r == Ok && db != null && fresh(db) && Changes() == EMPTY
    {
      if db != null {
        return AlreadyStarted;
      }
      db := new MerkDbInMemoryDecorator(merkDB);
      return Ok;
    }

    method Commit() returns (r: Outcome)
      requires Valid()
      modifies this, db, merkDB
      ensures Valid() && db == null
      ensures old(db) == null ==> r == NotStarted && merkDB.contents == old(merkDB.contents)
      ensures old(db) != null ==> r == Ok && merkDB.contents == View(old(merkDB.contents), old(Changes()))
    {
      if db == null {
        return NotStarted;
      }
      var _ := db.Persist();
      db := null;
      return Ok;
    }

    method Abort() returns (r: Outcome)
      requires Valid()
      modifies this, db
      ensures Valid() && db == null
      ensures r == if old(db) == null then NotStarted else Ok
    {
      if db == null {
        return NotStarted;
      }
      db.Reset();
      db := null;
      return Ok;
    }

    method ToObject() returns (r: Option<Overlay>)
      requires Valid()
      ensures r == if db == null then None else Some(Changes())
    {
      if db == null {
        return None;
      }
      return Some(Overlay(db.data, db.deleted));
    }

    /** Adds the updates and deletions of `raw` to those already there. */
    method PopulateFromObject(raw: Overlay) returns (r: Outcome)
      requires Valid()
      modifies db
      ensures Valid() && db == old(db)
      ensures r == if db == null then NotStarted else Ok
      ensures db != null ==>
        Changes() == Overlay(old(Changes()).data + raw.data, old(Changes()).deleted + raw.deleted)
    {
      if db == null {
        return NotStarted;
      }
      db.data := db.data + raw.data;
      db.deleted := db.deleted + raw.deleted;
      return Ok;
    }
  }

  // ----------------------------------------------------------- the store

  class MerkDbStore {
    const db: Merk

    constructor (db: Merk)
      ensures this.db == db
    {
      this.db := db;
    }

    /** Outside a started transaction `transaction.db` is null: an error. */
    method Put(key: Buffer, value: Buffer, transaction: MerkDbTransaction?) returns (r: Outcome)
      requires transaction != null ==> transaction.Valid()
      modifies if transaction == null then {db} else {transaction.db}
      ensures transaction == null ==> r == Ok && db.contents == old(db.contents)[key := value]
      ensures transaction != null && transaction.db == null ==> r == NotStarted
      ensures transaction != null && transaction.db != null ==>
        r == Ok && transaction.Changes() == PutIn(old(transaction.Changes()), key, value)
    {
      if transaction == null {
        db.CommitBatch([BatchOp.Put(key, value)]);
        assert [BatchOp.Put(key, value)][..0] == [];
      } else if transaction.db == null {
        return NotStarted;
      } else {
        transaction.db.Put(key, value);
      }
      return Ok;
    }

    method Get(key: Buffer, transaction: MerkDbTransaction?) returns (r: Outcome, value: Option<Buffer>)
      requires transaction != null ==> transaction.Valid() && transaction.merkDB == db
      ensures r == if transaction != null && transaction.db == null then NotStarted else Ok
      ensures r == Ok ==> value == Lookup(
        if transaction == null then db.contents else View(db.contents, transaction.Changes()), key)
    {
      if transaction == null {
        return Ok, Lookup(db.contents, key);
      }
      if transaction.db == null {
        return NotStarted, None;
      }
      value := transaction.db.GetSync(key);
      return Ok, value;
    }

    method Delete(key: Buffer, transaction: MerkDbTransaction?) returns (r: Outcome)
      requires transaction != null ==> transaction.Valid() && transaction.merkDB == db
      modifies if transaction == null then {db} else {transaction.db}
      ensures transaction == null ==> r == Ok && db.contents == old(db.contents) - {key}
      ensures transaction != null && transaction.db == null ==> r == NotStarted
      ensures transaction != null && transaction.db != null ==>
        && transaction.Changes() == DeleteFrom(db.contents, old(transaction.Changes()), key)
        && r == if DeleteThrows(db.contents, db.missingKeyText, key) then Failed else Ok
    {
      if transaction == null {
        db.CommitBatch([BatchOp.Delete(key)]);
        assert [BatchOp.Delete(key)][..0] == [];
        return Ok;
      }
      if transaction.db == null {
        return NotStarted;
      }
      r := transaction.db.Delete(key);
    }

    method CreateTransaction() returns (t: MerkDbTransaction)
      ensures fresh(t) && t.Valid() && t.merkDB == db && t.db == null
    {
      t := new MerkDbTransaction(db);
    }
  }
}
