/** Testing transactions against a Bloom filter that grows while it tests
    (BIP 37, "Filter matching algorithm"). */
module TransactionFilter {
  import opened Buffers
  import opened Options

  const BLOOM_UPDATE_ALL := 1
  const BLOOM_UPDATE_P2PUBKEY_ONLY := 2

  datatype Chunk = Chunk(opcodenum: nat, buf: Option<Buffer>)

  datatype Script = Script(chunks: seq<Chunk>, isPublicKeyOut: bool, isMultisigOut: bool)

  datatype Input = Input(prevTxId: Option<Buffer>, outputIndex: nat, script: Option<Script>)

  datatype Transaction = Transaction(hash: Buffer, inputs: seq<Input>, outputs: seq<Script>)

  /** A filter is a set of bits; `positions` are the bits of an element. */
  datatype Filter = Filter(positions: Buffer -> set<nat>, nFlags: nat, bits: set<nat>) {
    predicate Contains(data: Buffer) {
      positions(data) <= bits
    }

    function Insert(data: Buffer): Filter {
      this.(bits := bits + positions(data))
    }
  }

  ghost predicate Within(f: Filter, g: Filter) {
    f.positions == g.positions && f.nFlags == g.nFlags && f.bits <= g.bits
  }

  // ---------------------------------------------------------- what is tested

  function UInt32LE(n: nat): Buffer {
    [n % 256, n / 0x100 % 256, n / 0x1_0000 % 256, n / 0x100_0000 % 256]
  }

  function InputIndexToBuffer(transactionHash: Buffer, inputIndex: nat): Buffer {
    transactionHash + UInt32LE(inputIndex)
  }

  predicate ChunkMatches(f: Filter, c: Chunk) {
    c.opcodenum != 0 && c.buf.Some? && f.Contains(c.buf.value)
  }

  predicate ScriptMatches(f: Filter, script: Script) {
    exists i :: 0 <= i < |script.chunks| && ChunkMatches(f, script.chunks[i])
  }

  predicate InputMatches(f: Filter, input: Input) {
    || (input.prevTxId.Some? && f.Contains(InputIndexToBuffer(input.prevTxId.value, input.outputIndex)))
    || (input.script.Some? && ScriptMatches(f, input.script.value))
  }

  /** The hash, some element of an output script, a spent outpoint, or some
      element of an input script is in the filter. */
  predicate Matches(f: Filter, tx: Transaction) {
    || f.Contains(tx.hash)
    || (exists i :: 0 <= i < |tx.outputs| && ScriptMatches(f, tx.outputs[i]))
    || (exists i :: 0 <= i < |tx.inputs| && InputMatches(f, tx.inputs[i]))
  }

  predicate IsFirstMatch(f: Filter, tx: Transaction, i: nat) {
    && i < |tx.outputs| && ScriptMatches(f, tx.outputs[i])
    && forall j :: 0 <= j < i ==> !ScriptMatches(f, tx.outputs[j])
  }

  predicate UpdatesOn(f: Filter, script: Script) {
    || f.nFlags == BLOOM_UPDATE_ALL
    || (f.nFlags == BLOOM_UPDATE_P2PUBKEY_ONLY && (script.isPublicKeyOut || script.isMultisigOut))
  }

  function FirstMatch(f: Filter, tx: Transaction, from: nat): (r: Option<nat>)
    requires from <= |tx.outputs|
    requires forall j :: 0 <= j < from ==> !ScriptMatches(f, tx.outputs[j])
    ensures r.Some? ==> IsFirstMatch(f, tx, r.value)
    ensures r.None? ==> forall j :: 0 <= j < |tx.outputs| ==> !ScriptMatches(f, tx.outputs[j])
    decreases |tx.outputs| - from
  {
    if from == |tx.outputs| then None
    else if ScriptMatches(f, tx.outputs[from]) then Some(from)
    else FirstMatch(f, tx, from + 1)
  }

  /** The filter after a test: the outpoint of the first matching output joins
      it, unless the hash matched already or the flags say not to. */
  function Tested(f: Filter, tx: Transaction): (g: Filter)
    ensures Within(f, g)
  {
    var first := FirstMatch(f, tx, 0);
    if f.Contains(tx.hash) || first.None? then f else FollowUp(f, tx, first.value)
  }

  function FollowUp(f: Filter, tx: Transaction, i: nat): Filter
    requires i < |tx.outputs|
  {
    if UpdatesOn(f, tx.outputs[i]) then f.Insert(InputIndexToBuffer(tx.hash, i)) else f
  }

  // ------------------------------------------------------------ the functions

  class BloomFilter {
    const nFlags: nat
    const positions: Buffer -> set<nat>
    var bits: set<nat>

    function Value(): Filter
      reads this
    {
      Filter(positions, nFlags, bits)
    }

    constructor (nFlags: nat, positions: Buffer -> set<nat>, bits: set<nat>)
      ensures Value() == Filter(positions, nFlags, bits)
    {
      this.nFlags, this.positions, this.bits := nFlags, positions, bits;
    }

    method FilterContainsScript(script: Option<Script>) returns (r: bool)
      ensures r == (script.Some? && ScriptMatches(Value(), script.value))
    {
      if script.None? {
        return false;
      }
      var chunks := script.value.chunks;
      for i := 0 to |chunks|
        invariant forall j :: 0 <= j < i ==> !ChunkMatches(Value(), chunks[j])
      {
        var chunk := chunks[i];
        if chunk.opcodenum != 0 && chunk.buf.Some? && positions(chunk.buf.value) <= bits {
          return true;
        }
      }
      return false;
    }

    /** Stops at the first matching output, whose outpoint it may insert. */
    method CheckOutputs(tx: Transaction) returns (r: bool)
      modifies this
      ensures r <==> exists i :: 0 <= i < |tx.outputs| && ScriptMatches(old(Value()), tx.outputs[i])
      ensures !r ==> Value() == old(Value())
      ensures r <==> FirstMatch(old(Value()), tx, 0).Some?
      ensures r ==> Value() == FollowUp(old(Value()), tx, FirstMatch(old(Value()), tx, 0).value)
    {
      ghost var first := FirstMatch(Value(), tx, 0);
      for index := 0 to |tx.outputs|
        invariant Value() == old(Value())
        invariant forall j :: 0 <= j < index ==> !ScriptMatches(Value(), tx.outputs[j])
      {
        var script := tx.outputs[index];
        var isMatchFound := FilterContainsScript(Some(script));
        var isFilterUpdateNeeded := nFlags == BLOOM_UPDATE_ALL
          || (nFlags == BLOOM_UPDATE_P2PUBKEY_ONLY && (script.isPublicKeyOut || script.isMultisigOut));
        if isMatchFound {
          FirstMatchUnique(Value(), tx, index, first.value);
          if isFilterUpdateNeeded {
            bits := bits + positions(InputIndexToBuffer(tx.hash, index));
          }
          return true;
        }
      }
      return false;
    }

    method CheckInputs(tx: Transaction) returns (r: bool)
      ensures r <==> exists i :: 0 <= i < |tx.inputs| && InputMatches(Value(), tx.inputs[i])
    {
      for i := 0 to |tx.inputs|
        invariant forall j :: 0 <= j < i ==> !InputMatches(Value(), tx.inputs[j])
      {
        var input := tx.inputs[i];
        var containsPreviousOutput := input.prevTxId.Some?
          && positions(InputIndexToBuffer(input.prevTxId.value, input.outputIndex)) <= bits;
        var containsScript := FilterContainsScript(input.script);
        if containsPreviousOutput || containsScript {
          assert InputMatches(Value(), tx.inputs[i]);
          return true;
        }
      }
      return false;
    }

    method TestTransactionAgainstFilter(tx: Transaction) returns (r: bool)
      modifies this
      ensures r == Matches(old(Value()), tx)
      ensures Value() == Tested(old(Value()), tx)
    {
      if positions(tx.hash) <= bits {
        return true;
      }
      r := CheckOutputs(tx);
      if r {
        return;
      }
      r := CheckInputs(tx);
    }
  }

  lemma FirstMatchUnique(f: Filter, tx: Transaction, i: nat, j: nat)
    requires IsFirstMatch(f, tx, i) && IsFirstMatch(f, tx, j)
    ensures i == j
  {
  }

  // -------------------------------------------------------- over many tests

  function TestAll(f: Filter, txs: seq<Transaction>): Filter {
    if txs == [] then f else Tested(TestAll(f, txs[..|txs| - 1]), txs[|txs| - 1])
  }

  lemma MatchingIsMonotone(f: Filter, g: Filter, tx: Transaction)
    requires Within(f, g) && Matches(f, tx)
    ensures Matches(g, tx)
  {
    if i :| 0 <= i < |tx.outputs| && ScriptMatches(f, tx.outputs[i]) {
      var c :| 0 <= c < |tx.outputs[i].chunks| && ChunkMatches(f, tx.outputs[i].chunks[c]);
      assert ChunkMatches(g, tx.outputs[i].chunks[c]);
    } else if i :| 0 <= i < |tx.inputs| && InputMatches(f, tx.inputs[i]) {
      var input := tx.inputs[i];
      if input.script.Some? && ScriptMatches(f, input.script.value) {
        var c :| 0 <= c < |input.script.value.chunks| && ChunkMatches(f, input.script.value.chunks[c]);
        assert ChunkMatches(g, input.script.value.chunks[c]);
      }
      assert InputMatches(g, input);
    }
  }

  lemma {:induction false} FilterGrows(f: Filter, txs: seq<Transaction>)
    ensures Within(f, TestAll(f, txs))
    decreases |txs|
  {
    if txs != [] {
      FilterGrows(f, txs[..|txs| - 1]);
    }
  }

  /** A transaction that matched once matches after any further tests. */
  lemma OnceMatchedAlwaysMatches(f: Filter, tx: Transaction, later: seq<Transaction>)
    requires Matches(f, tx)
    ensures Matches(TestAll(Tested(f, tx), later), tx)
  {
    FilterGrows(Tested(f, tx), later);
    MatchingIsMonotone(f, TestAll(Tested(f, tx), later), tx);
  }

  /** The first matching output of a transaction is followed: once its outpoint
      was inserted, every later transaction that spends it matches. */
  lemma SpendingIsFollowed(f: Filter, tx: Transaction, i: nat, later: seq<Transaction>, spending: Transaction, n: nat)
    requires IsFirstMatch(f, tx, i) && !f.Contains(tx.hash) && UpdatesOn(f, tx.outputs[i])
    requires n < |spending.inputs|
    requires spending.inputs[n].prevTxId == Some(tx.hash) && spending.inputs[n].outputIndex == i
    ensures Matches(TestAll(Tested(f, tx), later), spending)
  {
    var g := TestAll(Tested(f, tx), later);
    FirstMatchUnique(f, tx, i, FirstMatch(f, tx, 0).value);
    FilterGrows(Tested(f, tx), later);
    assert g.Contains(InputIndexToBuffer(tx.hash, i));
    assert InputMatches(g, spending.inputs[n]);
  }

  function Outpoint(tx: Transaction, i: nat): Buffer {
    InputIndexToBuffer(tx.hash, i)
  }

  /** The test inserts the outpoint of output `i`. */
  ghost predicate AddedBy(f: Filter, tx: Transaction, i: nat) {
    !f.Contains(tx.hash) && IsFirstMatch(f, tx, i) && UpdatesOn(f, tx.outputs[i])
  }

  lemma TestedAdds(f: Filter, tx: Transaction)
    ensures forall i: nat :: AddedBy(f, tx, i) ==> Tested(f, tx) == f.Insert(Outpoint(tx, i))
    ensures (forall i: nat :: !AddedBy(f, tx, i)) ==> Tested(f, tx) == f
  {
    forall i: nat | AddedBy(f, tx, i) ensures Tested(f, tx) == f.Insert(Outpoint(tx, i)) {
      FirstMatchUnique(f, tx, i, FirstMatch(f, tx, 0).value);
    }
    var first := FirstMatch(f, tx, 0);
    assert first.Some? ==> AddedBy(f, tx, first.value) || Tested(f, tx) == f;
  }

  /** Exactly when the outpoint of an output is followed after a test: its bits
      were set before, or are set with those of the first matching output. */
  lemma OutputIsFollowedIff(f: Filter, tx: Transaction, j: nat)
    ensures Tested(f, tx).Contains(Outpoint(tx, j)) <==>
      || f.Contains(Outpoint(tx, j))
      || exists i: nat :: AddedBy(f, tx, i) && f.positions(Outpoint(tx, j)) <= f.bits + f.positions(Outpoint(tx, i))
  {
    TestedAdds(f, tx);
    if i: nat :| AddedBy(f, tx, i) {
      forall k: nat | AddedBy(f, tx, k) ensures k == i {
        FirstMatchUnique(f, tx, i, k);
      }
    }
  }

  /** Only that one is: when no element's bits are within others' bits, a second
      matching output of the same transaction, or any output of a transaction
      whose hash matches, is not followed. */
  lemma OnlyFirstIsFollowed(f: Filter, tx: Transaction, i: nat, j: nat)
    requires j < |tx.outputs| && i != j
    requires f.Contains(tx.hash) || IsFirstMatch(f, tx, i)
    requires !(f.positions(InputIndexToBuffer(tx.hash, j)) <= f.bits + f.positions(InputIndexToBuffer(tx.hash, i)))
    ensures !Tested(f, tx).Contains(InputIndexToBuffer(tx.hash, j))
  {
    if IsFirstMatch(f, tx, i) && FirstMatch(f, tx, 0).Some? {
      FirstMatchUnique(f, tx, i, FirstMatch(f, tx, 0).value);
    }
  }

  /** An output whose outpoint the flags say to follow. */
  predicate WantsFollowing(f: Filter, tx: Transaction, j: nat) {
    j < |tx.outputs| && ScriptMatches(f, tx.outputs[j]) && UpdatesOn(f, tx.outputs[j])
  }

  /** All matching outputs that the flags say to follow are followed if and only
      if the filter had the bits of each, or gets them with the first match. */
  lemma AllAreFollowedIff(f: Filter, tx: Transaction)
    ensures (forall j: nat :: WantsFollowing(f, tx, j) ==> Tested(f, tx).Contains(Outpoint(tx, j))) <==>
      forall j: nat :: WantsFollowing(f, tx, j) ==>
        || f.Contains(Outpoint(tx, j))
        || exists i: nat :: AddedBy(f, tx, i) && f.positions(Outpoint(tx, j)) <= f.bits + f.positions(Outpoint(tx, i))
  {
    forall j: nat {
      OutputIsFollowedIff(f, tx, j);
    }
  }

  /** The watched key has a position of its own, and so has each outpoint of five bytes. */
  ghost function WatchingFilter(key: Buffer): Filter {
    var positions := (b: Buffer) => if |b| == 5 then {1 + b[1] as nat} else if b == key then {0} else {7};
    Filter(positions, BLOOM_UPDATE_ALL, {0})
  }

  /** Two outputs pay to the same watched key; the second is not followed. */
  lemma SecondOutputIsNotFollowed(key: Buffer)
    requires |key| > 5
    ensures var script := Script([Chunk(|key|, Some(key))], false, false);
      var tx := Transaction([1], [], [script, script]);
      var f := WatchingFilter(key);
      && WantsFollowing(f, tx, 0) && Tested(f, tx).Contains(Outpoint(tx, 0))
      && WantsFollowing(f, tx, 1) && !Tested(f, tx).Contains(Outpoint(tx, 1))
  {
    var script := Script([Chunk(|key|, Some(key))], false, false);
    var tx := Transaction([1], [], [script, script]);
    var f := WatchingFilter(key);
    assert ChunkMatches(f, script.chunks[0]) && ScriptMatches(f, script);
    assert Outpoint(tx, 0) == [1, 0, 0, 0, 0] && Outpoint(tx, 1) == [1, 1, 0, 0, 0];
    assert f.positions(tx.hash) == {7} && 7 !in f.bits;
    assert AddedBy(f, tx, 0);
    TestedAdds(f, tx);
    assert 2 in f.positions(Outpoint(tx, 1)) && 2 !in Tested(f, tx).bits;
  }
}
