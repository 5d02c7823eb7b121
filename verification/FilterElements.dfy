/** What a Bloom filter test looks at, element by element, and what the flags do. */
module FilterElements {
  import opened Buffers
  import opened Options
  import opened TransactionFilter

  // ------------------------------------------------------------------ elements

  /** A push of data in a script: anything but the empty push. */
  ghost predicate Pushes(script: Script, element: Buffer) {
    exists i :: 0 <= i < |script.chunks| && script.chunks[i].opcodenum > 0 && script.chunks[i].buf == Some(element)
  }

  /** Bytes as a number, the lowest first. */
  function FromLittleEndian(b: Buffer): nat {
    if b == [] then 0
    else
      var low: int := b[0];
      low + 0x100 * FromLittleEndian(b[1..])
  }

  /** The outpoint spent by an input: the transaction's hash and the output's index. */
  ghost predicate Spends(input: Input, element: Buffer) {
    && input.prevTxId.Some? && |element| == |input.prevTxId.value| + 4
    && element[..|input.prevTxId.value|] == input.prevTxId.value
    && FromLittleEndian(element[|input.prevTxId.value|..]) == input.outputIndex % 0x1_0000_0000
  }

  /** The elements of a transaction: its hash, every push in an output, every
      outpoint it spends, and every push in an input. */
  ghost predicate IsElement(tx: Transaction, element: Buffer) {
    || element == tx.hash
    || (exists i :: 0 <= i < |tx.outputs| && Pushes(tx.outputs[i], element))
    || (exists i :: 0 <= i < |tx.inputs| && Spends(tx.inputs[i], element))
    || (exists i :: 0 <= i < |tx.inputs| && tx.inputs[i].script.Some? && Pushes(tx.inputs[i].script.value, element))
  }

  lemma Quotients(n: nat, b: nat, c: nat, d: nat)
    requires 0 <= n - 0x1_0000 * b < 0x1_0000
    requires 0 <= n - 0x100_0000 * c < 0x100_0000
    requires 0 <= n - 0x1_0000_0000 * d < 0x1_0000_0000
    ensures n / 0x1_0000 == b && n / 0x100_0000 == c && n % 0x1_0000_0000 == n - 0x1_0000_0000 * d
  {
  }

  lemma LittleEndianRoundTrip(n: nat)
    ensures FromLittleEndian(UInt32LE(n)) == n % 0x1_0000_0000
  {
    var a, b := n / 0x100, n / 0x100 / 0x100;
    var c := b / 0x100;
    var d := c / 0x100;
    Quotients(n, b, c, d);
    FourBytes(UInt32LE(n));
  }

  lemma FourBytes(b: Buffer)
    requires |b| == 4
    ensures var b0: int, b1: int, b2: int, b3: int := b[0], b[1], b[2], b[3];
      FromLittleEndian(b) == b0 + 0x100 * b1 + 0x1_0000 * b2 + 0x100_0000 * b3
  {
    assert b[1..][1..] == b[2..] && b[2..][1..] == b[3..] && b[3..][1..] == [];
    assert FromLittleEndian(b[3..]) == b[3];
    assert FromLittleEndian(b[2..]) == b[2] as int + 0x100 * FromLittleEndian(b[3..]);
  }

  lemma {:induction false} LittleEndianInjective(a: Buffer, b: Buffer)
    requires |a| == |b| && FromLittleEndian(a) == FromLittleEndian(b)
    ensures a == b
  {
    if a != [] {
      assert a[0] == b[0];
      LittleEndianInjective(a[1..], b[1..]);
      assert a == [a[0]] + a[1..] && b == [b[0]] + b[1..];
    }
  }

  lemma SpendsIff(input: Input, element: Buffer)
    ensures Spends(input, element) <==>
      input.prevTxId.Some? && element == InputIndexToBuffer(input.prevTxId.value, input.outputIndex)
  {
    if input.prevTxId.Some? {
      var id, tail := input.prevTxId.value, UInt32LE(input.outputIndex);
      LittleEndianRoundTrip(input.outputIndex);
      assert (id + tail)[..|id|] == id && (id + tail)[|id|..] == tail;
      if Spends(input, element) {
        LittleEndianInjective(element[|id|..], tail);
        assert element == element[..|id|] + element[|id|..];
      }
    }
  }

  lemma ScriptMatchesIff(f: Filter, script: Script)
    ensures ScriptMatches(f, script) <==> exists element :: Pushes(script, element) && f.positions(element) <= f.bits
  {
    if i :| 0 <= i < |script.chunks| && ChunkMatches(f, script.chunks[i]) {
      assert Pushes(script, script.chunks[i].buf.value);
    }
    if element :| Pushes(script, element) && f.positions(element) <= f.bits {
      var i :| 0 <= i < |script.chunks| && script.chunks[i].opcodenum > 0 && script.chunks[i].buf == Some(element);
      assert ChunkMatches(f, script.chunks[i]);
    }
  }

  /** A transaction matches exactly when all bits of one of its elements are set. */
  lemma MatchesIff(f: Filter, tx: Transaction)
    ensures Matches(f, tx) <==> exists element :: IsElement(tx, element) && f.positions(element) <= f.bits
  {
    if Matches(f, tx) {
      MatchHasElement(f, tx);
    }
    if element :| IsElement(tx, element) && f.positions(element) <= f.bits {
      ElementMatches(f, tx, element);
    }
  }

  lemma MatchHasElement(f: Filter, tx: Transaction)
    requires Matches(f, tx)
    ensures exists element :: IsElement(tx, element) && f.positions(element) <= f.bits
  {
    if f.Contains(tx.hash) {
      assert IsElement(tx, tx.hash);
    } else if i :| 0 <= i < |tx.outputs| && ScriptMatches(f, tx.outputs[i]) {
      ScriptMatchesIff(f, tx.outputs[i]);
      var element :| Pushes(tx.outputs[i], element) && f.positions(element) <= f.bits;
      assert IsElement(tx, element);
    } else {
      var i :| 0 <= i < |tx.inputs| && InputMatches(f, tx.inputs[i]);
      InputHasElement(f, tx.inputs[i]);
      var element :| InputElement(tx.inputs[i], element) && f.positions(element) <= f.bits;
      assert IsElement(tx, element);
    }
  }

  ghost predicate InputElement(input: Input, element: Buffer) {
    Spends(input, element) || (input.script.Some? && Pushes(input.script.value, element))
  }

  lemma InputHasElement(f: Filter, input: Input)
    ensures InputMatches(f, input) <==> exists element :: InputElement(input, element) && f.positions(element) <= f.bits
  {
    if input.prevTxId.Some? {
      SpendsIff(input, InputIndexToBuffer(input.prevTxId.value, input.outputIndex));
    }
    if input.script.Some? { ScriptMatchesIff(f, input.script.value); }
    if InputMatches(f, input) {
      if input.script.Some? && ScriptMatches(f, input.script.value) {
        var element :| Pushes(input.script.value, element) && f.positions(element) <= f.bits;
        assert InputElement(input, element);
      } else {
        assert InputElement(input, InputIndexToBuffer(input.prevTxId.value, input.outputIndex));
      }
    }
    if element :| InputElement(input, element) && f.positions(element) <= f.bits {
      SpendsIff(input, element);
    }
  }

  lemma ElementMatches(f: Filter, tx: Transaction, element: Buffer)
    requires IsElement(tx, element) && f.positions(element) <= f.bits
    ensures Matches(f, tx)
  {
    if element != tx.hash {
      if i :| 0 <= i < |tx.outputs| && Pushes(tx.outputs[i], element) {
        ScriptMatchesIff(f, tx.outputs[i]);
      } else {
        var i :| 0 <= i < |tx.inputs| && InputElement(tx.inputs[i], element);
        InputHasElement(f, tx.inputs[i]);
      }
    }
  }

  // --------------------------------------------------------------------- flags

  /** Without update flags no test changes the filter. */
  lemma {:induction false} NoFlagNoGrowth(f: Filter, txs: seq<Transaction>)
    requires f.nFlags != 1 && f.nFlags != 2
    ensures TestAll(f, txs) == f
    decreases |txs|
  {
    if txs != [] {
      NoFlagNoGrowth(f, txs[..|txs| - 1]);
    }
  }

  /** What a test adds: nothing if the hash matched or no output does; else the
      outpoint of the first output that matches, always under flag 1, and under
      flag 2 if that output is a bare public key or multisig. */
  lemma TestAddsIff(f: Filter, tx: Transaction, i: nat)
    requires i < |tx.outputs| && ScriptMatches(f, tx.outputs[i])
    requires forall j :: 0 <= j < i ==> !ScriptMatches(f, tx.outputs[j])
    ensures var bare := tx.outputs[i].isPublicKeyOut || tx.outputs[i].isMultisigOut;
      var follows := f.nFlags == 1 || (f.nFlags == 2 && bare);
      Tested(f, tx) ==
        if f.positions(tx.hash) <= f.bits || !follows then f
        else Filter(f.positions, f.nFlags, f.bits + f.positions(tx.hash + UInt32LE(i)))
  {
    FirstMatchUnique(f, tx, i, FirstMatch(f, tx, 0).value);
  }

  lemma NoOutputNoGrowth(f: Filter, tx: Transaction)
    requires forall j :: 0 <= j < |tx.outputs| ==> !ScriptMatches(f, tx.outputs[j])
    ensures Tested(f, tx) == f
  {
  }
}
