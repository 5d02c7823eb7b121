/** Reading a store proof: a cursor runs over tagged operations. */
module StoreProof {
  import opened Buffers

  const HASH_LENGTH := 32

  datatype ProofOp =
    | Hash(hash: Buffer)
    | KeyValueHash(hash: Buffer)
    | KeyValue(key: Buffer, value: Buffer)
    | Parent
    | Child

  datatype ProofError = UnknownType(tag: Byte) | OutOfRange

  /** What is collected; of several values of a key the last one stays. */
  datatype ProofData = ProofData(
    hashes: seq<Buffer>,
    keyValueHashes: seq<Buffer>,
    values: seq<Buffer>,
    keyValues: map<Buffer, Buffer>
  )

  datatype Result = Data(data: ProofData) | Error(error: ProofError)

  // ------------------------------------------------------------- the encoding

  /** What the prefixes can express: keys of one length byte, values of two. */
  predicate Encodable(op: ProofOp) {
    match op
    case Hash(h) => |h| == HASH_LENGTH
    case KeyValueHash(h) => |h| == HASH_LENGTH
    case KeyValue(k, v) => |k| < 0x100 && |v| < 0x1_0000
    case Parent => true
    case Child => true
  }

  /** How many times 256 goes into `n`. */
  function HighByte(n: nat): (hi: nat)
    ensures 256 * hi <= n < 256 * hi + 256
  {
    if n < 256 then 0 else 1 + HighByte(n - 256)
  }

  function Encode(op: ProofOp): (r: Buffer)
    requires Encodable(op)
    ensures r != []
  {
    match op
    case Hash(h) => [0x01] + h
    case KeyValueHash(h) => [0x02] + h
    case KeyValue(k, v) => [0x03, |k|] + k + [HighByte(|v|), |v| - 256 * HighByte(|v|)] + v
    case Parent => [0x10]
    case Child => [0x11]
  }

  ghost predicate AllEncodable(ops: seq<ProofOp>) {
    forall i :: 0 <= i < |ops| ==> Encodable(ops[i])
  }

  ghost function EncodeAll(ops: seq<ProofOp>): Buffer
    requires AllEncodable(ops)
  {
    if ops == [] then [] else Encode(ops[0]) + EncodeAll(ops[1..])
  }

  // -------------------------------------------------------------- the reading

  /** The operations read, and how far the cursor ran past the end: slices are
      cut at the end of the buffer without a complaint. */
  datatype Reading = Failed(error: ProofError) | Read(ops: seq<ProofOp>, excess: nat)

  function Slice(buf: Buffer, x: nat, y: nat): (r: Buffer)
    requires x <= y
    ensures |r| == (if y <= |buf| then y - x else if x <= |buf| then |buf| - x else 0)
  {
    if y <= |buf| then buf[x..y] else if x <= |buf| then buf[x..] else []
  }

  /** The operation under the cursor, and where the cursor stands after it. */
  datatype Head = Bad(error: ProofError) | Op(op: ProofOp, next: nat)

  function ReadHead(buf: Buffer, x: nat): (r: Head)
    requires x < |buf|
    ensures r.Op? ==> r.next > x
  {
    var tag := buf[x];
    if tag == 0x01 then Op(Hash(Slice(buf, x + 1, x + 1 + HASH_LENGTH)), x + 1 + HASH_LENGTH)
    else if tag == 0x02 then Op(KeyValueHash(Slice(buf, x + 1, x + 1 + HASH_LENGTH)), x + 1 + HASH_LENGTH)
    else if tag == 0x03 then ReadKeyValue(buf, x)
    else if tag == 0x10 then Op(Parent, x + 1)
    else if tag == 0x11 then Op(Child, x + 1)
    else Bad(UnknownType(tag))
  }

  /** The key and value behind the tag at `x`. */
  function ReadKeyValue(buf: Buffer, x: nat): (r: Head)
    ensures r.Op? ==> r.next > x
  {
    if |buf| < x + 2 then Bad(OutOfRange)
    else
      var k: nat := buf[x + 1];
      if |buf| < x + 4 + k then Bad(OutOfRange)
      else
        var v := BigEndian(buf[x + 2 + k], buf[x + 3 + k]);
        Op(KeyValue(Slice(buf, x + 2, x + 2 + k), Slice(buf, x + 4 + k, x + 4 + k + v)), x + 4 + k + v)
  }

  function BigEndian(hi: Byte, lo: Byte): nat {
    hi * 256 + lo
  }

  function Prepend(ops: seq<ProofOp>, r: Reading): Reading {
    match r
    case Failed(e) => r
    case Read(more, excess) => Read(ops + more, excess)
  }

  function ReadOps(buf: Buffer, x: nat): Reading
    decreases |buf| - x
  {
    if x >= |buf| then Read([], x - |buf|)
    else
      match ReadHead(buf, x)
      case Bad(e) => Failed(e)
      case Op(op, next) => Prepend([op], ReadOps(buf, next))
  }

  function Add(d: ProofData, op: ProofOp): ProofData {
    match op
    case Hash(h) => d.(hashes := d.hashes + [h])
    case KeyValueHash(h) => d.(keyValueHashes := d.keyValueHashes + [h])
    case KeyValue(k, v) => d.(values := d.values + [v], keyValues := d.keyValues[k := v])
    case _ => d
  }

  function Collect(ops: seq<ProofOp>): ProofData {
    if ops == [] then ProofData([], [], [], map[])
    else Add(Collect(ops[..|ops| - 1]), ops[|ops| - 1])
  }

  function Outcome(r: Reading): Result {
    match r
    case Failed(e) => Error(e)
    case Read(ops, _) => Data(Collect(ops))
  }

  /** The key and value behind the tag, and the cursor after them. */
  method TakeKeyValue(buf: Buffer, start: nat) returns (inRange: bool, key: Buffer, value: Buffer, x: nat)
    ensures ReadKeyValue(buf, start) == if inRange then Op(KeyValue(key, value), x) else Bad(OutOfRange)
  {
    x := start + 1;
    if x >= |buf| {
      return false, [], [], x;
    }
    var keySize: nat := buf[x];
    x := x + 1;
    key := Slice(buf, x, x + keySize);
    x := x + keySize;
    if x + 2 > |buf| {
      return false, [], [], x;
    }
    var valueSize := BigEndian(buf[x], buf[x + 1]);
    x := x + 2;
    value := Slice(buf, x, x + valueSize);
    x := x + valueSize;
    inRange := true;
  }

  ghost predicate Taken(head: Head, data: ProofData, r: Result, x: nat) {
    match head
    case Bad(e) => r == Error(e)
    case Op(op, next) => r == Data(Add(data, op)) && x == next
  }

  /** One turn of the loop: the operation under the cursor goes into `data`. */
  method TakeOp(buf: Buffer, start: nat, data: ProofData) returns (r: Result, x: nat)
    requires start < |buf|
    ensures Taken(ReadHead(buf, start), data, r, x)
  {
    var tag := buf[start];
    x := start + 1;
    if tag == 0x01 {
      r := Data(data.(hashes := data.hashes + [Slice(buf, x, x + HASH_LENGTH)]));
      x := x + HASH_LENGTH;
    } else if tag == 0x02 {
      r := Data(data.(keyValueHashes := data.keyValueHashes + [Slice(buf, x, x + HASH_LENGTH)]));
      x := x + HASH_LENGTH;
    } else if tag == 0x03 {
      var inRange, key, value;
      inRange, key, value, x := TakeKeyValue(buf, start);
      if inRange {
        r := Data(data.(keyValues := data.keyValues[key := value], values := data.values + [value]));
      } else {
        r := Error(OutOfRange);
      }
    } else if tag == 0x10 || tag == 0x11 {
      r := Data(data);
    } else {
      r := Error(UnknownType(tag));
    }
  }

  method GetStoreProofData(buf: Buffer) returns (r: Result)
    ensures r == Outcome(ReadOps(buf, 0))
  {
    var data := ProofData([], [], [], map[]);
    ghost var ops: seq<ProofOp> := [];
    var x := 0;
    while x < |buf|
      invariant data == Collect(ops)
      invariant ReadOps(buf, 0) == Prepend(ops, ReadOps(buf, x))
      decreases |buf| - x
    {
      ghost var head := ReadHead(buf, x);
      var step, next := TakeOp(buf, x, data);
      StepReads(buf, x, ops, head);
      if step.Error? {
        return step;
      }
      CollectAppend(ops, head.op);
      ops, data, x := ops + [head.op], step.data, next;
    }
    assert ops + [] == ops;
    return Data(data);
  }

  lemma CollectAppend(ops: seq<ProofOp>, op: ProofOp)
    ensures Collect(ops + [op]) == Add(Collect(ops), op)
  {
    assert (ops + [op])[..|ops|] == ops;
  }

  lemma StepReads(buf: Buffer, x: nat, ops: seq<ProofOp>, head: Head)
    requires x < |buf| && ReadHead(buf, x) == head
    ensures head.Bad? ==> Prepend(ops, ReadOps(buf, x)) == Failed(head.error)
    ensures head.Op? ==> Prepend(ops, ReadOps(buf, x)) == Prepend(ops + [head.op], ReadOps(buf, head.next))
  {
    if head.Op? {
      var r := ReadOps(buf, head.next);
      if r.Read? {
        assert ops + ([head.op] + r.ops) == ops + [head.op] + r.ops;
      }
    }
  }

  // ------------------------------------------------------- encoding and reading

  /** `bytes` stand at `x`. */
  ghost predicate At(buf: Buffer, x: nat, bytes: Buffer) {
    x + |bytes| <= |buf| && buf[x..x + |bytes|] == bytes
  }

  lemma ByteAt(buf: Buffer, x: nat, bytes: Buffer, i: nat)
    requires At(buf, x, bytes) && i < |bytes|
    ensures buf[x + i] == bytes[i]
  {
    assert buf[x..x + |bytes|][i] == buf[x + i];
  }

  lemma PartAt(buf: Buffer, x: nat, bytes: Buffer, i: nat, part: Buffer)
    requires At(buf, x, bytes) && i + |part| <= |bytes| && bytes[i..i + |part|] == part
    ensures Slice(buf, x + i, x + i + |part|) == part
  {
    forall j | 0 <= j < |part| ensures buf[x + i + j] == part[j] {
      ByteAt(buf, x, bytes, i + j);
      assert part[j] == bytes[i..i + |part|][j];
    }
  }

  ghost predicate HasParts(bytes: Buffer, k: Buffer, v: Buffer) {
    var n := |k|;
    && |bytes| == 4 + n + |v|
    && bytes[1] == n && bytes[2..2 + n] == k
    && BigEndian(bytes[2 + n], bytes[3 + n]) == |v|
    && bytes[4 + n..4 + n + |v|] == v
  }

  lemma KeyValueParts(k: Buffer, v: Buffer)
    requires Encodable(KeyValue(k, v))
    ensures HasParts(Encode(KeyValue(k, v)), k, v)
  {
  }

  lemma PartsAt(buf: Buffer, x: nat, bytes: Buffer, k: Buffer, v: Buffer)
    requires At(buf, x, bytes) && HasParts(bytes, k, v)
    ensures var n := |k|;
      && x + 4 + n + |v| <= |buf|
      && buf[x + 1] == n && Slice(buf, x + 2, x + 2 + n) == k
      && BigEndian(buf[x + 2 + n], buf[x + 3 + n]) == |v|
      && Slice(buf, x + 4 + n, x + 4 + n + |v|) == v
  {
    var n := |k|;
    ByteAt(buf, x, bytes, 1);
    ByteAt(buf, x, bytes, 2 + n);
    ByteAt(buf, x, bytes, 3 + n);
    PartAt(buf, x, bytes, 2, k);
    PartAt(buf, x, bytes, 4 + n, v);
  }

  /** What stands at `x`, in the terms of the reader. */
  lemma ReadsKeyValue(buf: Buffer, x: nat, k: nat, v: nat)
    requires x + 4 + k <= |buf| && buf[x + 1] == k && BigEndian(buf[x + 2 + k], buf[x + 3 + k]) == v
    ensures ReadKeyValue(buf, x) ==
      Op(KeyValue(Slice(buf, x + 2, x + 2 + k), Slice(buf, x + 4 + k, x + 4 + k + v)), x + 4 + k + v)
  {
  }

  lemma ReadsParts(buf: Buffer, x: nat, bytes: Buffer, k: Buffer, v: Buffer)
    requires At(buf, x, bytes) && HasParts(bytes, k, v)
    ensures ReadKeyValue(buf, x) == Op(KeyValue(k, v), x + |bytes|)
  {
    PartsAt(buf, x, bytes, k, v);
    ReadsKeyValue(buf, x, |k|, |v|);
  }

  lemma ReadsEncodedKeyValue(buf: Buffer, x: nat, k: Buffer, v: Buffer)
    requires Encodable(KeyValue(k, v)) && At(buf, x, Encode(KeyValue(k, v)))
    ensures ReadKeyValue(buf, x) == Op(KeyValue(k, v), x + |Encode(KeyValue(k, v))|)
  {
    var bytes := Encode(KeyValue(k, v));
    KeyValueParts(k, v);
    assert HasParts(bytes, k, v);
    ReadsParts(buf, x, bytes, k, v);
  }

  lemma ReadsEncoded(buf: Buffer, x: nat, op: ProofOp)
    requires Encodable(op) && At(buf, x, Encode(op))
    ensures ReadHead(buf, x) == Op(op, x + |Encode(op)|)
  {
    var bytes := Encode(op);
    ByteAt(buf, x, bytes, 0);
    match op
    case KeyValue(k, v) => ReadsEncodedKeyValue(buf, x, k, v);
    case Hash(h) => PartAt(buf, x, bytes, 1, h);
    case KeyValueHash(h) => PartAt(buf, x, bytes, 1, h);
    case _ =>
  }

  /** From `x` on, the whole buffer is read, and it is `ops`. */
  ghost predicate Reads(buf: Buffer, x: nat, ops: seq<ProofOp>) {
    ReadOps(buf, x) == Read(ops, 0)
  }

  /** Round trip from wherever the cursor stands: reading the encoding of any
      operations within the size limits gives them back in order and uses up
      all bytes. */
  lemma {:induction false} ReadInvertsEncode(buf: Buffer, x: nat, ops: seq<ProofOp>)
    requires AllEncodable(ops) && x <= |buf| && buf[x..] == EncodeAll(ops)
    ensures Reads(buf, x, ops)
    decreases |ops|
  {
    if ops != [] {
      var first, rest := Encode(ops[0]), EncodeAll(ops[1..]);
      EncodedFirst(buf, x, first, rest);
      ReadInvertsEncode(buf, x + |first|, ops[1..]);
      ReadsOn(buf, x, ops);
    }
  }

  lemma ReadsOn(buf: Buffer, x: nat, ops: seq<ProofOp>)
    requires ops != [] && Encodable(ops[0]) && At(buf, x, Encode(ops[0]))
    requires Reads(buf, x + |Encode(ops[0])|, ops[1..])
    ensures Reads(buf, x, ops)
  {
    ReadsEncoded(buf, x, ops[0]);
    ReadsFirst(buf, x, ops, x + |Encode(ops[0])|);
  }

  lemma ReadsFirst(buf: Buffer, x: nat, ops: seq<ProofOp>, next: nat)
    requires ops != [] && x < |buf| && ReadHead(buf, x) == Op(ops[0], next) && Reads(buf, next, ops[1..])
    ensures Reads(buf, x, ops)
  {
    assert [ops[0]] + ops[1..] == ops;
  }

  lemma EncodedFirst(buf: Buffer, x: nat, first: Buffer, rest: Buffer)
    requires x <= |buf| && buf[x..] == first + rest
    ensures At(buf, x, first) && buf[x + |first|..] == rest
  {
    assert buf[x..x + |first|] == buf[x..][..|first|];
    assert buf[x + |first|..] == buf[x..][|first|..];
  }

  /** The parser as a whole: encoded operations come back as the hashes, the
      key/value hashes and the values in order and the key map. */
  lemma ParserInvertsEncoder(ops: seq<ProofOp>)
    requires AllEncodable(ops)
    ensures Outcome(ReadOps(EncodeAll(ops), 0)) == Data(Collect(ops))
  {
    var buf := EncodeAll(ops);
    assert buf[0..] == buf;
    ReadInvertsEncode(buf, 0, ops);
  }

  /** The bytes of each operation, spelled out: a proof of one of each kind, with any
      hashes of 32 bytes, any key of less than 256 and any value of 256 times `hi`
      plus `lo` bytes. */
  lemma BytesOfEachKind(h: Buffer, kvh: Buffer, k: Buffer, v: Buffer, size: Byte, hi: Byte, lo: Byte)
    requires |h| == |kvh| == 32 && |k| == size as int && |v| == 256 * hi as int + lo as int
    ensures var buf := [0x01] + h + ([0x02] + kvh + ([0x10] + ([0x03, size] + k + [hi, lo] + v + ([0x11] + []))));
      Outcome(ReadOps(buf, 0)) == Data(ProofData([h], [kvh], [v], map[k := v]))
  {
    var ops := [Hash(h), KeyValueHash(kvh), Parent, KeyValue(k, v), Child];
    EncodedKinds(h, kvh, k, v, size, hi, lo);
    ParserInvertsEncoder(ops);
    CollectFive(Hash(h), KeyValueHash(kvh), Parent, KeyValue(k, v), Child);
    assert [] + [h] == [h] && [] + [kvh] == [kvh] && [] + [v] == [v];
  }

  lemma EncodedKinds(h: Buffer, kvh: Buffer, k: Buffer, v: Buffer, size: Byte, hi: Byte, lo: Byte)
    requires |h| == |kvh| == 32 && |k| == size as int && |v| == 256 * hi as int + lo as int
    ensures var ops := [Hash(h), KeyValueHash(kvh), Parent, KeyValue(k, v), Child];
      AllEncodable(ops) && EncodeAll(ops) ==
        [0x01] + h + ([0x02] + kvh + ([0x10] + ([0x03, size] + k + [hi, lo] + v + ([0x11] + []))))
  {
    EncodesKeyValue(k, v, size, hi, lo);
    EncodeFive([Hash(h), KeyValueHash(kvh), Parent, KeyValue(k, v), Child],
               [[0x01] + h, [0x02] + kvh, [0x10], [0x03, size] + k + [hi, lo] + v, [0x11]]);
  }

  lemma EncodesKeyValue(k: Buffer, v: Buffer, size: Byte, hi: Byte, lo: Byte)
    requires |k| == size as int && |v| == 256 * hi as int + lo as int
    ensures Encodable(KeyValue(k, v)) && Encode(KeyValue(k, v)) == [0x03, size] + k + [hi, lo] + v
  {
    assert HighByte(|v|) == hi as int;
  }

  lemma EncodeFive(ops: seq<ProofOp>, bytes: seq<Buffer>)
    requires |ops| == 5 == |bytes| && AllEncodable(ops)
    requires forall i :: 0 <= i < 5 ==> Encode(ops[i]) == bytes[i]
    ensures EncodeAll(ops) == bytes[0] + (bytes[1] + (bytes[2] + (bytes[3] + (bytes[4] + []))))
  {
    var d: seq<ProofOp> := [ops[3]] + ([ops[4]] + []);
    EncodeFirst(ops[4], []);
    EncodeFirst(ops[3], [ops[4]] + []);
    EncodeFirst(ops[2], d);
    EncodeFirst(ops[1], [ops[2]] + d);
    EncodeFirst(ops[0], [ops[1]] + ([ops[2]] + d));
    assert ops == [ops[0]] + ([ops[1]] + ([ops[2]] + d));
  }

  lemma CollectFive(a: ProofOp, b: ProofOp, c: ProofOp, d: ProofOp, e: ProofOp)
    ensures Collect([a, b, c, d, e]) == Add(Add(Add(Add(Add(ProofData([], [], [], map[]), a), b), c), d), e)
  {
    CollectAppend([a, b, c, d], e);
    CollectAppend([a, b, c], d);
    CollectAppend([a, b], c);
    CollectAppend([a], b);
    CollectAppend([], a);
    assert [a, b, c, d] + [e] == [a, b, c, d, e] && [a, b, c] + [d] == [a, b, c, d];
    assert [a, b] + [c] == [a, b, c] && [a] + [b] == [a, b] && [] + [a] == [a];
  }

  lemma EncodeFirst(op: ProofOp, ops: seq<ProofOp>)
    requires Encodable(op) && AllEncodable(ops)
    ensures AllEncodable([op] + ops) && EncodeAll([op] + ops) == Encode(op) + EncodeAll(ops)
  {
    assert ([op] + ops)[1..] == ops;
  }

  lemma KeyValueIsEncoded(buf: Buffer, x: nat)
    requires x < |buf| && buf[x] == 0x03 && ReadKeyValue(buf, x).Op? && ReadKeyValue(buf, x).next <= |buf|
    ensures var Op(op, next) := ReadKeyValue(buf, x); Encodable(op) && Encode(op) == buf[x..next]
  {
    var Op(op, next) := ReadKeyValue(buf, x);
    var k: nat := buf[x + 1];
    var hi: nat, lo: nat := buf[x + 2 + k], buf[x + 3 + k];
    assert |op.value| == hi * 256 + lo;
    assert HighByte(|op.value|) == hi;
    assert buf[x..next] == [0x03, k] + op.key + [hi, lo] + op.value;
  }

  lemma HeadIsEncoded(buf: Buffer, x: nat)
    requires x < |buf| && ReadHead(buf, x).Op? && ReadHead(buf, x).next <= |buf|
    ensures var Op(op, next) := ReadHead(buf, x); Encodable(op) && Encode(op) == buf[x..next]
  {
    var Op(op, next) := ReadHead(buf, x);
    match op
    case KeyValue(k, v) => KeyValueIsEncoded(buf, x);
    case Hash(h) => assert buf[x..next] == [buf[x]] + buf[x + 1..next];
    case KeyValueHash(h) => assert buf[x..next] == [buf[x]] + buf[x + 1..next];
    case _ => assert buf[x..next] == [buf[x]];
  }

  ghost predicate IsEncodingOf(buf: Buffer, ops: seq<ProofOp>) {
    AllEncodable(ops) && EncodeAll(ops) == buf
  }

  lemma EncodingGrows(op: ProofOp, ops: seq<ProofOp>, buf: Buffer)
    requires Encodable(op) && IsEncodingOf(buf, ops)
    ensures IsEncodingOf(Encode(op) + buf, [op] + ops)
  {
    assert ([op] + ops)[1..] == ops;
  }

  lemma SplitAt(buf: Buffer, x: nat, next: nat)
    requires x <= next <= |buf|
    ensures buf[x..] == buf[x..next] + buf[next..]
  {
  }

  /** What is read to its very end is an encoding of what was read. */
  lemma {:induction false} ReadToTheEnd(buf: Buffer, x: nat)
    requires x <= |buf| && ReadOps(buf, x).Read? && ReadOps(buf, x).excess == 0
    ensures IsEncodingOf(buf[x..], ReadOps(buf, x).ops)
    decreases |buf| - x
  {
    if x < |buf| {
      var Op(op, next) := ReadHead(buf, x);
      HeadIsEncoded(buf, x);
      ReadToTheEnd(buf, next);
      SplitAt(buf, x, next);
      EncodingGrows(op, ReadOps(buf, next).ops, buf[next..]);
    }
  }

  /** A buffer is read to its very end exactly when it is an encoding of
      operations within the size limits. */
  lemma ReadToTheEndIff(buf: Buffer)
    ensures ReadOps(buf, 0).Read? && ReadOps(buf, 0).excess == 0 <==> exists ops :: IsEncodingOf(buf, ops)
  {
    assert buf[0..] == buf;
    if ops :| IsEncodingOf(buf, ops) {
      ReadInvertsEncode(buf, 0, ops);
    }
    if ReadOps(buf, 0).Read? && ReadOps(buf, 0).excess == 0 {
      ReadToTheEnd(buf, 0);
    }
  }

  // ------------------------------------------------------------- what is accepted

  /** The bytes at the end of an operation that slices read without a complaint. */
  function Payload(op: ProofOp): nat {
    match op
    case Hash(_) => HASH_LENGTH
    case KeyValueHash(_) => HASH_LENGTH
    case KeyValue(_, v) => |v|
    case _ => 0
  }

  /** With `more` behind it, `buf` from `x` on is the encoding of `ops`; what is
      missing lies within the payload of the last one. */
  ghost predicate CutFrom(buf: Buffer, x: nat, more: Buffer, ops: seq<ProofOp>) {
    && x <= |buf| && IsEncodingOf((buf + more)[x..], ops)
    && (more == [] || (ops != [] && |more| <= Payload(ops[|ops| - 1])))
  }

  ghost predicate Accepts(buf: Buffer, x: nat) {
    ReadOps(buf, x).Read?
  }

  lemma PayloadWithin(op: ProofOp)
    requires Encodable(op)
    ensures Payload(op) < |Encode(op)|
  {
  }

  lemma {:induction false} LastWithin(ops: seq<ProofOp>)
    requires AllEncodable(ops) && ops != []
    ensures Payload(ops[|ops| - 1]) < |EncodeAll(ops)|
  {
    PayloadWithin(ops[0]);
    if |ops| > 1 {
      LastWithin(ops[1..]);
    }
  }

  /** More bytes change no operation that was complete, and only complete the
      payload of one that was not. */
  lemma HeadWithMore(buf: Buffer, more: Buffer, x: nat)
    requires x < |buf| && ReadHead(buf, x).Op?
    ensures var h, g := ReadHead(buf, x), ReadHead(buf + more, x);
      && g.Op? && g.next == h.next
      && (h.next <= |buf| ==> g.op == h.op)
      && (h.next > |buf| && h.next <= |buf + more| ==> h.next - |buf| <= Payload(g.op))
  {
    var all := buf + more;
    assert all[x] == buf[x];
    if buf[x] == 0x03 {
      var k: nat := buf[x + 1];
      assert all[x + 1] == k && all[x + 2 + k] == buf[x + 2 + k] && all[x + 3 + k] == buf[x + 3 + k];
      var v := BigEndian(buf[x + 2 + k], buf[x + 3 + k]);
      ReadsKeyValue(buf, x, k, v);
      ReadsKeyValue(all, x, k, v);
      SliceWithMore(buf, more, x + 2, x + 2 + k);
      SliceWithMore(buf, more, x + 4 + k, x + 4 + k + v);
    } else {
      SliceWithMore(buf, more, x + 1, x + 1 + HASH_LENGTH);
    }
  }

  lemma SliceWithMore(buf: Buffer, more: Buffer, x: nat, y: nat)
    requires x <= y
    ensures y <= |buf| ==> Slice(buf + more, x, y) == Slice(buf, x, y)
  {
  }

  /** Without bytes of its payload an operation is read just the same. */
  lemma HeadWithLess(buf: Buffer, more: Buffer, x: nat)
    requires x < |buf| && ReadHead(buf + more, x).Op?
    requires ReadHead(buf + more, x).next <= |buf| + Payload(ReadHead(buf + more, x).op)
    requires ReadHead(buf + more, x).next <= |buf + more|
    ensures ReadHead(buf, x).Op?
  {
    var all := buf + more;
    assert all[x] == buf[x];
    if buf[x] == 0x03 {
      var k: nat := all[x + 1];
      var v := BigEndian(all[x + 2 + k], all[x + 3 + k]);
      ReadsKeyValue(all, x, k, v);
      assert x + 4 + k <= |buf| && buf[x + 1] == k;
    }
  }

  lemma ZerosOf(n: nat) returns (zeros: Buffer)
    ensures |zeros| == n
  {
    zeros := seq(n, _ => 0);
  }

  /** Whatever is accepted was cut off within the payload of its last operation. */
  lemma {:induction false} AcceptedIsCut(buf: Buffer, x: nat) returns (more: Buffer, ops: seq<ProofOp>)
    requires x <= |buf| && Accepts(buf, x)
    ensures CutFrom(buf, x, more, ops)
    decreases |buf| - x
  {
    if x == |buf| {
      more, ops := [], [];
      assert (buf + more)[x..] == [];
    } else {
      var Op(op, next) := ReadHead(buf, x);
      if next <= |buf| {
        var rest;
        more, rest := AcceptedIsCut(buf, next);
        ops := OneMore(buf, x, more, rest);
      } else {
        more := ZerosOf(next - |buf|);
        ops := JustOne(buf, x, more);
      }
    }
  }

  lemma OneMore(buf: Buffer, x: nat, more: Buffer, rest: seq<ProofOp>) returns (ops: seq<ProofOp>)
    requires x < |buf| && ReadHead(buf, x).Op? && ReadHead(buf, x).next <= |buf|
    requires CutFrom(buf, ReadHead(buf, x).next, more, rest)
    ensures CutFrom(buf, x, more, ops)
  {
    var Op(op, next) := ReadHead(buf, x);
    var all := buf + more;
    HeadWithMore(buf, more, x);
    HeadIsEncoded(all, x);
    SplitAt(all, x, next);
    EncodingGrows(op, rest, all[next..]);
    ops := [op] + rest;
    assert rest != [] ==> ops[|ops| - 1] == rest[|rest| - 1];
  }

  lemma JustOne(buf: Buffer, x: nat, more: Buffer) returns (ops: seq<ProofOp>)
    requires x < |buf| && ReadHead(buf, x).Op? && ReadHead(buf, x).next == |buf| + |more| && more != []
    ensures CutFrom(buf, x, more, ops)
  {
    var all := buf + more;
    HeadWithMore(buf, more, x);
    HeadIsEncoded(all, x);
    var op := ReadHead(all, x).op;
    assert all[x..|all|] == all[x..];
    EncodingGrows(op, [], []);
    assert Encode(op) + [] == Encode(op) && [op] + [] == [op];
    ops := [op];
  }

  lemma AcceptsOn(buf: Buffer, x: nat, next: nat)
    requires x < |buf| && ReadHead(buf, x).Op? && ReadHead(buf, x).next == next && Accepts(buf, next)
    ensures Accepts(buf, x)
  {
  }

  lemma CutHead(buf: Buffer, x: nat, more: Buffer, op: ProofOp, next: nat)
    requires x < |buf| && ReadHead(buf + more, x) == Op(op, next)
    requires next <= |buf + more| && next <= |buf| + Payload(op)
    ensures ReadHead(buf, x).Op? && ReadHead(buf, x).next == next
  {
    HeadWithLess(buf, more, x);
    HeadWithMore(buf, more, x);
  }

  lemma CutTail(buf: Buffer, more: Buffer, ops: seq<ProofOp>, next: nat)
    requires AllEncodable(ops) && |ops| > 1 && (more == [] || |more| <= Payload(ops[|ops| - 1]))
    requires next <= |buf| && (buf + more)[next..] == EncodeAll(ops[1..])
    ensures CutFrom(buf, next, more, ops[1..])
  {
    assert ops[1..][|ops| - 2] == ops[|ops| - 1];
  }

  /** The first operation of a cut encoding is read, and the rest is one again. */
  lemma CutStep(buf: Buffer, x: nat, more: Buffer, ops: seq<ProofOp>) returns (next: nat)
    requires CutFrom(buf, x, more, ops) && ops != []
    ensures x < |buf| && ReadHead(buf, x).Op? && ReadHead(buf, x).next == next
    ensures |ops| == 1 ==> next >= |buf|
    ensures |ops| > 1 ==> CutFrom(buf, next, more, ops[1..])
  {
    var first, rest := Encode(ops[0]), EncodeAll(ops[1..]);
    next := x + |first|;
    EncodedFirst(buf + more, x, first, rest);
    CutFirst(buf, x, more, ops, first, rest);
    ReadsEncoded(buf + more, x, ops[0]);
    CutHead(buf, x, more, ops[0], next);
    if |ops| > 1 {
      CutTail(buf, more, ops, next);
    }
  }

  /** Only the last operation can be incomplete. */
  lemma CutFirst(buf: Buffer, x: nat, more: Buffer, ops: seq<ProofOp>, first: Buffer, rest: Buffer)
    requires CutFrom(buf, x, more, ops) && ops != []
    requires first == Encode(ops[0]) && rest == EncodeAll(ops[1..]) && (buf + more)[x..] == first + rest
    ensures x < |buf| && x + |first| <= |buf| + Payload(ops[0])
    ensures |ops| == 1 ==> rest == []
    ensures |ops| > 1 ==> x + |first| <= |buf|
  {
    assert |buf + more| == x + |first| + |rest|;
    LastWithin(ops);
    if |ops| > 1 {
      LastWithin(ops[1..]);
    }
  }

  /** Whatever was cut off there is accepted. */
  lemma {:induction false} CutIsAccepted(buf: Buffer, x: nat, more: Buffer, ops: seq<ProofOp>)
    requires CutFrom(buf, x, more, ops)
    ensures Accepts(buf, x)
    decreases |ops|
  {
    if ops != [] {
      var next := CutStep(buf, x, more, ops);
      if |ops| > 1 {
        CutIsAccepted(buf, next, more, ops[1..]);
      }
      AcceptsOn(buf, x, next);
    }
  }

  /** `buf` is the encoding of `ops`, whole or cut off by `more` within the hash
      or the value of the last operation. */
  ghost predicate IsCutOf(buf: Buffer, more: Buffer, ops: seq<ProofOp>) {
    && IsEncodingOf(buf + more, ops)
    && (more == [] || (ops != [] && |more| <= Payload(ops[|ops| - 1])))
  }

  lemma CutFromStart(buf: Buffer, more: Buffer, ops: seq<ProofOp>)
    ensures CutFrom(buf, 0, more, ops) <==> IsCutOf(buf, more, ops)
  {
    assert (buf + more)[0..] == buf + more;
  }

  /** Exactly what is accepted: encodings of operations within the size limits,
      whole or cut off within the hash or the value of the last one. */
  lemma AcceptedIff(buf: Buffer)
    ensures Outcome(ReadOps(buf, 0)).Data? <==> exists more, ops :: IsCutOf(buf, more, ops)
  {
    if Accepts(buf, 0) {
      var more, ops := AcceptedIsCut(buf, 0);
      CutFromStart(buf, more, ops);
    }
    if more, ops :| IsCutOf(buf, more, ops) {
      CutFromStart(buf, more, ops);
      CutIsAccepted(buf, 0, more, ops);
    }
  }

  /** A tag without its hash is accepted, as an empty hash. */
  lemma MissingHashIsAccepted()
    ensures Outcome(ReadOps([0x01], 0)) == Data(ProofData([[]], [], [], map[]))
  {
    assert ReadHead([0x01], 0) == Op(Hash([]), 33);
    assert ReadOps([0x01], 33) == Read([], 32);
    assert [Hash([])] + [] == [Hash([])];
    assert [Hash([])][..0] == [];
  }

  /** A cut within a key is rejected, and so is one before its length. */
  lemma CutKeyIsRejected()
    ensures Outcome(ReadOps([0x03], 0)) == Error(OutOfRange)
    ensures Outcome(ReadOps([0x03, 2, 7], 0)) == Error(OutOfRange)
  {
  }

  // ---------------------------------------------------------- what is collected

  function Merge(d: ProofData, e: ProofData): ProofData {
    ProofData(d.hashes + e.hashes, d.keyValueHashes + e.keyValueHashes, d.values + e.values, d.keyValues + e.keyValues)
  }

  /** What is collected from two stretches of operations, one after the other:
      the lists follow each other and the later values of a key win. */
  lemma {:induction false} CollectJoins(a: seq<ProofOp>, b: seq<ProofOp>)
    ensures Collect(a + b) == Merge(Collect(a), Collect(b))
  {
    if b == [] {
      assert a + b == a;
      MergeNothing(Collect(a));
    } else {
      var front, op := b[..|b| - 1], b[|b| - 1];
      assert a + b == (a + front) + [op];
      assert b == front + [op];
      CollectJoins(a, front);
      CollectAppend(a + front, op);
      CollectAppend(front, op);
      AddJoins(Collect(a), Collect(front), op);
    }
  }

  lemma MergeNothing(d: ProofData)
    ensures Merge(d, ProofData([], [], [], map[])) == d
  {
  }

  lemma AddJoins(d: ProofData, e: ProofData, op: ProofOp)
    ensures Add(Merge(d, e), op) == Merge(d, Add(e, op))
  {
    match op
    case Hash(h) => assert d.hashes + e.hashes + [h] == d.hashes + (e.hashes + [h]);
    case KeyValueHash(h) =>
      assert d.keyValueHashes + e.keyValueHashes + [h] == d.keyValueHashes + (e.keyValueHashes + [h]);
    case KeyValue(k, v) =>
      assert d.values + e.values + [v] == d.values + (e.values + [v]);
      assert (d.keyValues + e.keyValues)[k := v] == d.keyValues + e.keyValues[k := v];
    case _ =>
  }

  /** `ops[i]` is the last operation with the key `k`, and it has the value `v`. */
  ghost predicate LastWrite(ops: seq<ProofOp>, i: nat, k: Buffer, v: Buffer) {
    && i < |ops| && ops[i] == KeyValue(k, v)
    && forall j :: i < j < |ops| && ops[j].KeyValue? ==> ops[j].key != k
  }

  /** The key map holds exactly the keys that were read, each with the value
      that was read last. */
  lemma {:induction false} LastValueWins(ops: seq<ProofOp>, k: Buffer, v: Buffer)
    ensures k in Collect(ops).keyValues && Collect(ops).keyValues[k] == v <==> exists i: nat :: LastWrite(ops, i, k, v)
  {
    if ops != [] {
      var front, op := ops[..|ops| - 1], ops[|ops| - 1];
      LastValueWins(front, k, v);
      if op.KeyValue? && op.key == k {
        assert op.value == v ==> LastWrite(ops, |front|, k, v);
      } else {
        if i: nat :| LastWrite(front, i, k, v) {
          assert LastWrite(ops, i, k, v);
        }
        if i: nat :| LastWrite(ops, i, k, v) {
          assert LastWrite(front, i, k, v);
        }
      }
    }
  }
}
