/** Length-prefixed messages on an ABCI socket: a base 128 varint ("Base 128
    Varints" and "Signed Integers" in the Protocol Buffers Encoding
    specification) holding twice the length, then the message. */
module Framing {
  import opened Buffers

  const MAX_MESSAGE_SIZE := 104857600
  const PREFIX_WINDOW := 8
  const TWO_32 := 0x1_0000_0000

  // ---------------------------------------------------------------- varints

  datatype Decoded = Truncated | Value(value: nat, size: nat)

  function EncodeVarint(n: nat): (r: Buffer)
    ensures r != []
  {
    if n < 128 then [n] else [128 + n % 128] + EncodeVarint(n / 128)
  }

  function DecodeVarint(buf: Buffer): (r: Decoded)
    ensures r.Value? ==> 1 <= r.size <= |buf|
  {
    if buf == [] then Truncated
    else if buf[0] < 128 then Value(buf[0], 1)
    else match DecodeVarint(buf[1..])
      case Truncated => Truncated
      case Value(v, size) => Value(buf[0] - 128 + 128 * v, size + 1)
  }

  lemma {:induction false} VarintRoundTrip(n: nat, rest: Buffer)
    ensures DecodeVarint(EncodeVarint(n) + rest) == Value(n, |EncodeVarint(n)|)
  {
    if n >= 128 {
      VarintRoundTrip(n / 128, rest);
      var e := EncodeVarint(n / 128);
      assert (EncodeVarint(n) + rest)[1..] == e + rest;
    }
  }

  /** A varint cut short does not decode. */
  lemma {:induction false} VarintPrefixTruncated(n: nat, k: nat)
    requires k < |EncodeVarint(n)|
    ensures DecodeVarint(EncodeVarint(n)[..k]) == Truncated
  {
    if k > 0 {
      assert EncodeVarint(n)[..k][1..] == EncodeVarint(n / 128)[..k - 1];
      VarintPrefixTruncated(n / 128, k - 1);
    }
  }

  lemma {:induction false} DecodeVarintAppend(buf: Buffer, more: Buffer)
    requires DecodeVarint(buf).Value?
    ensures DecodeVarint(buf + more) == DecodeVarint(buf)
  {
    if buf[0] >= 128 {
      DecodeVarintAppend(buf[1..], more);
      assert (buf + more)[1..] == buf[1..] + more;
    }
  }

  lemma {:induction false} VarintLength(n: nat, digits: nat)
    requires n < Pow128(digits) && digits >= 1
    ensures |EncodeVarint(n)| <= digits
  {
    if n >= 128 {
      assert n < 128 * Pow128(digits - 1);
      VarintLength(n / 128, digits - 1);
    }
  }

  function Pow128(d: nat): nat {
    if d == 0 then 1 else 128 * Pow128(d - 1)
  }

  /** The `i`-th seven bits of `n`, from the lowest on. */
  function Septet(n: nat, i: nat): nat {
    if i == 0 then n % 128 else Septet(n / 128, i - 1)
  }

  /** The wire format: the lowest seven bits first, the eighth bit set on all bytes
      but the last, and no more bytes than the number needs. */
  lemma {:induction false} VarintBytes(n: nat, i: nat)
    requires i < |EncodeVarint(n)|
    ensures EncodeVarint(n)[i] % 128 == Septet(n, i)
    ensures EncodeVarint(n)[i] >= 128 <==> i + 1 < |EncodeVarint(n)|
    ensures i > 0 && i + 1 == |EncodeVarint(n)| ==> Septet(n, i) > 0
  {
    if n >= 128 {
      assert EncodeVarint(n)[1..] == EncodeVarint(n / 128);
      if i > 0 {
        VarintBytes(n / 128, i - 1);
      }
    }
  }

  /** A varint is cut short exactly when every byte announces another. */
  lemma {:induction false} TruncatedIff(buf: Buffer)
    ensures DecodeVarint(buf) == Truncated <==> forall i :: 0 <= i < |buf| ==> buf[i] >= 128
  {
    if buf != [] {
      TruncatedIff(buf[1..]);
      assert forall i :: 0 < i < |buf| ==> buf[i] == buf[1..][i - 1];
    }
  }

  // -------------------------------------------- JavaScript's 32-bit operators

  function ToInt32(n: int): int {
    var w := n % TWO_32;
    if w >= TWO_32 / 2 then w - TWO_32 else w
  }

  /** `n >> 1` */
  function HalfSigned(n: int): int {
    ToInt32(n) / 2
  }

  /** `n << 1`, encoded as the varint library does: as an unsigned 32-bit word. */
  function DoubleUnsigned(n: int): nat {
    (2 * n) % TWO_32
  }

  // ---------------------------------------------------------------- frames

  /** What `readNextRequest` sees at the head of its buffer. `Garbled` is a
      prefix whose 32-bit value is negative. */
  datatype Head =
    | Wait
    | EmptyRequest
    | TooLarge
    | Garbled
    | Message(body: Buffer, size: nat)

  function Take(buf: Buffer, n: nat): Buffer {
    if |buf| <= n then buf else buf[..n]
  }

  function Scan(buf: Buffer): (r: Head)
    ensures r.Message? ==> 0 < r.size <= |buf|
  {
    match DecodeVarint(Take(buf, PREFIX_WINDOW))
    case Truncated => Wait
    case Value(v, size) =>
      var length := HalfSigned(v);
      if length == 0 then EmptyRequest
      else if length > MAX_MESSAGE_SIZE then TooLarge
      else if length < 0 then Garbled
      else if size + length > |buf| then Wait
      else Message(buf[size..size + length], size + length)
  }

  /** The bytes `write` puts on the socket for one message. */
  function Frame(message: Buffer): Buffer {
    EncodeVarint(DoubleUnsigned(|message|)) + message
  }

  predicate WellFormed(message: Buffer) {
    1 <= |message| <= MAX_MESSAGE_SIZE
  }

  function Stream(messages: seq<Buffer>): Buffer {
    if messages == [] then [] else Frame(messages[0]) + Stream(messages[1..])
  }

  lemma PrefixFits(message: Buffer)
    ensures |EncodeVarint(DoubleUnsigned(|message|))| <= 5
  {
    assert Pow128(5) == 34359738368 by {
      assert Pow128(1) == 128 * Pow128(0);
      assert Pow128(2) == 128 * Pow128(1);
      assert Pow128(3) == 128 * Pow128(2);
      assert Pow128(4) == 128 * Pow128(3);
    }
    VarintLength(DoubleUnsigned(|message|), 5);
  }

  /** What the prefix of a frame decodes to, with anything behind the prefix. */
  lemma PrefixDecodes(message: Buffer, rest: Buffer)
    ensures var n := DoubleUnsigned(|message|);
      DecodeVarint(Take(EncodeVarint(n) + rest, PREFIX_WINDOW)) == Value(n, |EncodeVarint(n)|)
  {
    var e := EncodeVarint(DoubleUnsigned(|message|));
    PrefixFits(message);
    var k := Take(e + rest, PREFIX_WINDOW);
    assert k == e + k[|e|..];
    VarintRoundTrip(DoubleUnsigned(|message|), k[|e|..]);
  }

  /** The decoder of a prefix inverts `write` for exactly the message sizes the
      connection accepts: not for the empty message, and not above the maximum,
      where lengths of 2^30 and more wrap around in 32 bits. */
  lemma FrameRoundTrip(message: Buffer, rest: Buffer)
    ensures WellFormed(message) <==> Scan(Frame(message) + rest) == Message(message, |Frame(message)|)
  {
    var n := |message|;
    var e := EncodeVarint(DoubleUnsigned(n));
    var all := Frame(message) + rest;
    assert all == e + (message + rest);
    PrefixDecodes(message, message + rest);
    assert all[|e|..|e| + n] == message;
    if 0 < n < 0x4000_0000 {
      assert HalfSigned(DoubleUnsigned(n)) == n;
    } else {
      assert n == 0 || HalfSigned(DoubleUnsigned(n)) < 0x4000_0000 <= n;
    }
  }

  /** A well-formed frame cut short is waited for, never misread. */
  lemma PartialFrameWaits(message: Buffer, k: nat)
    requires WellFormed(message) && k < |Frame(message)|
    ensures Scan(Frame(message)[..k]) == Wait
  {
    var n := DoubleUnsigned(|message|);
    var e := EncodeVarint(n);
    var cut := Frame(message)[..k];
    PrefixFits(message);
    if k < |e| {
      assert cut == e[..k];
      VarintPrefixTruncated(n, k);
    } else {
      assert cut == e + message[..k - |e|];
      PrefixDecodes(message, message[..k - |e|]);
      assert HalfSigned(n) == |message|;
    }
  }

  /** A length goes through the shifts as its value modulo 2^31, signed. */
  lemma LengthSeen(n: nat)
    ensures var seen := n % 0x8000_0000;
      HalfSigned(DoubleUnsigned(n)) == if seen < 0x4000_0000 then seen else seen - 0x8000_0000
  {
    var seen := n % 0x8000_0000;
    assert 2 * n == TWO_32 * (n / 0x8000_0000) + 2 * seen;
    assert DoubleUnsigned(n) == 2 * seen;
  }

  /** What the reader makes of the frame of a message of any size, with anything
      behind it. */
  lemma FrameVerdict(message: Buffer, rest: Buffer)
    ensures var seen, head := |message| % 0x8000_0000, Scan(Frame(message) + rest);
      && (seen == 0 ==> head == EmptyRequest)
      && (1 <= seen <= 104857600 ==> head == Message(message[..seen], |Frame(message)| - |message| + seen))
      && (104857600 < seen < 0x4000_0000 ==> head == TooLarge)
      && (0x4000_0000 <= seen ==> head == Garbled)
  {
    var e, seen := EncodeVarint(DoubleUnsigned(|message|)), |message| % 0x8000_0000;
    PrefixDecodes(message, message + rest);
    LengthSeen(|message|);
    ScanBehind(e, message + rest, DoubleUnsigned(|message|));
    if 1 <= seen <= MAX_MESSAGE_SIZE {
      assert (message + rest)[..seen] == message[..seen];
    }
    assert Frame(message) + rest == e + (message + rest);
  }

  lemma ScanBehind(e: Buffer, body: Buffer, v: nat)
    requires DecodeVarint(Take(e + body, PREFIX_WINDOW)) == Value(v, |e|)
    ensures var length, head := HalfSigned(v), Scan(e + body);
      && (length == 0 ==> head == EmptyRequest)
      && (length > MAX_MESSAGE_SIZE ==> head == TooLarge)
      && (length < 0 ==> head == Garbled)
      && (1 <= length <= MAX_MESSAGE_SIZE && length <= |body| ==> head == Message(body[..length], |e| + length))
  {
    var length := HalfSigned(v);
    if 1 <= length <= |body| {
      assert (e + body)[|e|..|e| + length] == body[..length];
    }
  }

  /** Of a prefix without end eight bytes are looked at: as long as they all
      announce another, the connection waits; if one does not, it decides as soon
      as the length it announces has arrived. */
  lemma PrefixWindow(buf: Buffer)
    ensures (forall i :: 0 <= i < |buf| && i < 8 ==> buf[i] >= 128) ==> Scan(buf) == Wait
    ensures (exists i :: 0 <= i < |buf| && i < 8 && buf[i] < 128) && |buf| >= 8 + 104857600 ==> Scan(buf) != Wait
  {
    var head := Take(buf, PREFIX_WINDOW);
    TruncatedIff(head);
    assert forall i :: 0 <= i < |head| ==> head[i] == buf[i];
  }

  /** Once a message is complete, later bytes do not change it. */
  lemma ScanAppend(buf: Buffer, more: Buffer)
    requires Scan(buf).Message?
    ensures Scan(buf + more) == Scan(buf)
  {
    var head := Take(buf, PREFIX_WINDOW);
    var longer := Take(buf + more, PREFIX_WINDOW);
    assert longer == head + longer[|head|..];
    DecodeVarintAppend(head, longer[|head|..]);
    var Message(body, size) := Scan(buf);
    assert forall i, j :: 0 <= i <= j <= |buf| ==> (buf + more)[i..j] == buf[i..j];
  }

  lemma GarbledAppend(buf: Buffer, more: Buffer)
    requires Scan(buf) == Garbled
    ensures Scan(buf + more) == Garbled
  {
    var head := Take(buf, PREFIX_WINDOW);
    var longer := Take(buf + more, PREFIX_WINDOW);
    assert longer == head + longer[|head|..];
    DecodeVarintAppend(head, longer[|head|..]);
  }

  // ------------------------------------------------- whole streams of frames

  /** All complete messages at the head of `buf`, in order. */
  function Messages(buf: Buffer): seq<Buffer> {
    match Scan(buf)
    case Message(body, size) => [body] + Messages(buf[size..])
    case _ => []
  }

  /** Reading `messages` off the head of `all`, one after another, leaves `rest`. */
  ghost predicate Reads(all: Buffer, messages: seq<Buffer>, rest: Buffer)
    decreases |messages|
  {
    if messages == [] then all == rest
    else
      var head := Scan(all);
      head.Message? && head.body == messages[0] && Reads(all[head.size..], messages[1..], rest)
  }

  lemma {:induction false} ReadsAppend(all: Buffer, messages: seq<Buffer>, rest: Buffer, more: Buffer)
    requires Reads(all, messages, rest)
    ensures Reads(all + more, messages, rest + more)
    decreases |messages|
  {
    if messages != [] {
      var size := Scan(all).size;
      ScanAppend(all, more);
      ReadsAppend(all[size..], messages[1..], rest, more);
      assert (all + more)[size..] == all[size..] + more;
    }
  }

  lemma {:induction false} ReadsNext(all: Buffer, messages: seq<Buffer>, rest: Buffer)
    requires Reads(all, messages, rest) && Scan(rest).Message?
    ensures Reads(all, messages + [Scan(rest).body], rest[Scan(rest).size..])
    decreases |messages|
  {
    var next := messages + [Scan(rest).body];
    if messages == [] {
      assert next[1..] == [];
    } else {
      ReadsNext(all[Scan(all).size..], messages[1..], rest);
      assert next[1..] == messages[1..] + [Scan(rest).body];
    }
  }

  /** What was read is an initial part of what the bytes hold, and the bytes
      left over hold the remainder. */
  lemma {:induction false} ReadsIsPrefix(all: Buffer, messages: seq<Buffer>, rest: Buffer)
    requires Reads(all, messages, rest)
    ensures Messages(all) == messages + Messages(rest)
    decreases |messages|
  {
    if messages == [] {
      assert messages + Messages(rest) == Messages(rest);
    } else {
      var behind := all[Scan(all).size..];
      ReadsIsPrefix(behind, messages[1..], rest);
      assert Messages(all) == [messages[0]] + Messages(behind);
      assert [messages[0]] + (messages[1..] + Messages(rest)) == messages + Messages(rest);
    }
  }

  /** What follows the messages at the head of `buf`. */
  function Rest(buf: Buffer): Buffer {
    match Scan(buf)
    case Message(_, size) => Rest(buf[size..])
    case _ => buf
  }

  lemma {:induction false} ReadsRest(all: Buffer, messages: seq<Buffer>, rest: Buffer)
    requires Reads(all, messages, rest)
    ensures Rest(all) == Rest(rest)
    decreases |messages|
  {
    if messages != [] {
      ReadsRest(all[Scan(all).size..], messages[1..], rest);
    }
  }

  lemma {:induction false} ReadsDetermined(all: Buffer, ms: seq<Buffer>, rest: Buffer, ns: seq<Buffer>, other: Buffer)
    requires Reads(all, ms, rest) && Reads(all, ns, other) && |ms| == |ns|
    ensures ms == ns && rest == other
    decreases |ms|
  {
    if ms != [] {
      var size := Scan(all).size;
      ReadsDetermined(all[size..], ms[1..], rest, ns[1..], other);
      assert ms == [ms[0]] + ms[1..] && ns == [ns[0]] + ns[1..];
    }
  }

  /** A stream of well-formed frames followed by a tail reads back as sent. */
  lemma {:induction false} StreamReads(messages: seq<Buffer>, tail: Buffer)
    requires forall m :: m in messages ==> WellFormed(m)
    ensures Reads(Stream(messages) + tail, messages, tail)
  {
    if messages == [] {
      assert Stream(messages) + tail == tail;
    } else {
      var rest := Stream(messages[1..]) + tail;
      assert Stream(messages) + tail == Frame(messages[0]) + rest;
      FrameRoundTrip(messages[0], rest);
      StreamReads(messages[1..], tail);
      assert (Frame(messages[0]) + rest)[|Frame(messages[0])|..] == rest;
    }
  }

  lemma {:induction false} StreamAppend(messages: seq<Buffer>, m: Buffer)
    ensures Stream(messages + [m]) == Stream(messages) + Frame(m)
  {
    if messages == [] {
      assert Stream([m]) == Frame(m) + Stream([m][1..]);
      assert Stream([m][1..]) == [];
    } else {
      assert (messages + [m])[1..] == messages[1..] + [m];
      StreamAppend(messages[1..], m);
    }
  }
}
