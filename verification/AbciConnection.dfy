/** The ABCI connection: bytes arrive in arbitrary chunks, one request is in
    flight at a time, and closing lets the request in flight finish. */
module AbciConnection {
  import opened Buffers
  import opened Framing

  /** Where the running `readNextRequest` is suspended. `AwaitingDestroy`: in the
      await of a write after which the socket is destroyed. `Lost`: it returned
      or threw without releasing the connection. `Unmodelled`: it went on with a
      negative length. */
  datatype Pending = Nothing | AwaitingHandler | AwaitingWrite | AwaitingDestroy | Lost | Unmodelled

  /** Which of the two `socket.write` calls of `write` throws, if any. */
  datatype WriteOutcome = Written | PrefixThrew | BodyThrew

  datatype SocketState = SocketState(output: Buffer, paused: bool, destroyed: bool, ended: bool)

  /** What happened so far: the bytes of all data events, the messages handed to
      the request handler, the responses written completely. */
  datatype Log = Log(received: Buffer, dispatched: seq<Buffer>, answered: seq<Buffer>)

  datatype State = State(
    buffer: Buffer,
    isReading: bool,
    isClosing: bool,
    isRequestHandled: bool,   // the promise of that name is resolved
    pending: Pending,
    closeSeen: bool,          // the socket closed while `close` was waiting
    socket: SocketState,
    log: Log
  )

  const INITIAL := State([], false, false, true, Nothing, false,
                         SocketState([], false, false, false), Log([], [], []))

  datatype Event =
    | Data(chunk: Buffer)
    | HandlerResolved(response: Buffer, outcome: WriteOutcome)
    | HandlerRejected(response: Buffer, outcome: WriteOutcome)  // with a ResponseExceptionError
    | HandlerThrew                                              // with any other error
    | WriteAwaited
    | Close
    | SocketClosed
    | EndSocket

  /** `readNextRequest` up to its first await. */
  function ReadNext(decodes: Buffer -> bool, s: State): State {
    if s.isClosing || s.isReading then s
    else
      match Scan(s.buffer)
      case Wait => Released(s)
      case EmptyRequest => Destroyed(Began(s))
      case TooLarge => Destroyed(Began(s))
      case Garbled => Began(s).(pending := Unmodelled)
      case Message(body, size) =>
        if decodes(body) then Dispatched(Began(s), body, size) else Destroyed(Began(s))
  }

  function Began(s: State): State {
    s.(isReading := true, isRequestHandled := false, pending := Lost)
  }

  function Released(s: State): State {
    s.(isReading := false, isRequestHandled := true, pending := Nothing)
  }

  function Destroyed(s: State): State {
    s.(pending := Lost, socket := s.socket.(destroyed := true))
  }

  function Dispatched(s: State, body: Buffer, size: nat): State
    requires size <= |s.buffer|
  {
    s.(pending := AwaitingHandler,
       buffer := s.buffer[size..],
       socket := s.socket.(paused := true),
       log := s.log.(dispatched := s.log.dispatched + [body]))
  }

  function AfterWrite(s: State, response: Buffer, outcome: WriteOutcome): State {
    var out, length := s.socket.output, EncodeVarint(DoubleUnsigned(|response|));
    match outcome
    case Written => s.(socket := s.socket.(output := out + Frame(response)),
                       log := s.log.(answered := s.log.answered + [response]))
    case PrefixThrew => s
    case BodyThrew => s.(socket := s.socket.(output := out + length))
  }

  function Receive(s: State, chunk: Buffer): State {
    s.(buffer := s.buffer + chunk, log := s.log.(received := s.log.received + chunk))
  }

  function Resume(s: State): State {
    Released(s).(socket := s.socket.(paused := s.isClosing && s.socket.paused))
  }

  /** One event; an event that cannot happen in `s` changes nothing. */
  function Step(decodes: Buffer -> bool, s: State, event: Event): State {
    match event
    case Data(chunk) => ReadNext(decodes, Receive(s, chunk))
    case HandlerResolved(response, outcome) =>
      if s.pending != AwaitingHandler then s
      else AfterWrite(s, response, outcome).(pending := if outcome.Written? then AwaitingWrite else AwaitingDestroy)
    case HandlerRejected(response, outcome) =>
      if s.pending != AwaitingHandler then s
      else AfterWrite(s, response, outcome).(pending := AwaitingDestroy)
    case HandlerThrew =>
      if s.pending != AwaitingHandler then s else s.(pending := Lost)
    case WriteAwaited =>
      if s.pending == AwaitingDestroy then Destroyed(s)
      else if s.pending != AwaitingWrite then s
      else if s.buffer == [] then Resume(s)
      else ReadNext(decodes, Resume(s))
    case Close => s.(isClosing := true, socket := s.socket.(paused := true))
    case SocketClosed => s.(closeSeen := s.closeSeen || s.isClosing)
    case EndSocket =>
      if s.isClosing && (s.isRequestHandled || s.closeSeen) then s.(socket := s.socket.(ended := true)) else s
  }

  function Run(decodes: Buffer -> bool, s: State, events: seq<Event>): State {
    if events == [] then s
    else Step(decodes, Run(decodes, s, events[..|events| - 1]), events[|events| - 1])
  }

  /** The byte stream a run received, whatever its chunks. */
  function Received(events: seq<Event>): Buffer {
    if events == [] then []
    else
      var front, last := Received(events[..|events| - 1]), events[|events| - 1];
      if last.Data? then front + last.chunk else front
  }

  // ---------------------------------------------------------- the connection

  class Socket {
    var output: Buffer
    var paused: bool
    var destroyed: bool
    var ended: bool

    ghost function View(): SocketState
      reads this
    {
      SocketState(output, paused, destroyed, ended)
    }

    constructor ()
      ensures output == [] && !paused && !destroyed && !ended
    {
      output, paused, destroyed, ended := [], false, false, false;
    }
  }

  class Connection {
    const socket: Socket
    const decodes: Buffer -> bool
    var readerBuffer: Buffer
    var isReading: bool
    var isClosing: bool
    var isRequestHandled: bool
    var pending: Pending
    var closeSeen: bool
    ghost var log: Log

    ghost function View(): State
      reads this, socket
    {
      State(readerBuffer, isReading, isClosing, isRequestHandled, pending, closeSeen, socket.View(), log)
    }

    constructor (decodes: Buffer -> bool)
      ensures View() == INITIAL && fresh(socket) && this.decodes == decodes
    {
      socket := new Socket();
      this.decodes := decodes;
      readerBuffer, isReading, isClosing, isRequestHandled := [], false, false, true;
      pending, closeSeen := Nothing, false;
      log := Log([], [], []);
    }

    method OnData(data: Buffer)
      modifies this, socket
      ensures View() == Step(decodes, old(View()), Data(data))
    {
      readerBuffer := readerBuffer + data;
      log := log.(received := log.received + data);
      ReadNextRequest();
    }

    method ReadNextRequest()
      modifies this, socket
      ensures View() == ReadNext(decodes, old(View()))
    {
      if isClosing || isReading {
        return;
      }
      isReading := true;
      isRequestHandled := false;
      pending := Lost;

      var prefix := DecodeVarint(Take(readerBuffer, PREFIX_WINDOW));
      if prefix.Truncated? {
        pending := Nothing;
        isReading := false;
        isRequestHandled := true;
        return;
      }
      var requestLength, varintLength := HalfSigned(prefix.value), prefix.size;
      assert requestLength == 0 ==> Scan(readerBuffer) == EmptyRequest;
      if requestLength == 0 || requestLength > MAX_MESSAGE_SIZE {
        socket.destroyed := true;
        return;
      }
      if requestLength < 0 {
        pending := Unmodelled;
        return;
      }
      if varintLength + requestLength > |readerBuffer| {
        pending := Nothing;
        isReading := false;
        isRequestHandled := true;
        return;
      }
      var messageBytes := readerBuffer[varintLength..varintLength + requestLength];
      if !decodes(messageBytes) {
        socket.destroyed := true;
        return;
      }
      readerBuffer := readerBuffer[varintLength + requestLength..];
      socket.paused := true;
      log := log.(dispatched := log.dispatched + [messageBytes]);
      pending := AwaitingHandler;
    }

    method Write(response: Buffer, outcome: WriteOutcome)
      modifies this`log, socket`output
      ensures View() == AfterWrite(old(View()), response, outcome)
    {
      var responseLengthBuffer := EncodeVarint(DoubleUnsigned(|response|));
      if outcome.PrefixThrew? {
        return;
      }
      socket.output := socket.output + responseLengthBuffer;
      if outcome.BodyThrew? {
        return;
      }
      socket.output := socket.output + response;
      log := log.(answered := log.answered + [response]);
      assert old(socket.output) + responseLengthBuffer + response
          == old(socket.output) + Frame(response);
    }

    /** The handler's promise resolves and the response is written. */
    method OnHandlerResolved(response: Buffer, outcome: WriteOutcome)
      requires pending == AwaitingHandler
      modifies this, socket
      ensures View() == Step(decodes, old(View()), HandlerResolved(response, outcome))
    {
      Write(response, outcome);
      pending := if outcome.Written? then AwaitingWrite else AwaitingDestroy;
    }

    /** The handler fails with an error response, which is written; the socket is
        destroyed when that write was awaited, whether or not it failed. */
    method OnHandlerRejected(response: Buffer, outcome: WriteOutcome)
      requires pending == AwaitingHandler
      modifies this, socket
      ensures View() == Step(decodes, old(View()), HandlerRejected(response, outcome))
    {
      Write(response, outcome);
      pending := AwaitingDestroy;
    }

    /** Any other error of the handler leaves the connection reading forever. */
    method OnHandlerThrew()
      requires pending == AwaitingHandler
      modifies this
      ensures View() == Step(decodes, old(View()), HandlerThrew)
    {
      pending := Lost;
    }

    method OnWriteAwaited()
      requires pending == AwaitingWrite
      modifies this, socket
      ensures View() == Step(decodes, old(View()), WriteAwaited)
    {
      pending := Nothing;
      isReading := false;
      isRequestHandled := true;
      if !isClosing {
        socket.paused := false;
      }
      if |readerBuffer| > 0 {
        ReadNextRequest();
      }
    }

    /** After a failed write, or the write of an error response. */
    method OnLastWriteAwaited()
      requires pending == AwaitingDestroy
      modifies this, socket
      ensures View() == Step(decodes, old(View()), WriteAwaited)
    {
      socket.destroyed := true;
      pending := Lost;
    }

    method Close()
      modifies this, socket
      ensures View() == Step(decodes, old(View()), Event.Close)
    {
      isClosing := true;
      socket.paused := true;
    }

    method OnSocketClosed()
      modifies this
      ensures View() == Step(decodes, old(View()), SocketClosed)
    {
      if isClosing {
        closeSeen := true;
      }
    }

    /** `close` goes on when its race is decided. */
    method OnCloseRaceSettled()
      requires isClosing && (isRequestHandled || closeSeen)
      modifies socket
      ensures View() == Step(decodes, old(View()), EndSocket)
    {
      socket.ended := true;
    }
  }

  // ---------------------------------------------------- what every run keeps

  ghost predicate Inv(decodes: Buffer -> bool, s: State) {
    && Coherent(decodes, s)
    && (!s.isReading && !s.isClosing ==> Scan(s.buffer) == Wait)
  }

  ghost predicate Coherent(decodes: Buffer -> bool, s: State) {
    && Reads(s.log.received, s.log.dispatched, s.buffer)
    && (forall m :: m in s.log.dispatched ==> decodes(m))
    && (s.isRequestHandled <==> !s.isReading)
    && (s.pending == Nothing <==> !s.isReading)
    && (s.socket.destroyed ==> s.pending == Lost)
    && Answers(s)
    && (s.socket.ended ==> s.isClosing && (s.closeSeen || !s.isReading))
  }

  /** One response per dispatched request: all but the one in flight are
      answered, and the output is their frames in that order. */
  ghost predicate Answers(s: State) {
    && Stream(s.log.answered) <= s.socket.output
    && (!s.socket.destroyed && s.pending != AwaitingDestroy ==> s.socket.output == Stream(s.log.answered))
    && |s.log.answered| <= |s.log.dispatched|
    && (s.pending in {Nothing, AwaitingWrite} ==> |s.log.answered| == |s.log.dispatched|)
    && (s.pending == AwaitingHandler ==> |s.log.answered| == |s.log.dispatched| - 1)
  }

  lemma DispatchKeeps(decodes: Buffer -> bool, s: State)
    requires Coherent(decodes, s) && !s.isReading && !s.isClosing
    requires Scan(s.buffer).Message? && decodes(Scan(s.buffer).body)
    ensures Inv(decodes, Dispatched(Began(s), Scan(s.buffer).body, Scan(s.buffer).size))
  {
    ReadsNext(s.log.received, s.log.dispatched, s.buffer);
  }

  lemma ReadNextKeeps(decodes: Buffer -> bool, s: State)
    requires Coherent(decodes, s)
    ensures Inv(decodes, ReadNext(decodes, s))
  {
    if !s.isClosing && !s.isReading {
      match Scan(s.buffer)
      case Message(body, size) => if decodes(body) { DispatchKeeps(decodes, s); }
      case _ =>
    }
  }

  lemma AfterWriteKeeps(s: State, response: Buffer, outcome: WriteOutcome)
    requires Answers(s) && s.pending == AwaitingHandler && !s.socket.destroyed
    ensures Answers(AfterWrite(s, response, outcome).(pending := AwaitingDestroy))
    ensures outcome.Written? ==> Answers(AfterWrite(s, response, outcome).(pending := AwaitingWrite))
  {
    StreamAppend(s.log.answered, response);
  }

  lemma StepKeeps(decodes: Buffer -> bool, s: State, event: Event)
    requires Inv(decodes, s)
    ensures Inv(decodes, Step(decodes, s, event))
  {
    match event
    case Data(chunk) =>
      ReadsAppend(s.log.received, s.log.dispatched, s.buffer, chunk);
      ReadNextKeeps(decodes, Receive(s, chunk));
    case HandlerResolved(response, outcome) =>
      if s.pending == AwaitingHandler { AfterWriteKeeps(s, response, outcome); }
    case HandlerRejected(response, outcome) =>
      if s.pending == AwaitingHandler { AfterWriteKeeps(s, response, outcome); }
    case WriteAwaited =>
      if s.pending == AwaitingWrite {
        ReadNextKeeps(decodes, Resume(s));
      }
    case _ =>
  }

  lemma StepReceives(decodes: Buffer -> bool, s: State, event: Event)
    ensures Step(decodes, s, event).log.received == if event.Data? then s.log.received + event.chunk else s.log.received
  {
    match event
    case Data(chunk) =>
    case HandlerResolved(response, outcome) =>
    case HandlerRejected(response, outcome) =>
    case WriteAwaited =>
    case _ =>
  }

  lemma {:induction false} RunKeeps(decodes: Buffer -> bool, events: seq<Event>)
    ensures Inv(decodes, Run(decodes, INITIAL, events))
    ensures Run(decodes, INITIAL, events).log.received == Received(events)
    decreases |events|
  {
    if events != [] {
      var front, last := events[..|events| - 1], events[|events| - 1];
      RunKeeps(decodes, front);
      var s := Run(decodes, INITIAL, front);
      StepKeeps(decodes, s, last);
      StepReceives(decodes, s, last);
    }
  }

  // ------------------------------------------------------- negative prefixes

  ghost predicate GarbledAhead(s: State) {
    s.pending == Unmodelled ==> Scan(s.buffer) == Garbled
  }

  lemma StepGarbled(decodes: Buffer -> bool, s: State, event: Event)
    requires GarbledAhead(s)
    ensures GarbledAhead(Step(decodes, s, event))
  {
    match event
    case Data(chunk) => if s.pending == Unmodelled { GarbledAppend(s.buffer, chunk); }
    case HandlerResolved(response, outcome) =>
    case HandlerRejected(response, outcome) =>
    case WriteAwaited =>
    case _ =>
  }

  lemma {:induction false} RunGarbled(decodes: Buffer -> bool, events: seq<Event>)
    ensures GarbledAhead(Run(decodes, INITIAL, events))
    decreases |events|
  {
    if events != [] {
      RunGarbled(decodes, events[..|events| - 1]);
      StepGarbled(decodes, Run(decodes, INITIAL, events[..|events| - 1]), events[|events| - 1]);
    }
  }

  /** The model is left only when the bytes received, behind their messages, go on
      with a prefix whose 32-bit value is negative. */
  lemma StaysModelled(decodes: Buffer -> bool, events: seq<Event>)
    requires Scan(Rest(Received(events))) != Garbled
    ensures Run(decodes, INITIAL, events).pending != Unmodelled
  {
    var s := Run(decodes, INITIAL, events);
    RunKeeps(decodes, events);
    RunGarbled(decodes, events);
    ReadsRest(s.log.received, s.log.dispatched, s.buffer);
  }

  // --------------------------------------------------------------- framing

  predicate Open(s: State) {
    !s.isReading && !s.isClosing
  }

  /** The requests dispatched are the first messages of the bytes received, all
      of them whenever the connection is idle and open; the rest is buffered. */
  lemma DispatchFollowsBytes(decodes: Buffer -> bool, events: seq<Event>)
    ensures var s := Run(decodes, INITIAL, events);
      && Reads(Received(events), s.log.dispatched, s.buffer)
      && s.log.dispatched <= Messages(Received(events))
      && (Open(s) ==> s.log.dispatched == Messages(Received(events)))
  {
    var s := Run(decodes, INITIAL, events);
    RunKeeps(decodes, events);
    ReadsIsPrefix(s.log.received, s.log.dispatched, s.buffer);
  }

  /** Chunking independence: two runs that received the same bytes, cut and
      interleaved in any way, dispatched the same requests as far as both got,
      and agree on everything once both are idle. */
  lemma ChunkingIndependence(decodes: Buffer -> bool, events: seq<Event>, others: seq<Event>)
    requires Received(events) == Received(others)
    ensures var s, t := Run(decodes, INITIAL, events), Run(decodes, INITIAL, others);
      && (s.log.dispatched <= t.log.dispatched || t.log.dispatched <= s.log.dispatched)
      && (|s.log.dispatched| == |t.log.dispatched| ==> s.log.dispatched == t.log.dispatched && s.buffer == t.buffer)
      && (Open(s) && Open(t) ==> s.log.dispatched == t.log.dispatched && s.buffer == t.buffer)
  {
    var s, t := Run(decodes, INITIAL, events), Run(decodes, INITIAL, others);
    DispatchFollowsBytes(decodes, events);
    DispatchFollowsBytes(decodes, others);
    if |s.log.dispatched| == |t.log.dispatched| {
      ReadsDetermined(Received(events), s.log.dispatched, s.buffer, t.log.dispatched, t.buffer);
    }
  }

  /** Bytes that are well-formed frames and part of another: the requests are
      the framed messages in order, and once idle exactly those, with the
      partial frame left in the buffer. */
  lemma FramesAreDispatched(decodes: Buffer -> bool, events: seq<Event>,
                            messages: seq<Buffer>, next: Buffer, k: nat)
    requires forall m :: m in messages ==> WellFormed(m)
    requires WellFormed(next) && k < |Frame(next)|
    requires Received(events) == Stream(messages) + Frame(next)[..k]
    ensures var s := Run(decodes, INITIAL, events);
      && s.log.dispatched <= messages
      && (Open(s) ==> s.log.dispatched == messages && s.buffer == Frame(next)[..k])
      && s.pending != Unmodelled
  {
    var s := Run(decodes, INITIAL, events);
    var tail := Frame(next)[..k];
    StreamReads(messages, tail);
    ReadsRest(Received(events), messages, tail);
    PartialFrameWaits(next, k);
    StaysModelled(decodes, events);
    DispatchFollowsBytes(decodes, events);
    ReadsIsPrefix(Received(events), messages, tail);
    assert messages + [] == messages;
    if |s.log.dispatched| == |messages| {
      ReadsDetermined(Received(events), s.log.dispatched, s.buffer, messages, tail);
    }
  }

  /** The peer, reading the output the same way, gets one response for each
      answered request, in the order of the requests. */
  lemma ResponsesFollowRequests(decodes: Buffer -> bool, events: seq<Event>)
    ensures var s := Run(decodes, INITIAL, events);
      && |s.log.answered| <= |s.log.dispatched|
      && ((forall r :: r in s.log.answered ==> WellFormed(r)) ==>
          && s.log.answered <= Messages(s.socket.output)
          && (!s.socket.destroyed && s.pending != AwaitingDestroy ==> Messages(s.socket.output) == s.log.answered))
  {
    var s := Run(decodes, INITIAL, events);
    RunKeeps(decodes, events);
    if forall r :: r in s.log.answered ==> WellFormed(r) {
      var tail := s.socket.output[|Stream(s.log.answered)|..];
      assert s.socket.output == Stream(s.log.answered) + tail;
      StreamReads(s.log.answered, tail);
      ReadsIsPrefix(s.socket.output, s.log.answered, tail);
      assert Messages([]) == [];
    }
  }

  /** The events that answer the request in flight and then each one behind it. */
  function Answering(responses: seq<Buffer>): seq<Event> {
    if responses == [] then []
    else
      Answering(responses[..|responses| - 1])
      + [HandlerResolved(responses[|responses| - 1], Written), WriteAwaited]
  }

  function Answer(decodes: Buffer -> bool, s: State, response: Buffer): State {
    Step(decodes, Step(decodes, s, HandlerResolved(response, Written)), WriteAwaited)
  }

  /** The states a run goes through, one per answer. */
  ghost predicate AnswerTrace(decodes: Buffer -> bool, trace: seq<State>, responses: seq<Buffer>) {
    && |trace| == |responses| + 1
    && forall i {:trigger responses[i]} :: 0 <= i < |responses| ==>
         trace[i + 1] == Answer(decodes, trace[i], responses[i])
  }

  lemma {:induction false} AnsweringTrace(decodes: Buffer -> bool, s: State, responses: seq<Buffer>)
      returns (trace: seq<State>)
    ensures AnswerTrace(decodes, trace, responses)
    ensures trace[0] == s && trace[|responses|] == Run(decodes, s, Answering(responses))
    decreases |responses|
  {
    if responses == [] {
      trace := [s];
    } else {
      var front, last := responses[..|responses| - 1], responses[|responses| - 1];
      var t := AnsweringTrace(decodes, s, front);
      trace := t + [Answer(decodes, t[|front|], last)];
      var events, answer := Answering(front), HandlerResolved(last, Written);
      var all := Answering(responses);
      assert all[..|all| - 1] == events + [answer];
      assert (events + [answer])[..|events|] == events;
      assert forall i :: 0 <= i < |front| ==> responses[i] == front[i];
    }
  }

  ghost predicate Serving(decodes: Buffer -> bool, s: State) {
    && s.pending == AwaitingHandler && !s.isClosing
    && forall m :: m in Messages(s.buffer) ==> decodes(m)
  }

  lemma AnswerServesNext(decodes: Buffer -> bool, s: State, response: Buffer)
    requires Serving(decodes, s)
    ensures var t, behind := Answer(decodes, s, response), Messages(s.buffer);
      && t.log.answered == s.log.answered + [response]
      && !t.isClosing
      && (behind == [] ==>
            t.log.dispatched == s.log.dispatched && t.pending != AwaitingHandler && Messages(t.buffer) == [])
      && (behind != [] ==>
          && Serving(decodes, t)
          && t.log.dispatched == s.log.dispatched + behind[..1]
          && Messages(t.buffer) == behind[1..])
  {
    if Scan(s.buffer).Message? {
      var Message(body, size) := Scan(s.buffer);
      assert Messages(s.buffer) == [body] + Messages(s.buffer[size..]);
      assert decodes(body);
    }
  }

  lemma TakeOneMore(ms: seq<Buffer>, k: nat)
    requires k < |ms|
    ensures ms[..k] + ms[k..][..1] == ms[..k + 1]
    ensures ms[k..][1..] == ms[k + 1..]
  {
  }

  /** `t` is `s` after `k` answers: the messages behind the request in flight
      were dispatched in order, one per answer, and no others. */
  ghost predicate Advanced(decodes: Buffer -> bool, s: State, t: State, k: nat) {
    var behind := Messages(s.buffer);
    if k <= |behind| then
      && Serving(decodes, t)
      && t.log.dispatched == s.log.dispatched + behind[..k]
      && Messages(t.buffer) == behind[k..]
    else
      && t.pending != AwaitingHandler
      && t.log.dispatched == s.log.dispatched + behind
      && Messages(t.buffer) == []
  }

  lemma AnswerAdvances(decodes: Buffer -> bool, s: State, t: State, k: nat, response: Buffer, u: State)
    requires Advanced(decodes, s, t, k) && k <= |Messages(s.buffer)|
    requires u == Answer(decodes, t, response)
    ensures Advanced(decodes, s, u, k + 1)
    ensures u.log.answered == t.log.answered + [response]
  {
    var behind := Messages(s.buffer);
    AnswerServesNext(decodes, t, response);
    if k < |behind| {
      TakeOneMore(behind, k);
      assert s.log.dispatched + behind[..k] + behind[k..][..1] == s.log.dispatched + (behind[..k] + behind[k..][..1]);
    } else {
      assert behind[..k] == behind;
    }
  }

  lemma {:induction false} TraceAdvances(decodes: Buffer -> bool, trace: seq<State>, responses: seq<Buffer>, k: nat)
    requires AnswerTrace(decodes, trace, responses) && k <= |responses|
    requires Serving(decodes, trace[0])
    requires |responses| <= 1 + |Messages(trace[0].buffer)|
    ensures Advanced(decodes, trace[0], trace[k], k)
    ensures trace[k].log.answered == trace[0].log.answered + responses[..k]
  {
    if k == 0 {
      AdvancedStart(decodes, trace[0]);
    } else {
      var t, u, response := trace[k - 1], trace[k], responses[k - 1];
      TraceAdvances(decodes, trace, responses, k - 1);
      AnswerAdvances(decodes, trace[0], t, k - 1, response, u);
      assert responses[..k] == responses[..k - 1] + [response];
    }
  }

  lemma AdvancedStart(decodes: Buffer -> bool, s: State)
    requires Serving(decodes, s)
    ensures Advanced(decodes, s, s, 0)
  {
    assert s.log.dispatched + Messages(s.buffer)[..0] == s.log.dispatched;
  }

  /** Progress: with a request in flight and decodable messages behind it, each
      answer brings up the next message, in order, until the buffer holds none. */
  lemma AnsweringDrains(decodes: Buffer -> bool, s: State, responses: seq<Buffer>)
    requires Serving(decodes, s)
    requires |responses| <= 1 + |Messages(s.buffer)|
    ensures Advanced(decodes, s, Run(decodes, s, Answering(responses)), |responses|)
    ensures Run(decodes, s, Answering(responses)).log.answered == s.log.answered + responses
  {
    var trace := AnsweringTrace(decodes, s, responses);
    TraceAdvances(decodes, trace, responses, |responses|);
    assert responses[..|responses|] == responses;
  }

  // -------------------------------------------------------- graceful close

  /** A destroy path was taken, or the prefix was negative. */
  predicate Doomed(s: State) {
    s.pending in {AwaitingDestroy, Lost, Unmodelled}
  }

  /** Once closing, or once a destroy path was taken, nothing more is dispatched. */
  lemma NoDispatchWhenClosing(decodes: Buffer -> bool, s: State, event: Event)
    requires Inv(decodes, s)
    requires s.isClosing || Doomed(s)
    ensures var t := Step(decodes, s, event);
      && t.log.dispatched == s.log.dispatched
      && (s.isClosing ==> t.isClosing)
      && (Doomed(s) ==> Doomed(t))
      && (s.pending in {Lost, Unmodelled} ==> t.pending == s.pending)
  {
    match event
    case Data(chunk) =>
    case HandlerResolved(response, outcome) =>
    case HandlerRejected(response, outcome) =>
    case WriteAwaited =>
    case _ =>
  }

  lemma {:induction false} NoDispatchAfterClose(decodes: Buffer -> bool, s: State, events: seq<Event>)
    requires Inv(decodes, s)
    requires s.isClosing || Doomed(s)
    ensures var t := Run(decodes, s, events);
      && Inv(decodes, t)
      && t.log.dispatched == s.log.dispatched
      && (s.isClosing ==> t.isClosing)
      && (Doomed(s) ==> Doomed(t))
      && (s.pending in {Lost, Unmodelled} ==> t.pending == s.pending)
    decreases |events|
  {
    if events != [] {
      var front := events[..|events| - 1];
      NoDispatchAfterClose(decodes, s, front);
      var t := Run(decodes, s, front);
      NoDispatchWhenClosing(decodes, t, events[|events| - 1]);
      StepKeeps(decodes, t, events[|events| - 1]);
    }
  }

  /** The socket is ended only on an orderly close: `close` was called, and
      either every dispatched request has its response on the socket, or the
      socket closed by itself. A close that finds the connection lost waits for
      the socket. */
  lemma EndsAfterResponse(decodes: Buffer -> bool, events: seq<Event>)
    ensures var s := Run(decodes, INITIAL, events);
      && (s.isRequestHandled <==> !s.isReading)
      && (s.socket.ended && !s.closeSeen ==>
          && s.isClosing && s.pending == Nothing && |s.log.answered| == |s.log.dispatched|
          && s.socket.output == Stream(s.log.answered))
      && (s.socket.ended ==> s.isClosing)
  {
    RunKeeps(decodes, events);
  }

  /** A close that finds a request in flight completes: one response later the
      connection is released, nothing else was dispatched, and the socket ends
      with all responses written. */
  lemma CloseCompletes(decodes: Buffer -> bool, s: State, response: Buffer)
    requires Inv(decodes, s) && s.pending == AwaitingHandler && s.isClosing
    ensures var t := Step(decodes, Answer(decodes, s, response), EndSocket);
      && t.socket.ended && t.isRequestHandled
      && t.log.dispatched == s.log.dispatched
      && t.log.answered == s.log.answered + [response]
      && t.socket.output == Stream(t.log.answered)
  {
    StreamAppend(s.log.answered, response);
  }
}
