/** When the socket of an ABCI connection is paused, destroyed and ended, over
    whole runs. */
module ConnectionFlow {
  import opened Buffers
  import opened Framing
  import opened AbciConnection

  // ------------------------------------------------------------------- paused

  predicate InFlight(s: State) {
    s.pending in {AwaitingHandler, AwaitingWrite, AwaitingDestroy}
  }

  /** An idle connection that is not closing takes data; one that is closing, or
      has a request in flight, does not. */
  ghost predicate Flows(s: State) {
    && (s.pending == Nothing <==> !s.isReading)
    && (!s.isReading && !s.isClosing ==> !s.socket.paused)
    && (s.isClosing || InFlight(s) ==> s.socket.paused)
  }

  lemma ReadNextFlows(decodes: Buffer -> bool, s: State)
    requires Flows(s)
    ensures Flows(ReadNext(decodes, s))
  {
  }

  lemma StepFlows(decodes: Buffer -> bool, s: State, event: Event)
    requires Flows(s)
    ensures Flows(Step(decodes, s, event))
  {
    match event
    case Data(chunk) => ReadNextFlows(decodes, Receive(s, chunk));
    case WriteAwaited => if s.pending == AwaitingWrite { ReadNextFlows(decodes, Resume(s)); }
    case _ =>
  }

  /** Back pressure over any run: no data is taken while a request is in flight or
      the connection closes, and data is taken again once it is idle and open. */
  lemma {:induction false} BackPressure(decodes: Buffer -> bool, events: seq<Event>)
    ensures var s := Run(decodes, INITIAL, events);
      && Flows(s)
      && (!s.isReading && !s.isClosing ==> !s.socket.paused)
      && (s.isClosing || InFlight(s) ==> s.socket.paused)
    decreases |events|
  {
    if events != [] {
      BackPressure(decodes, events[..|events| - 1]);
      StepFlows(decodes, Run(decodes, INITIAL, events[..|events| - 1]), events[|events| - 1]);
    }
  }

  // ---------------------------------------------------------------- destroyed

  /** What stands at the head of the buffer makes the connection give up: an empty
      or oversized request, or a message that is no request. */
  predicate BadHead(decodes: Buffer -> bool, buf: Buffer) {
    match Scan(buf)
    case EmptyRequest => true
    case TooLarge => true
    case Message(body, _) => !decodes(body)
    case _ => false
  }

  /** The handler or the socket let the connection down. */
  predicate IsFailure(event: Event) {
    match event
    case HandlerThrew => true
    case HandlerRejected(_, _) => true
    case HandlerResolved(_, outcome) => outcome != Written
    case _ => false
  }

  lemma BadHeadStays(decodes: Buffer -> bool, buf: Buffer, more: Buffer)
    requires BadHead(decodes, buf)
    ensures BadHead(decodes, buf + more)
  {
    var head, longer := Take(buf, PREFIX_WINDOW), Take(buf + more, PREFIX_WINDOW);
    assert longer == head + longer[|head|..];
    DecodeVarintAppend(head, longer[|head|..]);
    if Scan(buf).Message? { ScanAppend(buf, more); }
  }

  /** Destroyed for the head of the buffer only. */
  ghost predicate DestroyedForHead(decodes: Buffer -> bool, s: State) {
    && (s.pending == Nothing <==> !s.isReading)
    && (s.socket.destroyed <==> s.pending == Lost)
    && s.pending != AwaitingDestroy
    && (s.pending == Lost ==> BadHead(decodes, s.buffer))
  }

  /** And always for it. */
  ghost predicate GivesUp(decodes: Buffer -> bool, s: State) {
    DestroyedForHead(decodes, s) && (!s.isReading && !s.isClosing ==> !BadHead(decodes, s.buffer))
  }

  lemma ReadNextGivesUp(decodes: Buffer -> bool, s: State)
    requires DestroyedForHead(decodes, s)
    ensures GivesUp(decodes, ReadNext(decodes, s))
  {
  }

  lemma StepGivesUp(decodes: Buffer -> bool, s: State, event: Event)
    requires GivesUp(decodes, s) && !IsFailure(event)
    ensures GivesUp(decodes, Step(decodes, s, event))
  {
    match event
    case Data(chunk) =>
      if s.pending == Lost { BadHeadStays(decodes, s.buffer, chunk); }
      ReadNextGivesUp(decodes, Receive(s, chunk));
    case WriteAwaited => if s.pending == AwaitingWrite { ReadNextGivesUp(decodes, Resume(s)); }
    case _ =>
  }

  /** Over any run in which handler and socket do not fail, the connection is
      destroyed if and only if it came, idle and open, upon a bad head, which is
      then still at the head of its buffer. */
  lemma {:induction false} BadRequestsDestroy(decodes: Buffer -> bool, events: seq<Event>)
    requires forall i :: 0 <= i < |events| ==> !IsFailure(events[i])
    ensures var s := Run(decodes, INITIAL, events);
      && GivesUp(decodes, s)
      && (s.socket.destroyed ==> BadHead(decodes, s.buffer))
      && (!s.isClosing && !InFlight(s) && s.pending != Unmodelled ==>
            (s.socket.destroyed <==> BadHead(decodes, s.buffer)))
    decreases |events|
  {
    if events != [] {
      BadRequestsDestroy(decodes, events[..|events| - 1]);
      StepGivesUp(decodes, Run(decodes, INITIAL, events[..|events| - 1]), events[|events| - 1]);
    }
  }

  /** The bytes on the socket when the write of a response was awaited. */
  function WrittenFor(response: Buffer, outcome: WriteOutcome): Buffer {
    match outcome
    case Written => Frame(response)
    case PrefixThrew => []
    case BodyThrew => Frame(response)[..|Frame(response)| - |response|]
  }

  /** The response that a write makes of itself. */
  lemma WritesFor(s: State, response: Buffer, outcome: WriteOutcome)
    ensures var t := AfterWrite(s, response, outcome);
      && t.socket == s.socket.(output := s.socket.output + WrittenFor(response, outcome))
      && t.log == s.log.(answered := s.log.answered + (if outcome == Written then [response] else []))
      && t.buffer == s.buffer && t.isClosing == s.isClosing
  {
    assert Frame(response)[..|Frame(response)| - |response|] == EncodeVarint(DoubleUnsigned(|response|));
  }

  /** After the write of a response the connection goes on. */
  lemma GoesOn(decodes: Buffer -> bool, s: State)
    requires s.pending == AwaitingWrite && !s.socket.destroyed
    ensures var t := Step(decodes, s, WriteAwaited);
      && t.socket.output == s.socket.output && t.log.answered == s.log.answered
      && (t.socket.destroyed <==> t.pending == Lost)
      && (s.isClosing ==> t.pending == Nothing)
      && (!s.isClosing ==> (t.pending == Lost <==> BadHead(decodes, s.buffer)))
  {
    assert Scan([]) == Wait;
  }

  /** What becomes of the request in flight: a response written as a whole
      releases the connection, which goes on with what is buffered; an error
      response, or a write that fails, destroys the socket; any other error stops
      the connection where it is. */
  lemma InFlightEnds(decodes: Buffer -> bool, s: State, response: Buffer, outcome: WriteOutcome, rejected: bool)
    requires s.pending == AwaitingHandler && !s.socket.destroyed
    ensures var event := if rejected then HandlerRejected(response, outcome) else HandlerResolved(response, outcome);
      var written := Step(decodes, s, event);
      var t := Step(decodes, written, WriteAwaited);
      && !written.socket.destroyed
      && t.socket.output == s.socket.output + WrittenFor(response, outcome)
      && t.log.answered == s.log.answered + (if outcome == Written then [response] else [])
      && (t.socket.destroyed <==> t.pending == Lost)
      && (t.socket.destroyed <==> rejected || outcome != Written || (!s.isClosing && BadHead(decodes, s.buffer)))
    ensures Step(decodes, s, HandlerThrew) == s.(pending := Lost)
  {
    WritesFor(s, response, outcome);
    if !rejected && outcome == Written {
      GoesOn(decodes, Step(decodes, s, HandlerResolved(response, outcome)));
    }
  }

  // ---------------------------------------------------------- closed and ended

  /** `close` was called before one of the times the socket closed. */
  ghost predicate ClosedWhileClosing(events: seq<Event>) {
    exists i, j :: 0 <= i < j < |events| && events[i].Close? && events[j].SocketClosed?
  }

  /** The race of `close` is decided: the connection is idle, or the socket closed. */
  predicate RaceDecided(s: State) {
    s.pending == Nothing || s.closeSeen
  }

  /** At one of its turns `close` went on to end the socket. */
  ghost predicate EndedAt(decodes: Buffer -> bool, events: seq<Event>, n: nat)
    requires n < |events|
  {
    var s := Run(decodes, INITIAL, events[..n]);
    events[n].EndSocket? && s.isClosing && RaceDecided(s)
  }

  lemma ReadNextCloses(decodes: Buffer -> bool, s: State)
    ensures var t := ReadNext(decodes, s);
      t.isClosing == s.isClosing && t.closeSeen == s.closeSeen && t.socket.ended == s.socket.ended
  {
  }

  lemma StepCloses(decodes: Buffer -> bool, s: State, event: Event)
    ensures var t := Step(decodes, s, event);
      && (t.isClosing <==> s.isClosing || event.Close?)
      && (t.closeSeen <==> s.closeSeen || (s.isClosing && event.SocketClosed?))
      && (t.socket.ended <==>
            s.socket.ended || (event.EndSocket? && s.isClosing && (s.isRequestHandled || s.closeSeen)))
  {
    match event
    case Data(chunk) => ReadNextCloses(decodes, Receive(s, chunk));
    case HandlerResolved(response, outcome) => WriteCloses(s, response, outcome);
    case HandlerRejected(response, outcome) => WriteCloses(s, response, outcome);
    case WriteAwaited => ReadNextCloses(decodes, Resume(s));
    case _ =>
  }

  lemma WriteCloses(s: State, response: Buffer, outcome: WriteOutcome)
    ensures var t := AfterWrite(s, response, outcome);
      t.isClosing == s.isClosing && t.closeSeen == s.closeSeen && t.socket.ended == s.socket.ended
  {
  }

  /** `close` was called. */
  ghost predicate Closing(events: seq<Event>) {
    exists i :: 0 <= i < |events| && events[i].Close?
  }

  lemma ClosingGrows(events: seq<Event>)
    requires events != []
    ensures var front, last := events[..|events| - 1], events[|events| - 1];
      && (Closing(events) <==> Closing(front) || last.Close?)
      && (ClosedWhileClosing(events) <==> ClosedWhileClosing(front) || (Closing(front) && last.SocketClosed?))
  {
    var front := events[..|events| - 1];
    assert forall i :: 0 <= i < |front| ==> front[i] == events[i];
    if i :| 0 <= i < |front| && front[i].Close? {
      assert events[i].Close?;
    }
    if i, j :| 0 <= i < j < |front| && front[i].Close? && front[j].SocketClosed? {
      assert events[i].Close? && events[j].SocketClosed?;
    }
  }

  ghost predicate Ended(decodes: Buffer -> bool, events: seq<Event>) {
    exists n :: 0 <= n < |events| && EndedAt(decodes, events, n)
  }

  lemma EndedGrows(decodes: Buffer -> bool, events: seq<Event>)
    requires events != []
    ensures var front := events[..|events| - 1];
      Ended(decodes, events) <==> Ended(decodes, front) || EndedAt(decodes, events, |front|)
  {
    var front := events[..|events| - 1];
    forall n | 0 <= n < |front| ensures EndedAt(decodes, events, n) <==> EndedAt(decodes, front, n) {
      assert events[..n] == front[..n];
    }
    if n :| 0 <= n < |front| && EndedAt(decodes, front, n) {
      assert EndedAt(decodes, events, n);
    }
  }

  /** Closing over any run: the connection is closing once `close` was called, has
      seen the socket close if that happened later, and ended the socket exactly
      if `close` had a turn when it was idle or the socket had closed. */
  lemma {:induction false} ClosingIff(decodes: Buffer -> bool, events: seq<Event>)
    ensures var s := Run(decodes, INITIAL, events);
      && (s.isClosing <==> Closing(events))
      && (s.closeSeen <==> ClosedWhileClosing(events))
      && (s.socket.ended <==> Ended(decodes, events))
    decreases |events|
  {
    if events != [] {
      var front, last := events[..|events| - 1], events[|events| - 1];
      ClosingIff(decodes, front);
      StepCloses(decodes, Run(decodes, INITIAL, front), last);
      HandledWhenIdle(decodes, front);
      ClosingGrows(events);
      EndedGrows(decodes, events);
    }
  }

  lemma HandledWhenIdle(decodes: Buffer -> bool, events: seq<Event>)
    ensures var s := Run(decodes, INITIAL, events); s.isRequestHandled <==> s.pending == Nothing
  {
    RunKeeps(decodes, events);
  }
}
