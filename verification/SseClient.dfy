/** The read loop of createMessageStream (apps/web/src/api.ts), over text that arrives in arbitrary chunks. */
module SseClient {
  import opened Results
  import opened Sse
  import opened SseParser

  /**
   * What JSON.parse yields, left arbitrary: a delta's text ("" if malformed or
   * empty), and for a message nothing if malformed, else what it is, which a
   * payload such as `null` leaves without a message.
   */
  datatype JsonReader = JsonReader(deltaText: string -> string, finalMessage: string -> Option<Option<string>>)

  /** What the caller of createMessageStream observes. */
  datatype ClientState = ClientState(deltas: seq<string>, finalMessage: Option<string>, thrown: bool)

  /** One decoded event; nothing happens after an error event, which throws. */
  function Handle(json: JsonReader, c: ClientState, e: ParsedEvent): ClientState {
    if c.thrown then c
    else if e.event == "delta" then
      var text := json.deltaText(e.data);
      if text != "" then c.(deltas := c.deltas + [text]) else c
    else if e.event == "message" then
      match json.finalMessage(e.data)
      case Some(m) => c.(finalMessage := m)
      case None => c
    else if e.event == "error" then c.(thrown := true)
    else c
  }

  function HandleAll(json: JsonReader, events: seq<ParsedEvent>): ClientState {
    if events == [] then ClientState([], None, false)
    else Handle(json, HandleAll(json, events[..|events| - 1]), events[|events| - 1])
  }

  function Concat(chunks: seq<string>): string {
    if chunks == [] then "" else Concat(chunks[..|chunks| - 1]) + chunks[|chunks| - 1]
  }

  datatype StreamOutcome = StreamError | NoFinalMessage | Final(message: string)

  function OutcomeOf(c: ClientState): StreamOutcome {
    if c.thrown then StreamError
    else match c.finalMessage
      case Some(m) => Final(m)
      case None => NoFinalMessage
  }

  // ---- What the caller observes, of the events alone -------------------------------------------

  /** The texts of the deltas, in order, without empty or malformed ones. */
  function DeltaTexts(json: JsonReader, events: seq<ParsedEvent>): seq<string> {
    if events == [] then []
    else
      var e := events[|events| - 1];
      DeltaTexts(json, events[..|events| - 1])
      + if e.event == "delta" && json.deltaText(e.data) != "" then [json.deltaText(e.data)] else []
  }

  predicate IsError(e: ParsedEvent) {
    e.event == "error"
  }

  /** The first error is at k, or there is none and k is the end. */
  predicate FirstError(events: seq<ParsedEvent>, k: nat) {
    && k <= |events|
    && (forall i :: 0 <= i < k ==> !IsError(events[i]))
    && (k < |events| ==> IsError(events[k]))
  }

  predicate IsMessage(json: JsonReader, e: ParsedEvent) {
    e.event == "message" && json.finalMessage(e.data).Some?
  }

  /** Among the first k events, the last message whose payload parses is at i. */
  predicate LastMessage(json: JsonReader, events: seq<ParsedEvent>, k: nat, i: nat)
    requires k <= |events|
  {
    i < k && IsMessage(json, events[i]) && forall j :: i < j < k ==> !IsMessage(json, events[j])
  }

  /** The deltas and the final message of the first k events. */
  ghost predicate Gathered(json: JsonReader, events: seq<ParsedEvent>, k: nat, c: ClientState)
    requires k <= |events|
  {
    && c.deltas == DeltaTexts(json, events[..k])
    && (forall i: nat :: LastMessage(json, events, k, i) ==> Some(c.finalMessage) == json.finalMessage(events[i].data))
    && ((forall i: nat :: !LastMessage(json, events, k, i)) ==> c.finalMessage == None)
  }

  /** What is gathered before the first error; the error throws. */
  ghost predicate Observed(json: JsonReader, events: seq<ParsedEvent>, c: ClientState) {
    forall k: nat :: FirstError(events, k) ==> (c.thrown <==> k < |events|) && Gathered(json, events, k, c)
  }

  lemma OneFirstError(events: seq<ParsedEvent>, j: nat, k: nat)
    requires FirstError(events, j) && FirstError(events, k)
    ensures j == k
  {}

  lemma LastMessageOfMore(json: JsonReader, events: seq<ParsedEvent>, e: ParsedEvent, i: nat)
    ensures LastMessage(json, events + [e], |events| + 1, i)
         == if IsMessage(json, e) then i == |events| else LastMessage(json, events, |events|, i)
  {
    hide IsMessage;
    var more := events + [e];
    assert more[|events|] == e;
    assert forall j :: 0 <= j < |events| ==> more[j] == events[j];
    if LastMessage(json, more, |more|, i) && i < |events| {
      assert !IsMessage(json, more[|events|]);
    }
  }

  lemma GatherMore(json: JsonReader, events: seq<ParsedEvent>, e: ParsedEvent, c: ClientState)
    requires Gathered(json, events, |events|, c) && !c.thrown && !IsError(e)
    ensures Gathered(json, events + [e], |events| + 1, Handle(json, c, e)) && !Handle(json, c, e).thrown
  {
    var more := events + [e];
    assert more[..|events| + 1] == more && more[..|events|] == events && events[..|events|] == events;
    hide LastMessage;
    forall i: nat
      ensures LastMessage(json, more, |more|, i)
           == if IsMessage(json, e) then i == |events| else LastMessage(json, events, |events|, i)
    {
      LastMessageOfMore(json, events, e, i);
    }
  }

  lemma GatherLess(json: JsonReader, events: seq<ParsedEvent>, e: ParsedEvent, k: nat, c: ClientState)
    requires k <= |events| && Gathered(json, events, k, c)
    ensures Gathered(json, events + [e], k, c)
  {
    hide IsMessage, DeltaTexts;
    var more := events + [e];
    assert more[..k] == events[..k];
    assert forall j :: 0 <= j < |events| ==> more[j] == events[j];
    forall i: nat
      ensures LastMessage(json, more, k, i) <==> LastMessage(json, events, k, i)
    {
    }
  }

  /** Where the first error stands, and that the state is what was gathered before it. */
  lemma {:induction false} HandlingGathers(json: JsonReader, events: seq<ParsedEvent>) returns (k: nat)
    ensures FirstError(events, k)
    ensures HandleAll(json, events).thrown <==> k < |events|
    ensures Gathered(json, events, k, HandleAll(json, events))
  {
    if events == [] {
      k := 0;
    } else {
      var init, e := events[..|events| - 1], events[|events| - 1];
      var c := HandleAll(json, init);
      k := HandlingGathers(json, init);
      assert events == init + [e];
      hide Gathered, DeltaTexts;
      if k < |init| || IsError(e) {
        GatherLess(json, init, e, k, c);
      } else {
        GatherMore(json, init, e, c);
        k := k + 1;
      }
    }
  }

  lemma HandlingIsObserved(json: JsonReader, events: seq<ParsedEvent>)
    ensures Observed(json, events, HandleAll(json, events))
  {
    var n := HandlingGathers(json, events);
    hide Gathered, FirstError, HandleAll;
    forall k: nat | FirstError(events, k)
      ensures k == n
    {
      OneFirstError(events, k, n);
    }
  }

  predicate HasError(events: seq<ParsedEvent>) {
    exists i :: 0 <= i < |events| && IsError(events[i])
  }

  /**
   * An error event fails the stream; without one it ends in the message of the
   * last message event that parses, or in none.
   */
  ghost predicate Ends(json: JsonReader, events: seq<ParsedEvent>, outcome: StreamOutcome) {
    && (outcome == StreamError <==> HasError(events))
    && (forall m :: outcome == Final(m) <==>
          !HasError(events)
          && exists i: nat :: LastMessage(json, events, |events|, i) && json.finalMessage(events[i].data) == Some(Some(m)))
  }

  lemma ObservedEnds(json: JsonReader, events: seq<ParsedEvent>, c: ClientState)
    requires Observed(json, events, c)
    ensures Ends(json, events, OutcomeOf(c))
  {
    hide DeltaTexts, IsMessage, LastMessage;
    var k := FindError(events);
    assert Gathered(json, events, k, c);
    if exists i: nat :: LastMessage(json, events, k, i) {
      var i: nat :| LastMessage(json, events, k, i);
      OneLastMessage(json, events, k, i);
    }
  }

  lemma OneLastMessage(json: JsonReader, events: seq<ParsedEvent>, k: nat, i: nat)
    requires k <= |events| && LastMessage(json, events, k, i)
    ensures forall j: nat :: LastMessage(json, events, k, j) ==> j == i
  {
    hide IsMessage;
  }

  lemma {:induction false} FindError(events: seq<ParsedEvent>) returns (k: nat)
    ensures FirstError(events, k) && (HasError(events) <==> k < |events|)
  {
    if events == [] {
      k := 0;
    } else {
      var init, last := events[..|events| - 1], |events| - 1;
      k := FindError(init);
      if k == last && !IsError(events[last]) {
        k := k + 1;
      }
    }
  }

  // ---- The loop and its specification ---------------------------------------------------------------

  lemma {:induction false} ThrownSticks(json: JsonReader, events: seq<ParsedEvent>, later: seq<ParsedEvent>)
    requires HandleAll(json, events).thrown
    ensures HandleAll(json, events + later) == HandleAll(json, events)
  {
    if later == [] {
      assert events + later == events;
    } else {
      ThrownSticks(json, events, later[..|later| - 1]);
      assert (events + later)[..|events + later| - 1] == events + later[..|later| - 1];
    }
  }

  /** The state between two frames: what is handled, what the buffer still holds, what is still to come. */
  ghost predicate Decoding(json: JsonReader, text: string, handled: seq<ParsedEvent>, buffer: string, c: ClientState) {
    && Drain(text) == Drained(handled + Drain(buffer).events, Drain(buffer).rest)
    && HandleAll(json, handled) == c
  }

  /** One turn of the inner loop of createMessageStream. */
  lemma FrameHandled(json: JsonReader, text: string, handled: seq<ParsedEvent>, buffer: string, c: ClientState)
    requires Decoding(json, text, handled, buffer, c) && IndexOfBlank(buffer) != -1
    ensures var i := IndexOfBlank(buffer);
            var parsed := Parse(buffer[..i]);
            Decoding(json, text, handled + AsSeq(parsed), buffer[i + 2..],
                     if parsed.Some? then Handle(json, c, parsed.value) else c)
  {
    hide Parse, Handle, IndexOfBlank, HandleAll, Drain, AsSeq;
    var i := IndexOfBlank(buffer);
    BlankFits(buffer);
    var parsed := Parse(buffer[..i]);
    var first, tail := AsSeq(parsed), buffer[i + 2..];
    DrainFirst(buffer, i, first, tail);
    Reassociate(handled, first, Drain(tail).events);
    HandleMore(json, handled, parsed);
  }

  lemma Reassociate(a: seq<ParsedEvent>, b: seq<ParsedEvent>, c: seq<ParsedEvent>)
    ensures a + (b + c) == (a + b) + c
  {}

  lemma HandleMore(json: JsonReader, handled: seq<ParsedEvent>, next: Option<ParsedEvent>)
    ensures HandleAll(json, handled + AsSeq(next))
         == if next.Some? then Handle(json, HandleAll(json, handled), next.value) else HandleAll(json, handled)
  {
    hide Handle;
    if next.Some? {
      assert (handled + [next.value])[..|handled|] == handled;
    } else {
      assert handled + [] == handled;
    }
  }

  lemma ChunkArrives(json: JsonReader, text: string, handled: seq<ParsedEvent>, buffer: string, c: ClientState,
                     chunk: string)
    requires Decoding(json, text, handled, buffer, c) && IndexOfBlank(buffer) == -1
    ensures Decoding(json, text + chunk, handled, buffer + chunk, c)
  {
    assert Drain(buffer) == Drained([], buffer);
    assert handled + [] == handled;
    DrainInPieces(text, chunk);
  }

  /**
   * createMessageStream: however the text is cut into chunks, the caller
   * observes exactly what decoding the whole text at once would give, the deltas
   * and the last message before the first error, and the stream ends accordingly.
   */
  method CreateMessageStream(json: JsonReader, chunks: seq<string>) returns (outcome: StreamOutcome, c: ClientState)
    ensures c == HandleAll(json, Drain(Concat(chunks)).events)
    ensures Observed(json, Drain(Concat(chunks)).events, c)
    ensures outcome == OutcomeOf(c) && Ends(json, Drain(Concat(chunks)).events, outcome)
  {
    hide Observed, Ends;
    ghost var events := Drain(Concat(chunks)).events;
    HandlingIsObserved(json, events);
    ObservedEnds(json, events, HandleAll(json, events));
    var buffer := "";
    c := ClientState([], None, false);
    ghost var handled: seq<ParsedEvent> := [];
    assert Decoding(json, "", handled, buffer, c);
    for k := 0 to |chunks|
      invariant Decoding(json, Concat(chunks[..k]), handled, buffer, c)
      invariant IndexOfBlank(buffer) == -1 && !c.thrown
    {
      assert chunks[..k + 1][..k] == chunks[..k];
      ChunkArrives(json, Concat(chunks[..k]), handled, buffer, c, chunks[k]);
      buffer := buffer + chunks[k];
      var separatorIndex := IndexOfBlank(buffer);
      while separatorIndex != -1
        invariant separatorIndex == IndexOfBlank(buffer)
        invariant Decoding(json, Concat(chunks[..k + 1]), handled, buffer, c) && !c.thrown
        decreases |buffer|
      {
        FrameHandled(json, Concat(chunks[..k + 1]), handled, buffer, c);
        var parsedEvent := ParseSSEEvent(buffer[..separatorIndex]);
        buffer := buffer[separatorIndex + 2..];
        handled := handled + AsSeq(parsedEvent);
        if parsedEvent.Some? {
          c := Handle(json, c, parsedEvent.value);
          if c.thrown {
            NothingAfterError(json, chunks, k + 1, handled, buffer, c);
            return StreamError, c;
          }
        }
        separatorIndex := IndexOfBlank(buffer);
      }
    }
    assert chunks[..|chunks|] == chunks;
    assert handled + [] == handled;
    return OutcomeOf(c), c;
  }

  lemma {:induction false} ConcatPrefix(chunks: seq<string>, k: nat)
    requires k <= |chunks|
    ensures exists later :: Concat(chunks) == Concat(chunks[..k]) + later
  {
    if k == |chunks| {
      assert chunks[..k] == chunks;
      assert Concat(chunks) == Concat(chunks[..k]) + "";
    } else {
      var init := chunks[..|chunks| - 1];
      ConcatPrefix(init, k);
      assert init[..k] == chunks[..k];
      var later :| Concat(init) == Concat(init[..k]) + later;
      var last := chunks[|chunks| - 1];
      assert Concat(chunks) == Concat(chunks[..k]) + (later + last);
    }
  }

  lemma NothingAfterError(json: JsonReader, chunks: seq<string>, k: nat, handled: seq<ParsedEvent>, buffer: string,
                          c: ClientState)
    requires k <= |chunks| && Decoding(json, Concat(chunks[..k]), handled, buffer, c) && c.thrown
    ensures HandleAll(json, Drain(Concat(chunks)).events) == c
  {
    hide Drain, HandleAll, Concat;
    ConcatPrefix(chunks, k);
    var text := Concat(chunks[..k]);
    var later :| Concat(chunks) == text + later;
    DrainInPieces(text, later);
    var more := Drain(Drain(text).rest + later).events;
    var rest := Drain(buffer).events;
    assert (handled + rest) + more == handled + (rest + more);
    ThrownSticks(json, handled, rest + more);
  }

  /**
   * Whatever the chunking, a client reading the server's frames handles exactly
   * the events sent, and observes their deltas and last message up to an error.
   */
  lemma StreamRoundTrip(json: JsonReader, frames: seq<Frame>, chunks: seq<string>)
    requires forall f :: f in frames ==> Sendable(f)
    requires Concat(chunks) == EncodeAll(frames)
    ensures HandleAll(json, Drain(Concat(chunks)).events) == HandleAll(json, EventsOf(frames))
    ensures Drain(Concat(chunks)).rest == ""
    ensures var c := HandleAll(json, Drain(Concat(chunks)).events);
            Observed(json, EventsOf(frames), c) && Ends(json, EventsOf(frames), OutcomeOf(c))
  {
    HandlingIsObserved(json, EventsOf(frames));
    ObservedEnds(json, EventsOf(frames), HandleAll(json, EventsOf(frames)));
    hide Observed, Ends, HandleAll;
    DecodeEncode(frames);
  }
}
