/**
 * Server-Sent Events as this system writes and reads them: the server's frames
 * (apps/api/routers/messages.py) and the buffer of the client's decoder
 * (apps/web/src/api.ts).
 */
module Sse {
  import opened Results
  import opened SseParser

  datatype Frame = EventFrame(name: string, payload: string) | CommentFrame(text: string)

  // ---- The server's side ---------------------------------------------------------------

  /** The text of a frame, without the blank line that ends it. */
  function Body(f: Frame): string {
    match f
    case EventFrame(name, payload) => ("event: " + name) + "\n" + ("data: " + payload)
    case CommentFrame(text) => ": " + text
  }

  /** `_sse_event`, and the comment frames written next to it. */
  function Encode(f: Frame): string {
    Body(f) + "\n\n"
  }

  function EncodeAll(frames: seq<Frame>): string {
    if frames == [] then "" else Encode(frames[0]) + EncodeAll(frames[1..])
  }

  /** What the server sends: a name without blanks, JSON object text on one line, a one-line comment. */
  predicate Sendable(f: Frame) {
    match f
    case EventFrame(name, payload) => name != "" && NoSpace(name) && OneLine(payload) && JsonObjectText(payload)
    case CommentFrame(text) => OneLine(text)
  }

  /** The events among the frames, in order. */
  function EventsOf(frames: seq<Frame>): seq<ParsedEvent> {
    if frames == [] then [] else EventIn(frames[0]) + EventsOf(frames[1..])
  }

  function EventIn(f: Frame): seq<ParsedEvent> {
    if f.EventFrame? then [ParsedEvent(f.name, f.payload)] else []
  }

  // ---- Cutting a buffer into frames ------------------------------------------------------------

  predicate BlankAt(s: string, i: int) {
    0 <= i < |s| - 1 && s[i] == '\n' && s[i + 1] == '\n'
  }

  /** buffer.indexOf("\n\n") */
  function IndexOfBlank(s: string): (r: int)
    ensures r == -1 || BlankAt(s, r)
    ensures forall i :: BlankAt(s, i) ==> 0 <= r <= i
  {
    if |s| < 2 then -1
    else if BlankAt(s, 0) then 0
    else
      var r := IndexOfBlank(s[1..]);
      assert forall i :: BlankAt(s, i) ==> i > 0 && BlankAt(s[1..], i - 1);
      if r == -1 then -1 else r + 1
  }

  /** The events of all complete frames in a buffer, and the text that is left. */
  datatype Drained = Drained(events: seq<ParsedEvent>, rest: string)

  function AsSeq(e: Option<ParsedEvent>): seq<ParsedEvent> {
    if e.Some? then [e.value] else []
  }

  /** Decoding a whole text at once. */
  function Drain(buffer: string): Drained
    decreases |buffer|
  {
    var i := IndexOfBlank(buffer);
    if i == -1 then Drained([], buffer)
    else
      var later := Drain(buffer[i + 2..]);
      Drained(AsSeq(Parse(buffer[..i])) + later.events, later.rest)
  }

  /** The first blank line of a buffer is still the first when more text arrives. */
  lemma FirstBlankStays(a: string, b: string)
    requires IndexOfBlank(a) != -1
    ensures IndexOfBlank(a + b) == IndexOfBlank(a)
  {
    var i := IndexOfBlank(a);
    assert BlankAt(a + b, i);
    var k := IndexOfBlank(a + b);
    assert k < i ==> BlankAt(a, k);
  }

  lemma DrainFirst(s: string, i: nat, first: seq<ParsedEvent>, tail: string)
    requires IndexOfBlank(s) == i && first == AsSeq(Parse(s[..i])) && tail == s[i + 2..]
    ensures Drain(s) == Drained(first + Drain(tail).events, Drain(tail).rest)
  {}

  lemma DrainNone(s: string)
    requires IndexOfBlank(s) == -1
    ensures Drain(s) == Drained([], s)
  {}

  /** Decoding what has arrived, keeping the rest, and decoding again loses nothing. */
  lemma {:induction false} DrainInPieces(a: string, b: string)
    ensures var d := Drain(a);
            var more := Drain(d.rest + b);
            Drain(a + b) == Drained(d.events + more.events, more.rest)
    decreases |a|
  {
    hide *;
    var i := IndexOfBlank(a);
    if i == -1 {
      DrainNone(a);
      assert [] + Drain(a + b).events == Drain(a + b).events;
    } else {
      FirstBlankStays(a, b);
      BlankFits(a);
      var tail, first := a[i + 2..], AsSeq(Parse(a[..i]));
      assert (a + b)[i + 2..] == tail + b && (a + b)[..i] == a[..i];
      DrainFirst(a, i, first, tail);
      DrainFirst(a + b, i, first, tail + b);
      DrainInPieces(tail, b);
      var d := Drain(tail);
      assert first + (d.events + Drain(d.rest + b).events) == (first + d.events) + Drain(d.rest + b).events;
    }
  }

  lemma BlankFits(s: string)
    requires IndexOfBlank(s) != -1
    ensures 0 <= IndexOfBlank(s) < |s| - 1
  {}

  // ---- Round trip ------------------------------------------------------------------------------

  lemma SplitEventLines(name: string, payload: string)
    requires OneLine(name) && OneLine(payload)
    ensures SplitLines(Body(EventFrame(name, payload))) == ["event: " + name, "data: " + payload]
  {
    var a, b := "event: " + name, "data: " + payload;
    assert OneLine(a) && OneLine(b);
    hide OneLine, SplitLines;
    SplitFirstLine(a, b);
    SplitOneLine(b);
    assert [a] + [b] == [a, b];
  }

  /** An event frame's body parses to its event. */
  lemma ParseEvent(name: string, payload: string)
    requires Sendable(EventFrame(name, payload))
    ensures Parse(Body(EventFrame(name, payload))) == Some(ParsedEvent(name, payload))
  {
    SpaceFreeIsOneLine(name);
    SplitEventLines(name, payload);
    ReadEventLines(name, payload);
    hide ReadLines, SplitLines, Body;
    assert Join([payload]) == payload;
  }

  /** A comment frame's body parses to nothing. */
  lemma ParseComment(text: string)
    requires OneLine(text)
    ensures Parse(Body(CommentFrame(text))) == None
  {
    var line := ": " + text;
    assert OneLine(line);
    hide OneLine, ReadLine, ReadLines, SplitLines, Text.TrimEnd;
    SplitOneLine(line);
    ReadOneLine(line);
    CommentLine(text);
  }

  lemma ParseBody(f: Frame)
    requires Sendable(f)
    ensures AsSeq(Parse(Body(f))) == EventIn(f)
  {
    hide Parse, Body;
    match f
    case EventFrame(name, payload) => ParseEvent(name, payload);
    case CommentFrame(text) => ParseComment(text);
  }

  /** The blank line that ends a frame is the first one in what follows. */
  lemma FrameEndsAtBlank(f: Frame, later: string)
    requires Sendable(f)
    ensures IndexOfBlank(Encode(f) + later) == |Body(f)|
  {
    var body, s := Body(f), Encode(f) + later;
    NoBlankInBody(f);
    assert s[..|body|] == body;
    assert s[|body|] == '\n' && s[|body| + 1] == '\n';
    assert BlankAt(s, |body|);
    var k := IndexOfBlank(s);
    assert k < |body| ==> s[k] == body[k];
    assert k < |body| - 1 ==> s[k + 1] == body[k + 1] && BlankAt(body, k);
  }

  /** No blank line in the text, nor one when a line break follows it. */
  ghost predicate NoBlankLine(s: string) {
    s != "" && s[|s| - 1] != '\n' && forall i :: !BlankAt(s, i)
  }

  lemma NoBlankInBody(f: Frame)
    requires Sendable(f)
    ensures NoBlankLine(Body(f))
  {
    var body := Body(f);
    match f
    case EventFrame(name, payload) =>
      SpaceFreeIsOneLine(name);
      var a, b := "event: " + name, "data: " + payload;
      assert OneLine(a) && OneLine(b);
      assert body == a + "\n" + b;
      assert forall i :: 0 <= i < |a| ==> body[i] == a[i];
      assert body[|a|] == '\n';
      assert forall i :: |a| < i < |body| ==> body[i] == b[i - |a| - 1];
    case CommentFrame(text) =>
      assert body[0] == ':' && body[1] == ' ';
      assert forall i :: 2 <= i < |body| ==> body[i] == text[i - 2];
  }

  lemma DrainOneFrame(f: Frame, later: string)
    requires Sendable(f)
    ensures Drain(Encode(f) + later) == Drained(EventIn(f) + Drain(later).events, Drain(later).rest)
  {
    FrameEndsAtBlank(f, later);
    ParseBody(f);
    var s := Encode(f) + later;
    assert s[..|Body(f)|] == Body(f);
    assert s[|Body(f)| + 2..] == later;
    hide Body, Parse, EventIn, AsSeq;
  }

  /** Whatever the server writes, decoding the whole text gives back exactly the events, in order. */
  lemma {:induction false} DecodeEncode(frames: seq<Frame>)
    requires forall f :: f in frames ==> Sendable(f)
    ensures Drain(EncodeAll(frames)) == Drained(EventsOf(frames), "")
  {
    if frames != [] {
      var f, later := frames[0], EncodeAll(frames[1..]);
      DecodeEncode(frames[1..]);
      DrainOneFrame(f, later);
      hide Drain, EventIn, Encode;
    }
  }
}
