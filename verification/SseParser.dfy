/**
 * The client's parser for one raw Server-Sent Events frame: parseSSEEvent of
 * apps/web/src/api.ts. Section 9.2 of the WHATWG HTML Living Standard defines
 * the format; the part this system uses is written out here and in Sse.
 */
module SseParser {
  import opened Results
  import Text

  datatype ParsedEvent = ParsedEvent(event: string, data: string)

  predicate OneLine(s: string) {
    forall i :: 0 <= i < |s| ==> s[i] != '\n'
  }

  predicate NoSpace(s: string) {
    forall i :: 0 <= i < |s| ==> !Text.JsSpace(s[i])
  }

  predicate JsonObjectText(s: string) {
    |s| >= 2 && s[0] == '{' && s[|s| - 1] == '}'
  }

  /** rawEvent.split("\n") */
  function SplitLines(s: string): (r: seq<string>)
    ensures |r| >= 1
  {
    if s == "" then [""]
    else
      var rest := SplitLines(s[1..]);
      if s[0] == '\n' then [""] + rest else [[s[0]] + rest[0]] + rest[1..]
  }

  predicate StartsWith(s: string, prefix: string) {
    |prefix| <= |s| && forall i :: 0 <= i < |prefix| ==> s[i] == prefix[i]
  }

  /** eventName and dataLines of parseSSEEvent. */
  datatype Fields = Fields(eventName: string, dataLines: seq<string>)

  /** One turn of the loop over the lines, on a line already trimmed at its end. */
  function ReadLine(f: Fields, line: string): Fields {
    if line == "" then f
    else if StartsWith(line, "event:") then
      var name := Text.Trim(Text.JsSpace, line[6..]);
      f.(eventName := if name == "" then "message" else name)
    else if StartsWith(line, "data:") then
      f.(dataLines := f.dataLines + [Text.TrimStart(Text.JsSpace, line[5..])])
    else f
  }

  function ReadLines(lines: seq<string>): Fields {
    if lines == [] then Fields("message", [])
    else ReadLine(ReadLines(lines[..|lines| - 1]), Text.TrimEnd(Text.JsSpace, lines[|lines| - 1]))
  }

  /** dataLines.join("\n") */
  function Join(lines: seq<string>): string {
    if lines == [] then ""
    else if |lines| == 1 then lines[0]
    else lines[0] + "\n" + Join(lines[1..])
  }

  function Parse(raw: string): Option<ParsedEvent> {
    var f := ReadLines(SplitLines(raw));
    if f.dataLines == [] then None else Some(ParsedEvent(f.eventName, Join(f.dataLines)))
  }

  /** parseSSEEvent */
  method ParseSSEEvent(raw: string) returns (r: Option<ParsedEvent>)
    ensures r == Parse(raw)
  {
    var lines := SplitLines(raw);
    var eventName := "message";
    var dataLines: seq<string> := [];
    for i := 0 to |lines|
      invariant Fields(eventName, dataLines) == ReadLines(lines[..i])
    {
      assert lines[..i + 1][..i] == lines[..i];
      var line := Text.TrimEnd(Text.JsSpace, lines[i]);
      if line == "" {
        continue;
      }
      if StartsWith(line, "event:") {
        var name := Text.Trim(Text.JsSpace, line[6..]);
        eventName := if name == "" then "message" else name;
        continue;
      }
      if StartsWith(line, "data:") {
        dataLines := dataLines + [Text.TrimStart(Text.JsSpace, line[5..])];
      }
    }
    assert lines[..|lines|] == lines;
    if dataLines == [] {
      return None;
    }
    return Some(ParsedEvent(eventName, Join(dataLines)));
  }

  // ---- Lines as the server writes them ----------------------------------------------------------

  lemma {:induction false} SplitOneLine(s: string)
    requires OneLine(s)
    ensures SplitLines(s) == [s]
  {
    if s != "" {
      SplitOneLine(s[1..]);
      assert [s[0]] + s[1..] == s;
    }
  }

  lemma {:induction false} SplitFirstLine(a: string, b: string)
    requires OneLine(a)
    ensures SplitLines(a + "\n" + b) == [a] + SplitLines(b)
  {
    var s := a + "\n" + b;
    if a == "" {
      assert s[1..] == b;
    } else {
      SplitFirstLine(a[1..], b);
      assert s[1..] == a[1..] + "\n" + b;
      assert [s[0]] + a[1..] == a;
    }
  }

  lemma ReadTwoLines(a: string, b: string)
    ensures ReadLines([a, b])
         == ReadLine(ReadLine(Fields("message", []), Text.TrimEnd(Text.JsSpace, a)), Text.TrimEnd(Text.JsSpace, b))
  {
    hide ReadLine, Text.TrimEnd;
    assert [a, b][..1] == [a] && [a][..0] == [];
    assert ReadLines([a]) == ReadLine(Fields("message", []), Text.TrimEnd(Text.JsSpace, a));
  }

  lemma TrimLeadingBlank(value: string)
    requires Text.Trimmed(Text.JsSpace, value)
    ensures Text.TrimStart(Text.JsSpace, " " + value) == value && Text.Trim(Text.JsSpace, " " + value) == value
  {
    var tail := " " + value;
    assert Text.JsSpace(tail[0]) && tail[1..] == value;
    hide Text.JsSpace;
    Text.TrimKeeps(Text.JsSpace, value);
  }

  /** A prefix, a blank and a value without blanks at its ends: the value is read back. */
  lemma ValueAfterPrefix(prefix: string, value: string, line: string)
    requires prefix != "" && Text.Trimmed(Text.JsSpace, value) && line == prefix + (" " + value)
    ensures Text.TrimEnd(Text.JsSpace, line) == line && line != "" && StartsWith(line, prefix)
    ensures line[|prefix|..] == " " + value
  {
    hide Text.JsSpace;
    assert line[|line| - 1] == value[|value| - 1];
    assert line[|prefix|..] == " " + value;
  }

  lemma EventLine(name: string)
    requires name != "" && NoSpace(name)
    ensures ReadLine(Fields("message", []), Text.TrimEnd(Text.JsSpace, "event: " + name)) == Fields(name, [])
  {
    hide Text.JsSpace, Text.Trim, Text.TrimEnd;
    var line := "event: " + name;
    assert line == "event:" + (" " + name);
    ValueAfterPrefix("event:", name, line);
    TrimLeadingBlank(name);
  }

  lemma DataLine(f: Fields, payload: string)
    requires Text.Trimmed(Text.JsSpace, payload)
    ensures ReadLine(f, Text.TrimEnd(Text.JsSpace, "data: " + payload)) == f.(dataLines := f.dataLines + [payload])
  {
    hide Text.JsSpace, Text.Trim, Text.TrimEnd, Text.TrimStart;
    var line := "data: " + payload;
    assert line == "data:" + (" " + payload);
    ValueAfterPrefix("data:", payload, line);
    TrimLeadingBlank(payload);
    OtherStart(line, "event:");
  }

  lemma OtherStart(s: string, prefix: string)
    requires s != "" && prefix != "" && s[0] != prefix[0]
    ensures !StartsWith(s, prefix)
  {}

  lemma CommentLine(text: string)
    ensures ReadLine(Fields("message", []), Text.TrimEnd(Text.JsSpace, ": " + text)) == Fields("message", [])
  {
    hide Text.JsSpace, Text.TrimEnd;
    var raw := ": " + text;
    ColonStays(raw);
    OtherStart(Text.TrimEnd(Text.JsSpace, raw), "event:");
    OtherStart(Text.TrimEnd(Text.JsSpace, raw), "data:");
  }

  lemma {:induction false} ColonStays(s: string)
    requires s != "" && s[0] == ':'
    ensures var r := Text.TrimEnd(Text.JsSpace, s); r != "" && r[0] == ':'
  {
    if Text.JsSpace(s[|s| - 1]) {
      ColonStays(s[..|s| - 1]);
    }
  }

  lemma SpaceFreeIsOneLine(s: string)
    requires NoSpace(s)
    ensures OneLine(s)
  {
    assert Text.JsSpace('\n');
  }

  lemma ReadOneLine(a: string)
    ensures ReadLines([a]) == ReadLine(Fields("message", []), Text.TrimEnd(Text.JsSpace, a))
  {
    hide ReadLine, Text.TrimEnd;
    assert [a][..0] == [];
  }

  lemma JsonIsTrimmed(payload: string)
    requires JsonObjectText(payload)
    ensures Text.Trimmed(Text.JsSpace, payload)
  {}

  lemma ReadEventLines(name: string, payload: string)
    requires name != "" && NoSpace(name) && JsonObjectText(payload)
    ensures ReadLines(["event: " + name, "data: " + payload]) == Fields(name, [payload])
  {
    JsonIsTrimmed(payload);
    EventLine(name);
    DataLine(Fields(name, []), payload);
    hide ReadLine, ReadLines, Text.TrimEnd, NoSpace, JsonObjectText, Text.Trimmed;
    ReadTwoLines("event: " + name, "data: " + payload);
    assert [] + [payload] == [payload];
  }

  // ---- Frames with several data lines -----------------------------------------------------------

  predicate AllOneLine(lines: seq<string>) {
    forall i :: 0 <= i < |lines| ==> OneLine(lines[i])
  }

  /** Splitting undoes joining. */
  lemma {:induction false} SplitJoined(lines: seq<string>)
    requires lines != [] && AllOneLine(lines)
    ensures SplitLines(Join(lines)) == lines
  {
    if |lines| == 1 {
      SplitOneLine(lines[0]);
    } else {
      SplitJoined(lines[1..]);
      SplitFirstLine(lines[0], Join(lines[1..]));
    }
  }

  function DataLinesOf(payloads: seq<string>): (r: seq<string>)
    ensures |r| == |payloads| && forall i :: 0 <= i < |r| ==> r[i] == "data: " + payloads[i]
  {
    seq(|payloads|, i requires 0 <= i < |payloads| => "data: " + payloads[i])
  }

  lemma ReadOneMore(lines: seq<string>, line: string)
    ensures ReadLines(lines + [line]) == ReadLine(ReadLines(lines), Text.TrimEnd(Text.JsSpace, line))
  {
    hide ReadLine, Text.TrimEnd;
    assert (lines + [line])[..|lines|] == lines;
  }

  lemma LastDataLine(first: seq<string>, payloads: seq<string>)
    requires payloads != []
    ensures var last := |payloads| - 1;
            && first + DataLinesOf(payloads) == (first + DataLinesOf(payloads[..last])) + ["data: " + payloads[last]]
            && payloads == payloads[..last] + [payloads[last]]
  {}

  lemma {:induction false} ReadDataLines(first: seq<string>, payloads: seq<string>)
    requires forall i :: 0 <= i < |payloads| ==> Text.Trimmed(Text.JsSpace, payloads[i])
    ensures var f := ReadLines(first);
            ReadLines(first + DataLinesOf(payloads)) == f.(dataLines := f.dataLines + payloads)
  {
    hide *;
    if payloads == [] {
      assert first + DataLinesOf(payloads) == first;
    } else {
      var last, f := |payloads| - 1, ReadLines(first);
      var init := payloads[..last];
      ReadDataLines(first, init);
      LastDataLine(first, payloads);
      ReadOneMore(first + DataLinesOf(init), "data: " + payloads[last]);
      DataLine(f.(dataLines := f.dataLines + init), payloads[last]);
      OneMoreLine(f.dataLines, init, payloads[last]);
    }
  }

  lemma OneMoreLine(a: seq<string>, b: seq<string>, c: string)
    ensures (a + b) + [c] == a + (b + [c])
  {}

  /** The line that names the event, where there is one. */
  function NameLine(name: string): seq<string> {
    if name == "" then [] else ["event: " + name]
  }

  function NameOr(name: string): string {
    if name == "" then "message" else name
  }

  lemma ReadNameLine(name: string)
    requires NoSpace(name)
    ensures ReadLines(NameLine(name)) == Fields(NameOr(name), [])
  {
    hide NoSpace, Text.TrimEnd;
    if name != "" {
      EventLine(name);
      ReadOneLine("event: " + name);
    }
    hide ReadLine;
  }

  lemma ParseJoined(lines: seq<string>)
    requires lines != [] && AllOneLine(lines)
    ensures var f := ReadLines(lines);
            Parse(Join(lines)) == if f.dataLines == [] then None else Some(ParsedEvent(f.eventName, Join(f.dataLines)))
  {
    SplitJoined(lines);
    hide ReadLines, SplitLines, Join;
  }

  /**
   * A frame with any number of data lines parses to its name, or "message" if it
   * gives none, and the data that those lines are the lines of.
   */
  lemma ParseManyLines(name: string, payloads: seq<string>)
    requires payloads != [] && AllOneLine(payloads) && NoSpace(name)
    requires forall i :: 0 <= i < |payloads| ==> Text.Trimmed(Text.JsSpace, payloads[i])
    ensures var r := Parse(Join(NameLine(name) + DataLinesOf(payloads)));
            r.Some? && r.value.event == NameOr(name) && SplitLines(r.value.data) == payloads
  {
    hide *;
    SpaceFreeIsOneLine(name);
    LinesAreOneLine(name, payloads);
    ReadNameLine(name);
    ReadDataLines(NameLine(name), payloads);
    ParseJoined(NameLine(name) + DataLinesOf(payloads));
    SplitJoined(payloads);
    assert [] + payloads == payloads;
  }

  /** An event line without a name makes it a message, whatever was named before. */
  lemma BlankNameIsMessage(f: Fields)
    ensures ReadLine(f, Text.TrimEnd(Text.JsSpace, "event:")) == f.(eventName := "message")
  {
    var line := "event:";
    assert line[6..] == "" && StartsWith(line, "event:");
    assert !Text.JsSpace(line[5]);
    assert Text.TrimEnd(Text.JsSpace, line) == line;
    assert Text.Trim(Text.JsSpace, "") == "";
  }

  /** A frame whose event line gives no name parses to a message. */
  lemma ParseUnnamed(payloads: seq<string>)
    requires payloads != [] && AllOneLine(payloads)
    requires forall i :: 0 <= i < |payloads| ==> Text.Trimmed(Text.JsSpace, payloads[i])
    ensures var r := Parse(Join(["event:"] + DataLinesOf(payloads)));
            r.Some? && r.value.event == "message" && SplitLines(r.value.data) == payloads
  {
    hide *;
    UnnamedLinesAreOneLine(payloads);
    BlankNameIsMessage(Fields("message", []));
    ReadOneLine("event:");
    ReadDataLines(["event:"], payloads);
    ParseJoined(["event:"] + DataLinesOf(payloads));
    SplitJoined(payloads);
    assert [] + payloads == payloads;
  }

  lemma UnnamedLinesAreOneLine(payloads: seq<string>)
    requires AllOneLine(payloads)
    ensures AllOneLine(["event:"] + DataLinesOf(payloads))
  {
    LinesAreOneLine("", payloads);
    assert OneLine("event:");
    var lines, data := ["event:"] + DataLinesOf(payloads), NameLine("") + DataLinesOf(payloads);
    hide OneLine;
    forall i | 0 < i < |lines|
      ensures OneLine(lines[i])
    {
      assert lines[i] == data[i - 1];
    }
  }

  lemma LinesAreOneLine(name: string, payloads: seq<string>)
    requires OneLine(name) && AllOneLine(payloads)
    ensures AllOneLine(NameLine(name) + DataLinesOf(payloads))
  {
    var first := NameLine(name);
    assert OneLine("event: " + name);
    forall i | 0 <= i < |payloads|
      ensures OneLine("data: " + payloads[i])
    {
    }
    var lines := first + DataLinesOf(payloads);
    hide OneLine;
    forall i | 0 <= i < |lines|
      ensures OneLine(lines[i])
    {
      if i >= |first| {
        assert lines[i] == "data: " + payloads[i - |first|];
      }
    }
  }
}
