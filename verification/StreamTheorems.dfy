/**
 * What the worker of a message stream queues over a whole run, and how the
 * client of that run ends.
 */
module StreamTheorems {
  import opened Results
  import opened MessageStream
  import Sse
  import SseClient
  import SseParser

  // ---- What a run makes the worker say -------------------------------------------------------------

  /** The deltas of the run, one for every non-empty text the orchestration hands over. */
  function Handed(steps: seq<Step>): seq<Item> {
    if steps == [] then []
    else
      var d := Handed(steps[..|steps| - 1]);
      match steps[|steps| - 1]
      case OnDelta(text) => if text != "" then d + [Delta(text)] else d
      case _ => d
  }

  /** How the orchestration of the run ended, if it has. */
  function Ending(steps: seq<Step>): Option<Step> {
    if steps == [] then None
    else if steps[|steps| - 1].Return? || steps[|steps| - 1].Raise? then Some(steps[|steps| - 1])
    else Ending(steps[..|steps| - 1])
  }

  /** How many times the worker has put its conclusion on the queue. */
  function Puts(steps: seq<Step>): nat {
    if steps == [] then 0
    else Puts(steps[..|steps| - 1]) + if steps[|steps| - 1] == Put then 1 else 0
  }

  /**
   * What the worker has to say once orchestration has ended: the assistant's text
   * if no delta was handed over, the message and done; or the error and done.
   */
  function Conclusion(handed: seq<Item>, ending: Option<Step>): seq<Item> {
    match ending
    case Some(Return(assistant, body)) =>
      (if handed == [] && assistant != "" then [Delta(assistant)] else []) + [Message(body), Done(true)]
    case Some(Raise(code)) => [Error(code), Done(false)]
    case _ => []
  }

  /** The worker stands where its next words begin, unless it died. */
  predicate WorkerAt(s: State, handed: seq<Item>, ending: Option<Step>, said: nat) {
    var c := Conclusion(handed, ending);
    && said <= |c| && s.produced == handed + c[..said]
    && match s.worker
       case Orchestrating(emitted) => ending == None && (emitted <==> handed != [])
       case Failing(code) => ending == Some(Raise(code)) && said == 0
       case Answering(assistant, body, emitted) =>
         ending == Some(Return(assistant, body)) && said == 0 && (emitted <==> handed != [])
       case Concluding(body) => ending.Some? && ending.value.Return? && ending.value.body == body && said == 1 && |c| == 3
       case Finishing(ok) => said == |c| - 1 && c[said] == Done(ok)
       case Exited => ending.Some? && said == |c|
       case Gone => ending == None || said < |c|
  }

  lemma OneMorePut(handed: seq<Item>, c: seq<Item>, said: nat, item: Item)
    requires said < |c| && c[said] == item
    ensures (handed + c[..said]) + [item] == handed + c[..said + 1]
  {}

  lemma PutSays(s: State, handed: seq<Item>, ending: Option<Step>, said: nat)
    requires Enabled(s, Put) && WorkerAt(s, handed, ending, said)
    ensures WorkerAt(AfterPut(s), handed, ending, said + 1)
  {
    var c := Conclusion(handed, ending);
    OneMorePut(handed, c, said, c[said]);
  }

  lemma ConclusionLength(handed: seq<Item>, ending: Option<Step>)
    ensures ending.Some? && (ending.value.Return? || ending.value.Raise?) ==> |Conclusion(handed, ending)| >= 2
  {}

  lemma StepSays(livenessFirst: bool, s: State, step: Step, handed: seq<Item>, ending: Option<Step>, said: nat)
    requires Enabled(s, step) && WorkerAt(s, handed, ending, said)
    requires !step.OnDelta? && !step.Return? && !step.Raise? && step != Put
    ensures WorkerAt(Apply(livenessFirst, s, step), handed, ending, said)
  {
    ConclusionLength(handed, ending);
    hide Conclusion;
  }

  lemma DeltaSays(livenessFirst: bool, s: State, text: string, handed: seq<Item>, ending: Option<Step>, said: nat)
    requires Enabled(s, OnDelta(text)) && WorkerAt(s, handed, ending, said)
    ensures var more := if text != "" then handed + [Delta(text)] else handed;
            WorkerAt(Apply(livenessFirst, s, OnDelta(text)), more, ending, said)
  {
    assert handed + [] == handed;
    assert (handed + [Delta(text)]) + [] == handed + [Delta(text)];
  }

  lemma EndSays(livenessFirst: bool, s: State, step: Step, handed: seq<Item>, ending: Option<Step>, said: nat)
    requires Enabled(s, step) && WorkerAt(s, handed, ending, said) && (step.Return? || step.Raise?)
    ensures said == 0 && WorkerAt(Apply(livenessFirst, s, step), handed, Some(step), said)
  {
    assert handed + [] == handed;
  }

  lemma {:induction false} RunSays(livenessFirst: bool, steps: seq<Step>)
    requires RunFrom(livenessFirst, INIT, steps).Some?
    ensures WorkerAt(RunFrom(livenessFirst, INIT, steps).value, Handed(steps), Ending(steps), Puts(steps))
  {
    if steps != [] {
      var init, step := steps[..|steps| - 1], steps[|steps| - 1];
      RunSays(livenessFirst, init);
      var s := RunFrom(livenessFirst, INIT, init).value;
      hide WorkerAt, Apply, Enabled, Conclusion, AfterPut;
      match step
      case OnDelta(text) => DeltaSays(livenessFirst, s, text, Handed(init), Ending(init), Puts(init));
      case Return(_, _) => EndSays(livenessFirst, s, step, Handed(init), Ending(init), Puts(init));
      case Raise(_) => EndSays(livenessFirst, s, step, Handed(init), Ending(init), Puts(init));
      case Put => PutIsApplied(livenessFirst, s, Handed(init), Ending(init), Puts(init));
      case _ => StepSays(livenessFirst, s, step, Handed(init), Ending(init), Puts(init));
    }
  }

  lemma PutIsApplied(livenessFirst: bool, s: State, handed: seq<Item>, ending: Option<Step>, said: nat)
    requires Enabled(s, Put) && WorkerAt(s, handed, ending, said)
    ensures WorkerAt(Apply(livenessFirst, s, Put), handed, ending, said + 1)
  {
    hide WorkerAt, AfterPut;
    PutSays(s, handed, ending, said);
  }

  /**
   * In every run the worker queues its deltas in order and then, put by put, its
   * conclusion: the assistant's text if there was no delta, the message and
   * done(true) if orchestration returned, the error and done(false) if it raised.
   * It has exited exactly if all of that is queued.
   */
  lemma WorkerSays(livenessFirst: bool, steps: seq<Step>)
    requires RunFrom(livenessFirst, INIT, steps).Some?
    ensures var s := RunFrom(livenessFirst, INIT, steps).value;
            var c := Conclusion(Handed(steps), Ending(steps));
            && Puts(steps) <= |c|
            && s.produced == Handed(steps) + c[..Puts(steps)]
            && (s.worker == Exited <==> Ending(steps).Some? && Puts(steps) == |c|)
  {
    RunSays(livenessFirst, steps);
  }

  // ---- How the client ends ---------------------------------------------------------------------------

  /** The reader gets back the text of a delta and the body of a message. */
  ghost predicate ReadsBack(json: SseClient.JsonReader, wire: Wire) {
    && (forall text :: json.deltaText(wire.json(Delta(text))) == text)
    && (forall body :: json.finalMessage(wire.json(Message(body))) == Some(Some(body)))
  }

  /** The texts of the deltas among the items, without empty ones. */
  function Texts(items: seq<Item>): seq<string> {
    if items == [] then []
    else
      var item := items[|items| - 1];
      Texts(items[..|items| - 1]) + if item.Delta? && item.text != "" then [item.text] else []
  }

  function Arriving(wire: Wire, items: seq<Item>): seq<SseParser.ParsedEvent> {
    [SseParser.ParsedEvent("ready", ACCEPTED)] + EventsFor(wire, items)
  }

  lemma ArrivingAt(json: SseClient.JsonReader, wire: Wire, items: seq<Item>, e: nat)
    requires ReadsBack(json, wire) && e <= |items|
    ensures var events := Arriving(wire, items);
            && |events| == |items| + 1
            && (e > 0 ==> events[e] == EventOf(wire, items[e - 1]))
            && (SseClient.IsError(events[e]) <==> e > 0 && items[e - 1].Error?)
            && (SseClient.IsMessage(json, events[e]) <==> e > 0 && items[e - 1].Message?)
  {}

  lemma ArrivingPrefix(wire: Wire, items: seq<Item>, k: nat)
    requires k <= |items|
    ensures Arriving(wire, items)[..k + 1] == Arriving(wire, items[..k])
  {
    hide EventOf;
  }

  lemma {:induction false} ArrivingTexts(json: SseClient.JsonReader, wire: Wire, items: seq<Item>)
    requires ReadsBack(json, wire)
    ensures SseClient.DeltaTexts(json, Arriving(wire, items)) == Texts(items)
  {
    var events := Arriving(wire, items);
    if items == [] {
      assert events[..0] == [];
      assert SseClient.DeltaTexts(json, events[..0]) == [];
    } else {
      var last := |items| - 1;
      ArrivingTexts(json, wire, items[..last]);
      ArrivingPrefix(wire, items, last);
      assert events[last + 1] == EventOf(wire, items[last]);
    }
  }

  lemma {:induction false} NoMoreTexts(items: seq<Item>, k: nat)
    requires k <= |items| && forall j :: k <= j < |items| ==> !items[j].Delta?
    ensures Texts(items) == Texts(items[..k])
  {
    if k == |items| {
      assert items[..k] == items;
    } else {
      NoMoreTexts(items[..|items| - 1], k);
      assert items[..|items| - 1][..k] == items[..k];
    }
  }

  /** No delta follows an error. */
  predicate ErrorsLast(items: seq<Item>) {
    forall i, j :: 0 <= i < j < |items| && items[i].Error? ==> !items[j].Delta?
  }

  lemma {:induction false} HandedAreDeltas(steps: seq<Step>)
    ensures forall i :: 0 <= i < |Handed(steps)| ==> Handed(steps)[i].Delta?
  {
    if steps != [] {
      HandedAreDeltas(steps[..|steps| - 1]);
    }
  }

  /** What the client is sent after `handed` and part of the conclusion. */
  predicate Sent(handed: seq<Item>, ending: Option<Step>, said: nat, items: seq<Item>) {
    var c := Conclusion(handed, ending);
    said <= |c| && items == Expected(handed + c[..said])
  }

  predicate AllDeltas(items: seq<Item>) {
    forall i :: 0 <= i < |items| ==> items[i].Delta?
  }

  lemma SentTexts(handed: seq<Item>, ending: Option<Step>, said: nat, items: seq<Item>)
    requires Sent(handed, ending, said, items)
    ensures Texts(items) == Texts(handed + Conclusion(handed, ending)[..said])
  {
    var produced := handed + Conclusion(handed, ending)[..said];
    hide Texts, Conclusion;
    NoMoreTexts(items, |produced|);
    assert items[..|produced|] == produced;
  }

  /** Nothing but deltas before the first error, message or done. */
  lemma SentOrder(handed: seq<Item>, ending: Option<Step>, said: nat, items: seq<Item>)
    requires AllDeltas(handed) && Sent(handed, ending, said, items)
    ensures ErrorsLast(items)
  {
    var c := Conclusion(handed, ending);
    var produced := handed + c[..said];
    assert forall i :: |handed| <= i < |produced| ==> produced[i] == c[i - |handed|];
    assert forall i :: 0 <= i < |handed| ==> produced[i] == handed[i];
    assert forall i :: 0 <= i < |produced| ==> items[i] == produced[i];
  }

  /** The answer is complete exactly if nothing sent is an error; the message is then last but one. */
  lemma SentAnswer(handed: seq<Item>, ending: Option<Step>, said: nat, items: seq<Item>)
    requires AllDeltas(handed) && Sent(handed, ending, said, items)
    requires ending.Some? ==> ending.value.Return? || ending.value.Raise?
    ensures if ending.Some? && ending.value.Return? && said == |Conclusion(handed, ending)|
            then && |items| >= 2 && items[|items| - 2] == Message(ending.value.body) && items[|items| - 1] == Done(true)
                 && forall i :: 0 <= i < |items| ==> !items[i].Error?
            else exists i :: 0 <= i < |items| && items[i].Error?
  {
    var c := Conclusion(handed, ending);
    var produced := handed + c[..said];
    assert forall i :: |handed| <= i < |produced| ==> produced[i] == c[i - |handed|];
    assert forall i :: 0 <= i < |handed| ==> produced[i] == handed[i];
    if said < |c| || ending.None? {
      assert items[|produced|] == UNEXPECTED_END;
    } else if ending.value.Raise? {
      assert items[|handed|].Error?;
    }
  }

  lemma EndingEnds(steps: seq<Step>)
    ensures Ending(steps).Some? ==> Ending(steps).value.Return? || Ending(steps).value.Raise?
  {}

  lemma ClientOfAnswer(json: SseClient.JsonReader, wire: Wire, items: seq<Item>, body: string,
                       outcome: SseClient.StreamOutcome)
    requires ReadsBack(json, wire) && SseClient.Ends(json, Arriving(wire, items), outcome)
    requires |items| >= 2 && items[|items| - 2] == Message(body) && items[|items| - 1] == Done(true)
    requires forall i :: 0 <= i < |items| ==> !items[i].Error?
    ensures outcome == SseClient.Final(body)
  {
    var events, last := Arriving(wire, items), |items| - 1;
    hide Arriving, EventOf, SseClient.IsError, SseClient.IsMessage, ReadsBack;
    ArrivingAt(json, wire, items, last);
    forall e: nat | e < |events|
      ensures !SseClient.IsError(events[e])
    {
      ArrivingAt(json, wire, items, e);
    }
    ArrivingAt(json, wire, items, last + 1);
    MessageRead(json, wire, body);
    assert !SseClient.IsMessage(json, events[last + 1]);
    assert SseClient.LastMessage(json, events, |events|, last);
  }

  lemma MessageRead(json: SseClient.JsonReader, wire: Wire, body: string)
    requires ReadsBack(json, wire)
    ensures json.finalMessage(EventOf(wire, Message(body)).data) == Some(Some(body))
  {}

  lemma ClientOfError(json: SseClient.JsonReader, wire: Wire, items: seq<Item>, i: nat, outcome: SseClient.StreamOutcome)
    requires ReadsBack(json, wire) && SseClient.Ends(json, Arriving(wire, items), outcome)
    requires i < |items| && items[i].Error?
    ensures outcome == SseClient.StreamError
  {
    ArrivingAt(json, wire, items, i + 1);
    hide Arriving, EventOf, SseClient.IsError;
    assert SseClient.IsError(Arriving(wire, items)[i + 1]);
  }

  /** The client shows the deltas of all items, since none comes after an error. */
  lemma ClientTexts(json: SseClient.JsonReader, wire: Wire, items: seq<Item>, c: SseClient.ClientState)
    requires ReadsBack(json, wire) && ErrorsLast(items) && SseClient.Observed(json, Arriving(wire, items), c)
    ensures c.deltas == Texts(items)
  {
    var events := Arriving(wire, items);
    var k := SseClient.FindError(events);
    hide Arriving, EventOf, SseClient.IsError, SseClient.IsMessage, SseClient.DeltaTexts, Texts;
    assert SseClient.Gathered(json, events, k, c);
    ArrivingAt(json, wire, items, 0);
    NotAtReady(wire, items, k);
    ArrivingAt(json, wire, items, if k <= |items| then k else 0);
    ArrivingPrefix(wire, items, k - 1);
    ArrivingTexts(json, wire, items[..k - 1]);
    NoMoreTexts(items, k - 1);
  }

  lemma NotAtReady(wire: Wire, items: seq<Item>, k: nat)
    requires SseClient.FirstError(Arriving(wire, items), k)
    ensures 0 < k <= |items| + 1
  {
    assert Arriving(wire, items)[0].event == "ready";
  }

  lemma AnswerQueued(handed: seq<Item>, ending: Option<Step>, said: nat, body: string)
    requires AllDeltas(handed) && said <= |Conclusion(handed, ending)|
    ensures var produced := handed + Conclusion(handed, ending)[..said];
            (Message(body) in produced && Done(true) in produced) ==
            (ending.Some? && ending.value.Return? && ending.value.body == body && said == |Conclusion(handed, ending)|)
  {
    var c := Conclusion(handed, ending);
    var produced := handed + c[..said];
    assert forall i :: |handed| <= i < |produced| ==> produced[i] == c[i - |handed|];
    assert forall x :: x in produced ==> x in handed || x in c[..said];
    if ending.Some? && ending.value.Return? && said == |c| {
      assert produced[|produced| - 2] == Message(ending.value.body) && produced[|produced| - 1] == Done(true);
    }
  }

  /**
   * From orchestration to the caller: however worker and generator interleave and
   * the network cuts the text, the caller of a stream that has ended gets the
   * message exactly if the worker queued it and done(true), and an error
   * otherwise; it is shown the deltas that were queued, in order.
   */
  lemma ClientEndsSo(wire: Wire, json: SseClient.JsonReader, steps: seq<Step>, chunks: seq<string>,
                     c: SseClient.ClientState, outcome: SseClient.StreamOutcome)
    requires WritesObjects(wire) && ReadsBack(json, wire) && RunFrom(true, INIT, steps).Some?
    requires RunFrom(true, INIT, steps).value.generator == Returned
    requires SseClient.Concat(chunks) == Sse.EncodeAll(FramesOf(wire, RunFrom(true, INIT, steps).value.out))
    requires SseClient.Observed(json, Sse.Drain(SseClient.Concat(chunks)).events, c)
    requires SseClient.Ends(json, Sse.Drain(SseClient.Concat(chunks)).events, outcome)
    ensures var s := RunFrom(true, INIT, steps).value;
            && (forall body :: outcome == SseClient.Final(body) <==> Message(body) in s.produced && Done(true) in s.produced)
            && (outcome.Final? || outcome.StreamError?)
            && c.deltas == Texts(s.produced)
  {
    var s := RunFrom(true, INIT, steps).value;
    var handed, ending, said, items := Handed(steps), Ending(steps), Puts(steps), Expected(s.produced);
    EndToEnd(wire, steps, chunks);
    WorkerSays(true, steps);
    HandedAreDeltas(steps);
    EndingEnds(steps);
    assert Sse.Drain(SseClient.Concat(chunks)).events == Arriving(wire, items);
    assert Sent(handed, ending, said, items);
    assert AllDeltas(handed);
    hide *;
    SentTexts(handed, ending, said, items);
    SentOrder(handed, ending, said, items);
    ClientTexts(json, wire, items, c);
    SentAnswer(handed, ending, said, items);
    if ending.Some? && ending.value.Return? && said == |Conclusion(handed, ending)| {
      ClientOfAnswer(json, wire, items, ending.value.body, outcome);
    } else {
      var i :| 0 <= i < |items| && items[i].Error?;
      ClientOfError(json, wire, items, i, outcome);
    }
    forall body
      ensures outcome == SseClient.Final(body) <==> Message(body) in s.produced && Done(true) in s.produced
    {
      AnswerQueued(handed, ending, said, body);
    }
  }
}
