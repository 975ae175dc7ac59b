/**
 * The message stream of apps/api/routers/messages.py as a protocol: a worker
 * thread that queues events and may die anywhere, and the generator that drains
 * the queue, waiting at most half a second at a time.
 */
module MessageStream {
  import opened Results
  import Sse
  import SseClient
  import SseParser

  /** What travels through the queue. */
  datatype Item = Delta(text: string) | Message(body: string) | Error(code: string) | Done(ok: bool)

  /** Where the worker stands in `_worker`; `Gone` is a thread that ended without queueing `done`. */
  datatype WorkerPc =
    | Orchestrating(emittedDelta: bool)
    | Failing(code: string)
    | Answering(assistant: string, body: string, emittedDelta: bool)
    | Concluding(body: string)
    | Finishing(ok: bool)
    | Exited
    | Gone

  /** Where the generator stands in its loop. */
  datatype GeneratorPc = Waiting | TimedOut | HalfChecked | FallingBack | ClosingFallback | Returned

  /** What the client is sent; the fallback pair is told apart from queued items. */
  datatype Output = Connected | Ready | KeepAlive | Queued(item: Item) | Fallback(item: Item)

  /** `produced` records everything the worker has queued. */
  datatype State = State(worker: WorkerPc, queue: seq<Item>, generator: GeneratorPc, out: seq<Output>, produced: seq<Item>)

  /** The acknowledgement has been sent and the thread started. */
  const INIT := State(Orchestrating(false), [], Waiting, [Connected, Ready], [])

  const UNEXPECTED_END := Error("INTERNAL_ERROR")

  datatype Step =
    | OnDelta(text: string)
    | Raise(code: string)
    | Return(assistant: string, body: string)
    | Put
    | Die
    | Get
    | TimeOut
    | FirstCheck
    | SecondCheck
    | SendFallback

  predicate IsAlive(w: WorkerPc) {
    w != Exited && w != Gone
  }

  predicate GeneratorStep(step: Step) {
    step in {Get, TimeOut, FirstCheck, SecondCheck, SendFallback}
  }

  predicate Enabled(s: State, step: Step) {
    match step
    case OnDelta(_) => s.worker.Orchestrating?
    case Raise(_) => s.worker.Orchestrating?
    case Return(_, _) => s.worker.Orchestrating?
    case Put => s.worker.Failing? || s.worker.Answering? || s.worker.Concluding? || s.worker.Finishing?
    case Die => IsAlive(s.worker)
    case Get => s.generator == Waiting && s.queue != []
    case TimeOut => s.generator == Waiting && s.queue == []
    case FirstCheck => s.generator == TimedOut
    case SecondCheck => s.generator == HalfChecked
    case SendFallback => s.generator == FallingBack || s.generator == ClosingFallback
  }

  function PutItem(s: State, item: Item, next: WorkerPc): State {
    s.(queue := s.queue + [item], produced := s.produced + [item], worker := next)
  }

  /** The worker's queue operations once orchestration has ended. */
  function AfterPut(s: State): State
    requires Enabled(s, Put)
  {
    match s.worker
    case Failing(code) => PutItem(s, Error(code), Finishing(false))
    case Answering(assistant, body, emittedDelta) =>
      if assistant != "" && !emittedDelta then PutItem(s, Delta(assistant), Concluding(body))
      else PutItem(s, Message(body), Finishing(true))
    case Concluding(body) => PutItem(s, Message(body), Finishing(true))
    case Finishing(ok) => PutItem(s, Done(ok), Exited)
  }

  /**
   * One atomic step. `livenessFirst` is the order of the two tests after a
   * time-out: the source asks is_alive() before queue.empty().
   */
  function Apply(livenessFirst: bool, s: State, step: Step): State
    requires Enabled(s, step)
  {
    match step
    case OnDelta(text) => if text == "" then s else PutItem(s, Delta(text), Orchestrating(true))
    case Raise(code) => s.(worker := Failing(code))
    case Return(assistant, body) => s.(worker := Answering(assistant, body, s.worker.emittedDelta))
    case Put => AfterPut(s)
    case Die => s.(worker := Gone)
    case Get =>
      s.(queue := s.queue[1..], out := s.out + [Queued(s.queue[0])],
         generator := if s.queue[0].Done? then Returned else Waiting)
    case TimeOut => s.(out := s.out + [KeepAlive], generator := TimedOut)
    case FirstCheck =>
      var holds := if livenessFirst then !IsAlive(s.worker) else s.queue == [];
      s.(generator := if holds then HalfChecked else Waiting)
    case SecondCheck =>
      var holds := if livenessFirst then s.queue == [] else !IsAlive(s.worker);
      s.(generator := if holds then FallingBack else Waiting)
    case SendFallback =>
      if s.generator == FallingBack
      then s.(out := s.out + [Fallback(UNEXPECTED_END)], generator := ClosingFallback)
      else s.(out := s.out + [Fallback(Done(false))], generator := Returned)
  }

  /** The state after a run, if every step of it is enabled. */
  function RunFrom(livenessFirst: bool, s: State, steps: seq<Step>): Option<State> {
    if steps == [] then Some(s)
    else
      match RunFrom(livenessFirst, s, steps[..|steps| - 1])
      case None => None
      case Some(t) =>
        if Enabled(t, steps[|steps| - 1]) then Some(Apply(livenessFirst, t, steps[|steps| - 1])) else None
  }

  // ---- What holds in every reachable state ---------------------------------------------------

  /** The queued items the client was sent, in order. */
  function Delivered(out: seq<Output>): seq<Item> {
    if out == [] then []
    else
      var d := Delivered(out[..|out| - 1]);
      match out[|out| - 1]
      case Queued(item) => d + [item]
      case _ => d
  }

  /** The items the client was sent from anywhere, in order. */
  function Seen(out: seq<Output>): seq<Item> {
    if out == [] then []
    else
      var d := Seen(out[..|out| - 1]);
      match out[|out| - 1]
      case Queued(item) => d + [item]
      case Fallback(item) => d + [item]
      case _ => d
  }

  predicate NoDone(items: seq<Item>) {
    forall i :: 0 <= i < |items| ==> !items[i].Done?
  }

  /** `done` is queued last, and only by a worker that then exits. */
  predicate DoneIsLast(worker: WorkerPc, produced: seq<Item>) {
    if worker == Exited
    then produced != [] && produced[|produced| - 1].Done? && NoDone(produced[..|produced| - 1])
    else NoDone(produced)
  }

  /** What the generator's place says about the run. */
  predicate GeneratorOk(s: State) {
    match s.generator
    case Waiting => NoDone(Delivered(s.out)) && Seen(s.out) == Delivered(s.out)
    case TimedOut => NoDone(Delivered(s.out)) && Seen(s.out) == Delivered(s.out)
    case HalfChecked => NoDone(Delivered(s.out)) && Seen(s.out) == Delivered(s.out) && !IsAlive(s.worker)
    case FallingBack => s.worker == Gone && s.queue == [] && Seen(s.out) == Delivered(s.out)
    case ClosingFallback => s.worker == Gone && s.queue == [] && Seen(s.out) == Delivered(s.out) + [UNEXPECTED_END]
    case Returned =>
      || (s.worker == Exited && s.queue == [] && Seen(s.out) == Delivered(s.out))
      || (s.worker == Gone && s.queue == [] && Seen(s.out) == Delivered(s.out) + [UNEXPECTED_END, Done(false)])
  }

  /** Nothing is lost, duplicated or reordered between the worker and the client. */
  predicate Inv(s: State) {
    && Delivered(s.out) + s.queue == s.produced
    && DoneIsLast(s.worker, s.produced)
    && GeneratorOk(s)
  }

  lemma InitInv()
    ensures Inv(INIT)
  {
    OutGrows([], Connected);
    OutGrows([Connected], Ready);
    assert [] + [Connected] == [Connected];
    assert [Connected] + [Ready] == INIT.out;
  }

  lemma OutGrows(out: seq<Output>, o: Output)
    ensures Delivered(out + [o]) == if o.Queued? then Delivered(out) + [o.item] else Delivered(out)
    ensures Seen(out + [o]) == if o.Queued? || o.Fallback? then Seen(out) + [o.item] else Seen(out)
  {
    assert (out + [o])[..|out|] == out;
  }

  lemma PutKeepsInv(s: State, item: Item, next: WorkerPc)
    requires Inv(s) && IsAlive(s.worker)
    requires item.Done? <==> next == Exited
    requires next != Gone
    ensures Inv(PutItem(s, item, next))
  {
    var t := PutItem(s, item, next);
    assert Delivered(s.out) + (s.queue + [item]) == (Delivered(s.out) + s.queue) + [item];
    assert t.produced[..|t.produced| - 1] == s.produced;
  }

  /** Taking the first queued item moves it from the queue to the client. */
  lemma GetMovesItem(d: seq<Item>, queue: seq<Item>, produced: seq<Item>)
    requires queue != [] && d + queue == produced
    ensures (d + [queue[0]]) + queue[1..] == produced && produced[|d|] == queue[0]
  {}

  /** If the item taken is `done`, the worker has exited and the queue is empty. */
  lemma DoneEndsTheQueue(worker: WorkerPc, d: seq<Item>, queue: seq<Item>, produced: seq<Item>)
    requires queue != [] && d + queue == produced && DoneIsLast(worker, produced) && queue[0].Done?
    ensures worker == Exited && queue[1..] == []
  {
    assert produced[|d|] == queue[0];
    assert !NoDone(produced);
    assert |d| == |produced| - 1;
  }

  lemma GetKeepsInv(s: State)
    requires Inv(s) && Enabled(s, Get)
    ensures Inv(Apply(true, s, Get))
  {
    hide Delivered, Seen, DoneIsLast;
    var item := s.queue[0];
    var d := Delivered(s.out);
    OutGrows(s.out, Queued(item));
    GetMovesItem(d, s.queue, s.produced);
    if item.Done? {
      DoneEndsTheQueue(s.worker, d, s.queue, s.produced);
    }
  }

  /** A stopped worker with an empty queue has not queued `done`, or the generator would have returned. */
  lemma EmptyMeansGone(s: State)
    requires Inv(s) && s.generator == HalfChecked && s.queue == []
    ensures s.worker == Gone
  {
    var d := Delivered(s.out);
    assert d + [] == d == s.produced;
    assert s.worker == Exited ==> !NoDone(s.produced);
  }

  lemma FallbackKeepsInv(s: State)
    requires Inv(s) && Enabled(s, SendFallback)
    ensures Inv(Apply(true, s, SendFallback))
  {
    var o := if s.generator == FallingBack then Fallback(UNEXPECTED_END) else Fallback(Done(false));
    OutGrows(s.out, o);
    var d := Delivered(s.out);
    assert (d + [UNEXPECTED_END]) + [Done(false)] == d + [UNEXPECTED_END, Done(false)];
  }

  lemma StepKeepsInv(s: State, step: Step)
    requires Inv(s) && Enabled(s, step)
    ensures Inv(Apply(true, s, step))
  {
    match step
    case OnDelta(text) =>
      if text != "" {
        PutKeepsInv(s, Delta(text), Orchestrating(true));
      }
    case Put =>
      match s.worker {
        case Failing(code) => PutKeepsInv(s, Error(code), Finishing(false));
        case Answering(assistant, body, emittedDelta) =>
          if assistant != "" && !emittedDelta {
            PutKeepsInv(s, Delta(assistant), Concluding(body));
          } else {
            PutKeepsInv(s, Message(body), Finishing(true));
          }
        case Concluding(body) => PutKeepsInv(s, Message(body), Finishing(true));
        case Finishing(ok) => PutKeepsInv(s, Done(ok), Exited);
      }
    case Get => GetKeepsInv(s);
    case TimeOut => OutGrows(s.out, KeepAlive);
    case SecondCheck =>
      if s.queue == [] {
        EmptyMeansGone(s);
      }
    case SendFallback => FallbackKeepsInv(s);
    case _ =>
  }

  /** Every interleaving, with any time-outs and a worker that dies anywhere, keeps the invariant. */
  lemma {:induction false} RunKeepsInv(steps: seq<Step>)
    requires RunFrom(true, INIT, steps).Some?
    ensures Inv(RunFrom(true, INIT, steps).value)
  {
    if steps == [] {
      InitInv();
    } else {
      RunKeepsInv(steps[..|steps| - 1]);
      StepKeepsInv(RunFrom(true, INIT, steps[..|steps| - 1]).value, steps[|steps| - 1]);
    }
  }

  /** What the client must have seen once the generator has returned. */
  function Expected(produced: seq<Item>): seq<Item> {
    if produced != [] && produced[|produced| - 1].Done? then produced
    else produced + [UNEXPECTED_END, Done(false)]
  }

  /**
   * In every run: until the generator returns the client has a prefix of what
   * was queued; once it returns the client has exactly what was queued, in
   * order, followed by the error and done of the fallback only if the worker
   * ended without queueing done; and there is one done, at the end.
   */
  lemma ClientSeesTheRun(steps: seq<Step>)
    requires RunFrom(true, INIT, steps).Some?
    ensures var s := RunFrom(true, INIT, steps).value;
            && Delivered(s.out) <= s.produced
            && (s.generator == Returned ==>
                  && Seen(s.out) == Expected(s.produced)
                  && Seen(s.out)[|Seen(s.out)| - 1].Done?
                  && NoDone(Seen(s.out)[..|Seen(s.out)| - 1])
                  && (s.worker == Gone <==> NoDone(s.produced)))
            && (s.generator != Returned ==> NoDone(Seen(s.out)))
  {
    RunKeepsInv(steps);
    var s := RunFrom(true, INIT, steps).value;
    var d := Delivered(s.out);
    assert s.generator == Returned ==> d + [] == d == s.produced;
    if s.generator == Returned && s.worker == Gone {
      assert Seen(s.out)[..|d| + 1] == d + [UNEXPECTED_END];
    }
    if s.generator == FallingBack || s.generator == ClosingFallback {
      assert d + [] == d;
    }
  }

  // ---- From the worker's queue to the client's screen -------------------------------------------

  /** How an item is written: the event's name, and the JSON text of its payload. */
  datatype Wire = Wire(json: Item -> string)

  function EventName(item: Item): string {
    match item
    case Delta(_) => "delta"
    case Message(_) => "message"
    case Error(_) => "error"
    case Done(_) => "done"
  }

  /** The JSON text of {"accepted": true}. */
  const ACCEPTED := "{\"accepted\": true}"

  function FrameOf(wire: Wire, o: Output): Sse.Frame {
    match o
    case Connected => Sse.CommentFrame("connected")
    case KeepAlive => Sse.CommentFrame("keep-alive")
    case Ready => Sse.EventFrame("ready", ACCEPTED)
    case Queued(item) => Sse.EventFrame(EventName(item), wire.json(item))
    case Fallback(item) => Sse.EventFrame(EventName(item), wire.json(item))
  }

  function FramesOf(wire: Wire, out: seq<Output>): (r: seq<Sse.Frame>)
    ensures |r| == |out| && forall i :: 0 <= i < |out| ==> r[i] == FrameOf(wire, out[i])
  {
    if out == [] then [] else FramesOf(wire, out[..|out| - 1]) + [FrameOf(wire, out[|out| - 1])]
  }

  function EventOf(wire: Wire, item: Item): SseParser.ParsedEvent {
    SseParser.ParsedEvent(EventName(item), wire.json(item))
  }

  function EventsFor(wire: Wire, items: seq<Item>): seq<SseParser.ParsedEvent> {
    seq(|items|, i requires 0 <= i < |items| => EventOf(wire, items[i]))
  }

  /** json.dumps of a dictionary: one line, between braces. */
  ghost predicate WritesObjects(wire: Wire) {
    forall item :: SseParser.OneLine(wire.json(item)) && SseParser.JsonObjectText(wire.json(item))
  }

  /** The stream opens with the comment and `ready`, and never sends `ready` again. */
  predicate Opens(out: seq<Output>) {
    |out| >= 2 && out[..2] == INIT.out && forall i :: 2 <= i < |out| ==> !out[i].Ready?
  }

  lemma {:induction false} RunOpens(steps: seq<Step>)
    requires RunFrom(true, INIT, steps).Some?
    ensures Opens(RunFrom(true, INIT, steps).value.out)
  {
    if steps != [] {
      RunOpens(steps[..|steps| - 1]);
    }
  }

  lemma NamesHaveNoSpace(item: Item)
    ensures EventName(item) != "" && SseParser.NoSpace(EventName(item))
  {}

  lemma ReadyIsSendable()
    ensures Sse.Sendable(Sse.EventFrame("ready", ACCEPTED))
  {}

  lemma FrameIsSendable(wire: Wire, o: Output)
    requires WritesObjects(wire)
    ensures Sse.Sendable(FrameOf(wire, o))
  {
    hide EventName, SseParser.NoSpace, SseParser.JsonObjectText;
    match o
    case Connected =>
    case KeepAlive =>
    case Ready => ReadyIsSendable();
    case Queued(item) => NamesHaveNoSpace(item);
    case Fallback(item) => NamesHaveNoSpace(item);
  }

  lemma FramesAreSendable(wire: Wire, out: seq<Output>)
    requires WritesObjects(wire)
    ensures forall f :: f in FramesOf(wire, out) ==> Sse.Sendable(f)
  {
    hide *;
    var frames := FramesOf(wire, out);
    forall f | f in frames
      ensures Sse.Sendable(f)
    {
      var i :| 0 <= i < |frames| && frames[i] == f;
      FrameIsSendable(wire, out[i]);
    }
  }

  lemma {:induction false} EventsOfAppend(frames: seq<Sse.Frame>, f: Sse.Frame)
    ensures Sse.EventsOf(frames + [f]) == Sse.EventsOf(frames) + Sse.EventIn(f)
  {
    if frames == [] {
      assert ([] + [f])[1..] == [] && Sse.EventsOf([]) == [];
      assert [] + Sse.EventIn(f) == Sse.EventIn(f) + [];
    } else {
      hide Sse.EventIn;
      var first, rest := Sse.EventIn(frames[0]), Sse.EventsOf(frames[1..]);
      SseClient.Reassociate(first, rest, Sse.EventIn(f));
      EventsOfAppend(frames[1..], f);
      assert (frames + [f])[1..] == frames[1..] + [f];
    }
  }

  lemma {:induction false} EventsOfFrames(wire: Wire, out: seq<Output>)
    requires Opens(out)
    ensures Sse.EventsOf(FramesOf(wire, out)) == [SseParser.ParsedEvent("ready", ACCEPTED)] + EventsFor(wire, Seen(out))
  {
    if |out| == 2 {
      EventsOfOpening(wire);
      assert out == INIT.out;
    } else {
      var init, last := out[..|out| - 1], out[|out| - 1];
      assert init + [last] == out;
      assert init[..2] == out[..2];
      EventsOfFrames(wire, init);
      hide Sse.EventsOf, Opens, Seen, EventOf;
      EventsOfAppend(FramesOf(wire, init), FrameOf(wire, last));
      OutGrows(init, last);
    }
  }

  lemma EventsOfOpening(wire: Wire)
    ensures Sse.EventsOf(FramesOf(wire, INIT.out)) == [SseParser.ParsedEvent("ready", ACCEPTED)] + EventsFor(wire, Seen(INIT.out))
  {
    NothingDelivered();
    var frames := FramesOf(wire, INIT.out);
    assert frames == [Sse.CommentFrame("connected"), Sse.EventFrame("ready", ACCEPTED)];
    var ready := Sse.EventFrame("ready", ACCEPTED);
    assert frames[1..] == [ready] && [ready][1..] == [];
    assert Sse.EventsOf([ready]) == Sse.EventIn(ready);
    assert Sse.EventsOf(frames) == Sse.EventIn(ready);
  }

  /**
   * From queue to screen: however the worker and the generator interleave and
   * however the network cuts the text, a client that reads the whole stream
   * decodes `ready`, everything the worker queued in order, and the fallback
   * pair exactly when the worker ended without queueing `done`.
   */
  lemma EndToEnd(wire: Wire, steps: seq<Step>, chunks: seq<string>)
    requires WritesObjects(wire) && RunFrom(true, INIT, steps).Some?
    requires RunFrom(true, INIT, steps).value.generator == Returned
    requires SseClient.Concat(chunks) == Sse.EncodeAll(FramesOf(wire, RunFrom(true, INIT, steps).value.out))
    ensures var s := RunFrom(true, INIT, steps).value;
            Sse.Drain(SseClient.Concat(chunks))
              == Sse.Drained([SseParser.ParsedEvent("ready", ACCEPTED)] + EventsFor(wire, Expected(s.produced)), "")
  {
    var s := RunFrom(true, INIT, steps).value;
    ClientSeesTheRun(steps);
    RunOpens(steps);
    hide *;
    FramesAreSendable(wire, s.out);
    EventsOfFrames(wire, s.out);
    Sse.DecodeEncode(FramesOf(wire, s.out));
  }

  // ---- Progress -------------------------------------------------------------------------------

  /** How many generator steps can remain once the worker has stopped. */
  function Rank(s: State): nat {
    match s.generator
    case Waiting => 8 * |s.queue| + 5
    case TimedOut => if s.queue == [] then 4 else 8 * |s.queue| + 7
    case HalfChecked => if s.queue == [] then 3 else 8 * |s.queue| + 6
    case FallingBack => 2
    case ClosingFallback => 1
    case Returned => 0
  }

  /** With the worker stopped, the generator always has a step, and every step brings it nearer its return. */
  lemma GeneratorReturns(s: State)
    requires Inv(s) && !IsAlive(s.worker)
    ensures s.generator != Returned ==> exists step :: GeneratorStep(step) && Enabled(s, step)
    ensures forall step :: GeneratorStep(step) && Enabled(s, step) ==> Rank(Apply(true, s, step)) < Rank(s)
    ensures forall step :: Enabled(s, step) ==> GeneratorStep(step)
  {
    hide Delivered, Seen, DoneIsLast, Rank, Apply;
    assert GeneratorStep(Get) && GeneratorStep(TimeOut) && GeneratorStep(FirstCheck)
        && GeneratorStep(SecondCheck) && GeneratorStep(SendFallback);
    match s.generator {
      case Waiting => assert Enabled(s, if s.queue == [] then TimeOut else Get);
      case TimedOut => assert Enabled(s, FirstCheck);
      case HalfChecked => assert Enabled(s, SecondCheck);
      case FallingBack => assert Enabled(s, SendFallback);
      case ClosingFallback => assert Enabled(s, SendFallback);
      case Returned =>
    }
    forall step | GeneratorStep(step) && Enabled(s, step)
      ensures Rank(Apply(true, s, step)) < Rank(s)
    {
      StepDescends(s, step);
    }
  }

  lemma StepDescends(s: State, step: Step)
    requires !IsAlive(s.worker) && GeneratorStep(step) && Enabled(s, step)
    ensures Rank(Apply(true, s, step)) < Rank(s)
  {}

  // ---- Why liveness is asked first ----------------------------------------------------------------

  lemma {:induction false} RunAppend(livenessFirst: bool, s: State, steps: seq<Step>, step: Step)
    requires RunFrom(livenessFirst, s, steps).Some? && Enabled(RunFrom(livenessFirst, s, steps).value, step)
    ensures RunFrom(livenessFirst, s, steps + [step])
         == Some(Apply(livenessFirst, RunFrom(livenessFirst, s, steps).value, step))
  {
    assert (steps + [step])[..|steps|] == steps;
  }

  /** A time-out finds the queue empty; the worker then queues its answer and exits. */
  predicate AnswersBetweenTheTests(steps: seq<Step>) {
    && |steps| == 8
    && steps[0] == TimeOut && steps[1] == FirstCheck && steps[2] == Return("", "")
    && steps[3] == Put && steps[4] == Put
    && steps[5] == SecondCheck && steps[6] == SendFallback && steps[7] == SendFallback
  }

  lemma WorkerAnswersLate(steps: seq<Step>, out: seq<Output>)
    requires AnswersBetweenTheTests(steps) && out == INIT.out + [KeepAlive]
    ensures RunFrom(false, INIT, steps[..5])
         == Some(State(Exited, [Message(""), Done(true)], HalfChecked, out, [Message(""), Done(true)]))
  {
    hide RunFrom;
    RunOfNone(false, INIT);
    assert steps[..0] == [];
    RunOneMore(steps, 0, INIT);
    RunOneMore(steps, 1, State(Orchestrating(false), [], TimedOut, out, []));
    RunOneMore(steps, 2, State(Orchestrating(false), [], HalfChecked, out, []));
    RunOneMore(steps, 3, State(Answering("", "", false), [], HalfChecked, out, []));
    assert [] + [Message("")] == [Message("")];
    assert [Message("")] + [Done(true)] == [Message(""), Done(true)];
    RunOneMore(steps, 4, State(Finishing(true), [Message("")], HalfChecked, out, [Message("")]));
  }

  lemma EmptinessFirstRun(steps: seq<Step>, out: seq<Output>)
    requires AnswersBetweenTheTests(steps) && out == INIT.out + [KeepAlive]
    ensures RunFrom(false, INIT, steps)
         == Some(State(Exited, [Message(""), Done(true)], Returned,
                       out + [Fallback(UNEXPECTED_END)] + [Fallback(Done(false))], [Message(""), Done(true)]))
  {
    hide RunFrom;
    WorkerAnswersLate(steps, out);
    var produced := [Message(""), Done(true)];
    RunOneMore(steps, 5, State(Exited, produced, HalfChecked, out, produced));
    RunOneMore(steps, 6, State(Exited, produced, FallingBack, out, produced));
    RunOneMore(steps, 7, State(Exited, produced, ClosingFallback, out + [Fallback(UNEXPECTED_END)], produced));
    assert steps[..8] == steps;
  }

  lemma RunOfNone(livenessFirst: bool, s: State)
    ensures RunFrom(livenessFirst, s, []) == Some(s)
  {}

  lemma RunOneMore(steps: seq<Step>, k: nat, s: State)
    requires k < |steps| && RunFrom(false, INIT, steps[..k]) == Some(s) && Enabled(s, steps[k])
    ensures RunFrom(false, INIT, steps[..k + 1]) == Some(Apply(false, s, steps[k]))
  {
    RunAppend(false, INIT, steps[..k], steps[k]);
    assert steps[..k] + [steps[k]] == steps[..k + 1];
  }

  /**
   * No run is cut short: while orchestration lasts it may go on in any way, after
   * it the worker may queue its next item, a living worker may die at any point, and
   * until it returns the generator has a step.
   */
  lemma RunsGoOn(steps: seq<Step>, text: string, code: string, assistant: string, body: string)
    requires RunFrom(true, INIT, steps).Some?
    ensures var s := RunFrom(true, INIT, steps).value;
            && (s.worker.Orchestrating? ==>
                  && RunFrom(true, INIT, steps + [OnDelta(text)]).Some?
                  && RunFrom(true, INIT, steps + [Raise(code)]).Some?
                  && RunFrom(true, INIT, steps + [Return(assistant, body)]).Some?)
            && (IsAlive(s.worker) && !s.worker.Orchestrating? ==> RunFrom(true, INIT, steps + [Put]).Some?)
            && (IsAlive(s.worker) ==> RunFrom(true, INIT, steps + [Die]).Some?)
            && (s.generator != Returned ==> exists step :: GeneratorStep(step) && RunFrom(true, INIT, steps + [step]).Some?)
  {
    var s := RunFrom(true, INIT, steps).value;
    hide RunFrom, Apply;
    if s.worker.Orchestrating? {
      RunAppend(true, INIT, steps, OnDelta(text));
      RunAppend(true, INIT, steps, Raise(code));
      RunAppend(true, INIT, steps, Return(assistant, body));
    } else if IsAlive(s.worker) {
      RunAppend(true, INIT, steps, Put);
    }
    if IsAlive(s.worker) {
      RunAppend(true, INIT, steps, Die);
    }
    if s.generator != Returned {
      var step := match s.generator
        case Waiting => if s.queue == [] then TimeOut else Get
        case TimedOut => FirstCheck
        case HalfChecked => SecondCheck
        case _ => SendFallback;
      assert GeneratorStep(step) && Enabled(s, step);
      RunAppend(true, INIT, steps, step);
    }
  }

  /**
   * With the two tests exchanged, the worker can queue its whole answer between
   * them: the client is told of an unexpected end although `done` was queued.
   */
  lemma EmptinessFirstLosesTheAnswer()
    ensures exists steps ::
              && RunFrom(false, INIT, steps).Some?
              && var s := RunFrom(false, INIT, steps).value;
                 && s.generator == Returned && s.worker == Exited && !NoDone(s.produced)
                 && Seen(s.out) == [UNEXPECTED_END, Done(false)] && Delivered(s.out) == []
  {
    hide RunFrom, Seen, Delivered;
    var steps := [TimeOut, FirstCheck, Return("", ""), Put, Put, SecondCheck, SendFallback, SendFallback];
    EmptinessFirstRun(steps, INIT.out + [KeepAlive]);
    var s := RunFrom(false, INIT, steps).value;
    OnlyTheFallbackSeen(s.out);
    assert s.produced[1].Done?;
  }

  lemma OnlyTheFallbackSeen(out: seq<Output>)
    requires out == INIT.out + [KeepAlive] + [Fallback(UNEXPECTED_END)] + [Fallback(Done(false))]
    ensures Seen(out) == [UNEXPECTED_END, Done(false)] && Delivered(out) == []
  {
    hide Seen, Delivered;
    var o1 := INIT.out + [KeepAlive];
    var o2 := o1 + [Fallback(UNEXPECTED_END)];
    NothingDelivered();
    OutGrows(INIT.out, KeepAlive);
    OutGrows(o1, Fallback(UNEXPECTED_END));
    OutGrows(o2, Fallback(Done(false)));
    assert [] + [UNEXPECTED_END] + [Done(false)] == [UNEXPECTED_END, Done(false)];
  }

  lemma NothingDelivered()
    ensures Delivered(INIT.out) == [] && Seen(INIT.out) == []
  {
    InitInv();
    assert |Delivered(INIT.out) + INIT.queue| == |Delivered(INIT.out)|;
  }
}
