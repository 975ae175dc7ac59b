/**
 * Task and step states: packages/domain/services/task_state.py, and the part of
 * a task's row that plan approval and the task graph read and write.
 */
module TaskState {
  import opened Results
  import opened OperationPlan

  datatype TaskStatus =
    | DraftTask | WaitingClarification | AwaitingApproval | ApprovedTask | Queued
    | Running | Succeeded | FailedTask | Cancelled

  datatype StepStatus = StepPending | StepRunning | StepSuccess | StepFailed | StepSkipped

  datatype StepName = PlanTask | NormalizeAoi | SearchCandidates | RecommendDataset | RunProcessing | GenerateOutputs

  const STEP_SEQUENCE := [PlanTask, NormalizeAoi, SearchCandidates, RecommendDataset, RunProcessing, GenerateOutputs]

  /** plan_json.status, and the extra value a graph run uses. */
  datatype Phase = Ready | NeedsClarification | ApprovalRequired | InProgress | Complete | Faulty

  /** current_step: a step, or one of the other places the code names. */
  datatype Place = Nowhere | At(step: StepName) | AtApproval | AtParsing

  /** Task events; PipelineRan is the start of the processing pipeline on a plan's nodes. */
  datatype Event =
    | StepChanged(step: StepName, status: StepStatus)
    | PlanValidated(version: int) | PlanApproved(version: int) | PlanRejected(version: int)
    | TaskQueued | TaskStarted | TaskCompleted | TaskFailed | TaskCancelled
    | TaskWaiting | TaskNeedsApproval
    | StepNotPlanned(step: StepName)
    | PipelineRan(nodes: seq<Node>)

  /** plan_json: its status, its planned steps, and the operation plan with its version. */
  datatype PlanJson = PlanJson(phase: Phase, steps: seq<StepName>, operation: Option<Plan>, version: int)

  /** A task, with need_confirmation of its specification and execution_blocked of its active revision. */
  datatype Task = Task(
    status: TaskStatus,
    place: Place,
    plan: PlanJson,
    steps: map<StepName, StepStatus>,
    log: seq<Event>,
    needConfirmation: bool,
    blocked: bool)

  // ---- The transition tables -----------------------------------------------------------------------

  function TaskTargets(s: TaskStatus): set<TaskStatus> {
    match s
    case DraftTask => {Queued, WaitingClarification, AwaitingApproval}
    case WaitingClarification => {Queued, FailedTask, Cancelled, AwaitingApproval, Running}
    case AwaitingApproval => {ApprovedTask, Cancelled, FailedTask, WaitingClarification}
    case ApprovedTask => {Queued, Cancelled, FailedTask}
    case Queued => {Running, FailedTask, Cancelled, WaitingClarification, AwaitingApproval}
    case Running => {Succeeded, FailedTask, Cancelled, WaitingClarification}
    case Succeeded => {}
    case FailedTask => {}
    case Cancelled => {}
  }

  function StepTargets(s: StepStatus): set<StepStatus> {
    match s
    case StepPending => {StepRunning, StepFailed, StepSkipped}
    case StepRunning => {StepSuccess, StepFailed, StepSkipped}
    case StepSuccess => {}
    case StepFailed => {}
    case StepSkipped => {}
  }

  predicate TaskMayMove(s: TaskStatus, t: TaskStatus) {
    s == t || t in TaskTargets(s)
  }

  predicate StepMayMove(s: StepStatus, t: StepStatus) {
    s == t || t in StepTargets(s)
  }

  predicate Terminal(s: TaskStatus) {
    s == Succeeded || s == FailedTask || s == Cancelled
  }

  predicate StepTerminal(s: StepStatus) {
    s == StepSuccess || s == StepFailed || s == StepSkipped
  }

  // ---- set_task_status and set_step_status -----------------------------------------------------------

  function StepOf(steps: map<StepName, StepStatus>, step: StepName): StepStatus {
    if step in steps then steps[step] else StepPending
  }

  /** None is the ValueError of a transition that is not in the table. */
  function WithStatus(t: Task, status: TaskStatus, place: Option<Place>, event: Event, force: bool): Option<Task> {
    if !force && !TaskMayMove(t.status, status) then None
    else Some(t.(status := status, place := if place.Some? then place.value else t.place, log := t.log + [event]))
  }

  function WithStep(t: Task, step: StepName, status: StepStatus): Option<Task> {
    var previous := StepOf(t.steps, step);
    if !StepMayMove(previous, status) then None
    else Some(t.(steps := t.steps[step := status], place := At(step),
                 log := if previous != status then t.log + [StepChanged(step, status)] else t.log))
  }

  /** ensure_task_steps: the steps that are missing are added as pending. */
  function WithPendingSteps(steps: map<StepName, StepStatus>, names: seq<StepName>): map<StepName, StepStatus> {
    if names == [] then steps
    else
      var s := WithPendingSteps(steps, names[..|names| - 1]);
      var name := names[|names| - 1];
      if name in s then s else s[name := StepPending]
  }

  lemma {:induction false} PendingStepsChangeNothing(steps: map<StepName, StepStatus>, names: seq<StepName>, step: StepName)
    ensures StepOf(WithPendingSteps(steps, names), step) == StepOf(steps, step)
  {
    if names != [] {
      PendingStepsChangeNothing(steps, names[..|names| - 1], step);
    }
  }

  // ---- Replaying the step events -----------------------------------------------------------------------

  /** The statuses a step went through, as its step_status_changed events tell them. */
  function History(log: seq<Event>, step: StepName): seq<StepStatus> {
    if log == [] then []
    else
      var h := History(log[..|log| - 1], step);
      match log[|log| - 1]
      case StepChanged(s, status) => if s == step then h + [status] else h
      case _ => h
  }

  /** The status a reader of the events believes the step to have. */
  function Replayed(history: seq<StepStatus>): StepStatus {
    if history == [] then StepPending else history[|history| - 1]
  }

  /** At most one terminal status, at the end, and before it at most the running status. */
  predicate LegalHistory(h: seq<StepStatus>) {
    || h == []
    || h == [StepRunning]
    || (|h| == 1 && (h[0] == StepFailed || h[0] == StepSkipped))
    || (|h| == 2 && h[0] == StepRunning && StepTerminal(h[1]))
  }

  /** The events tell the truth about every step. */
  ghost predicate Faithful(t: Task) {
    forall step :: FaithfulAt(t, step)
  }

  predicate FaithfulAt(t: Task, step: StepName) {
    var h := History(t.log, step);
    StepOf(t.steps, step) == Replayed(h) && LegalHistory(h)
  }

  lemma HistoryGrows(log: seq<Event>, e: Event, step: StepName)
    ensures History(log + [e], step)
         == if e.StepChanged? && e.step == step then History(log, step) + [e.status] else History(log, step)
  {
    assert (log + [e])[..|log|] == log;
  }

  lemma StepKeepsFaithful(t: Task, step: StepName, status: StepStatus)
    requires Faithful(t) && WithStep(t, step, status).Some?
    ensures Faithful(WithStep(t, step, status).value)
  {
    hide History;
    var u := WithStep(t, step, status).value;
    forall s
      ensures FaithfulAt(u, s)
    {
      assert FaithfulAt(t, s) && FaithfulAt(t, step);
      HistoryGrows(t.log, StepChanged(step, status), s);
    }
  }

  /** Anything that appends an event of another kind and leaves the statuses of the steps alone. */
  lemma OtherEventKeepsFaithful(t: Task, u: Task, e: Event)
    requires Faithful(t) && !e.StepChanged? && u.log == t.log + [e]
    requires forall s :: StepOf(u.steps, s) == StepOf(t.steps, s)
    ensures Faithful(u)
  {
    hide History;
    forall s
      ensures FaithfulAt(u, s)
    {
      assert FaithfulAt(t, s);
      HistoryGrows(t.log, e, s);
    }
  }

  /** A sequence of set_step_status calls; a refused call raises and changes nothing. */
  function AfterCalls(t: Task, calls: seq<(StepName, StepStatus)>): Task {
    if calls == [] then t
    else
      var u := AfterCalls(t, calls[..|calls| - 1]);
      var call := calls[|calls| - 1];
      match WithStep(u, call.0, call.1)
      case Some(v) => v
      case None => u
  }

  /**
   * After any calls of set_step_status, replaying the events from all-pending
   * gives every step's status; no step has more than two events, and none
   * follows a terminal status.
   */
  lemma {:induction false} ReplayGivesTheSteps(t: Task, calls: seq<(StepName, StepStatus)>, step: StepName)
    requires Faithful(t)
    ensures var u := AfterCalls(t, calls);
            var h := History(u.log, step);
            && Faithful(u)
            && StepOf(u.steps, step) == Replayed(h)
            && |h| <= 2
            && (forall i :: 0 <= i < |h| - 1 ==> !StepTerminal(h[i]))
  {
    CallsKeepFaithful(t, calls);
    assert FaithfulAt(AfterCalls(t, calls), step);
  }

  lemma {:induction false} CallsKeepFaithful(t: Task, calls: seq<(StepName, StepStatus)>)
    requires Faithful(t)
    ensures Faithful(AfterCalls(t, calls))
  {
    if calls != [] {
      CallsKeepFaithful(t, calls[..|calls| - 1]);
      var u, call := AfterCalls(t, calls[..|calls| - 1]), calls[|calls| - 1];
      if WithStep(u, call.0, call.1).Some? {
        StepKeepsFaithful(u, call.0, call.1);
      }
    }
  }

  /** The statuses with no way out are exactly success, failed and cancelled; for steps success, failed, skipped. */
  lemma NoWayOut(s: TaskStatus, p: StepStatus)
    ensures Terminal(s) <==> forall t :: TaskMayMove(s, t) ==> t == s
    ensures StepTerminal(p) <==> forall q :: StepMayMove(p, q) ==> q == p
  {
    if !Terminal(s) {
      var t := if s == ApprovedTask then Queued else if s == DraftTask then Queued else if s == Running then Succeeded
               else if s == Queued then Running else if s == WaitingClarification then Running else ApprovedTask;
      assert TaskMayMove(s, t) && t != s;
    }
    if !StepTerminal(p) {
      assert StepMayMove(p, StepFailed) && StepFailed != p;
    }
  }

  /** From where each status may be entered: the transition tables read backwards. */
  lemma EnteredOnlyFrom(s: TaskStatus, p: StepStatus)
    ensures TaskMayMove(s, DraftTask) <==> s == DraftTask
    ensures TaskMayMove(s, AwaitingApproval) <==> s in {DraftTask, WaitingClarification, Queued, AwaitingApproval}
    ensures TaskMayMove(s, ApprovedTask) <==> s in {AwaitingApproval, ApprovedTask}
    ensures TaskMayMove(s, Queued) <==> s in {DraftTask, WaitingClarification, ApprovedTask, Queued}
    ensures TaskMayMove(s, Running) <==> s in {WaitingClarification, Queued, Running}
    ensures TaskMayMove(s, Succeeded) <==> s in {Running, Succeeded}
    ensures TaskMayMove(s, WaitingClarification)
       <==> s in {DraftTask, AwaitingApproval, Queued, Running, WaitingClarification}
    ensures TaskMayMove(s, Cancelled) <==> s !in {DraftTask, Succeeded, FailedTask}
    ensures TaskMayMove(s, FailedTask) <==> s !in {DraftTask, Succeeded, Cancelled}
    ensures StepMayMove(p, StepPending) <==> p == StepPending
    ensures StepMayMove(p, StepRunning) <==> p in {StepPending, StepRunning}
    ensures StepMayMove(p, StepSuccess) <==> p in {StepRunning, StepSuccess}
    ensures StepMayMove(p, StepSkipped) <==> p in {StepPending, StepRunning, StepSkipped}
    ensures StepMayMove(p, StepFailed) <==> p in {StepPending, StepRunning, StepFailed}
  {}
}
