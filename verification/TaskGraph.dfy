/**
 * The graph a delivered job runs: packages/domain/services/graph (nodes.py,
 * routes.py, builder.py), as functions on the task. The tools of a step, and
 * what planning afresh would yield, are arbitrary.
 */
module TaskGraph {
  import opened Results
  import opened OperationPlan
  import opened TaskState

  /** The graph's nodes, in the order of builder.py; `Ended` is its END. */
  datatype GraphNode =
    | Parse | PlanNode
    | StepNode(step: StepName)
    | WaitingNode | ApprovalNode | FailedNode | SuccessNode
    | Ended

  /** The part of GISAgentState that routes read; a key that was never set is Ready, which no route asks for. */
  datatype GraphState = GraphState(needClarification: bool, phase: Phase)

  /** What a step's execution meets; a dying worker leaves what was committed. */
  datatype StepOutcome = LimitReached | ReactSkip | ReactFail | ToolSucceeds | ToolFails | WorkerDies

  /** _required_step_sequence of planner.py: the steps of every plan build_task_plan makes. */
  function RequiredSteps(localFilesOnly: bool, clip: bool): seq<StepName> {
    if localFilesOnly then [PlanTask, RunProcessing, GenerateOutputs]
    else if clip then [PlanTask, NormalizeAoi, RunProcessing, GenerateOutputs]
    else STEP_SEQUENCE
  }

  predicate PlannerBuilt(steps: seq<StepName>) {
    exists localFilesOnly, clip :: steps == RequiredSteps(localFilesOnly, clip)
  }

  /** What build_task_plan yields for a task without an approved plan, and the plan made from it. */
  datatype Replan = Replan(phase: Phase, steps: seq<StepName>, operation: Plan)

  /** Everything a delivery does not decide itself; it lives for `lifetime` graph nodes. */
  datatype Env = Env(outcomes: map<StepName, StepOutcome>, replan: Replan, lifetime: nat)

  function OutcomeOf(env: Env, step: StepName): StepOutcome {
    if step in env.outcomes then env.outcomes[step] else ToolSucceeds
  }

  // ---- routes.py and builder.py ------------------------------------------------------------------------

  function NextStep(step: StepName): GraphNode {
    match step
    case PlanTask => StepNode(NormalizeAoi)
    case NormalizeAoi => StepNode(SearchCandidates)
    case SearchCandidates => StepNode(RecommendDataset)
    case RecommendDataset => StepNode(RunProcessing)
    case RunProcessing => StepNode(GenerateOutputs)
    case GenerateOutputs => SuccessNode
  }

  function RouteAfterStep(g: GraphState, successNext: GraphNode): GraphNode {
    if g.needClarification then WaitingNode
    else if g.phase == ApprovalRequired then ApprovalNode
    else if g.phase == Faulty then FailedNode
    else successNext
  }

  function Route(node: GraphNode, g: GraphState): GraphNode {
    match node
    case Parse => RouteAfterStep(g, PlanNode)
    case PlanNode => RouteAfterStep(g, StepNode(NormalizeAoi))
    case StepNode(step) => RouteAfterStep(g, NextStep(step))
    case _ => Ended
  }

  /** Nodes still to come at most; the graph has no way back. */
  function Rank(node: GraphNode): nat {
    match node
    case Parse => 9
    case PlanNode => 8
    case StepNode(PlanTask) => 7
    case StepNode(NormalizeAoi) => 6
    case StepNode(SearchCandidates) => 5
    case StepNode(RecommendDataset) => 4
    case StepNode(RunProcessing) => 3
    case StepNode(GenerateOutputs) => 2
    case Ended => 0
    case _ => 1
  }

  // ---- One node ----------------------------------------------------------------------------------------

  /** What is committed after a node: it hands over to its route, or the run stops with an exception or a dead worker. */
  datatype NodeResult = Next(task: Task, state: GraphState) | Stopped(task: Task)

  function ParseTask(t: Task, g: GraphState): NodeResult {
    Next(t, g.(needClarification := t.needConfirmation))
  }

  predicate AwaitsApproval(t: Task) {
    t.status == AwaitingApproval
    || (t.plan.operation.Some? && t.plan.operation.value.status in {Draft, Validated})
  }

  predicate HasApprovedPlan(t: Task) {
    t.plan.operation.Some? && t.plan.operation.value.status == Approved
  }

  function PlanTaskNode(t: Task, replan: Replan): NodeResult {
    if AwaitsApproval(t) then Next(t, GraphState(false, ApprovalRequired))
    else if HasApprovedPlan(t) then Next(t, GraphState(false, t.plan.phase))
    else
      var replanned :=
        if replan.phase != NeedsClarification && t.plan.operation.None?
        then PlanJson(replan.phase, replan.steps, Some(replan.operation.(version := 1, status := Approved)), 1)
        else PlanJson(replan.phase, replan.steps, None, 0);
      Next(t.(plan := replanned), GraphState(replan.phase == NeedsClarification, replan.phase))
  }

  /** How the start of the runtime ends: early with a question, with an exception, or running. */
  datatype Start = Early(task: Task) | Refused | Begun(task: Task)

  /** _prepare_runtime_start */
  function PrepareRuntimeStart(t: Task): Start {
    if t.blocked then
      var asked := t.(plan := t.plan.(phase := NeedsClarification));
      Early(if t.status == WaitingClarification then asked.(place := At(NormalizeAoi))
            else asked.(status := WaitingClarification, place := At(NormalizeAoi), log := t.log + [TaskWaiting]))
    else if t.status == WaitingClarification then Early(t)
    else if t.needConfirmation then
      match WithStatus(t, WaitingClarification, Some(AtParsing), TaskWaiting, false)
      case Some(u) => Early(u)
      case None => Refused
    else
      var ready := t.(steps := WithPendingSteps(t.steps, t.plan.steps), plan := t.plan.(phase := InProgress));
      var place := if t.plan.steps == [] then None else Some(At(t.plan.steps[0]));
      match WithStatus(ready, Running, place, TaskStarted, false)
      case Some(u) => Begun(u)
      case None => Refused
  }

  predicate StepPlanned(t: Task, step: StepName) {
    t.plan.steps == [] || step in t.plan.steps
  }

  /** set_task_plan_step_status */
  function PhaseAfterStep(phase: Phase, status: StepStatus): Phase {
    if status == StepFailed then Faulty
    else if phase == NeedsClarification || phase == Complete then phase
    else InProgress
  }

  function WithPlannedStep(t: Task, step: StepName, status: StepStatus): Option<Task> {
    match WithStep(t, step, status)
    case Some(u) => Some(u.(plan := u.plan.(phase := PhaseAfterStep(u.plan.phase, status))))
    case None => None
  }

  datatype ToolResult = Executed(task: Task) | Raised(task: Task) | Died(task: Task)

  /** The tool of the processing step reads the stored operation plan. */
  function WithPipeline(t: Task, step: StepName): Task {
    if step != RunProcessing then t
    else t.(log := t.log + [PipelineRan(if t.plan.operation.Some? then t.plan.operation.value.nodes else [])])
  }

  /** execute_tool_step */
  function ExecuteToolStep(t: Task, step: StepName, outcome: StepOutcome): ToolResult {
    match outcome
    case LimitReached => Raised(t)
    case ReactFail => Raised(t)
    case ReactSkip =>
      (match WithPlannedStep(t, step, StepSkipped)
       case Some(u) => Executed(u)
       case None => Raised(t))
    case _ =>
      match WithPlannedStep(t, step, StepRunning)
      case None => Raised(t)
      case Some(u) =>
        var v := WithPipeline(u, step);
        if outcome == ToolFails then Raised(v)
        else if outcome == WorkerDies then Died(v)
        else Executed(AfterTool(v, step))
  }

  function AfterTool(t: Task, step: StepName): Task {
    match WithPlannedStep(t, step, StepSuccess)
    case Some(u) => u
    case None => t
  }

  /** The exception handler of _run_runtime_step. */
  function FailRun(t: Task): NodeResult {
    var marked := MarkCurrentStepFailed(t);
    match WithStatus(marked.(plan := marked.plan.(phase := Faulty)), FailedTask, None, TaskFailed, false)
    case Some(u) => Next(u, GraphState(false, Faulty))
    case None => Stopped(t)
  }

  function MarkCurrentStepFailed(t: Task): Task {
    if t.place.At? && t.place.step in t.steps && StepOf(t.steps, t.place.step) in {StepPending, StepRunning} then
      match WithPlannedStep(t, t.place.step, StepFailed)
      case Some(u) => u
      case None => t
    else t
  }

  /** The task's success at the end of the last step. */
  function FinishRun(t: Task): NodeResult {
    match WithStatus(t.(plan := t.plan.(phase := Complete)), Succeeded, Some(At(GenerateOutputs)), TaskCompleted, false)
    case Some(u) => Next(u, GraphState(false, Complete))
    case None => FailRun(t.(plan := t.plan.(phase := Complete)))
  }

  /** The step itself, on a task that is running. */
  function RunStarted(t: Task, step: StepName, outcome: StepOutcome): NodeResult {
    if !StepPlanned(t, step) then Next(t.(log := t.log + [StepNotPlanned(step)]), GraphState(false, InProgress))
    else
      match ExecuteToolStep(t, step, outcome)
      case Raised(u) => FailRun(u)
      case Died(u) => Stopped(u)
      case Executed(u) => if step == GenerateOutputs then FinishRun(u) else Next(u, GraphState(false, InProgress))
  }

  /** _run_runtime_step */
  function RunRuntimeStep(t: Task, step: StepName, outcome: StepOutcome): NodeResult {
    if step == NormalizeAoi && t.status != Running then
      match PrepareRuntimeStart(t)
      case Early(u) => Next(u, GraphState(true, NeedsClarification))
      case Refused => Stopped(t)
      case Begun(u) => RunStarted(u, step, outcome)
    else RunStarted(t, step, outcome)
  }

  /** The finalisers force the status they stand for. */
  function Finalise(t: Task, node: GraphNode, g: GraphState): Task {
    if (node == WaitingNode || node == SuccessNode) && g.needClarification && t.status != WaitingClarification then
      t.(status := WaitingClarification, place := AtParsing, plan := t.plan.(phase := NeedsClarification),
         log := t.log + [TaskWaiting])
    else if node == FailedNode && t.status != FailedTask then
      t.(status := FailedTask, log := t.log + [TaskFailed])
    else if node == ApprovalNode && t.status != AwaitingApproval then
      t.(status := AwaitingApproval, place := AtApproval, log := t.log + [TaskNeedsApproval])
    else t
  }

  function RunNode(t: Task, g: GraphState, node: GraphNode, env: Env): NodeResult {
    match node
    case Parse => ParseTask(t, g)
    case PlanNode => PlanTaskNode(t, env.replan)
    case StepNode(step) => RunRuntimeStep(t, step, OutcomeOf(env, step))
    case _ => Next(Finalise(t, node, g), g)
  }

  // ---- A delivery ----------------------------------------------------------------------------------------

  /** What is committed when the run from `node` is over. */
  function RunFrom(t: Task, g: GraphState, node: GraphNode, env: Env, lifetime: nat): Task
    decreases lifetime
  {
    if node == Ended || lifetime == 0 then t
    else
      match RunNode(t, g, node, env)
      case Stopped(u) => u
      case Next(u, g') => RunFrom(u, g', Route(node, g'), env, lifetime - 1)
  }

  /** run_task_graph */
  function Deliver(t: Task, env: Env): Task {
    RunFrom(t, GraphState(false, Ready), Parse, env, env.lifetime)
  }
}
