/** How one delivery ends: terminal tasks, and runs that a surviving worker carries to the end. */
module DeliveryEnds {
  import opened Results
  import opened OperationPlan
  import opened TaskState
  import opened TaskGraph

  // ---- Terminal tasks ---------------------------------------------------------------------------------------

  /** A finaliser may still move a settled task, with one event; nothing else happens to it. */
  predicate Settled(t: Task, u: Task) {
    && u.steps == t.steps
    && (|| (u.log == t.log && u.status == t.status)
        || (u.log == t.log + [TaskWaiting] && u.status == WaitingClarification)
        || (u.log == t.log + [TaskFailed] && u.status == FailedTask)
        || (u.log == t.log + [TaskNeedsApproval] && u.status == AwaitingApproval))
  }

  /** Where a delivery of a settled task can be, and what has happened by then. */
  predicate Settling(t: Task, u: Task, node: GraphNode) {
    match node
    case Parse => u.steps == t.steps && u.log == t.log && u.status == t.status
    case PlanNode => u.steps == t.steps && u.log == t.log && u.status == t.status
    case StepNode(step) => step == NormalizeAoi && u.steps == t.steps && u.log == t.log && u.status == t.status
    case Ended => Settled(t, u)
    case _ =>
      && u.steps == t.steps
      && (|| (u.log == t.log && u.status == t.status)
          || (node == WaitingNode && u.log == t.log + [TaskWaiting] && u.status == WaitingClarification))
  }

  lemma {:induction false} StaysSettled(t: Task, u: Task, g: GraphState, node: GraphNode, env: Env, lifetime: nat)
    requires Terminal(t.status) && Settling(t, u, node)
    ensures Settled(t, RunFrom(u, g, node, env, lifetime))
    decreases lifetime
  {
    hide RunNode, Route, Settling;
    if node == Ended || lifetime == 0 {
      StandsSettled(t, u, node);
    } else {
      var r := RunNode(u, g, node, env);
      SettledStep(t, u, g, node, env);
      if r.Next? {
        StaysSettled(t, r.task, r.state, Route(node, r.state), env, lifetime - 1);
      }
    }
  }

  lemma StandsSettled(t: Task, u: Task, node: GraphNode)
    requires Settling(t, u, node)
    ensures Settled(t, u)
  {}

  lemma SettledStep(t: Task, u: Task, g: GraphState, node: GraphNode, env: Env)
    requires Terminal(t.status) && Settling(t, u, node) && node != Ended
    ensures var r := RunNode(u, g, node, env);
            if r.Next? then Settling(t, r.task, Route(node, r.state)) else Settled(t, r.task)
  {
    hide RunStarted, WithPendingSteps;
  }

  /**
   * Whatever the task and whatever happens, a delivery that finds a terminal
   * status starts nothing: no task_started, no step event, no pipeline run, at
   * most the one event of a finaliser.
   */
  lemma TerminalIsNeverRestarted(t: Task, env: Env)
    requires Terminal(t.status)
    ensures Settled(t, Deliver(t, env))
    ensures Deliver(t, env).status != Running
  {
    StaysSettled(t, t, GraphState(false, Ready), Parse, env, env.lifetime);
  }

  lemma OneNode(t: Task, g: GraphState, node: GraphNode, env: Env, lifetime: nat)
    requires node != Ended && lifetime > 0
    ensures var r := RunNode(t, g, node, env);
            RunFrom(t, g, node, env, lifetime)
              == if r.Stopped? then r.task else RunFrom(r.task, r.state, Route(node, r.state), env, lifetime - 1)
  {
    hide RunNode, Route;
  }

  lemma LastNode(t: Task, g: GraphState, node: GraphNode, env: Env, lifetime: nat)
    requires node in {WaitingNode, ApprovalNode, FailedNode, SuccessNode} && lifetime > 0
    ensures RunFrom(t, g, node, env, lifetime) == Finalise(t, node, g)
  {
    OneNode(t, g, node, env, lifetime);
  }

  /** A delivery that has nothing to ask about reaches the first step. */
  lemma ToFirstStep(t: Task, env: Env)
    requires HasApprovedPlan(t) && t.status != AwaitingApproval && !t.needConfirmation && env.lifetime >= 2
    requires t.plan.phase != ApprovalRequired && t.plan.phase != Faulty
    ensures Deliver(t, env)
         == RunFrom(t, GraphState(false, t.plan.phase), StepNode(NormalizeAoi), env, env.lifetime - 2)
  {
    var n := env.lifetime;
    var g0, g1 := GraphState(false, Ready), GraphState(false, t.plan.phase);
    hide RunFrom;
    OneNode(t, g0, Parse, env, n);
    OneNode(t, g0, PlanNode, env, n - 1);
  }

  /**
   * With an approved plan, a completed delivery leaves a terminal status alone
   * exactly if the specification needs no confirmation and either the plan is
   * marked failed, as the task is, or the active revision is not blocked.
   */
  lemma TerminalStaysIff(t: Task, env: Env)
    requires Terminal(t.status) && HasApprovedPlan(t) && t.plan.phase != ApprovalRequired && env.lifetime >= 4
    ensures Deliver(t, env).status == t.status
       <==> !t.needConfirmation && if t.plan.phase == Faulty then t.status == FailedTask else !t.blocked
  {
    var n := env.lifetime;
    var g0 := GraphState(false, Ready);
    var g1 := GraphState(t.needConfirmation, Ready);
    hide RunFrom, RunStarted, WithPendingSteps;
    OneNode(t, g0, Parse, env, n);
    if t.needConfirmation {
      LastNode(t, g1, WaitingNode, env, n - 1);
    } else {
      var g2 := GraphState(false, t.plan.phase);
      OneNode(t, g1, PlanNode, env, n - 1);
      if t.plan.phase == Faulty {
        LastNode(t, g2, FailedNode, env, n - 2);
      } else {
        OneNode(t, g2, StepNode(NormalizeAoi), env, n - 2);
        if t.blocked {
          LastNode(PrepareRuntimeStart(t).task, GraphState(true, NeedsClarification), WaitingNode, env, n - 3);
        }
      }
    }
  }

  // ---- A run to the end ----------------------------------------------------------------------------------------

  predicate Survives(env: Env) {
    forall step :: OutcomeOf(env, step) != WorkerDies
  }

  /** The step is not in the plan, or its tool may start from the status the step has and ends well. */
  predicate Passes(t: Task, env: Env, step: StepName) {
    || !StepPlanned(t, step)
    || (OutcomeOf(env, step) == ToolSucceeds && StepMayMove(StepOf(t.steps, step), StepRunning))
    || (OutcomeOf(env, step) == ReactSkip && StepMayMove(StepOf(t.steps, step), StepSkipped))
  }

  function StepRank(step: StepName): nat {
    Rank(StepNode(step))
  }

  function After(step: StepName): StepName
    requires step != GenerateOutputs
    ensures NextStep(step) == StepNode(After(step)) && StepRank(After(step)) < StepRank(step)
  {
    NextStep(step).step
  }

  /** Every step from this one on passes. */
  predicate PassesFrom(t: Task, env: Env, step: StepName)
    decreases StepRank(step)
  {
    Passes(t, env, step) && (step != GenerateOutputs ==> PassesFrom(t, env, After(step)))
  }

  /** How a run ends: the only way to success is through generate_outputs. */
  function EndOf(t: Task, env: Env, step: StepName): TaskStatus {
    if !PassesFrom(t, env, step) then FailedTask
    else if StepPlanned(t, GenerateOutputs) then Succeeded
    else Running
  }

  /** Whether later steps pass depends on the plan and on their own statuses. */
  lemma {:induction false} LaterStepsPassAlike(t: Task, u: Task, env: Env, ran: StepName, step: StepName)
    requires u.plan.steps == t.plan.steps && StepRank(step) < StepRank(ran)
    requires forall s :: s != ran ==> StepOf(u.steps, s) == StepOf(t.steps, s)
    ensures PassesFrom(u, env, step) == PassesFrom(t, env, step)
    decreases StepRank(step)
  {
    if step != GenerateOutputs {
      LaterStepsPassAlike(t, u, env, ran, After(step));
    }
  }

  lemma {:induction false} SameStepsPassAlike(t: Task, u: Task, env: Env, step: StepName)
    requires u.plan.steps == t.plan.steps && forall s :: StepOf(u.steps, s) == StepOf(t.steps, s)
    ensures PassesFrom(u, env, step) == PassesFrom(t, env, step)
    decreases StepRank(step)
  {
    if step != GenerateOutputs {
      SameStepsPassAlike(t, u, env, After(step));
    }
  }

  lemma PlannedStepEffect(t: Task, step: StepName, status: StepStatus)
    ensures var u := WithPlannedStep(t, step, status);
            && (u.Some? <==> StepMayMove(StepOf(t.steps, step), status))
            && (u.Some? ==> u.value.status == t.status && u.value.plan.steps == t.plan.steps
                            && StepOf(u.value.steps, step) == status
                            && forall s :: s != step ==> StepOf(u.value.steps, s) == StepOf(t.steps, s))
  {}

  lemma ToolEffect(t: Task, step: StepName, outcome: StepOutcome)
    ensures var r := ExecuteToolStep(t, step, outcome);
            && r.task.status == t.status && r.task.plan.steps == t.plan.steps
            && (forall s :: s != step ==> StepOf(r.task.steps, s) == StepOf(t.steps, s))
            && (r.Executed? <==>
                  || (outcome == ToolSucceeds && StepMayMove(StepOf(t.steps, step), StepRunning))
                  || (outcome == ReactSkip && StepMayMove(StepOf(t.steps, step), StepSkipped)))
            && (r.Died? <==> outcome == WorkerDies && StepMayMove(StepOf(t.steps, step), StepRunning))
            && (outcome == ToolSucceeds && r.Executed? ==> StepOf(r.task.steps, step) == StepSuccess)
            && (r.Died? ==> StepOf(r.task.steps, step) == StepRunning)
  {
    hide WithPlannedStep;
    PlannedStepEffect(t, step, StepSkipped);
    PlannedStepEffect(t, step, StepRunning);
    if WithPlannedStep(t, step, StepRunning).Some? {
      PlannedStepEffect(WithPipeline(WithPlannedStep(t, step, StepRunning).value, step), step, StepSuccess);
    }
  }

  lemma FailRunFails(t: Task)
    requires t.status == Running
    ensures FailRun(t).Next? && FailRun(t).task.status == FailedTask && FailRun(t).task.plan.phase == Faulty
    ensures FailRun(t).state == GraphState(false, Faulty)
  {
    hide WithPlannedStep;
    PlannedStepEffect(t, if t.place.At? then t.place.step else PlanTask, StepFailed);
  }

  /** One runtime node of a running task. */
  lemma StartedStep(t: Task, env: Env, step: StepName)
    requires t.status == Running && OutcomeOf(env, step) != WorkerDies
    ensures var r := RunStarted(t, step, OutcomeOf(env, step));
            && r.Next?
            && (if !Passes(t, env, step) then r.task.status == FailedTask && r.state == GraphState(false, Faulty)
                else if step == GenerateOutputs && StepPlanned(t, step)
                then r.task.status == Succeeded && r.state == GraphState(false, Complete)
                else r.task.status == Running && r.state == GraphState(false, InProgress)
                     && r.task.plan.steps == t.plan.steps
                     && forall s :: s != step ==> StepOf(r.task.steps, s) == StepOf(t.steps, s))
  {
    hide ExecuteToolStep, FailRun, OutcomeOf, StepMayMove;
    ToolEffect(t, step, OutcomeOf(env, step));
    if StepPlanned(t, step) {
      FailRunFails(ExecuteToolStep(t, step, OutcomeOf(env, step)).task);
    }
  }

  /** From a running task, whatever its steps have been through before. */
  lemma {:induction false} RunningEnds(t: Task, g: GraphState, step: StepName, env: Env, lifetime: nat)
    requires t.status == Running && lifetime >= StepRank(step) && Survives(env)
    ensures RunFrom(t, g, StepNode(step), env, lifetime).status == EndOf(t, env, step)
    decreases lifetime
  {
    var r := RunStarted(t, step, OutcomeOf(env, step));
    StartedStep(t, env, step);
    hide RunStarted, RunFrom, OutcomeOf, StepPlanned, Passes;
    OneNode(t, g, StepNode(step), env, lifetime);
    var next := Route(StepNode(step), r.state);
    if r.task.status == Running && step != GenerateOutputs {
      LaterStepsPassAlike(t, r.task, env, step, After(step));
      RunningEnds(r.task, r.state, After(step), env, lifetime - 1);
      SamePlan(t, r.task, GenerateOutputs);
    } else {
      LastNode(r.task, r.state, next, env, lifetime - 1);
    }
  }

  lemma SamePlan(t: Task, u: Task, step: StepName)
    requires u.plan.steps == t.plan.steps
    ensures StepPlanned(u, step) == StepPlanned(t, step)
  {}

  lemma SameEnd(t: Task, u: Task, env: Env, step: StepName)
    requires u.plan.steps == t.plan.steps && forall s :: StepOf(u.steps, s) == StepOf(t.steps, s)
    ensures EndOf(u, env, step) == EndOf(t, env, step)
  {
    hide PassesFrom, OutcomeOf;
    SameStepsPassAlike(t, u, env, step);
  }

  lemma SameStepSameRun(t: Task, u: Task, g: GraphState, env: Env, lifetime: nat)
    requires lifetime > 0
    requires var outcome := OutcomeOf(env, NormalizeAoi);
             RunRuntimeStep(t, NormalizeAoi, outcome) == RunRuntimeStep(u, NormalizeAoi, outcome)
    ensures RunFrom(t, g, StepNode(NormalizeAoi), env, lifetime) == RunFrom(u, g, StepNode(NormalizeAoi), env, lifetime)
  {
    hide RunFrom, RunRuntimeStep, OutcomeOf, Route;
    OneNode(t, g, StepNode(NormalizeAoi), env, lifetime);
    OneNode(u, g, StepNode(NormalizeAoi), env, lifetime);
  }

  lemma FirstStepBegins(t: Task, outcome: StepOutcome)
    requires t.status == Queued && !t.needConfirmation && !t.blocked
    ensures PrepareRuntimeStart(t).Begun?
    ensures var u := PrepareRuntimeStart(t).task;
            && u.status == Running && u.plan.steps == t.plan.steps
            && (forall s :: StepOf(u.steps, s) == StepOf(t.steps, s))
            && RunRuntimeStep(t, NormalizeAoi, outcome) == RunRuntimeStep(u, NormalizeAoi, outcome)
  {
    hide RunStarted, WithPendingSteps;
    forall s
      ensures StepOf(PrepareRuntimeStart(t).task.steps, s) == StepOf(t.steps, s)
    {
      PendingStepsChangeNothing(t.steps, t.plan.steps, s);
    }
  }

  lemma RanksOfSteps()
    ensures StepRank(NormalizeAoi) == 6
  {}

  lemma QueuedEnds(t: Task, env: Env)
    requires HasApprovedPlan(t) && t.status == Queued && !t.needConfirmation && !t.blocked
    requires t.plan.phase != ApprovalRequired && t.plan.phase != Faulty && env.lifetime >= 8 && Survives(env)
    ensures Deliver(t, env).status == EndOf(t, env, NormalizeAoi)
  {
    hide *;
    var g, n := GraphState(false, t.plan.phase), env.lifetime - 2;
    ToFirstStep(t, env);
    FirstStepBegins(t, OutcomeOf(env, NormalizeAoi));
    var u := PrepareRuntimeStart(t).task;
    SameStepSameRun(t, u, g, env, n);
    SameEnd(t, u, env, NormalizeAoi);
    RanksOfSteps();
    RunningEnds(u, g, NormalizeAoi, env, n);
  }

  /** How a delivery of an approved plan ends. */
  function DeliveryEnd(t: Task, env: Env): TaskStatus {
    if t.needConfirmation then WaitingClarification
    else if t.status == AwaitingApproval || t.plan.phase == ApprovalRequired then AwaitingApproval
    else if t.plan.phase == Faulty then FailedTask
    else if t.status == Running then EndOf(t, env, NormalizeAoi)
    else if t.blocked then WaitingClarification
    else if t.status == Queued then EndOf(t, env, NormalizeAoi)
    else t.status
  }

  /**
   * For every task with an approved plan and every worker that survives: the
   * delivery asks or fails at once, carries a queued or running task to the end
   * its steps allow, and leaves any other status alone.
   */
  lemma DeliveryEndsSo(t: Task, env: Env)
    requires HasApprovedPlan(t) && env.lifetime >= 8 && Survives(env)
    ensures Deliver(t, env).status == DeliveryEnd(t, env)
  {
    if t.needConfirmation || t.status == AwaitingApproval || t.plan.phase == ApprovalRequired || t.plan.phase == Faulty {
      EndsAtOnce(t, env);
    } else if t.status == Queued && !t.blocked {
      hide *;
      QueuedEnds(t, env);
    } else {
      ToFirstStep(t, env);
      var g, n := GraphState(false, t.plan.phase), env.lifetime - 2;
      if t.status == Running {
        hide *;
        RanksOfSteps();
        RunningEnds(t, g, NormalizeAoi, env, n);
      } else {
        NotStarted(t, g, env, n);
      }
    }
    hide Deliver, EndOf;
  }

  lemma EndsAtOnce(t: Task, env: Env)
    requires HasApprovedPlan(t) && env.lifetime >= 8
    requires t.needConfirmation || t.status == AwaitingApproval || t.plan.phase == ApprovalRequired || t.plan.phase == Faulty
    ensures Deliver(t, env).status == DeliveryEnd(t, env)
  {
    var n := env.lifetime;
    var g0, g1 := GraphState(false, Ready), GraphState(t.needConfirmation, Ready);
    hide RunFrom, EndOf;
    OneNode(t, g0, Parse, env, n);
    if t.needConfirmation {
      LastNode(t, g1, WaitingNode, env, n - 1);
    } else {
      OneNode(t, g1, PlanNode, env, n - 1);
      var g2 := PlanTaskNode(t, env.replan).state;
      LastNode(t, g2, RouteAfterStep(g2, Ended), env, n - 2);
    }
  }

  lemma NotStarted(t: Task, g: GraphState, env: Env, lifetime: nat)
    requires t.status != Running && !t.needConfirmation && (t.blocked || t.status != Queued) && lifetime >= 2
    ensures RunFrom(t, g, StepNode(NormalizeAoi), env, lifetime).status
         == if t.blocked then WaitingClarification else t.status
  {
    hide RunFrom, RunStarted, WithPendingSteps;
    OneNode(t, g, StepNode(NormalizeAoi), env, lifetime);
    var start := PrepareRuntimeStart(t);
    if start.Early? {
      LastNode(start.task, GraphState(true, NeedsClarification), WaitingNode, env, lifetime - 1);
    }
  }

  // ---- Plans the planner builds ---------------------------------------------------------------------------------

  /** Queued, or left running by a worker that died, with nothing to ask about. */
  predicate Underway(t: Task) {
    && HasApprovedPlan(t) && !t.needConfirmation && !t.blocked
    && (t.status == Queued || t.status == Running)
    && t.plan.phase != ApprovalRequired && t.plan.phase != Faulty
    && PlannerBuilt(t.plan.steps)
  }

  lemma UnderwayEnds(t: Task, env: Env)
    requires Underway(t) && env.lifetime >= 8 && Survives(env)
    ensures Deliver(t, env).status == if PassesFrom(t, env, NormalizeAoi) then Succeeded else FailedTask
  {
    assert GenerateOutputs in t.plan.steps;
    hide Deliver, PassesFrom, Survives, PlannerBuilt;
    DeliveryEndsSo(t, env);
  }

  /** A surviving worker always brings such a task to success or failure; it never leaves it running. */
  lemma SurvivingWorkerSettles(t: Task, env: Env)
    requires Underway(t) && env.lifetime >= 8 && Survives(env)
    ensures Deliver(t, env).status == Succeeded || Deliver(t, env).status == FailedTask
  {
    UnderwayEnds(t, env);
  }

  /** No step that this task's plan still has to run has already succeeded or failed. */
  predicate Recoverable(t: Task) {
    forall step :: step != PlanTask && StepPlanned(t, step) ==> RecoverableAt(t, step)
  }

  predicate RecoverableAt(t: Task, step: StepName) {
    StepOf(t.steps, step) != StepSuccess && StepOf(t.steps, step) != StepFailed
  }

  lemma {:induction false} AllStepsPass(t: Task, env: Env, step: StepName)
    requires forall s :: StepRank(s) <= StepRank(step) ==> Passes(t, env, s)
    ensures PassesFrom(t, env, step)
    decreases StepRank(step)
  {
    if step != GenerateOutputs {
      AllStepsPass(t, env, After(step));
    }
  }

  lemma {:induction false} OneStepFails(t: Task, env: Env, step: StepName, failing: StepName)
    requires StepRank(failing) <= StepRank(step) && !Passes(t, env, failing)
    ensures !PassesFrom(t, env, step)
    decreases StepRank(step)
  {
    if step != failing && step != GenerateOutputs {
      OneStepFails(t, env, After(step), failing);
    }
  }

  /** A worker for which every tool succeeds, but that skips again what was skipped. */
  function Careful(t: Task): Env {
    var skipped := map s | s in t.steps && t.steps[s] == StepSkipped :: ReactSkip;
    Env(skipped, Replan(Ready, [], OperationPlan.Plan(1, Draft, [])), 8)
  }

  /**
   * A delivery can still bring the task to success exactly if no planned step
   * has already succeeded or failed: a finished step refuses to start again.
   */
  lemma RedeliveryRecoversIff(t: Task)
    requires Underway(t)
    ensures (exists env: Env :: env.lifetime >= 8 && Survives(env) && Deliver(t, env).status == Succeeded)
       <==> Recoverable(t)
    ensures !Recoverable(t) ==>
              forall env: Env :: env.lifetime >= 8 && Survives(env) ==> Deliver(t, env).status == FailedTask
  {
    forall env: Env | env.lifetime >= 8 && Survives(env)
      ensures !Recoverable(t) ==> Deliver(t, env).status == FailedTask
    {
      if !Recoverable(t) {
        FinishedStepFails(t, env);
      }
    }
    if Recoverable(t) {
      CarefulSucceeds(t);
    }
  }

  lemma FinishedStepFails(t: Task, env: Env)
    requires Underway(t) && !Recoverable(t) && env.lifetime >= 8 && Survives(env)
    ensures Deliver(t, env).status == FailedTask
  {
    var step :| step != PlanTask && StepPlanned(t, step) && !RecoverableAt(t, step);
    assert StepRank(step) <= StepRank(NormalizeAoi);
    hide Deliver, PassesFrom, OutcomeOf, PlannerBuilt, StepPlanned;
    OneStepFails(t, env, NormalizeAoi, step);
    UnderwayEnds(t, env);
  }

  lemma CarefulSucceeds(t: Task)
    requires Underway(t) && Recoverable(t)
    ensures Careful(t).lifetime == 8 && Survives(Careful(t)) && Deliver(t, Careful(t)).status == Succeeded
  {
    var env := Careful(t);
    forall s | StepRank(s) <= StepRank(NormalizeAoi)
      ensures Passes(t, env, s)
    {
      assert StepPlanned(t, s) ==> RecoverableAt(t, s);
    }
    hide Deliver, PassesFrom, Passes, PlannerBuilt, StepPlanned;
    AllStepsPass(t, env, NormalizeAoi);
    UnderwayEnds(t, env);
  }

  // ---- A worker that dies -------------------------------------------------------------------------------------------

  /** A finished first step fails the delivery on the spot, whatever its worker would have done later. */
  lemma RedeliveryOfARunningTaskFails(t: Task, env: Env)
    requires t.status == Running && HasApprovedPlan(t) && !t.needConfirmation
    requires t.plan.phase != ApprovalRequired && t.plan.phase != Faulty && env.lifetime >= 4
    requires StepPlanned(t, NormalizeAoi) && StepOf(t.steps, NormalizeAoi) == StepSuccess
    ensures Deliver(t, env).status == FailedTask
  {
    var n := env.lifetime - 2;
    var outcome := OutcomeOf(env, NormalizeAoi);
    ToFirstStep(t, env);
    ToolEffect(t, NormalizeAoi, outcome);
    var failed := ExecuteToolStep(t, NormalizeAoi, outcome).task;
    FailRunFails(failed);
    hide RunFrom, ExecuteToolStep, FailRun, OutcomeOf, Deliver;
    OneNode(t, GraphState(false, t.plan.phase), StepNode(NormalizeAoi), env, n);
    LastNode(FailRun(failed).task, GraphState(false, Faulty), FailedNode, env, n - 1);
  }

  /** Every tool succeeds; the worker lives for `lifetime` nodes. */
  function Succeeding(env: Env, lifetime: nat): Env {
    env.(outcomes := map[], lifetime := lifetime)
  }

  /** The files-only plan, queued and untried. */
  predicate FilesOnlyJob(t: Task) {
    && HasApprovedPlan(t) && !t.needConfirmation && !t.blocked && t.status == Queued
    && t.plan.phase != ApprovalRequired && t.plan.phase != Faulty
    && t.plan.steps == RequiredSteps(true, false) && t.steps == map[]
  }

  /** A worker of a files-only job stands before the pipeline step when the steps its plan does not name are passed. */
  lemma ToThePipeline(t: Task, env: Env) returns (u: Task)
    requires FilesOnlyJob(t) && env.lifetime >= 5
    ensures u.status == Running && u.plan.steps == t.plan.steps && u.plan.operation == t.plan.operation
    ensures u.plan.phase == InProgress && !u.needConfirmation && !u.blocked
    ensures forall s :: StepOf(u.steps, s) == StepPending
    ensures Deliver(t, env) == RunFrom(u, GraphState(false, InProgress), StepNode(RunProcessing), env, env.lifetime - 5)
  {
    var n := env.lifetime;
    ToFirstStep(t, env);
    var begun := Begin(t);
    var g := GraphState(false, InProgress);
    hide RunFrom, ExecuteToolStep, OutcomeOf, PrepareRuntimeStart;
    OneNode(t, GraphState(false, t.plan.phase), StepNode(NormalizeAoi), env, n - 2);
    var a := begun.(log := begun.log + [StepNotPlanned(NormalizeAoi)]);
    OneNode(a, g, StepNode(SearchCandidates), env, n - 3);
    var b := a.(log := a.log + [StepNotPlanned(SearchCandidates)]);
    OneNode(b, g, StepNode(RecommendDataset), env, n - 4);
    u := b.(log := b.log + [StepNotPlanned(RecommendDataset)]);
  }

  lemma Begin(t: Task) returns (u: Task)
    requires FilesOnlyJob(t)
    ensures PrepareRuntimeStart(t) == Begun(u)
    ensures u.status == Running && u.plan == t.plan.(phase := InProgress) && !u.needConfirmation && !u.blocked
    ensures forall s :: StepOf(u.steps, s) == StepPending
  {
    hide WithPendingSteps;
    u := PrepareRuntimeStart(t).task;
    forall s
      ensures StepOf(u.steps, s) == StepPending
    {
      PendingStepsChangeNothing(t.steps, t.plan.steps, s);
    }
  }

  /**
   * A worker that dies inside the pipeline step leaves a task that a second
   * delivery can finish; one that dies right after it leaves a task that every
   * later delivery fails.
   */
  lemma WhereTheWorkerDies(t: Task, env: Env)
    requires FilesOnlyJob(t)
    ensures var inside := Deliver(t, Succeeding(env, 6).(outcomes := map[RunProcessing := WorkerDies]));
            Underway(inside) && Recoverable(inside)
    ensures var afterwards := Deliver(t, Succeeding(env, 6));
            Underway(afterwards) && !Recoverable(afterwards)
  {
    DiesInside(t, env);
    DiesAfterwards(t, env);
  }

  /** The last node the dying worker reaches. */
  lemma PipelineNode(u: Task, env: Env, lifetime: nat) returns (v: Task)
    requires u.status == Running && u.plan.phase == InProgress && StepOf(u.steps, RunProcessing) == StepPending
    requires StepPlanned(u, RunProcessing) && lifetime == 1 && OutcomeOf(env, RunProcessing) in {WorkerDies, ToolSucceeds}
    ensures RunFrom(u, GraphState(false, InProgress), StepNode(RunProcessing), env, lifetime) == v
    ensures v.status == Running && v.plan == u.plan && v.needConfirmation == u.needConfirmation && v.blocked == u.blocked
    ensures forall s :: s != RunProcessing ==> StepOf(v.steps, s) == StepOf(u.steps, s)
    ensures StepOf(v.steps, RunProcessing)
         == if OutcomeOf(env, RunProcessing) == WorkerDies then StepRunning else StepSuccess
  {
    var r := RunStarted(u, RunProcessing, OutcomeOf(env, RunProcessing));
    PipelineStarts(u, OutcomeOf(env, RunProcessing));
    v := r.task;
    hide RunStarted, OutcomeOf, RunFrom;
    OneNode(u, GraphState(false, InProgress), StepNode(RunProcessing), env, 1);
    if r.Next? {
      NoLifeLeft(v, r.state, Route(StepNode(RunProcessing), r.state), env);
    }
  }

  lemma NoLifeLeft(t: Task, g: GraphState, node: GraphNode, env: Env)
    ensures RunFrom(t, g, node, env, 0) == t
  {}

  lemma PipelineStarts(u: Task, outcome: StepOutcome)
    requires u.status == Running && u.plan.phase == InProgress && StepOf(u.steps, RunProcessing) == StepPending
    requires StepPlanned(u, RunProcessing) && outcome in {WorkerDies, ToolSucceeds}
    ensures var r := RunStarted(u, RunProcessing, outcome);
            && r.task.status == Running && r.task.plan == u.plan
            && r.task.needConfirmation == u.needConfirmation && r.task.blocked == u.blocked
            && (forall s :: s != RunProcessing ==> StepOf(r.task.steps, s) == StepOf(u.steps, s))
            && StepOf(r.task.steps, RunProcessing) == if outcome == WorkerDies then StepRunning else StepSuccess
  {}

  lemma DiesInside(t: Task, env: Env)
    requires FilesOnlyJob(t)
    ensures var u := Deliver(t, Succeeding(env, 6).(outcomes := map[RunProcessing := WorkerDies]));
            Underway(u) && Recoverable(u)
  {
    var dying := Succeeding(env, 6).(outcomes := map[RunProcessing := WorkerDies]);
    var u := ToThePipeline(t, dying);
    FilesOnlyIsBuilt(t);
    hide Deliver, RunFrom, PlannerBuilt;
    var v := PipelineNode(u, dying, 1);
  }

  lemma DiesAfterwards(t: Task, env: Env)
    requires FilesOnlyJob(t)
    ensures var u := Deliver(t, Succeeding(env, 6));
            Underway(u) && !Recoverable(u)
  {
    var dying := Succeeding(env, 6);
    var u := ToThePipeline(t, dying);
    FilesOnlyIsBuilt(t);
    hide Deliver, RunFrom, PlannerBuilt;
    var v := PipelineNode(u, dying, 1);
    assert !RecoverableAt(v, RunProcessing) && StepPlanned(v, RunProcessing);
  }

  lemma FilesOnlyIsBuilt(t: Task)
    requires t.plan.steps == RequiredSteps(true, false)
    ensures PlannerBuilt(t.plan.steps)
  {}
}
