/**
 * A task's row, changed in place by the services: set_task_status and
 * set_step_status (task_state.py), the plan requests (task_lifecycle.py) and
 * the graph's nodes (graph/nodes.py). Every method is tied to the function of
 * the same step in TaskState, TaskGraph or PlanApproval.
 */
module TaskRun {
  import opened Results
  import opened OperationPlan
  import opened PlanGuard
  import opened TaskState
  import opened TaskGraph
  import opened PlanApproval
  import Pipeline

  class TaskRunRecord {
    var status: TaskStatus
    var place: Place
    var plan: PlanJson
    var steps: map<StepName, StepStatus>
    var log: seq<Event>
    const needConfirmation: bool
    const blocked: bool

    ghost function Value(): Task
      reads this
    {
      Task(status, place, plan, steps, log, needConfirmation, blocked)
    }

    constructor (t: Task)
      ensures Value() == t
    {
      status, place, plan, steps, log := t.status, t.place, t.plan, t.steps, t.log;
      needConfirmation, blocked := t.needConfirmation, t.blocked;
    }

    // ---- task_state.py ---------------------------------------------------------------------------------

    /** set_task_status; false is its ValueError. */
    method SetTaskStatus(target: TaskStatus, at: Option<Place>, event: Event, force: bool) returns (ok: bool)
      modifies this
      ensures ok <==> WithStatus(old(Value()), target, at, event, force).Some?
      ensures ok ==> Value() == WithStatus(old(Value()), target, at, event, force).value
      ensures !ok ==> Value() == old(Value())
    {
      if !force && !TaskMayMove(status, target) {
        return false;
      }
      status := target;
      if at.Some? {
        place := at.value;
      }
      log := log + [event];
      return true;
    }

    /** set_step_status, with the step's status in the stored plan; false is its ValueError. */
    method SetStepStatus(step: StepName, target: StepStatus) returns (ok: bool)
      modifies this
      ensures ok <==> WithPlannedStep(old(Value()), step, target).Some?
      ensures ok ==> Value() == WithPlannedStep(old(Value()), step, target).value
      ensures !ok ==> Value() == old(Value())
    {
      var previous := if step in steps then steps[step] else StepPending;
      if !StepMayMove(previous, target) {
        return false;
      }
      steps := steps[step := target];
      place := At(step);
      if previous != target {
        log := log + [StepChanged(step, target)];
      }
      plan := plan.(phase := PhaseAfterStep(plan.phase, target));
      return true;
    }

    /** ensure_task_steps */
    method EnsureTaskSteps(names: seq<StepName>)
      modifies this`steps
      ensures steps == WithPendingSteps(old(steps), names)
    {
      for i := 0 to |names|
        invariant steps == WithPendingSteps(old(steps), names[..i])
      {
        assert names[..i + 1][..i] == names[..i];
        if names[i] !in steps {
          steps := steps[names[i] := StepPending];
        }
      }
      assert names[..|names|] == names;
    }

    // ---- task_lifecycle.py -------------------------------------------------------------------------------

    method UpdateTaskPlanDraft(h: Heuristics, patch: Plan) returns (r: Result<int, RequestError>)
      requires UniqueIds(patch.nodes)
      modifies this
      ensures r.Success? <==> PatchAccepted(h, old(Value()), patch)
      ensures r.Success? ==> Value() == Patched(old(Value()), patch) && r.value == patch.version
      ensures r.Failure? ==> Value() == old(Value()) && PatchRefusedFor(h, old(Value()), patch, r.error)
    {
      hide Acceptable, RejectedFor;
      if status != AwaitingApproval {
        return Failure(NotAwaitingApproval);
      }
      if patch.version <= plan.version {
        return Failure(VersionNotNewer);
      }
      var checked := ValidateOperationPlan(h, patch);
      if checked.Failure? {
        return Failure(PlanInvalid(checked.error));
      }
      plan := plan.(operation := Some(checked.value), version := checked.value.version);
      log := log + [PlanValidated(checked.value.version)];
      return Success(checked.value.version);
    }

    method ApproveTaskPlan(h: Heuristics, resolver: Pipeline.Handler, version: int) returns (r: Result<int, RequestError>)
      requires StoredPlanOk(Value())
      modifies this
      ensures r.Success? <==> ApproveAccepted(h, resolver, old(Value()), version)
      ensures r.Success? ==> Value() == Submitted(old(Value())) && r.value == version
      ensures r.Failure? ==> Value() == old(Value()) && ApproveRefusedFor(h, old(Value()), version, r.error)
    {
      hide Acceptable, RejectedFor, Pipeline.RunInOrder, Pipeline.OutcomeOf;
      if status != AwaitingApproval {
        return Failure(NotAwaitingApproval);
      }
      if plan.operation.None? {
        return Failure(NoOperationPlan);
      }
      var draft := plan.operation.value;
      var checked := ValidateOperationPlan(h, draft);
      if checked.Failure? {
        return Failure(PlanInvalid(checked.error));
      }
      if checked.value.version != version {
        return Failure(VersionMismatch);
      }
      var outcome, references, events := Pipeline.RunPipeline(Pipeline.Preflight, resolver, checked.value.nodes);
      if outcome != Pipeline.Completed {
        return Failure(PreflightFailed);
      }
      plan := plan.(operation := Some(checked.value.(status := Approved)), version := checked.value.version);
      var approved := SetTaskStatus(ApprovedTask, None, PlanApproved(version), false);
      var queued := SetTaskStatus(Queued, None, TaskQueued, false);
      assert log == old(log) + [PlanApproved(version), TaskQueued];
      return Success(version);
    }

    method RejectTaskPlan() returns (r: Result<int, RequestError>)
      modifies this
      ensures r.Success? <==> old(status) == AwaitingApproval
      ensures Value() == if r.Success? then Declined(old(Value())) else old(Value())
    {
      if status != AwaitingApproval {
        return Failure(NotAwaitingApproval);
      }
      if plan.operation.Some? {
        plan := plan.(operation := Some(plan.operation.value.(status := Rejected)));
      }
      log := log + [PlanRejected(plan.version)];
      var cancelled := SetTaskStatus(Cancelled, Some(AtApproval), TaskCancelled, false);
      assert log == old(log) + [PlanRejected(old(plan.version)), TaskCancelled];
      return Success(plan.version);
    }

    // ---- graph/nodes.py ------------------------------------------------------------------------------------

    /** What a node hands to its route; None is a run that stopped. */
    method PlanTask(replan: Replan) returns (g: Option<GraphState>)
      modifies this
      ensures g.Some? && PlanTaskNode(old(Value()), replan) == Next(Value(), g.value)
    {
      if status == AwaitingApproval || (plan.operation.Some? && plan.operation.value.status in {Draft, Validated}) {
        return Some(GraphState(false, ApprovalRequired));
      }
      if plan.operation.Some? && plan.operation.value.status == Approved {
        return Some(GraphState(false, plan.phase));
      }
      var unplanned := plan.operation.None?;
      plan := PlanJson(replan.phase, replan.steps, None, 0);
      if replan.phase != NeedsClarification && unplanned {
        plan := plan.(operation := Some(replan.operation.(version := 1, status := Approved)), version := 1);
      }
      return Some(GraphState(replan.phase == NeedsClarification, replan.phase));
    }

    /** _prepare_runtime_start; a refused transition rolls the transaction back. */
    method PrepareStart() returns (start: Start)
      modifies this
      ensures start == PrepareRuntimeStart(old(Value()))
      ensures Value() == if start.Refused? then old(Value()) else start.task
    {
      if blocked {
        plan := plan.(phase := NeedsClarification);
        if status != WaitingClarification {
          var forced := SetTaskStatus(WaitingClarification, Some(At(NormalizeAoi)), TaskWaiting, true);
        } else {
          place := At(NormalizeAoi);
        }
        return Early(Copy());
      }
      if status == WaitingClarification || needConfirmation {
        if status != WaitingClarification {
          var waiting := SetTaskStatus(WaitingClarification, Some(AtParsing), TaskWaiting, false);
          if !waiting {
            return Refused;
          }
        }
        return Early(Copy());
      }
      var savedSteps, savedPlan := steps, plan;
      EnsureTaskSteps(plan.steps);
      plan := plan.(phase := InProgress);
      var first := if plan.steps == [] then None else Some(At(plan.steps[0]));
      var running := SetTaskStatus(Running, first, TaskStarted, false);
      if !running {
        steps, plan := savedSteps, savedPlan;
        return Refused;
      }
      return Begun(Copy());
    }

    function Copy(): (t: Task)
      reads this
      ensures t == Value()
    {
      Task(status, place, plan, steps, log, needConfirmation, blocked)
    }

    /** execute_tool_step */
    method RunTool(step: StepName, outcome: StepOutcome) returns (r: ToolResult)
      modifies this
      ensures r == ExecuteToolStep(old(Value()), step, outcome) && Value() == r.task
    {
      hide WithPlannedStep;
      if outcome == LimitReached || outcome == ReactFail {
        return Raised(Copy());
      }
      if outcome == ReactSkip {
        var skipped := SetStepStatus(step, StepSkipped);
        if !skipped {
          return Raised(Copy());
        }
        return Executed(Copy());
      }
      var started := SetStepStatus(step, StepRunning);
      if !started {
        return Raised(Copy());
      }
      if step == RunProcessing {
        log := log + [PipelineRan(if plan.operation.Some? then plan.operation.value.nodes else [])];
      }
      if outcome == ToolFails {
        return Raised(Copy());
      }
      if outcome == WorkerDies {
        return Died(Copy());
      }
      var finished := SetStepStatus(step, StepSuccess);
      return Executed(Copy());
    }

    /** The exception handler of _run_runtime_step. */
    method Fail() returns (g: Option<GraphState>)
      modifies this
      ensures FailRun(old(Value())) == if g.Some? then Next(Value(), g.value) else Stopped(Value())
    {
      hide WithPlannedStep;
      var saved := Copy();
      if place.At? && place.step in steps && steps[place.step] in {StepPending, StepRunning} {
        var marked := SetStepStatus(place.step, StepFailed);
      }
      plan := plan.(phase := Faulty);
      var failed := SetTaskStatus(FailedTask, None, TaskFailed, false);
      if !failed {
        status, place, plan, steps, log := saved.status, saved.place, saved.plan, saved.steps, saved.log;
        return None;
      }
      return Some(GraphState(false, Faulty));
    }

    /** _run_runtime_step */
    method RunStep(step: StepName, outcome: StepOutcome) returns (g: Option<GraphState>)
      modifies this
      ensures RunRuntimeStep(old(Value()), step, outcome) == if g.Some? then Next(Value(), g.value) else Stopped(Value())
    {
      hide ExecuteToolStep, FailRun, WithPendingSteps;
      if step == NormalizeAoi && status != Running {
        var start := PrepareStart();
        if start.Early? {
          return Some(GraphState(true, NeedsClarification));
        }
        if start.Refused? {
          return None;
        }
      }
      if plan.steps != [] && step !in plan.steps {
        log := log + [StepNotPlanned(step)];
        return Some(GraphState(false, InProgress));
      }
      var executed := RunTool(step, outcome);
      if executed.Died? {
        return None;
      }
      if executed.Raised? {
        g := Fail();
        return;
      }
      if step != GenerateOutputs {
        return Some(GraphState(false, InProgress));
      }
      plan := plan.(phase := Complete);
      var finished := SetTaskStatus(Succeeded, Some(At(GenerateOutputs)), TaskCompleted, false);
      if !finished {
        g := Fail();
        return;
      }
      return Some(GraphState(false, Complete));
    }

    /** finalize_success_node, finalize_failed_node, finalize_approval_required_node */
    method FinaliseNode(node: GraphNode, g: GraphState)
      modifies this
      ensures Value() == Finalise(old(Value()), node, g)
    {
      var forced: bool;
      match node
      case WaitingNode => FinaliseWaiting(g);
      case SuccessNode => FinaliseWaiting(g);
      case FailedNode =>
        if status != FailedTask {
          forced := SetTaskStatus(FailedTask, None, TaskFailed, true);
        }
      case ApprovalNode =>
        if status != AwaitingApproval {
          forced := SetTaskStatus(AwaitingApproval, Some(AtApproval), TaskNeedsApproval, true);
        }
      case _ =>
    }

    method FinaliseWaiting(g: GraphState)
      modifies this
      ensures Value() == Finalise(old(Value()), WaitingNode, g)
    {
      if g.needClarification && status != WaitingClarification {
        plan := plan.(phase := NeedsClarification);
        var forced := SetTaskStatus(WaitingClarification, Some(AtParsing), TaskWaiting, true);
      }
    }

    method RunOneNode(node: GraphNode, g: GraphState, env: Env) returns (next: Option<GraphState>)
      requires node != Ended
      modifies this
      ensures RunNode(old(Value()), g, node, env) == if next.Some? then Next(Value(), next.value) else Stopped(Value())
    {
      hide RunRuntimeStep, PlanTaskNode, Finalise;
      if node == Parse {
        next := Some(g.(needClarification := needConfirmation));
      } else if node == PlanNode {
        next := PlanTask(env.replan);
      } else if node.StepNode? {
        next := RunStep(node.step, OutcomeOf(env, node.step));
      } else {
        FinaliseNode(node, g);
        next := Some(g);
      }
    }

    /** run_task_graph: node after node, by the routes, until the end or until the worker is gone. */
    method RunTaskGraph(env: Env)
      modifies this
      ensures Value() == Deliver(old(Value()), env)
    {
      hide RunNode, Route;
      var node, g, lifetime := Parse, GraphState(false, Ready), env.lifetime;
      while node != Ended && lifetime > 0
        invariant RunFrom(Value(), g, node, env, lifetime) == Deliver(old(Value()), env)
        decreases lifetime
      {
        var next := RunOneNode(node, g, env);
        if next.None? {
          return;
        }
        g := next.value;
        node := Route(node, g);
        lifetime := lifetime - 1;
      }
    }
  }
}
