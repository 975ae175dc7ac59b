/**
 * Editing, approving and rejecting a task's plan (task_lifecycle.py), and what
 * holds over every sequence of these and of deliveries of the submitted job.
 */
module PlanApproval {
  import opened Results
  import opened OperationPlan
  import opened PlanGuard
  import opened TaskState
  import opened TaskGraph
  import PassScheduler
  import Pipeline

  datatype RequestError =
    | NotAwaitingApproval | VersionNotNewer | NoOperationPlan | VersionMismatch | PreflightFailed
    | PlanInvalid(guard: GuardError)

  /** The pydantic model of a stored operation plan admits only unique step ids. */
  ghost predicate StoredPlanOk(t: Task) {
    t.plan.operation.Some? ==> UniqueIds(t.plan.operation.value.nodes)
  }

  // ---- update_task_plan_draft ------------------------------------------------------------------------

  ghost predicate PatchAccepted(h: Heuristics, t: Task, plan: Plan)
    requires UniqueIds(plan.nodes)
  {
    t.status == AwaitingApproval && plan.version > t.plan.version && Acceptable(h, plan.nodes)
  }

  function Patched(t: Task, plan: Plan): Task {
    t.(plan := t.plan.(operation := Some(plan.(status := Validated)), version := plan.version),
       log := t.log + [PlanValidated(plan.version)])
  }

  ghost predicate PatchRefusedFor(h: Heuristics, t: Task, plan: Plan, e: RequestError)
    requires UniqueIds(plan.nodes)
  {
    if t.status != AwaitingApproval then e == NotAwaitingApproval
    else if plan.version <= t.plan.version then e == VersionNotNewer
    else e.PlanInvalid? && RejectedFor(h, plan.nodes, e.guard)
  }

  // ---- approve_task_plan -------------------------------------------------------------------------------

  /** The dry run over the plan's upload nodes. */
  ghost predicate PreflightPasses(resolver: Pipeline.Handler, nodes: seq<Node>)
    requires UniqueIds(nodes)
  {
    Pipeline.OutcomeOf(nodes, Pipeline.RunInOrder(Pipeline.Preflight, resolver, PassScheduler.ScheduleOrder(nodes)))
      == Pipeline.Completed
  }

  ghost predicate ApproveAccepted(h: Heuristics, resolver: Pipeline.Handler, t: Task, version: int)
    requires StoredPlanOk(t)
  {
    && t.status == AwaitingApproval
    && t.plan.operation.Some?
    && Acceptable(h, t.plan.operation.value.nodes)
    && t.plan.operation.value.version == version
    && PreflightPasses(resolver, t.plan.operation.value.nodes)
  }

  function Submitted(t: Task): Task
    requires t.plan.operation.Some?
  {
    var plan := t.plan.operation.value;
    t.(status := Queued,
       plan := t.plan.(operation := Some(plan.(status := Approved)), version := plan.version),
       log := t.log + [PlanApproved(plan.version), TaskQueued])
  }

  ghost predicate ApproveRefusedFor(h: Heuristics, t: Task, version: int, e: RequestError)
    requires StoredPlanOk(t)
  {
    if t.status != AwaitingApproval then e == NotAwaitingApproval
    else if t.plan.operation.None? then e == NoOperationPlan
    else if !Acceptable(h, t.plan.operation.value.nodes)
    then e.PlanInvalid? && RejectedFor(h, t.plan.operation.value.nodes, e.guard)
    else if t.plan.operation.value.version != version then e == VersionMismatch
    else e == PreflightFailed
  }

  // ---- reject_task_plan --------------------------------------------------------------------------------

  function Declined(t: Task): Task {
    t.(status := Cancelled, place := AtApproval,
       plan := t.plan.(operation := match t.plan.operation
                                    case Some(plan) => Some(plan.(status := Rejected))
                                    case None => None),
       log := t.log + [PlanRejected(t.plan.version), TaskCancelled])
  }

  // ---- Sequences of requests and deliveries ----------------------------------------------------------------

  datatype Step =
    | Patch(plan: Plan)
    | Approve(version: int, resolver: Pipeline.Handler)
    | Reject
    | DeliverJob(env: Env)

  /** The task, and the plan of the approval that submitted its job. */
  datatype World = World(task: Task, approved: Option<Plan>)

  /** A refused request changes nothing; a job can be delivered, any number of times, once it is submitted. */
  ghost function Apply(h: Heuristics, w: World, step: Step): World {
    match step
    case Patch(plan) =>
      if UniqueIds(plan.nodes) && PatchAccepted(h, w.task, plan) then w.(task := Patched(w.task, plan)) else w
    case Approve(version, resolver) =>
      if StoredPlanOk(w.task) && ApproveAccepted(h, resolver, w.task, version)
      then World(Submitted(w.task), w.task.plan.operation) else w
    case Reject => if w.task.status == AwaitingApproval then w.(task := Declined(w.task)) else w
    case DeliverJob(env) => if w.approved.Some? then w.(task := Deliver(w.task, env)) else w
  }

  ghost function RunOf(h: Heuristics, created: Task, steps: seq<Step>): World {
    if steps == [] then World(created, None)
    else Apply(h, RunOf(h, created, steps[..|steps| - 1]), steps[|steps| - 1])
  }

  /** _build_task with require_approval, for a specification that needs no confirmation. */
  ghost predicate CreatedForApproval(t: Task) {
    && t.status == AwaitingApproval && !t.needConfirmation && !t.blocked
    && t.plan.operation.Some? && t.plan.operation.value.status == Draft
    && UniqueIds(t.plan.operation.value.nodes) && t.plan.version == t.plan.operation.value.version
    && t.plan.phase != ApprovalRequired
    && t.log == [] && t.steps == map[]
  }

  // ---- What a delivery may do to a task --------------------------------------------------------------------

  /** An event a run may add: no patch, and the pipeline only on the stored plan. */
  predicate EventOk(t: Task, e: Event) {
    !e.PlanValidated? && (e.PipelineRan? && t.plan.operation.Some? ==> e.nodes == t.plan.operation.value.nodes)
  }

  predicate LogExtends(t: Task, u: Task) {
    t.log <= u.log && forall i :: |t.log| <= i < |u.log| ==> EventOk(t, u.log[i])
  }

  /** From t a run may come to u: the operation plan is untouched and the events stay faithful. */
  ghost predicate MayCome(t: Task, u: Task) {
    && LogExtends(t, u)
    && u.plan.operation == t.plan.operation && u.plan.version == t.plan.version && u.plan.steps == t.plan.steps
    && u.needConfirmation == t.needConfirmation && u.blocked == t.blocked
    && (u.plan.phase == t.plan.phase || u.plan.phase in {InProgress, Complete, Faulty, NeedsClarification})
    && (u.status == t.status || u.status in {Running, Succeeded, FailedTask})
    && (Faithful(t) ==> Faithful(u))
  }

  lemma ComeFurther(t: Task, u: Task, v: Task)
    requires MayCome(t, u) && MayCome(u, v)
    ensures MayCome(t, v)
  {
    hide Faithful;
    forall i | |t.log| <= i < |v.log|
      ensures EventOk(t, v.log[i])
    {
      if i < |u.log| {
        assert v.log[i] == u.log[i];
      } else {
        assert EventOk(u, v.log[i]);
      }
    }
  }

  /** A change of status, phase or place with one event of its own. */
  lemma EventComes(t: Task, u: Task, e: Event)
    requires !e.StepChanged? && EventOk(t, e) && u.log == t.log + [e] && u.steps == t.steps
    requires u.plan == t.plan.(phase := u.plan.phase)
    requires u.plan.phase == t.plan.phase || u.plan.phase in {InProgress, Complete, Faulty, NeedsClarification}
    requires u.needConfirmation == t.needConfirmation && u.blocked == t.blocked
    requires u.status == t.status || u.status in {Running, Succeeded, FailedTask}
    ensures MayCome(t, u)
  {
    if Faithful(t) {
      OtherEventKeepsFaithful(t, u, e);
    }
    hide Faithful;
  }

  lemma SilentlyComes(t: Task, u: Task)
    requires u == t.(plan := u.plan, steps := u.steps) && u.plan == t.plan.(phase := u.plan.phase)
    requires u.plan.phase == t.plan.phase || u.plan.phase in {InProgress, Complete, Faulty, NeedsClarification}
    requires forall s :: StepOf(u.steps, s) == StepOf(t.steps, s)
    ensures MayCome(t, u)
  {
    hide History;
    forall s | Faithful(t)
      ensures FaithfulAt(u, s)
    {
      assert FaithfulAt(t, s);
    }
  }

  lemma StepComes(t: Task, step: StepName, status: StepStatus)
    requires WithPlannedStep(t, step, status).Some?
    ensures MayCome(t, WithPlannedStep(t, step, status).value)
  {
    var u, v := WithStep(t, step, status).value, WithPlannedStep(t, step, status).value;
    if Faithful(t) {
      StepKeepsFaithful(t, step, status);
    }
    hide Faithful;
    SilentlyComes(u, v);
  }

  lemma PipelineComes(t: Task, step: StepName)
    ensures MayCome(t, WithPipeline(t, step))
  {
    if step == RunProcessing {
      var u := WithPipeline(t, step);
      EventComes(t, u, u.log[|t.log|]);
    } else {
      SilentlyComes(t, t);
    }
  }

  lemma ToolComes(t: Task, step: StepName, outcome: StepOutcome)
    ensures MayCome(t, ExecuteToolStep(t, step, outcome).task)
  {
    hide MayCome, WithPlannedStep;
    SilentlyComes(t, t);
    if outcome == ReactSkip {
      if WithPlannedStep(t, step, StepSkipped).Some? {
        StepComes(t, step, StepSkipped);
      }
    } else if outcome != LimitReached && outcome != ReactFail && WithPlannedStep(t, step, StepRunning).Some? {
      var u := WithPlannedStep(t, step, StepRunning).value;
      var v := WithPipeline(u, step);
      StepComes(t, step, StepRunning);
      PipelineComes(u, step);
      ComeFurther(t, u, v);
      if outcome == ToolSucceeds && WithPlannedStep(v, step, StepSuccess).Some? {
        StepComes(v, step, StepSuccess);
        ComeFurther(t, v, AfterTool(v, step));
      }
    }
  }

  lemma FailureComes(t: Task)
    ensures MayCome(t, FailRun(t).task)
  {
    hide MayCome, WithPlannedStep;
    SilentlyComes(t, t);
    var marked := MarkCurrentStepFailed(t);
    if marked != t {
      StepComes(t, t.place.step, StepFailed);
    }
    var u := FailRun(t).task;
    if FailRun(t).Next? {
      EventComes(marked, u, TaskFailed);
      ComeFurther(t, marked, u);
    }
  }

  lemma FinishComes(t: Task)
    ensures MayCome(t, FinishRun(t).task)
  {
    hide MayCome, FailRun;
    var u := t.(plan := t.plan.(phase := Complete));
    SilentlyComes(t, u);
    if TaskMayMove(t.status, Succeeded) {
      EventComes(t, FinishRun(t).task, TaskCompleted);
    } else {
      FailureComes(u);
      ComeFurther(t, u, FinishRun(t).task);
    }
  }

  lemma StartedComes(t: Task, step: StepName, outcome: StepOutcome)
    ensures MayCome(t, RunStarted(t, step, outcome).task)
  {
    hide MayCome, FailRun, FinishRun, ExecuteToolStep;
    if !StepPlanned(t, step) {
      EventComes(t, RunStarted(t, step, outcome).task, StepNotPlanned(step));
    } else {
      ToolComes(t, step, outcome);
      var u := ExecuteToolStep(t, step, outcome).task;
      FailureComes(u);
      FinishComes(u);
      ComeFurther(t, u, FailRun(u).task);
      ComeFurther(t, u, FinishRun(u).task);
    }
  }

  lemma BeginningComes(t: Task)
    requires PrepareRuntimeStart(t).Begun?
    ensures MayCome(t, PrepareRuntimeStart(t).task)
  {
    hide MayCome, WithPendingSteps;
    var ready := t.(steps := WithPendingSteps(t.steps, t.plan.steps), plan := t.plan.(phase := InProgress));
    forall s
      ensures StepOf(ready.steps, s) == StepOf(t.steps, s)
    {
      PendingStepsChangeNothing(t.steps, t.plan.steps, s);
    }
    SilentlyComes(t, ready);
    EventComes(ready, PrepareRuntimeStart(t).task, TaskStarted);
    ComeFurther(t, ready, PrepareRuntimeStart(t).task);
  }

  /** A task with an approved plan, and nothing to ask. */
  predicate Deliverable(t: Task) {
    && HasApprovedPlan(t) && !t.needConfirmation && !t.blocked && t.plan.phase != ApprovalRequired
    && t.status in {Queued, Running, Succeeded, FailedTask}
  }

  /** Where such a run can be. */
  predicate OnTrack(g: GraphState, node: GraphNode) {
    !g.needClarification && g.phase != ApprovalRequired && node != WaitingNode && node != ApprovalNode
  }

  lemma NodeComes(t: Task, g: GraphState, node: GraphNode, env: Env)
    requires Deliverable(t) && OnTrack(g, node) && node != Ended
    ensures var r := RunNode(t, g, node, env);
            && MayCome(t, r.task) && Deliverable(r.task)
            && (r.Next? ==> OnTrack(r.state, Route(node, r.state)))
  {
    hide MayCome, RunStarted, WithPendingSteps;
    var r := RunNode(t, g, node, env);
    SilentlyComes(t, t);
    match node {
      case StepNode(step) =>
        var outcome := OutcomeOf(env, step);
        StartedComes(t, step, outcome);
        StartedEnds(t, step, outcome);
        if PrepareRuntimeStart(t).Begun? {
          var u := PrepareRuntimeStart(t).task;
          BeginningComes(t);
          StartedComes(u, step, outcome);
          StartedEnds(u, step, outcome);
          ComeFurther(t, u, RunStarted(u, step, outcome).task);
        }
      case FailedNode =>
        if t.status != FailedTask {
          EventComes(t, r.task, TaskFailed);
        }
      case _ =>
    }
    ComingIsReady(t, r.task);
  }

  lemma ComingIsReady(t: Task, u: Task)
    requires Deliverable(t) && MayCome(t, u)
    ensures Deliverable(u)
  {
    hide Faithful;
  }

  lemma StartedEnds(t: Task, step: StepName, outcome: StepOutcome)
    ensures var r := RunStarted(t, step, outcome);
            r.Next? ==> !r.state.needClarification && r.state.phase in {InProgress, Complete, Faulty}
  {
    hide WithPlannedStep, MarkCurrentStepFailed, ExecuteToolStep;
  }

  lemma {:induction false} RunComes(t: Task, g: GraphState, node: GraphNode, env: Env, lifetime: nat)
    requires Deliverable(t) && OnTrack(g, node)
    ensures MayCome(t, RunFrom(t, g, node, env, lifetime))
    decreases lifetime
  {
    hide MayCome, RunNode, Deliverable, OnTrack, Route;
    if node == Ended || lifetime == 0 {
      SilentlyComes(t, t);
    } else {
      NodeComes(t, g, node, env);
      var r := RunNode(t, g, node, env);
      if r.Next? {
        RunComes(r.task, r.state, Route(node, r.state), env, lifetime - 1);
        ComeFurther(t, r.task, RunFrom(t, g, node, env, lifetime));
      }
    }
  }

  // ---- Invariant -------------------------------------------------------------------------------------------

  /** The pipeline was never started on anything but these nodes. */
  predicate RunsOnly(log: seq<Event>, nodes: seq<Node>) {
    forall i :: 0 <= i < |log| ==> RunsAt(log[i], nodes)
  }

  predicate RunsAt(e: Event, nodes: seq<Node>) {
    e.PipelineRan? ==> e.nodes == nodes
  }

  predicate NeverRan(log: seq<Event>) {
    forall i :: 0 <= i < |log| ==> !log[i].PipelineRan?
  }

  /** The versions of the accepted patches, in order. */
  function PatchVersions(log: seq<Event>): seq<int> {
    if log == [] then []
    else
      var vs := PatchVersions(log[..|log| - 1]);
      if log[|log| - 1].PlanValidated? then vs + [log[|log| - 1].version] else vs
  }

  /** Each version is above the one before it, the first above `bottom`, and `top` is the last. */
  predicate Rising(bottom: int, vs: seq<int>, top: int) {
    && (forall i, j :: 0 <= i < j < |vs| ==> vs[i] < vs[j])
    && (forall i :: 0 <= i < |vs| ==> bottom < vs[i])
    && top == if vs == [] then bottom else vs[|vs| - 1]
  }

  /** A task whose job has been submitted with plan p. */
  predicate Carrying(t: Task, p: Plan) {
    && Deliverable(t) && t.plan.operation == Some(p.(status := Approved)) && t.plan.version == p.version
    && RunsOnly(t.log, p.nodes)
  }

  /** A task whose plan is still open, or was declined. */
  ghost predicate Open(t: Task) {
    && t.plan.operation.Some? && t.plan.version == t.plan.operation.value.version
    && t.status in {AwaitingApproval, Cancelled}
    && (t.status == AwaitingApproval ==> t.plan.operation.value.status in {Draft, Validated})
    && !t.needConfirmation && !t.blocked && t.plan.phase != ApprovalRequired
    && NeverRan(t.log)
  }

  /** What holds of every world that comes from a task created with the given version. */
  ghost predicate Inv(h: Heuristics, created: int, w: World) {
    && StoredPlanOk(w.task)
    && Rising(created, PatchVersions(w.task.log), w.task.plan.version)
    && Faithful(w.task)
    && match w.approved
       case None => Open(w.task)
       case Some(p) => UniqueIds(p.nodes) && Acceptable(h, p.nodes) && Carrying(w.task, p)
  }

  lemma PatchVersionsGrow(log: seq<Event>, e: Event)
    ensures PatchVersions(log + [e])
         == if e.PlanValidated? then PatchVersions(log) + [e.version] else PatchVersions(log)
  {
    assert (log + [e])[..|log|] == log;
  }

  lemma {:induction false} NoPatchInBetween(t: Task, u: Task)
    requires LogExtends(t, u)
    ensures PatchVersions(u.log) == PatchVersions(t.log)
    decreases |u.log|
  {
    if |u.log| == |t.log| {
      assert u.log == t.log;
    } else {
      var init, last := u.log[..|u.log| - 1], u.log[|u.log| - 1];
      assert EventOk(t, last);
      NoPatchInBetween(t, u.(log := init));
    }
  }

  lemma DeliveryKeepsInv(h: Heuristics, created: int, w: World, env: Env)
    requires Inv(h, created, w) && w.approved.Some?
    ensures Inv(h, created, Apply(h, w, DeliverJob(env)))
  {
    hide Faithful, PatchVersions, Rising, RunFrom, Acceptable;
    var t := w.task;
    var u := Deliver(t, env);
    RunComes(t, GraphState(false, Ready), Parse, env, env.lifetime);
    NoPatchInBetween(t, u);
    ComingIsReady(t, u);
    var nodes := w.approved.value.nodes;
    forall i | 0 <= i < |u.log|
      ensures RunsAt(u.log[i], nodes)
    {
      if i < |t.log| {
        assert RunsAt(t.log[i], nodes);
      } else {
        assert EventOk(t, u.log[i]);
      }
    }
  }

  lemma EventsKeepFaithful(t: Task, u: Task, a: Event, b: Event)
    requires Faithful(t) && !a.StepChanged? && !b.StepChanged? && u.steps == t.steps && u.log == t.log + [a, b]
    ensures Faithful(u)
  {
    hide Faithful;
    var v := t.(log := t.log + [a]);
    OtherEventKeepsFaithful(t, v, a);
    assert v.log + [b] == u.log;
    OtherEventKeepsFaithful(v, u, b);
  }

  lemma TwoEventsNoPatch(log: seq<Event>, a: Event, b: Event)
    requires !a.PlanValidated? && !b.PlanValidated?
    ensures PatchVersions(log + [a, b]) == PatchVersions(log)
  {
    hide PatchVersions;
    assert log + [a, b] == (log + [a]) + [b];
    PatchVersionsGrow(log, a);
    PatchVersionsGrow(log + [a], b);
  }

  lemma PatchKeepsInv(h: Heuristics, created: int, w: World, plan: Plan)
    requires Inv(h, created, w)
    ensures Inv(h, created, Apply(h, w, Patch(plan)))
  {
    hide Faithful, PatchVersions, Acceptable;
    var t := w.task;
    if UniqueIds(plan.nodes) && PatchAccepted(h, t, plan) {
      OtherEventKeepsFaithful(t, Patched(t, plan), PlanValidated(plan.version));
      PatchVersionsGrow(t.log, PlanValidated(plan.version));
    }
  }

  lemma ApprovalKeepsInv(h: Heuristics, created: int, w: World, version: int, resolver: Pipeline.Handler)
    requires Inv(h, created, w)
    ensures Inv(h, created, Apply(h, w, Approve(version, resolver)))
  {
    hide Faithful, PatchVersions, Acceptable, PreflightPasses, Rising;
    var t := w.task;
    if ApproveAccepted(h, resolver, t, version) {
      var v := t.plan.operation.value.version;
      EventsKeepFaithful(t, Submitted(t), PlanApproved(v), TaskQueued);
      TwoEventsNoPatch(t.log, PlanApproved(v), TaskQueued);
    }
  }

  lemma RejectionKeepsInv(h: Heuristics, created: int, w: World)
    requires Inv(h, created, w)
    ensures Inv(h, created, Apply(h, w, Reject))
  {
    hide Faithful, PatchVersions, Acceptable, Rising;
    var t := w.task;
    if t.status == AwaitingApproval {
      EventsKeepFaithful(t, Declined(t), PlanRejected(t.plan.version), TaskCancelled);
      TwoEventsNoPatch(t.log, PlanRejected(t.plan.version), TaskCancelled);
    }
  }

  lemma CreatedInv(h: Heuristics, created: Task)
    requires CreatedForApproval(created)
    ensures Inv(h, created.plan.version, World(created, None))
  {
    forall s
      ensures FaithfulAt(created, s)
    {
    }
  }

  lemma {:induction false} RunKeepsInv(h: Heuristics, created: Task, steps: seq<Step>)
    requires CreatedForApproval(created)
    ensures Inv(h, created.plan.version, RunOf(h, created, steps))
  {
    if steps == [] {
      CreatedInv(h, created);
    } else {
      hide Inv, Apply, CreatedForApproval;
      var w, step := RunOf(h, created, steps[..|steps| - 1]), steps[|steps| - 1];
      var v := created.plan.version;
      RunKeepsInv(h, created, steps[..|steps| - 1]);
      match step
      case Patch(plan) => PatchKeepsInv(h, v, w, plan);
      case Approve(version, resolver) => ApprovalKeepsInv(h, v, w, version, resolver);
      case Reject => RejectionKeepsInv(h, v, w);
      case DeliverJob(env) =>
        DeliveryIfSubmitted(h, v, w, env);
    }
  }

  lemma DeliveryIfSubmitted(h: Heuristics, created: int, w: World, env: Env)
    requires Inv(h, created, w)
    ensures Inv(h, created, Apply(h, w, DeliverJob(env)))
  {
    hide Inv;
    if w.approved.Some? {
      DeliveryKeepsInv(h, created, w, env);
    }
  }
}
