/** What plan approval and job delivery guarantee, over every sequence of requests and deliveries. */
module DeliveryTheorems {
  import opened Results
  import opened OperationPlan
  import opened PlanGuard
  import opened TaskState
  import opened TaskGraph
  import opened PlanApproval
  import opened DeliveryEnds
  import PassScheduler
  import Pipeline

  // ---- The plan that is carried out is the plan that was approved --------------------------------------

  /**
   * However patches, approvals, rejections and (repeated) deliveries follow one
   * another: the pipeline is never started before an approval, and then only on
   * the nodes of the plan as it was approved, which the guard accepts.
   */
  lemma CarriedPlanIsApproved(h: Heuristics, created: Task, steps: seq<Step>)
    requires CreatedForApproval(created)
    ensures var w := RunOf(h, created, steps);
            && (w.approved.None? ==> NeverRan(w.task.log))
            && (w.approved.Some? ==>
                  && UniqueIds(w.approved.value.nodes) && Acceptable(h, w.approved.value.nodes)
                  && RunsOnly(w.task.log, w.approved.value.nodes)
                  && HasApprovedPlan(w.task) && w.task.plan.operation.value.nodes == w.approved.value.nodes)
  {
    RunKeepsInv(h, created, steps);
  }

  /** There is one approval: what it approved is what is carried ever after. */
  lemma ApprovalIsFinal(h: Heuristics, created: Task, steps: seq<Step>, step: Step)
    requires CreatedForApproval(created) && RunOf(h, created, steps).approved.Some?
    ensures Apply(h, RunOf(h, created, steps), step).approved == RunOf(h, created, steps).approved
    ensures !step.DeliverJob? ==> Apply(h, RunOf(h, created, steps), step) == RunOf(h, created, steps)
  {
    RunKeepsInv(h, created, steps);
    hide RunOf, Acceptable, PreflightPasses, Faithful, Deliver;
  }

  /**
   * Every accepted patch has a higher version than the plan it replaces, from
   * the created one on; the stored version is the last of them, and the
   * approved one.
   */
  lemma VersionsRise(h: Heuristics, created: Task, steps: seq<Step>)
    requires CreatedForApproval(created)
    ensures var w := RunOf(h, created, steps);
            && Rising(created.plan.version, PatchVersions(w.task.log), w.task.plan.version)
            && (w.approved.Some? ==> w.approved.value.version == w.task.plan.version)
  {
    RunKeepsInv(h, created, steps);
  }

  /** Step k approves the plan stored before it, under the version the user names. */
  ghost predicate ApprovesAt(h: Heuristics, created: Task, steps: seq<Step>, k: nat, plan: Plan) {
    && k < |steps| && steps[k].Approve? && steps[k].version == plan.version
    && RunOf(h, created, steps[..k]).task.plan.operation == Some(plan)
  }

  /** What is carried is a plan that some approval named by its version. */
  lemma {:induction false} ApprovedIsNamed(h: Heuristics, created: Task, steps: seq<Step>)
    requires CreatedForApproval(created) && RunOf(h, created, steps).approved.Some?
    ensures exists k: nat :: ApprovesAt(h, created, steps, k, RunOf(h, created, steps).approved.value)
  {
    var init, step := steps[..|steps| - 1], steps[|steps| - 1];
    var before := RunOf(h, created, init);
    var plan := RunOf(h, created, steps).approved.value;
    hide Acceptable, PreflightPasses, Deliver;
    if before.approved.Some? {
      ApprovalIsFinal(h, created, init, step);
      ApprovedIsNamed(h, created, init);
      var k: nat :| ApprovesAt(h, created, init, k, plan);
      assert init[..k] == steps[..k];
      assert ApprovesAt(h, created, steps, k, plan);
    } else {
      assert ApprovesAt(h, created, steps, |steps| - 1, plan);
    }
  }

  /** The step events tell the status of every step, through any deliveries. */
  lemma StepsAreReplayed(h: Heuristics, created: Task, steps: seq<Step>, step: StepName)
    requires CreatedForApproval(created)
    ensures var t := RunOf(h, created, steps).task;
            StepOf(t.steps, step) == Replayed(History(t.log, step)) && LegalHistory(History(t.log, step))
  {
    RunKeepsInv(h, created, steps);
    assert FaithfulAt(RunOf(h, created, steps).task, step);
  }

  // ---- An approved plan cannot stall ------------------------------------------------------------------------

  /**
   * The pipeline never reports an unresolved dependency for a plan the guard
   * accepted: it completes, or a handler fails. The dry run at approval visits
   * the same nodes in the same order.
   */
  lemma ApprovedPlanNeverStalls(h: Heuristics, handler: Pipeline.Handler, mode: Pipeline.Mode, nodes: seq<Node>)
    requires UniqueIds(nodes) && Acceptable(h, nodes)
    ensures var t := Pipeline.RunInOrder(mode, handler, PassScheduler.ScheduleOrder(nodes));
            Pipeline.OutcomeOf(nodes, t)
              == if t.failure.Some? then Pipeline.NodeFailed(t.failure.value.0, t.failure.value.1) else Pipeline.Completed
  {
    hide Pipeline.RunInOrder, PassScheduler.ScheduleOrder, PassScheduler.Unresolved;
    GraphOfDescribes(nodes);
    PassScheduler.AlgorithmsAgree(GraphOf(nodes), nodes);
  }

  // ---- A settled job stays settled --------------------------------------------------------------------------

  /** A succeeded task has a completed plan, a failed one a failed plan. */
  predicate StatusFits(t: Task) {
    (t.status == Succeeded ==> t.plan.phase == Complete) && (t.status == FailedTask ==> t.plan.phase == Faulty)
  }

  /** Where a run stands when it has reached the node. */
  predicate Placed(t: Task, g: GraphState, node: GraphNode) {
    && (node == Parse ==> g.phase == Ready)
    && (node.StepNode? && node.step != NormalizeAoi ==> t.status == Running)
    && (node == FailedNode ==> t.plan.phase == Faulty)
  }

  lemma StartedFits(t: Task, step: StepName, outcome: StepOutcome)
    requires t.status == Running
    ensures var r := RunStarted(t, step, outcome);
            && StatusFits(r.task)
            && (r.Next? ==> Placed(r.task, r.state, Route(StepNode(step), r.state)))
  {
    hide ExecuteToolStep, FailRun;
    ToolEffect(t, step, outcome);
    FailRunFails(ExecuteToolStep(t, step, outcome).task);
  }

  lemma NodeFits(t: Task, g: GraphState, node: GraphNode, env: Env)
    requires Deliverable(t) && OnTrack(g, node) && node != Ended && StatusFits(t) && Placed(t, g, node)
    ensures var r := RunNode(t, g, node, env);
            StatusFits(r.task) && (r.Next? ==> Placed(r.task, r.state, Route(node, r.state)))
  {
    hide RunStarted, WithPendingSteps;
    if node.StepNode? {
      var outcome := OutcomeOf(env, node.step);
      if t.status == Running {
        StartedFits(t, node.step, outcome);
      } else if PrepareRuntimeStart(t).Begun? {
        StartedFits(PrepareRuntimeStart(t).task, node.step, outcome);
      }
    }
  }

  lemma {:induction false} RunFits(t: Task, g: GraphState, node: GraphNode, env: Env, lifetime: nat)
    requires Deliverable(t) && OnTrack(g, node) && StatusFits(t) && Placed(t, g, node)
    ensures StatusFits(RunFrom(t, g, node, env, lifetime))
    decreases lifetime
  {
    hide MayCome, RunNode, Deliverable, OnTrack, Route, StatusFits, Placed;
    if node != Ended && lifetime > 0 {
      NodeComes(t, g, node, env);
      NodeFits(t, g, node, env);
      var r := RunNode(t, g, node, env);
      if r.Next? {
        RunFits(r.task, r.state, Route(node, r.state), env, lifetime - 1);
      }
    }
  }

  /** In every reachable world the statuses of task and plan fit, and the planned steps are the created ones. */
  lemma {:induction false} WorldFits(h: Heuristics, created: Task, steps: seq<Step>)
    requires CreatedForApproval(created)
    ensures var w := RunOf(h, created, steps);
            StatusFits(w.task) && w.task.plan.steps == created.plan.steps
  {
    if steps != [] {
      var init, step := steps[..|steps| - 1], steps[|steps| - 1];
      WorldFits(h, created, init);
      RunKeepsInv(h, created, init);
      var w := RunOf(h, created, init);
      if step.DeliverJob? && w.approved.Some? {
        DeliveryFits(w.task, step.env);
      }
      hide Deliver, Acceptable, PreflightPasses, UniqueIds, Inv;
    }
  }

  lemma DeliveryFits(t: Task, env: Env)
    requires Deliverable(t) && StatusFits(t)
    ensures StatusFits(Deliver(t, env)) && Deliver(t, env).plan.steps == t.plan.steps
  {
    RunFits(t, GraphState(false, Ready), Parse, env, env.lifetime);
    RunComes(t, GraphState(false, Ready), Parse, env, env.lifetime);
    hide Faithful;
  }

  /** A delivery that finds a fitting terminal task changes nothing at all. */
  lemma TerminalDelivery(t: Task, env: Env)
    requires Deliverable(t) && StatusFits(t) && Terminal(t.status)
    ensures Deliver(t, env) == t
  {
    var n := env.lifetime;
    var g0, g1 := GraphState(false, Ready), GraphState(false, t.plan.phase);
    hide RunStarted, WithPendingSteps;
    if n > 0 {
      OneNode(t, g0, Parse, env, n);
    }
    if n > 1 {
      OneNode(t, g0, PlanNode, env, n - 1);
    }
    if n > 2 {
      if t.status == FailedTask {
        LastNode(t, g1, FailedNode, env, n - 2);
      } else {
        OneNode(t, g1, StepNode(NormalizeAoi), env, n - 2);
      }
    }
  }

  /** Once a task is terminal, no further request or delivery changes anything of it. */
  lemma TerminalStep(h: Heuristics, created: Task, steps: seq<Step>, step: Step)
    requires CreatedForApproval(created) && Terminal(RunOf(h, created, steps).task.status)
    ensures Apply(h, RunOf(h, created, steps), step) == RunOf(h, created, steps)
  {
    RunKeepsInv(h, created, steps);
    WorldFits(h, created, steps);
    var w := RunOf(h, created, steps);
    if step.DeliverJob? && w.approved.Some? {
      TerminalDelivery(w.task, step.env);
    }
    hide RunOf, Deliver, Acceptable, PreflightPasses, Faithful;
  }

  lemma {:induction false} TerminalIsForever(h: Heuristics, created: Task, steps: seq<Step>, more: seq<Step>)
    requires CreatedForApproval(created) && Terminal(RunOf(h, created, steps).task.status)
    ensures RunOf(h, created, steps + more) == RunOf(h, created, steps)
  {
    if more == [] {
      assert steps + more == steps;
    } else {
      var init := more[..|more| - 1];
      TerminalIsForever(h, created, steps, init);
      var all := steps + more;
      assert all[..|all| - 1] == steps + init && all[|all| - 1] == more[|more| - 1];
      hide Apply, CreatedForApproval;
      TerminalStep(h, created, steps + init, more[|more| - 1]);
    }
  }

  // ---- One surviving delivery settles the job ------------------------------------------------------------------

  /** However the job has fared before, a delivery whose worker survives ends as its task's state says. */
  lemma JobEndsSo(h: Heuristics, created: Task, steps: seq<Step>, env: Env)
    requires CreatedForApproval(created) && RunOf(h, created, steps).approved.Some?
    requires env.lifetime >= 8 && Survives(env)
    ensures var w := RunOf(h, created, steps);
            && HasApprovedPlan(w.task)
            && Apply(h, w, DeliverJob(env)).task.status == DeliveryEnd(w.task, env)
  {
    RunKeepsInv(h, created, steps);
    var w := RunOf(h, created, steps);
    hide RunOf, Acceptable, Faithful, Deliver, DeliveryEnd, Survives;
    DeliveryEndsSo(w.task, env);
  }

  /**
   * For a plan the planner built: after any requests and any deliveries cut
   * short, one delivery whose worker survives brings the job to success or
   * failure, and there it stays.
   */
  lemma SurvivingDeliverySettles(h: Heuristics, created: Task, steps: seq<Step>, env: Env, more: seq<Step>)
    requires CreatedForApproval(created) && PlannerBuilt(created.plan.steps)
    requires RunOf(h, created, steps).approved.Some? && env.lifetime >= 8 && Survives(env)
    ensures var all := steps + [DeliverJob(env)];
            && Terminal(RunOf(h, created, all).task.status)
            && RunOf(h, created, all + more) == RunOf(h, created, all)
  {
    var all := steps + [DeliverJob(env)];
    var w := RunOf(h, created, steps);
    RunKeepsInv(h, created, steps);
    WorldFits(h, created, steps);
    JobEndsSo(h, created, steps, env);
    assert all[..|all| - 1] == steps;
    assert GenerateOutputs in w.task.plan.steps;
    assert RunOf(h, created, all) == Apply(h, w, DeliverJob(env));
    hide RunOf, Apply, Acceptable, Faithful, Deliver, PassesFrom, CreatedForApproval;
    TerminalIsForever(h, created, all, more);
  }

  /**
   * A job just approved succeeds exactly if every planned step's tool succeeds
   * or is skipped, and fails otherwise.
   */
  lemma ApprovedJobEnds(h: Heuristics, created: Task, steps: seq<Step>, version: int, resolver: Pipeline.Handler, env: Env)
    requires CreatedForApproval(created) && created.plan.phase != Faulty && PlannerBuilt(created.plan.steps)
    requires env.lifetime >= 8 && Survives(env) && StoredPlanOk(RunOf(h, created, steps).task)
    requires ApproveAccepted(h, resolver, RunOf(h, created, steps).task, version)
    ensures var w := Apply(h, RunOf(h, created, steps), Approve(version, resolver));
            Apply(h, w, DeliverJob(env)).task.status
              == if EveryToolPasses(w.task, env) then Succeeded else FailedTask
  {
    RunKeepsInv(h, created, steps);
    WorldFits(h, created, steps);
    OpenKeepsPhase(h, created, steps);
    var w := RunOf(h, created, steps);
    var t := Submitted(w.task);
    assert Apply(h, w, Approve(version, resolver)) == World(t, w.task.plan.operation);
    assert Open(w.task);
    hide *;
    SubmittedIsReady(w.task);
    ReadyJobEnds(t, env);
    DeliveredTask(h, World(t, w.task.plan.operation), env);
  }

  predicate EveryToolPasses(t: Task, env: Env) {
    forall step :: step != PlanTask && StepPlanned(t, step) ==> OutcomeOf(env, step) in {ToolSucceeds, ReactSkip}
  }

  lemma ReadyJobEnds(t: Task, env: Env)
    requires HasApprovedPlan(t) && t.status == Queued && !t.needConfirmation && !t.blocked && t.steps == map[]
    requires t.plan.phase != ApprovalRequired && t.plan.phase != Faulty && PlannerBuilt(t.plan.steps)
    requires env.lifetime >= 8 && Survives(env)
    ensures Deliver(t, env).status == if EveryToolPasses(t, env) then Succeeded else FailedTask
  {
    hide Deliver, PassesFrom, PlannerBuilt, StepPlanned, OutcomeOf;
    UnderwayEnds(t, env);
    if EveryToolPasses(t, env) {
      forall s | StepRank(s) <= StepRank(NormalizeAoi)
        ensures Passes(t, env, s)
      {
      }
      AllStepsPass(t, env, NormalizeAoi);
    } else {
      var step :| step != PlanTask && StepPlanned(t, step) && OutcomeOf(env, step) !in {ToolSucceeds, ReactSkip};
      OneStepFails(t, env, NormalizeAoi, step);
    }
  }

  lemma SubmittedIsReady(t: Task)
    requires Open(t)
    ensures t.plan.operation.Some?
    ensures var u := Submitted(t);
            && u.status == Queued && HasApprovedPlan(u) && !u.needConfirmation && !u.blocked
            && u.plan.phase == t.plan.phase != ApprovalRequired && u.steps == t.steps && u.plan.steps == t.plan.steps
  {
    hide NeverRan;
  }

  lemma DeliveredTask(h: Heuristics, w: World, env: Env)
    requires w.approved.Some?
    ensures Apply(h, w, DeliverJob(env)).task == Deliver(w.task, env)
  {
    hide Deliver;
  }

  /** Until its job is submitted, a task's steps and the status of its plan stay as created. */
  lemma {:induction false} OpenKeepsPhase(h: Heuristics, created: Task, steps: seq<Step>)
    requires CreatedForApproval(created)
    ensures var w := RunOf(h, created, steps);
            w.approved.None? ==> w.task.plan.phase == created.plan.phase && w.task.steps == map[]
  {
    if steps != [] {
      OpenKeepsPhase(h, created, steps[..|steps| - 1]);
    }
    hide Deliver, Acceptable, PreflightPasses, UniqueIds;
  }
}
