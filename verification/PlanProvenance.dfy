/**
 * Where the plan that is stored, approved and carried out comes from: over every
 * sequence of requests and deliveries it is that of the last accepted patch.
 */
module PlanProvenance {
  import opened Results
  import opened OperationPlan
  import opened PlanGuard
  import opened TaskState
  import opened TaskGraph
  import opened PlanApproval
  import DeliveryTheorems
  import DryRun
  import Pipeline

  /** Step k patches the plan while approval is awaited, with a newer version that the guard accepts. */
  ghost predicate TakenAt(h: Heuristics, created: Task, steps: seq<Step>, k: nat, plan: Plan) {
    && k < |steps| && steps[k] == Patch(plan) && UniqueIds(plan.nodes)
    && var t := RunOf(h, created, steps[..k]).task;
       t.status == AwaitingApproval && plan.version > t.plan.version && Acceptable(h, plan.nodes)
  }

  ghost predicate NoneTakenFrom(h: Heuristics, created: Task, steps: seq<Step>, k: nat) {
    forall x: nat, p :: k <= x ==> !TakenAt(h, created, steps, x, p)
  }

  /** The plan of the last accepted patch, or the created one if there was none. */
  ghost predicate Stands(h: Heuristics, created: Task, steps: seq<Step>, plan: Plan) {
    || (exists k: nat :: TakenLast(h, created, steps, k, plan))
    || (NoneTakenFrom(h, created, steps, 0) && created.plan.operation == Some(plan))
  }

  ghost predicate TakenLast(h: Heuristics, created: Task, steps: seq<Step>, k: nat, plan: Plan) {
    TakenAt(h, created, steps, k, plan) && NoneTakenFrom(h, created, steps, k + 1)
  }

  lemma TakenInPrefix(h: Heuristics, created: Task, init: seq<Step>, step: Step)
    ensures forall k: nat, p :: k < |init| ==> (TakenAt(h, created, init + [step], k, p) == TakenAt(h, created, init, k, p))
  {
    hide RunOf, Acceptable, UniqueIds;
    forall k: nat, p | k < |init|
      ensures TakenAt(h, created, init + [step], k, p) == TakenAt(h, created, init, k, p)
    {
      assert (init + [step])[..k] == init[..k];
    }
  }

  /** A further step that is no accepted patch leaves the plan standing. */
  lemma StillStands(h: Heuristics, created: Task, init: seq<Step>, step: Step, plan: Plan)
    requires Stands(h, created, init, plan)
    requires forall p :: !TakenAt(h, created, init + [step], |init|, p)
    ensures Stands(h, created, init + [step], plan)
  {
    var steps := init + [step];
    TakenInPrefix(h, created, init, step);
    TakenInRange(h, created, init);
    TakenInRange(h, created, steps);
    hide TakenAt;
    if k: nat :| TakenLast(h, created, init, k, plan) {
      assert TakenLast(h, created, steps, k, plan);
    }
  }

  lemma TakenInRange(h: Heuristics, created: Task, steps: seq<Step>)
    ensures forall k: nat, p :: TakenAt(h, created, steps, k, p) ==> k < |steps|
  {}

  lemma NowStands(h: Heuristics, created: Task, init: seq<Step>, step: Step, plan: Plan)
    requires TakenAt(h, created, init + [step], |init|, plan)
    ensures Stands(h, created, init + [step], plan)
  {
    TakenInRange(h, created, init + [step]);
    hide TakenAt;
    assert TakenLast(h, created, init + [step], |init|, plan);
  }

  /** The task stores the plan's nodes under its version. */
  predicate Stores(t: Task, plan: Plan) {
    && t.plan.operation.Some?
    && t.plan.operation.value.nodes == plan.nodes && t.plan.operation.value.version == plan.version
    && t.plan.version == plan.version
  }

  lemma OtherStepStores(h: Heuristics, created: int, w: World, step: Step, plan: Plan)
    requires Inv(h, created, w) && Stores(w.task, plan) && !step.Patch?
    ensures Stores(Apply(h, w, step).task, plan)
  {
    if step.DeliverJob? && w.approved.Some? {
      RunComes(w.task, GraphState(false, Ready), Parse, step.env, step.env.lifetime);
    }
    hide Deliver, RunFrom, Acceptable, PreflightPasses, Faithful, Rising, PatchVersions;
  }

  lemma PatchTaken(h: Heuristics, created: Task, init: seq<Step>, plan: Plan)
    ensures var steps, w := init + [Patch(plan)], RunOf(h, created, init);
            && (TakenAt(h, created, steps, |init|, plan) ==> Stores(Apply(h, w, Patch(plan)).task, plan))
            && (!TakenAt(h, created, steps, |init|, plan) ==> Apply(h, w, Patch(plan)) == w)
            && forall p :: TakenAt(h, created, steps, |init|, p) ==> p == plan
  {
    assert (init + [Patch(plan)])[..|init|] == init;
    hide RunOf, Acceptable, UniqueIds;
  }

  /** What is stored is the plan of the last accepted patch, or the created plan if there was none. */
  lemma {:induction false} StoredPlanStands(h: Heuristics, created: Task, steps: seq<Step>) returns (plan: Plan)
    requires CreatedForApproval(created)
    ensures Stands(h, created, steps, plan) && Stores(RunOf(h, created, steps).task, plan)
  {
    hide *;
    if steps == [] {
      plan := CreatedStands(h, created);
    } else {
      var init, step := steps[..|steps| - 1], steps[|steps| - 1];
      plan := StoredPlanStands(h, created, init);
      plan := StepStands(h, created, init, step, plan);
      assert steps == init + [step];
      LastStep(h, created, steps);
    }
  }

  lemma CreatedStands(h: Heuristics, created: Task) returns (plan: Plan)
    requires CreatedForApproval(created)
    ensures Stands(h, created, [], plan) && Stores(RunOf(h, created, []).task, plan)
  {
    plan := created.plan.operation.value;
    TakenInRange(h, created, []);
    hide TakenAt;
  }

  lemma LastStep(h: Heuristics, created: Task, steps: seq<Step>)
    requires steps != []
    ensures RunOf(h, created, steps) == Apply(h, RunOf(h, created, steps[..|steps| - 1]), steps[|steps| - 1])
  {
    hide Apply;
  }

  lemma StepStands(h: Heuristics, created: Task, init: seq<Step>, step: Step, before: Plan) returns (plan: Plan)
    requires CreatedForApproval(created)
    requires Stands(h, created, init, before) && Stores(RunOf(h, created, init).task, before)
    ensures Stands(h, created, init + [step], plan)
    ensures Stores(Apply(h, RunOf(h, created, init), step).task, plan)
  {
    RunKeepsInv(h, created, init);
    plan := before;
    if step.Patch? {
      PatchTaken(h, created, init, step.plan);
      hide *;
      if TakenAt(h, created, init + [step], |init|, step.plan) {
        plan := step.plan;
        NowStands(h, created, init, step, plan);
      } else {
        StillStands(h, created, init, step, plan);
      }
    } else {
      assert forall p :: !TakenAt(h, created, init + [step], |init|, p);
      hide *;
      StillStands(h, created, init, step, plan);
      OtherStepStores(h, created.plan.version, RunOf(h, created, init), step, plan);
    }
  }

  lemma OneStands(h: Heuristics, created: Task, steps: seq<Step>, a: Plan, b: Plan)
    requires Stands(h, created, steps, a) && Stands(h, created, steps, b)
    ensures a == b
  {
    if i: nat :| TakenLast(h, created, steps, i, a) {
      if j: nat :| TakenLast(h, created, steps, j, b) {
        assert i == j;
        TakenIs(h, created, steps, i, a, b);
      }
    }
    hide TakenAt;
  }

  lemma TakenIs(h: Heuristics, created: Task, steps: seq<Step>, k: nat, a: Plan, b: Plan)
    requires TakenAt(h, created, steps, k, a) && TakenAt(h, created, steps, k, b)
    ensures a == b
  {
    hide RunOf, Acceptable, UniqueIds;
    assert Patch(a) == Patch(b);
  }

  // ---- What is approved and carried out ------------------------------------------------------------

  /** Neither a request nor a delivery lowers the stored version. */
  lemma {:induction false} VersionNeverFalls(h: Heuristics, created: Task, steps: seq<Step>, k: nat)
    requires CreatedForApproval(created) && k <= |steps|
    ensures RunOf(h, created, steps[..k]).task.plan.version <= RunOf(h, created, steps).task.plan.version
  {
    if k == |steps| {
      assert steps[..k] == steps;
    } else {
      var init, step := steps[..|steps| - 1], steps[|steps| - 1];
      assert init[..k] == steps[..k];
      VersionNeverFalls(h, created, init, k);
      var plan := StoredPlanStands(h, created, init);
      RunKeepsInv(h, created, init);
      hide CreatedForApproval, Stands, Inv;
      if step.Patch? {
        PatchOnlyRaises(h, RunOf(h, created, init), step.plan);
      } else {
        OtherStepStores(h, created.plan.version, RunOf(h, created, init), step, plan);
      }
    }
  }

  lemma PatchOnlyRaises(h: Heuristics, w: World, plan: Plan)
    ensures w.task.plan.version <= Apply(h, w, Patch(plan)).task.plan.version
  {
    hide Acceptable, UniqueIds;
  }

  lemma AfterTaken(h: Heuristics, created: Task, steps: seq<Step>, i: nat, a: Plan)
    requires TakenAt(h, created, steps, i, a)
    ensures RunOf(h, created, steps[..i + 1]).task.plan.version == a.version
  {
    var init := steps[..i];
    assert steps[..i + 1] == init + [Patch(a)] && (init + [Patch(a)])[..i] == init;
    assert TakenAt(h, created, init + [Patch(a)], i, a);
    PatchTaken(h, created, init, a);
    hide Acceptable, UniqueIds, Apply;
  }

  /** Of accepted patches the later has the higher version. */
  lemma TakenVersionsRise(h: Heuristics, created: Task, steps: seq<Step>, i: nat, a: Plan, j: nat, b: Plan)
    requires CreatedForApproval(created) && i < j && TakenAt(h, created, steps, i, a) && TakenAt(h, created, steps, j, b)
    ensures a.version < b.version
  {
    hide Acceptable, UniqueIds, RunOf, CreatedForApproval;
    AfterTaken(h, created, steps, i, a);
    VersionNeverFalls(h, created, steps[..j], i + 1);
    assert steps[..j][..i + 1] == steps[..i + 1];
  }

  /**
   * What is stored, what was approved and what the pipeline was started on is the
   * plan of the last accepted patch, or the created one if none was accepted; and
   * no other accepted patch has brought the approved version.
   */
  lemma ApprovedPlanStands(h: Heuristics, created: Task, steps: seq<Step>, plan: Plan)
    requires CreatedForApproval(created) && Stands(h, created, steps, plan)
    ensures var w := RunOf(h, created, steps);
            && w.task.plan.operation.Some?
            && w.task.plan.operation.value.nodes == plan.nodes && w.task.plan.version == plan.version
            && (w.approved.Some? ==> w.approved.value.nodes == plan.nodes && w.approved.value.version == plan.version)
            && (forall i :: 0 <= i < |w.task.log| && w.task.log[i].PipelineRan? ==> w.task.log[i].nodes == plan.nodes)
            && (forall k: nat, p :: TakenAt(h, created, steps, k, p) && p.version == plan.version ==> p == plan)
  {
    var w := RunOf(h, created, steps);
    var stored := StoredPlanStands(h, created, steps);
    OneStands(h, created, steps, plan, stored);
    DeliveryTheorems.CarriedPlanIsApproved(h, created, steps);
    DeliveryTheorems.VersionsRise(h, created, steps);
    hide RunOf, Acceptable, UniqueIds, CreatedForApproval, Rising, PatchVersions, TakenAt;
    forall i | 0 <= i < |w.task.log| && w.task.log[i].PipelineRan?
      ensures w.task.log[i].nodes == plan.nodes
    {
      if w.approved.Some? {
        assert RunsAt(w.task.log[i], w.approved.value.nodes);
      }
    }
    forall k: nat, p | TakenAt(h, created, steps, k, p) && p.version == plan.version
      ensures p == plan
    {
      VersionIsItsPatch(h, created, steps, plan, k, p);
    }
  }

  lemma VersionIsItsPatch(h: Heuristics, created: Task, steps: seq<Step>, plan: Plan, k: nat, p: Plan)
    requires CreatedForApproval(created) && Stands(h, created, steps, plan)
    requires TakenAt(h, created, steps, k, p) && p.version == plan.version
    ensures p == plan
  {
    hide RunOf, Acceptable, UniqueIds, CreatedForApproval, TakenAt;
    var last: nat :| TakenLast(h, created, steps, last, plan);
    if k < last {
      TakenVersionsRise(h, created, steps, k, p, last, plan);
    } else if k == last {
      TakenIs(h, created, steps, k, p, plan);
    }
  }

  /** There is always exactly one plan that stands. */
  lemma SomePlanStands(h: Heuristics, created: Task, steps: seq<Step>)
    requires CreatedForApproval(created)
    ensures exists plan :: Stands(h, created, steps, plan)
    ensures forall a, b :: Stands(h, created, steps, a) && Stands(h, created, steps, b) ==> a == b
  {
    var plan := StoredPlanStands(h, created, steps);
    hide Stands;
    forall a, b | Stands(h, created, steps, a) && Stands(h, created, steps, b)
      ensures a == b
    {
      OneStands(h, created, steps, a, b);
    }
  }

  // ---- What a request does --------------------------------------------------------------------------

  /**
   * An approval that names the stored version of an acceptable plan whose uploads
   * resolve approves that plan and queues the job; any other changes nothing.
   */
  lemma ApprovalEffect(h: Heuristics, created: Task, steps: seq<Step>, version: int, resolver: Pipeline.Handler)
    requires CreatedForApproval(created)
    ensures var w := RunOf(h, created, steps);
            var v := Apply(h, w, Approve(version, resolver));
            && w.task.plan.operation.Some? && UniqueIds(w.task.plan.operation.value.nodes)
            && var op := w.task.plan.operation.value;
               if w.task.status == AwaitingApproval && Acceptable(h, op.nodes) && op.version == version
                  && DryRun.UploadsResolve(resolver, op.nodes)
               then && v.approved == Some(op)
                    && v.task.status == Queued
                    && v.task.plan.operation == Some(Plan(version, Approved, op.nodes)) && v.task.plan.version == version
                    && v.task.log == w.task.log + [PlanApproved(version), TaskQueued]
                    && v.task.steps == w.task.steps && v.task.plan.steps == w.task.plan.steps
               else v == w
  {
    RunKeepsInv(h, created, steps);
    var w := RunOf(h, created, steps);
    assert w.task.plan.operation.Some? && UniqueIds(w.task.plan.operation.value.nodes) by {
      hide RunOf, Acceptable, Faithful, Rising;
    }
    DryRun.ApprovalNeedsUploads(h, resolver, w.task, version);
    hide RunOf, Acceptable, Faithful, Rising, UniqueIds, DryRun.UploadsResolve, ApproveAccepted, Inv, ApproveRefusedFor;
  }

  /** A rejection cancels exactly a task that awaits approval, and keeps its plan as rejected. */
  lemma RejectionEffect(h: Heuristics, created: Task, steps: seq<Step>)
    requires CreatedForApproval(created)
    ensures var w := RunOf(h, created, steps);
            var v := Apply(h, w, Reject);
            && w.task.plan.operation.Some?
            && var op := w.task.plan.operation.value;
               if w.task.status == AwaitingApproval
               then && v.approved == None
                    && v.task.status == Cancelled && v.task.place == AtApproval
                    && v.task.plan.operation == Some(Plan(op.version, Rejected, op.nodes))
                    && v.task.log == w.task.log + [PlanRejected(op.version), TaskCancelled]
               else v == w
  {
    RunKeepsInv(h, created, steps);
    hide RunOf, Acceptable, Faithful, Rising, UniqueIds;
  }

  /** An accepted patch leaves the task awaiting approval with the patch stored as validated; any other changes nothing. */
  lemma PatchEffect(h: Heuristics, created: Task, steps: seq<Step>, plan: Plan)
    requires CreatedForApproval(created)
    ensures var w := RunOf(h, created, steps);
            var v := Apply(h, w, Patch(plan));
            if UniqueIds(plan.nodes) && w.task.status == AwaitingApproval && plan.version > w.task.plan.version
               && Acceptable(h, plan.nodes)
            then && v.approved == None
                 && v.task.status == AwaitingApproval
                 && v.task.plan.operation == Some(Plan(plan.version, Validated, plan.nodes))
                 && v.task.plan.version == plan.version
                 && v.task.log == w.task.log + [PlanValidated(plan.version)]
            else v == w
  {
    RunKeepsInv(h, created, steps);
    hide RunOf, Acceptable, Faithful, Rising, UniqueIds;
  }
}
