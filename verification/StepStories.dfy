/**
 * What becomes of every step of a run that a surviving worker carries on: which
 * succeed, which are skipped, which one fails, which are never begun, and how
 * often the processing pipeline is started.
 */
module StepStories {
  import opened Results
  import opened OperationPlan
  import opened TaskState
  import opened TaskGraph
  import opened PlanApproval
  import opened DeliveryEnds
  import DeliveryTheorems
  import PlanGuard
  import Pipeline

  /** A run from `start` gets as far as the step: everything before it passes. */
  predicate Reaches(t: Task, env: Env, start: StepName, step: StepName)
    decreases StepRank(start)
  {
    start == step || (start != GenerateOutputs && Passes(t, env, start) && Reaches(t, env, After(start), step))
  }

  /** How a planned step that is reached ends; the run's end, or its failure, leaves the others alone. */
  function StepEnd(t: Task, env: Env, start: StepName, step: StepName): StepStatus {
    var before := StepOf(t.steps, step);
    if !Reaches(t, env, start, step) then before
    else
      match OutcomeOf(env, step)
      case ToolSucceeds => if before == StepPending || before == StepRunning then StepSuccess else before
      case ToolFails => if before == StepPending || before == StepRunning then StepFailed else before
      case ReactSkip => if before == StepPending || before == StepRunning then StepSkipped else before
      case _ => before
  }

  lemma MayRun(s: StepStatus)
    ensures StepMayMove(s, StepRunning) <==> s == StepPending || s == StepRunning
    ensures StepMayMove(s, StepSkipped) <==> s == StepPending || s == StepRunning || s == StepSkipped
    ensures StepMayMove(s, StepFailed) <==> s == StepPending || s == StepRunning || s == StepFailed
    ensures StepMayMove(s, StepSuccess) <==> s == StepRunning || s == StepSuccess
  {}

  lemma PlannedStory(t: Task, step: StepName, status: StepStatus)
    ensures var u := WithPlannedStep(t, step, status);
            && (u.Some? <==> StepMayMove(StepOf(t.steps, step), status))
            && (u.Some? ==>
                  && u.value.status == t.status && u.value.plan.steps == t.plan.steps
                  && u.value.place == At(step) && step in u.value.steps && StepOf(u.value.steps, step) == status
                  && forall s :: s != step ==> StepOf(u.value.steps, s) == StepOf(t.steps, s))
  {
    hide StepMayMove;
  }

  /** A failed step marks the plan as failed; any other leaves a question or an end standing, or the plan in progress. */
  lemma PlanFollowsStep(t: Task, step: StepName, status: StepStatus)
    requires WithPlannedStep(t, step, status).Some?
    ensures var p := WithPlannedStep(t, step, status).value.plan;
            && (p.phase == Faulty <==> status == StepFailed)
            && (status != StepFailed ==> p.phase == t.plan.phase || p.phase == InProgress)
            && (status != StepFailed ==> (p.phase == InProgress <==> t.plan.phase !in {NeedsClarification, Complete}))
            && p.operation == t.plan.operation && p.version == t.plan.version
  {}

  lemma ToolStory(t: Task, step: StepName, outcome: StepOutcome)
    requires outcome != WorkerDies
    ensures !ExecuteToolStep(t, step, outcome).Died?
    ensures var r := ExecuteToolStep(t, step, outcome);
            var runs := StepOf(t.steps, step) == StepPending || StepOf(t.steps, step) == StepRunning;
            && (forall s :: s != step ==> StepOf(r.task.steps, s) == StepOf(t.steps, s))
            && r.task.status == t.status && r.task.plan.steps == t.plan.steps
            && (runs && outcome == ToolSucceeds ==> r.Executed? && StepOf(r.task.steps, step) == StepSuccess)
            && (runs && outcome == ReactSkip ==> r.Executed? && StepOf(r.task.steps, step) == StepSkipped)
            && (runs && outcome == ToolFails ==>
                  r.Raised? && r.task.place == At(step) && step in r.task.steps && StepOf(r.task.steps, step) == StepRunning)
            && (!runs || outcome in {LimitReached, ReactFail} ==>
                  StepOf(r.task.steps, step) == StepOf(t.steps, step) && (r.Raised? ==> r.task == t))
            && (r.Executed? ==> r.task.place == At(step))
  {
    hide StepMayMove, WithPlannedStep, StepOf;
    MayRun(StepOf(t.steps, step));
    MayRun(StepRunning);
    PlannedStory(t, step, StepSkipped);
    PlannedStory(t, step, StepRunning);
    if WithPlannedStep(t, step, StepRunning).Some? {
      PlannedStory(WithPipeline(WithPlannedStep(t, step, StepRunning).value, step), step, StepSuccess);
    }
  }

  lemma FailureStory(t: Task)
    requires t.status == Running
    ensures var u := FailRun(t).task;
            && u.status == FailedTask && u.plan.steps == t.plan.steps
            && (forall s :: t.place != At(s) ==> StepOf(u.steps, s) == StepOf(t.steps, s))
            && (t.place.At? && t.place.step in t.steps && StepOf(t.steps, t.place.step) == StepRunning ==>
                  StepOf(u.steps, t.place.step) == StepFailed)
  {
    MayRun(if t.place.At? then StepOf(t.steps, t.place.step) else StepPending);
  }

  lemma FinishStory(t: Task)
    requires t.status == Running
    ensures var u := FinishRun(t).task;
            && u.status == Succeeded && u.place == At(GenerateOutputs) && u.plan.phase == Complete
            && u.steps == t.steps && u.plan.steps == t.plan.steps && u.log == t.log + [TaskCompleted]
  {
    hide FailRun;
  }

  lemma NextIsLater(step: StepName)
    requires step != GenerateOutputs
    ensures StepRank(After(step)) < StepRank(step)
  {}

  lemma RankDiffers(a: StepName, b: StepName)
    ensures StepRank(a) == StepRank(b) <==> a == b
  {}

  predicate LaterUntouched(t: Task, u: Task, step: StepName) {
    forall s :: StepRank(s) < StepRank(step) ==> StepOf(u.steps, s) == StepOf(t.steps, s)
  }

  /** A node that passes ends its own step as the tool did and leaves the later ones alone. */
  predicate PassTells(t: Task, env: Env, step: StepName, u: Task) {
    && u.plan.steps == t.plan.steps
    && LaterUntouched(t, u, step)
    && (StepPlanned(t, step) ==> StepOf(u.steps, step) == StepEnd(t, env, step, step))
    && (u.place == t.place || u.place == At(step))
  }

  lemma ExecutedTells(t: Task, env: Env, step: StepName)
    requires OutcomeOf(env, step) != WorkerDies && ExecuteToolStep(t, step, OutcomeOf(env, step)).Executed?
    ensures PassTells(t, env, step, ExecuteToolStep(t, step, OutcomeOf(env, step)).task)
  {
    hide ExecuteToolStep, OutcomeOf, StepOf, StepRank, After, StepPlanned;
    ToolStory(t, step, OutcomeOf(env, step));
  }

  lemma UnplannedTells(t: Task, env: Env, step: StepName)
    requires !StepPlanned(t, step)
    ensures PassTells(t, env, step, t.(log := t.log + [StepNotPlanned(step)]))
  {
    hide StepRank, StepOf, StepEnd, StepPlanned;
  }

  lemma FinishedTells(t: Task, env: Env, u: Task)
    requires PassTells(t, env, GenerateOutputs, u) && u.status == Running
    ensures PassTells(t, env, GenerateOutputs, FinishRun(u).task)
  {
    hide FinishRun, StepEnd, StepPlanned, StepRank;
    FinishStory(u);
  }

  lemma PassedNode(t: Task, env: Env, step: StepName)
    requires t.status == Running && OutcomeOf(env, step) != WorkerDies && Passes(t, env, step)
    ensures PassTells(t, env, step, RunStarted(t, step, OutcomeOf(env, step)).task)
  {
    hide ExecuteToolStep, FailRun, FinishRun, StepPlanned, OutcomeOf, PassTells, StepOf, StepMayMove;
    ToolEffect(t, step, OutcomeOf(env, step));
    if !StepPlanned(t, step) {
      UnplannedTells(t, env, step);
    } else {
      ExecutedTells(t, env, step);
      if step == GenerateOutputs {
        FinishedTells(t, env, ExecuteToolStep(t, step, OutcomeOf(env, step)).task);
      }
    }
  }

  /** A node that does not pass fails the run: of its own and the later steps only the current place may change. */
  lemma StoppedNode(t: Task, env: Env, step: StepName, s: StepName)
    requires t.status == Running && OutcomeOf(env, step) != WorkerDies && !Passes(t, env, step)
    requires t.place != At(s) && StepRank(s) <= StepRank(step)
    ensures StepOf(RunStarted(t, step, OutcomeOf(env, step)).task.steps, s) == StepEnd(t, env, step, s)
  {
    hide ExecuteToolStep, FailRun, FinishRun, StepPlanned, OutcomeOf, StepOf, StepMayMove, StepRank, StepEnd;
    var u := ExecuteToolStep(t, step, OutcomeOf(env, step)).task;
    ToolEffect(t, step, OutcomeOf(env, step));
    ToolStory(t, step, OutcomeOf(env, step));
    if s == step {
      RaisedEnds(t, env, step);
    } else {
      FailureStory(u);
      NotReached(t, env, step, s);
    }
  }

  lemma NotReached(t: Task, env: Env, step: StepName, s: StepName)
    requires !Passes(t, env, step) && s != step
    ensures StepEnd(t, env, step, s) == StepOf(t.steps, s)
  {
    hide Passes;
  }

  lemma RaisedEnds(t: Task, env: Env, step: StepName)
    requires t.status == Running && OutcomeOf(env, step) != WorkerDies && t.place != At(step)
    requires ExecuteToolStep(t, step, OutcomeOf(env, step)).Raised?
    ensures StepOf(FailRun(ExecuteToolStep(t, step, OutcomeOf(env, step)).task).task.steps, step)
         == StepEnd(t, env, step, step)
  {
    hide ExecuteToolStep, FailRun, OutcomeOf, StepOf, StepRank;
    var u := ExecuteToolStep(t, step, OutcomeOf(env, step)).task;
    ToolStory(t, step, OutcomeOf(env, step));
    FailureStory(u);
  }

  // ---- Nothing is undone --------------------------------------------------------------------------

  lemma NodeKeepsTerminal(t: Task, g: GraphState, node: GraphNode, env: Env, step: StepName)
    requires StepTerminal(StepOf(t.steps, step)) && node != Ended
    ensures StepOf(RunNode(t, g, node, env).task.steps, step) == StepOf(t.steps, step)
  {
    if node.StepNode? {
      StartedKeepsTerminal(t, node.step, OutcomeOf(env, node.step), step);
      if PrepareRuntimeStart(t).Begun? {
        PendingStepsChangeNothing(t.steps, t.plan.steps, step);
        StartedKeepsTerminal(PrepareRuntimeStart(t).task, node.step, OutcomeOf(env, node.step), step);
      }
      hide RunStarted, WithPendingSteps;
    }
  }

  lemma StartedKeepsTerminal(t: Task, run: StepName, outcome: StepOutcome, step: StepName)
    requires StepTerminal(StepOf(t.steps, step))
    ensures StepOf(RunStarted(t, run, outcome).task.steps, step) == StepOf(t.steps, step)
  {
    var u := ExecuteToolStep(t, run, outcome).task;
    ToolKeepsTerminal(t, run, outcome, step);
    FailureKeepsTerminal(u, step);
    FailureKeepsTerminal(u.(plan := u.plan.(phase := Complete)), step);
    hide ExecuteToolStep, FailRun;
  }

  lemma ToolKeepsTerminal(t: Task, run: StepName, outcome: StepOutcome, step: StepName)
    requires StepTerminal(StepOf(t.steps, step))
    ensures StepOf(ExecuteToolStep(t, run, outcome).task.steps, step) == StepOf(t.steps, step)
  {
    hide StepMayMove, WithPlannedStep, StepOf;
    NoWayOut(Queued, StepOf(t.steps, step));
    PlannedStory(t, run, StepSkipped);
    PlannedStory(t, run, StepRunning);
    if WithPlannedStep(t, run, StepRunning).Some? {
      PlannedStory(WithPipeline(WithPlannedStep(t, run, StepRunning).value, run), run, StepSuccess);
    }
  }

  lemma FailureKeepsTerminal(t: Task, step: StepName)
    requires StepTerminal(StepOf(t.steps, step))
    ensures StepOf(FailRun(t).task.steps, step) == StepOf(t.steps, step)
  {}

  lemma {:induction false} RunKeepsTerminal(t: Task, g: GraphState, node: GraphNode, env: Env, lifetime: nat, step: StepName)
    requires StepTerminal(StepOf(t.steps, step))
    ensures StepOf(RunFrom(t, g, node, env, lifetime).steps, step) == StepOf(t.steps, step)
    decreases lifetime
  {
    hide RunNode, Route, StepOf;
    if node != Ended && lifetime > 0 {
      NodeKeepsTerminal(t, g, node, env, step);
      var r := RunNode(t, g, node, env);
      if r.Next? {
        RunKeepsTerminal(r.task, r.state, Route(node, r.state), env, lifetime - 1, step);
      }
    }
  }

  // ---- The story of a run ------------------------------------------------------------------------------

  lemma {:induction false} ReachesAlike(t: Task, u: Task, env: Env, start: StepName, step: StepName)
    requires u.plan.steps == t.plan.steps
    requires forall s :: StepRank(s) <= StepRank(start) ==> StepOf(u.steps, s) == StepOf(t.steps, s)
    ensures Reaches(u, env, start, step) == Reaches(t, env, start, step)
    decreases StepRank(start)
  {
    hide StepRank, OutcomeOf;
    if start != GenerateOutputs {
      ReachesAlike(t, u, env, After(start), step);
    }
  }

  /** What later nodes do to a step that one node has ended, or that lies behind a failure. */
  lemma EndStays(t: Task, u: Task, env: Env, step: StepName, s: StepName)
    requires StepPlanned(t, step) && Passes(t, env, step) && StepOf(u.steps, step) == StepEnd(t, env, step, step)
    ensures StepTerminal(StepOf(u.steps, step))
  {}

  lemma LaterStepEnds(t: Task, u: Task, env: Env, step: StepName, s: StepName)
    requires step != GenerateOutputs && StepRank(s) < StepRank(step) && u.plan.steps == t.plan.steps
    requires LaterUntouched(t, u, step) && Passes(t, env, step)
    ensures StepEnd(t, env, step, s) == StepEnd(u, env, After(step), s)
  {
    NextIsLater(step);
    hide StepRank, OutcomeOf, StepOf, Passes, After;
    ReachesAlike(t, u, env, After(step), s);
  }

  lemma RunEnds(t: Task, g: GraphState, node: GraphNode, env: Env, lifetime: nat)
    requires node in {FailedNode, SuccessNode} && lifetime > 0
    ensures RunFrom(t, g, node, env, lifetime).steps == t.steps
  {
    LastNode(t, g, node, env, lifetime);
  }

  lemma NodePasses(t: Task, env: Env, step: StepName)
    requires t.status == Running && OutcomeOf(env, step) != WorkerDies && step != GenerateOutputs
    ensures RunStarted(t, step, OutcomeOf(env, step)).task.status == Running <==> Passes(t, env, step)
  {
    StartedStep(t, env, step);
    hide *;
  }

  lemma OwnStepTells(t: Task, g: GraphState, step: StepName, env: Env, lifetime: nat)
    requires t.status == Running && lifetime >= 2 && OutcomeOf(env, step) != WorkerDies && t.place != At(step)
    requires StepPlanned(t, step)
    ensures EndsAsTold(t, RunFrom(t, g, StepNode(step), env, lifetime), env, step, step)
  {
    hide RunStarted, RunFrom, OutcomeOf, StepPlanned, Passes, StepRank, StepEnd, After, LaterUntouched;
    var r := RunStarted(t, step, OutcomeOf(env, step));
    RunGoesOn(t, g, step, env, lifetime);
    if step != GenerateOutputs {
      NodePasses(t, env, step);
    }
    if Passes(t, env, step) {
      PassedNode(t, env, step);
      if step != GenerateOutputs {
        EndStays(t, r.task, env, step, step);
        RunKeepsTerminal(r.task, r.state, StepNode(After(step)), env, lifetime - 1, step);
      }
    } else {
      StoppedNode(t, env, step, step);
    }
  }

  /** Where a node does not pass, the later steps end as they were. */
  lemma StoppedTells(t: Task, g: GraphState, step: StepName, env: Env, lifetime: nat, s: StepName)
    requires t.status == Running && lifetime >= 2 && OutcomeOf(env, step) != WorkerDies && t.place != At(s)
    requires step != GenerateOutputs && StepRank(s) < StepRank(step) && !Passes(t, env, step)
    ensures EndsAsTold(t, RunFrom(t, g, StepNode(step), env, lifetime), env, step, s)
  {
    hide RunStarted, RunFrom, OutcomeOf, Passes, StepRank, StepEnd, After, StepOf;
    NodePasses(t, env, step);
    RunGoesOn(t, g, step, env, lifetime);
    StoppedNode(t, env, step, s);
  }

  /**
   * From a running task: every planned step still to come, unless it is the place
   * the task already stands at, ends in success, skipped or failed as its tool did,
   * if it is reached and could start, and otherwise as it was.
   */
  lemma {:induction false} RunTells(t: Task, g: GraphState, step: StepName, env: Env, lifetime: nat, s: StepName)
    requires t.status == Running && lifetime >= StepRank(step) && Survives(env)
    requires StepRank(s) <= StepRank(step) && StepPlanned(t, s) && t.place != At(s)
    ensures EndsAsTold(t, RunFrom(t, g, StepNode(step), env, lifetime), env, step, s)
    decreases lifetime
  {
    hide *;
    NoDeath(env, step);
    RankIsPositive(step);
    if s == step {
      OwnStepTells(t, g, step, env, lifetime);
    } else {
      RankDecides(step, s);
      if Passes(t, env, step) {
        var r := RunStarted(t, step, OutcomeOf(env, step));
        RestOfRun(t, g, step, env, lifetime);
        StandsElsewhere(t, step, env, s);
        NoneBetween(step, s);
        SamePlan(t, r.task, s);
        RunTells(r.task, r.state, After(step), env, lifetime - 1, s);
        SameAsRest(t, step, env, RunFrom(r.task, r.state, StepNode(After(step)), env, lifetime - 1), s);
      } else {
        StoppedTells(t, g, step, env, lifetime, s);
      }
    }
  }

  lemma StandsElsewhere(t: Task, step: StepName, env: Env, s: StepName)
    requires t.status == Running && OutcomeOf(env, step) != WorkerDies && Passes(t, env, step)
    requires t.place != At(s) && s != step
    ensures RunStarted(t, step, OutcomeOf(env, step)).task.place != At(s)
  {
    hide RunStarted, OutcomeOf, Passes, LaterUntouched, StepEnd;
    PassedNode(t, env, step);
  }

  lemma SameAsRest(t: Task, step: StepName, env: Env, u: Task, s: StepName)
    requires t.status == Running && OutcomeOf(env, step) != WorkerDies && Passes(t, env, step)
    requires step != GenerateOutputs && StepRank(s) < StepRank(step)
    requires EndsAsTold(RunStarted(t, step, OutcomeOf(env, step)).task, u, env, After(step), s)
    ensures EndsAsTold(t, u, env, step, s)
  {
    hide RunStarted, OutcomeOf, Passes, LaterUntouched, StepEnd, StepRank, StepOf;
    PassedNode(t, env, step);
    LaterStepEnds(t, RunStarted(t, step, OutcomeOf(env, step)).task, env, step, s);
  }

  lemma NoDeath(env: Env, step: StepName)
    requires Survives(env)
    ensures OutcomeOf(env, step) != WorkerDies
  {}

  lemma RankDecides(step: StepName, s: StepName)
    requires StepRank(s) <= StepRank(step) && s != step
    ensures StepRank(s) < StepRank(step) && step != GenerateOutputs
  {}

  /** The step ends as its tool did. */
  predicate EndsAsTold(t: Task, u: Task, env: Env, start: StepName, s: StepName) {
    StepOf(u.steps, s) == StepEnd(t, env, start, s)
  }

  /** What follows the node: the next step, or a last node that leaves the steps alone. */
  lemma RunGoesOn(t: Task, g: GraphState, step: StepName, env: Env, lifetime: nat)
    requires t.status == Running && lifetime >= 2 && OutcomeOf(env, step) != WorkerDies
    ensures var r := RunStarted(t, step, OutcomeOf(env, step));
            var u := RunFrom(t, g, StepNode(step), env, lifetime);
            && r.Next?
            && if r.task.status == Running && step != GenerateOutputs
               then u == RunFrom(r.task, r.state, StepNode(After(step)), env, lifetime - 1)
               else u.steps == r.task.steps
  {
    hide RunStarted, RunFrom, OutcomeOf, StepPlanned, Passes, StepOf;
    var r := RunStarted(t, step, OutcomeOf(env, step));
    StartedStep(t, env, step);
    OneNode(t, g, StepNode(step), env, lifetime);
    if !(r.task.status == Running && step != GenerateOutputs) {
      RunEnds(r.task, r.state, Route(StepNode(step), r.state), env, lifetime - 1);
    }
  }

  /** The rest of the run is again a run from a running task. */
  lemma RestOfRun(t: Task, g: GraphState, step: StepName, env: Env, lifetime: nat)
    requires t.status == Running && OutcomeOf(env, step) != WorkerDies && lifetime >= 2
    requires step != GenerateOutputs && Passes(t, env, step)
    ensures var r := RunStarted(t, step, OutcomeOf(env, step));
            && r.Next? && r.task.status == Running && r.task.plan.steps == t.plan.steps
            && StepRank(After(step)) == StepRank(step) - 1
            && RunFrom(t, g, StepNode(step), env, lifetime)
                 == RunFrom(r.task, r.state, StepNode(After(step)), env, lifetime - 1)
  {
    hide RunStarted, RunFrom, OutcomeOf, Passes, LaterUntouched, StepEnd, StepRank, After;
    RunGoesOn(t, g, step, env, lifetime);
    NodePasses(t, env, step);
    PassedNode(t, env, step);
    NextIsLater(step);
    NoneBetween(step, After(step));
  }

  lemma RankIsPositive(step: StepName)
    ensures StepRank(step) >= 2
    ensures step == GenerateOutputs ==> StepRank(step) == 2
  {}

  lemma NoneBetween(step: StepName, s: StepName)
    requires step != GenerateOutputs && StepRank(s) < StepRank(step)
    ensures StepRank(s) <= StepRank(After(step)) == StepRank(step) - 1
  {}

  /** The step whose tool fails once it has started ends as failed, and with it the plan and the task. */
  lemma FailedToolFailsItsStep(t: Task, step: StepName)
    requires t.status == Running && StepPlanned(t, step) && StepOf(t.steps, step) in {StepPending, StepRunning}
    ensures var r := RunStarted(t, step, ToolFails);
            && r == Next(r.task, GraphState(false, Faulty))
            && StepOf(r.task.steps, step) == StepFailed && r.task.place == At(step)
            && r.task.status == FailedTask && r.task.plan.phase == Faulty
            && |r.task.log| >= 2 && r.task.log[|r.task.log| - 2..] == [StepChanged(step, StepFailed), TaskFailed]
  {
    var u := ExecuteToolStep(t, step, ToolFails).task;
    ToolStory(t, step, ToolFails);
    hide ExecuteToolStep, StepPlanned;
    FailureOfRunning(u, step);
  }

  /**
   * A step refused before its tool starts, by a limit, its own decision or a status
   * it cannot leave, is not marked: what is marked as failed is the step the task
   * stands at, if that one is still open, and no other.
   */
  lemma RefusalBlamesThePlace(t: Task, step: StepName, outcome: StepOutcome, s: StepName)
    requires t.status == Running && StepPlanned(t, step) && outcome != WorkerDies
    requires outcome in {LimitReached, ReactFail} || StepOf(t.steps, step) in {StepSuccess, StepFailed}
    ensures var r := RunStarted(t, step, outcome);
            var open := s in t.steps && StepOf(t.steps, s) in {StepPending, StepRunning};
            && r.task.status == FailedTask && r.task.plan.phase == Faulty
            && StepOf(r.task.steps, s) == if t.place == At(s) && open then StepFailed else StepOf(t.steps, s)
  {
    MayRun(StepOf(t.steps, step));
    assert ExecuteToolStep(t, step, outcome) == Raised(t);
    FailureBlames(t, s);
    hide ExecuteToolStep, FailRun, StepPlanned;
  }

  lemma FailureBlames(t: Task, s: StepName)
    requires t.status == Running
    ensures var u := FailRun(t).task;
            var open := s in t.steps && StepOf(t.steps, s) in {StepPending, StepRunning};
            && u.status == FailedTask && u.plan.phase == Faulty
            && StepOf(u.steps, s) == if t.place == At(s) && open then StepFailed else StepOf(t.steps, s)
  {
    MayRun(if t.place.At? then StepOf(t.steps, t.place.step) else StepPending);
  }

  lemma FailureOfRunning(t: Task, step: StepName)
    requires t.status == Running && t.place == At(step) && step in t.steps && StepOf(t.steps, step) == StepRunning
    ensures var r := FailRun(t);
            && r == Next(r.task, GraphState(false, Faulty))
            && StepOf(r.task.steps, step) == StepFailed && r.task.place == At(step)
            && r.task.status == FailedTask && r.task.plan.phase == Faulty
            && r.task.log == t.log + [StepChanged(step, StepFailed)] + [TaskFailed]
  {}

  /** A plan that names its steps passes over the others; one that names none has every tool run. */
  lemma OnlyPlannedStepsRun(t: Task, step: StepName, outcome: StepOutcome)
    ensures t.plan.steps != [] && step !in t.plan.steps ==>
              RunStarted(t, step, outcome) == Next(t.(log := t.log + [StepNotPlanned(step)]), GraphState(false, InProgress))
    ensures (t.plan.steps == [] || step in t.plan.steps) && t.status == Running && outcome == ToolSucceeds
              && StepOf(t.steps, step) in {StepPending, StepRunning} ==>
              StepOf(RunStarted(t, step, outcome).task.steps, step) == StepSuccess
  {
    ToolStory(t, step, ToolSucceeds);
    FinishStory(ExecuteToolStep(t, step, ToolSucceeds).task.(status := Running));
    hide ExecuteToolStep, FinishRun, FailRun;
    if ExecuteToolStep(t, step, outcome).Executed? && t.status == Running && outcome == ToolSucceeds {
      FinishStory(ExecuteToolStep(t, step, outcome).task);
    }
  }

  // ---- How often the pipeline is started ----------------------------------------------------------------

  function Starts(log: seq<Event>): nat {
    if log == [] then 0
    else Starts(log[..|log| - 1]) + if log[|log| - 1].PipelineRan? then 1 else 0
  }

  lemma StartsGrow(log: seq<Event>, e: Event)
    ensures Starts(log + [e]) == Starts(log) + if e.PipelineRan? then 1 else 0
  {
    assert (log + [e])[..|log|] == log;
  }

  /** The tool of the step is run in the step's node. */
  predicate ToolRuns(t: Task, step: StepName, outcome: StepOutcome) {
    outcome in {ToolSucceeds, ToolFails, WorkerDies} && StepOf(t.steps, step) in {StepPending, StepRunning}
  }

  lemma PlannedStarts(t: Task, step: StepName, status: StepStatus)
    ensures WithPlannedStep(t, step, status).Some? ==> Starts(WithPlannedStep(t, step, status).value.log) == Starts(t.log)
  {
    StartsGrow(t.log, StepChanged(step, status));
    hide Starts;
  }

  lemma ToolStarts(t: Task, step: StepName, outcome: StepOutcome)
    ensures Starts(ExecuteToolStep(t, step, outcome).task.log)
         == Starts(t.log) + if step == RunProcessing && ToolRuns(t, step, outcome) then 1 else 0
  {
    hide StepMayMove, WithPlannedStep, StepOf, Starts;
    MayRun(StepOf(t.steps, step));
    PlannedStory(t, step, StepRunning);
    PlannedStarts(t, step, StepSkipped);
    PlannedStarts(t, step, StepRunning);
    if WithPlannedStep(t, step, StepRunning).Some? {
      var u := WithPlannedStep(t, step, StepRunning).value;
      var v := WithPipeline(u, step);
      if step == RunProcessing {
        StartsGrow(u.log, v.log[|u.log|]);
      }
      PlannedStarts(v, step, StepSuccess);
    }
  }

  lemma FailureStarts(t: Task)
    ensures Starts(FailRun(t).task.log) == Starts(t.log)
  {
    hide Starts, WithPlannedStep, StepMayMove;
    PlannedStarts(t, if t.place.At? then t.place.step else PlanTask, StepFailed);
    StartsGrow(MarkCurrentStepFailed(t).log, TaskFailed);
  }

  lemma FinishStarts(t: Task)
    requires t.status == Running
    ensures Starts(FinishRun(t).task.log) == Starts(t.log)
  {
    hide Starts;
    StartsGrow(t.log, TaskCompleted);
  }

  lemma NodeStarts(t: Task, step: StepName, outcome: StepOutcome)
    requires t.status == Running && outcome != WorkerDies
    ensures Starts(RunStarted(t, step, outcome).task.log)
         == Starts(t.log) + if step == RunProcessing && StepPlanned(t, step) && ToolRuns(t, step, outcome) then 1 else 0
  {
    hide Starts, ExecuteToolStep, FailRun, FinishRun, StepPlanned, ToolRuns;
    var u := ExecuteToolStep(t, step, outcome).task;
    ToolStory(t, step, outcome);
    ToolStarts(t, step, outcome);
    FailureStarts(u);
    FinishStarts(u);
    StartsGrow(t.log, StepNotPlanned(step));
  }

  /** A run from `start` comes to run the pipeline's tool. */
  predicate ComesToRun(t: Task, env: Env, start: StepName) {
    && StepRank(RunProcessing) <= StepRank(start) && Reaches(t, env, start, RunProcessing)
    && StepPlanned(t, RunProcessing) && ToolRuns(t, RunProcessing, OutcomeOf(env, RunProcessing))
  }

  lemma LastNodeStarts(t: Task, g: GraphState, node: GraphNode, env: Env, lifetime: nat)
    requires node in {FailedNode, SuccessNode} && lifetime > 0
    ensures Starts(RunFrom(t, g, node, env, lifetime).log) == Starts(t.log)
  {
    LastNode(t, g, node, env, lifetime);
    StartsGrow(t.log, TaskWaiting);
    StartsGrow(t.log, TaskFailed);
    hide Starts, RunFrom;
  }

  lemma RunStartsOn(t: Task, g: GraphState, step: StepName, env: Env, lifetime: nat)
    requires t.status == Running && lifetime >= 2 && OutcomeOf(env, step) != WorkerDies
    ensures var r := RunStarted(t, step, OutcomeOf(env, step));
            !(r.task.status == Running && step != GenerateOutputs) ==>
              Starts(RunFrom(t, g, StepNode(step), env, lifetime).log) == Starts(r.task.log)
  {
    hide RunStarted, RunFrom, OutcomeOf, StepPlanned, Passes, StepOf, Starts;
    var r := RunStarted(t, step, OutcomeOf(env, step));
    StartedStep(t, env, step);
    OneNode(t, g, StepNode(step), env, lifetime);
    if !(r.task.status == Running && step != GenerateOutputs) {
      LastNodeStarts(r.task, r.state, Route(StepNode(step), r.state), env, lifetime - 1);
    }
  }

  /** Whether a later step is run depends on the nodes before it. */
  lemma ComesLater(t: Task, u: Task, env: Env, step: StepName)
    requires step != GenerateOutputs && (Passes(t, env, step) ==> PassTells(t, env, step, u))
    ensures ComesToRun(t, env, step) ==
            if step == RunProcessing then StepPlanned(t, step) && ToolRuns(t, step, OutcomeOf(env, step))
            else Passes(t, env, step) && ComesToRun(u, env, After(step))
  {
    NextIsLater(step);
    if step != RunProcessing && Passes(t, env, step) {
      SamePlan(t, u, RunProcessing);
      PipelineComesLater(step);
      NoneBetween(step, RunProcessing);
      ReachesAlike(t, u, env, After(step), RunProcessing);
    }
    hide StepRank, OutcomeOf, StepOf, Passes, After, StepPlanned;
  }

  lemma PipelineComesLater(step: StepName)
    requires step != GenerateOutputs && step != RunProcessing
    ensures StepRank(RunProcessing) < StepRank(step)
  {}

  lemma NothingToRun(t: Task, env: Env, start: StepName)
    requires StepRank(start) < StepRank(RunProcessing)
    ensures !ComesToRun(t, env, start)
  {
    hide StepRank;
  }

  /** The node itself runs the pipeline's tool. */
  predicate RunsHere(t: Task, env: Env, step: StepName) {
    step == RunProcessing && StepPlanned(t, step) && ToolRuns(t, step, OutcomeOf(env, step))
  }

  lemma LastComes(t: Task, env: Env)
    ensures !ComesToRun(t, env, GenerateOutputs)
  {
    RankIsPositive(RunProcessing);
    RankIsPositive(GenerateOutputs);
    RankDiffers(GenerateOutputs, RunProcessing);
    NothingToRun(t, env, GenerateOutputs);
  }

  lemma HereOrLater(t: Task, env: Env, step: StepName)
    requires t.status == Running && OutcomeOf(env, step) != WorkerDies && step != GenerateOutputs
    ensures var u := RunStarted(t, step, OutcomeOf(env, step)).task;
            && ComesToRun(t, env, step) == (RunsHere(t, env, step) || (Passes(t, env, step) && ComesToRun(u, env, After(step))))
            && (RunsHere(t, env, step) ==> !ComesToRun(u, env, After(step)))
  {
    hide RunStarted, StepRank, After, Passes, ComesToRun, PassTells, ToolRuns, StepPlanned, OutcomeOf;
    if Passes(t, env, step) {
      PassedNode(t, env, step);
    }
    NextIsLater(step);
    var u := RunStarted(t, step, OutcomeOf(env, step)).task;
    ComesLater(t, u, env, step);
    if step == RunProcessing {
      NothingToRun(u, env, After(step));
    }
  }

  lemma StartsFromHere(t: Task, g: GraphState, step: StepName, env: Env, lifetime: nat)
    requires t.status == Running && lifetime >= 2 && OutcomeOf(env, step) != WorkerDies
    ensures var r := RunStarted(t, step, OutcomeOf(env, step));
            var u := RunFrom(t, g, StepNode(step), env, lifetime);
            && r.Next?
            && Starts(r.task.log) == Starts(t.log) + (if RunsHere(t, env, step) then 1 else 0)
            && if step != GenerateOutputs && Passes(t, env, step)
               then r.task.status == Running && u == RunFrom(r.task, r.state, StepNode(After(step)), env, lifetime - 1)
               else Starts(u.log) == Starts(r.task.log)
  {
    hide RunStarted, RunFrom, Starts, Passes, ToolRuns, StepPlanned, OutcomeOf, After;
    NodeStarts(t, step, OutcomeOf(env, step));
    RunStartsOn(t, g, step, env, lifetime);
    RunGoesOn(t, g, step, env, lifetime);
    if step != GenerateOutputs {
      NodePasses(t, env, step);
    }
  }

  /** The starts of a run are its own start here, and those of the rest of the run. */
  lemma AddStarts(t: Task, g: GraphState, step: StepName, env: Env, lifetime: nat)
    requires t.status == Running && lifetime >= 2 && OutcomeOf(env, step) != WorkerDies
    requires step != GenerateOutputs
    requires var r := RunStarted(t, step, OutcomeOf(env, step));
             r.Next? && Passes(t, env, step) ==>
               StartsAsTold(r.task, RunFrom(r.task, r.state, StepNode(After(step)), env, lifetime - 1), env, After(step))
    ensures StartsAsTold(t, RunFrom(t, g, StepNode(step), env, lifetime), env, step)
  {
    hide RunStarted, RunFrom, Starts, Passes, OutcomeOf, After, ComesToRun, RunsHere;
    StartsFromHere(t, g, step, env, lifetime);
    HereOrLater(t, env, step);
  }

  lemma LastStarts(t: Task, g: GraphState, env: Env, lifetime: nat)
    requires t.status == Running && lifetime >= 2 && OutcomeOf(env, GenerateOutputs) != WorkerDies
    ensures StartsAsTold(t, RunFrom(t, g, StepNode(GenerateOutputs), env, lifetime), env, GenerateOutputs)
  {
    hide RunStarted, RunFrom, Starts, Passes, OutcomeOf, ComesToRun, RunsHere;
    StartsFromHere(t, g, GenerateOutputs, env, lifetime);
    LastComes(t, env);
    NotHere(t, env, GenerateOutputs);
  }

  /** One start more if the pipeline's tool is come to. */
  predicate StartsAsTold(t: Task, u: Task, env: Env, start: StepName) {
    Starts(u.log) == Starts(t.log) + if ComesToRun(t, env, start) then 1 else 0
  }

  lemma {:induction false} RunStarts(t: Task, g: GraphState, step: StepName, env: Env, lifetime: nat)
    requires t.status == Running && lifetime >= StepRank(step) && Survives(env)
    ensures StartsAsTold(t, RunFrom(t, g, StepNode(step), env, lifetime), env, step)
    decreases lifetime
  {
    hide *;
    NoDeath(env, step);
    RankIsPositive(step);
    if step == GenerateOutputs {
      LastStarts(t, g, env, lifetime);
    } else {
      if Passes(t, env, step) {
        var r := RunStarted(t, step, OutcomeOf(env, step));
        RestOfRun(t, g, step, env, lifetime);
        RunStarts(r.task, r.state, After(step), env, lifetime - 1);
      }
      AddStarts(t, g, step, env, lifetime);
    }
  }

  lemma NotHere(t: Task, env: Env, step: StepName)
    requires step != RunProcessing
    ensures !RunsHere(t, env, step)
  {}

  // ---- The story of an approved job ---------------------------------------------------------------------

  /** The step comes earlier in the sequence of steps. */
  predicate ComesBefore(a: StepName, b: StepName) {
    exists i, j :: 0 <= i < j < |STEP_SEQUENCE| && STEP_SEQUENCE[i] == a && STEP_SEQUENCE[j] == b
  }

  /** Before the step, every planned tool succeeds or is skipped. */
  predicate EarlierToolsPass(t: Task, env: Env, step: StepName) {
    forall x :: ComesBefore(x, step) && x != PlanTask && StepPlanned(t, x) ==> OutcomeOf(env, x) in {ToolSucceeds, ReactSkip}
  }

  function JobStepEnd(t: Task, env: Env, step: StepName): StepStatus {
    if !EarlierToolsPass(t, env, step) then StepPending
    else
      match OutcomeOf(env, step)
      case ToolSucceeds => StepSuccess
      case ReactSkip => StepSkipped
      case ToolFails => StepFailed
      case _ => StepPending
  }

  lemma SequenceIsRanked(step: StepName, i: nat)
    ensures |STEP_SEQUENCE| == 6 && 2 <= StepRank(step) <= 7
    ensures STEP_SEQUENCE[7 - StepRank(step)] == step
    ensures i < 6 ==> StepRank(STEP_SEQUENCE[i]) == 7 - i
  {}

  lemma BeforeIsRank(a: StepName, b: StepName)
    ensures ComesBefore(a, b) <==> StepRank(a) > StepRank(b)
  {
    hide StepRank;
    SequenceIsRanked(a, 0);
    SequenceIsRanked(b, 0);
    forall i: nat | i < 6
      ensures StepRank(STEP_SEQUENCE[i]) == 7 - i
    {
      SequenceIsRanked(a, i);
    }
    hide STEP_SEQUENCE;
  }

  /** The steps between are passed exactly if their tools pass, when nothing has run yet. */
  lemma {:induction false} ReachedExactly(t: Task, env: Env, start: StepName, step: StepName)
    requires forall s :: StepOf(t.steps, s) == StepPending
    requires StepRank(step) <= StepRank(start)
    ensures Reaches(t, env, start, step)
       <==> forall x :: StepRank(step) < StepRank(x) <= StepRank(start) && StepPlanned(t, x) ==>
              OutcomeOf(env, x) in {ToolSucceeds, ReactSkip}
    decreases StepRank(start)
  {
    hide StepPlanned, OutcomeOf;
    if start != step {
      RankDecides(start, step);
      NoneBetween(start, step);
      ReachedExactly(t, env, After(start), step);
      hide Reaches;
      MayRun(StepPending);
      assert Passes(t, env, start) <==> (StepPlanned(t, start) ==> OutcomeOf(env, start) in {ToolSucceeds, ReactSkip});
      forall x | StepRank(After(start)) < StepRank(x) <= StepRank(start)
        ensures x == start
      {
        RankDiffers(x, start);
      }
    }
  }

  lemma ToolsPassIffReached(t: Task, env: Env, step: StepName)
    requires (forall s :: StepOf(t.steps, s) == StepPending) && step != PlanTask
    ensures Reaches(t, env, NormalizeAoi, step) <==> EarlierToolsPass(t, env, step)
  {
    hide Reaches, StepPlanned, OutcomeOf, StepRank, ComesBefore, StepOf;
    NotFirst(step);
    ReachedExactly(t, env, NormalizeAoi, step);
    forall x
      ensures ComesBefore(x, step) && x != PlanTask <==> StepRank(step) < StepRank(x) <= StepRank(NormalizeAoi)
    {
      BeforeIsRank(x, step);
      NotFirst(x);
    }
  }

  lemma NotFirst(step: StepName)
    ensures StepRank(step) <= StepRank(NormalizeAoi) <==> step != PlanTask
  {}

  /** A job just queued, with nothing run yet, is carried on from its first step. */
  lemma QueuedJobRuns(t: Task, env: Env) returns (u: Task)
    requires HasApprovedPlan(t) && t.status == Queued && !t.needConfirmation && !t.blocked && t.steps == map[]
    requires t.plan.phase != ApprovalRequired && t.plan.phase != Faulty && PlannerBuilt(t.plan.steps) && env.lifetime >= 8
    ensures u.status == Running && u.plan.steps == t.plan.steps && u.place == At(PlanTask)
    ensures (forall s :: StepOf(u.steps, s) == StepPending) && u.log == t.log + [TaskStarted]
    ensures Deliver(t, env) == RunFrom(u, GraphState(false, t.plan.phase), StepNode(NormalizeAoi), env, env.lifetime - 2)
  {
    u := PrepareRuntimeStart(t).task;
    assert t.plan.steps[0] == PlanTask;
    FirstStepBegins(t, OutcomeOf(env, NormalizeAoi));
    hide RunFrom, RunRuntimeStep, PlannerBuilt, Deliver, WithPendingSteps, OutcomeOf;
    ToFirstStep(t, env);
    SameStepSameRun(t, u, GraphState(false, t.plan.phase), env, env.lifetime - 2);
  }

  lemma QueuedJobTells(t: Task, env: Env, step: StepName)
    requires HasApprovedPlan(t) && t.status == Queued && !t.needConfirmation && !t.blocked && t.steps == map[]
    requires t.plan.phase != ApprovalRequired && t.plan.phase != Faulty && PlannerBuilt(t.plan.steps)
    requires env.lifetime >= 8 && Survives(env) && StepPlanned(t, step) && step != PlanTask
    ensures StepOf(Deliver(t, env).steps, step) == JobStepEnd(t, env, step)
  {
    hide *;
    var u := QueuedJobRuns(t, env);
    RanksOfSteps();
    NotFirst(step);
    SamePlan(t, u, step);
    NoDeath(env, step);
    RunTells(u, GraphState(false, t.plan.phase), NormalizeAoi, env, env.lifetime - 2, step);
    ToldFromTheStart(u, Deliver(t, env), env, step);
    SameJobStepEnd(t, u, env, step);
  }

  lemma ToldFromTheStart(t: Task, u: Task, env: Env, step: StepName)
    requires (forall s :: StepOf(t.steps, s) == StepPending) && step != PlanTask && OutcomeOf(env, step) != WorkerDies
    requires EndsAsTold(t, u, env, NormalizeAoi, step)
    ensures StepOf(u.steps, step) == JobStepEnd(t, env, step)
  {
    hide Reaches, EarlierToolsPass, OutcomeOf;
    ToolsPassIffReached(t, env, step);
  }

  lemma SamePlansPassAlike(t: Task, u: Task, env: Env, step: StepName)
    requires u.plan.steps == t.plan.steps
    ensures EarlierToolsPass(u, env, step) == EarlierToolsPass(t, env, step)
  {
    hide ComesBefore, OutcomeOf;
  }

  /** The pipeline's tool is run in the job. */
  predicate JobRuns(t: Task, env: Env) {
    EarlierToolsPass(t, env, RunProcessing) && OutcomeOf(env, RunProcessing) in {ToolSucceeds, ToolFails}
  }

  lemma ComesIfPassed(t: Task, env: Env)
    requires (forall s :: StepOf(t.steps, s) == StepPending) && StepPlanned(t, RunProcessing)
    requires OutcomeOf(env, RunProcessing) != WorkerDies
    ensures ComesToRun(t, env, NormalizeAoi) <==> JobRuns(t, env)
  {
    hide Reaches, StepRank, EarlierToolsPass, StepPlanned, OutcomeOf;
    NotFirst(RunProcessing);
    ToolsPassIffReached(t, env, RunProcessing);
  }

  lemma QueuedJobStarts(t: Task, env: Env)
    requires HasApprovedPlan(t) && t.status == Queued && !t.needConfirmation && !t.blocked && t.steps == map[]
    requires t.plan.phase != ApprovalRequired && t.plan.phase != Faulty && PlannerBuilt(t.plan.steps)
    requires env.lifetime >= 8 && Survives(env)
    ensures Starts(Deliver(t, env).log) == Starts(t.log) + if JobRuns(t, env) then 1 else 0
  {
    hide RunFrom, Deliver, Survives, StepRank, ComesToRun, JobRuns, OutcomeOf, Starts, EarlierToolsPass;
    assert RunProcessing in t.plan.steps;
    hide PlannerBuilt;
    var u := QueuedJobRuns(t, env);
    NoDeath(env, RunProcessing);
    ComesIfPassed(u, env);
    RanksOfSteps();
    RunStarts(u, GraphState(false, t.plan.phase), NormalizeAoi, env, env.lifetime - 2);
    StartsGrow(t.log, TaskStarted);
    SameJobRuns(t, u, env);
  }

  lemma SameJobRuns(t: Task, u: Task, env: Env)
    requires u.plan.steps == t.plan.steps
    ensures JobRuns(u, env) == JobRuns(t, env)
  {
    hide EarlierToolsPass, OutcomeOf;
    SamePlansPassAlike(t, u, env, RunProcessing);
  }

  lemma {:induction false} NeverRanNeverStarted(log: seq<Event>)
    requires NeverRan(log)
    ensures Starts(log) == 0
  {
    if log != [] {
      NeverRanNeverStarted(log[..|log| - 1]);
    }
  }

  /**
   * In a job just approved, with a plan the planner built and a worker that
   * survives, every planned step whose predecessors' tools pass ends in success,
   * skipped or failed as its own tool does, and every other one is never begun. The
   * pipeline is started once if its step's tool is run, and else not at all.
   */
  lemma ApprovedJobTells(h: PlanGuard.Heuristics, created: Task, steps: seq<Step>, version: int, resolver: Pipeline.Handler,
                         env: Env, step: StepName)
    requires CreatedForApproval(created) && created.plan.phase != Faulty && PlannerBuilt(created.plan.steps)
    requires env.lifetime >= 8 && Survives(env) && StoredPlanOk(RunOf(h, created, steps).task)
    requires ApproveAccepted(h, resolver, RunOf(h, created, steps).task, version)
    requires StepPlanned(created, step) && step != PlanTask
    ensures var w := Apply(h, RunOf(h, created, steps), Approve(version, resolver));
            var u := Apply(h, w, DeliverJob(env)).task;
            && StepOf(u.steps, step) == JobStepEnd(created, env, step)
            && Starts(u.log) == if JobRuns(created, env) then 1 else 0
  {
    RunKeepsInv(h, created, steps);
    DeliveryTheorems.WorldFits(h, created, steps);
    DeliveryTheorems.OpenKeepsPhase(h, created, steps);
    var w := RunOf(h, created, steps);
    var t := Submitted(w.task);
    assert Apply(h, w, Approve(version, resolver)) == World(t, w.task.plan.operation);
    assert Open(w.task);
    NeverRanNeverStarted(w.task.log);
    SubmittedStarts(w.task);
    hide *;
    DeliveryTheorems.SubmittedIsReady(w.task);
    DeliveryTheorems.DeliveredTask(h, World(t, w.task.plan.operation), env);
    SamePlan(created, t, step);
    QueuedJobTells(t, env, step);
    QueuedJobStarts(t, env);
    SameJobStepEnd(created, t, env, step);
    SameJobRuns(created, t, env);
  }

  lemma SubmittedStarts(t: Task)
    requires t.plan.operation.Some?
    ensures Starts(Submitted(t).log) == Starts(t.log)
  {
    var v := t.plan.operation.value.version;
    StartsGrow(t.log, PlanApproved(v));
    StartsGrow(t.log + [PlanApproved(v)], TaskQueued);
    hide Starts;
    assert t.log + [PlanApproved(v), TaskQueued] == t.log + [PlanApproved(v)] + [TaskQueued];
  }

  lemma SameJobStepEnd(t: Task, u: Task, env: Env, step: StepName)
    requires u.plan.steps == t.plan.steps
    ensures JobStepEnd(u, env, step) == JobStepEnd(t, env, step)
  {
    hide EarlierToolsPass, OutcomeOf;
    SamePlansPassAlike(t, u, env, step);
  }
}
