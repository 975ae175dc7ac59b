/**
 * When a run of the pipeline goes through, and with it an approval, said of the
 * calls of the handler alone: which nodes it is called on, with which references.
 */
module DryRun {
  import opened Results
  import StepGraph
  import opened OperationRegistry
  import opened OperationPlan
  import opened PassScheduler
  import opened Pipeline
  import opened PlanGuard
  import PlanApproval
  import TaskState
  import DeliveryTheorems

  /** The nodes a handler is called on: all of them, or in the dry run the uploads. */
  function Handled(mode: Mode, order: seq<Node>): seq<Node> {
    if order == [] then []
    else
      var n := order[|order| - 1];
      Handled(mode, order[..|order| - 1])
      + if mode == Execute || n.opName == InputUploadRaster || n.opName == InputUploadVector then [n] else []
  }

  /** What a node's file adds: its declared output, or else its step id, or for an export nothing. */
  predicate Adds(n: Node, path: Path, before: References, after: References) {
    var key := Spec(n.opName).output.key;
    if key in n.outputs && n.outputs[key] != "" then after == before[n.outputs[key] := path]
    else if n.opName == ArtifactExport then after == before
    else after == before[n.stepId := path]
  }

  /** The handler succeeds on the node with these references, and they grow by its file. */
  predicate Succeeds(h: Handler, n: Node, before: References, after: References) {
    h(n, before).Success? && Adds(n, h(n, before).value, before, after)
  }

  /** The references before the first node, between any two, and after the last, all calls succeeding. */
  ghost predicate Trail(h: Handler, handled: seq<Node>, trail: seq<References>) {
    && |trail| == |handled| + 1
    && trail[0] == map[]
    && forall i :: 0 <= i < |handled| ==> SucceedsAt(h, handled, trail, i)
  }

  ghost predicate SucceedsAt(h: Handler, handled: seq<Node>, trail: seq<References>, i: nat)
    requires |trail| == |handled| + 1 && i < |handled|
  {
    Succeeds(h, handled[i], trail[i], trail[i + 1])
  }

  /** All calls up to the k-th succeed, and that one fails. */
  ghost predicate FailsAt(h: Handler, handled: seq<Node>, trail: seq<References>, k: nat, step: StepGraph.StepId,
                          e: string) {
    && k < |handled| && |trail| == k + 1 && Trail(h, handled[..k], trail)
    && h(handled[k], trail[k]) == Failure(e) && handled[k].stepId == step
  }

  ghost predicate GoesThrough(h: Handler, handled: seq<Node>) {
    exists trail :: Trail(h, handled, trail)
  }

  /** The first call that fails is on this step and says this. */
  ghost predicate FailsWith(h: Handler, handled: seq<Node>, step: StepGraph.StepId, e: string) {
    exists trail, k: nat :: FailsAt(h, handled, trail, k, step, e)
  }

  lemma PrefixTrail(h: Handler, handled: seq<Node>, trail: seq<References>, k: nat)
    requires Trail(h, handled, trail) && k <= |handled|
    ensures Trail(h, handled[..k], trail[..k + 1])
  {
    hide Succeeds;
    var fewer, part := handled[..k], trail[..k + 1];
    forall i | 0 <= i < k
      ensures SucceedsAt(h, fewer, part, i)
    {
      assert SucceedsAt(h, handled, trail, i);
    }
  }

  lemma LongerTrail(h: Handler, handled: seq<Node>, trail: seq<References>, n: Node, after: References)
    requires Trail(h, handled, trail) && Succeeds(h, n, trail[|handled|], after)
    ensures Trail(h, handled + [n], trail + [after])
  {
    hide Succeeds;
    forall i | 0 <= i < |handled + [n]|
      ensures SucceedsAt(h, handled + [n], trail + [after], i)
    {
      assert i < |handled| ==> SucceedsAt(h, handled, trail, i);
    }
  }

  lemma {:induction false} OneTrail(h: Handler, handled: seq<Node>, a: seq<References>, b: seq<References>)
    requires Trail(h, handled, a) && Trail(h, handled, b)
    ensures a == b
  {
    var last := |handled| - 1;
    if handled != [] {
      PrefixTrail(h, handled, a, last);
      PrefixTrail(h, handled, b, last);
      OneTrail(h, handled[..last], a[..last + 1], b[..last + 1]);
      assert SucceedsAt(h, handled, a, last) && SucceedsAt(h, handled, b, last);
      assert a[..last + 1][last] == b[..last + 1][last];
      assert a == a[..last + 1] + [a[last + 1]] && b == b[..last + 1] + [b[last + 1]];
    }
  }

  /** Where a call fails there is no trail. */
  lemma NoTrailPastFailure(h: Handler, handled: seq<Node>, trail: seq<References>, k: nat, step: StepGraph.StepId,
                           e: string, through: seq<References>)
    requires FailsAt(h, handled, trail, k, step, e)
    ensures !Trail(h, handled, through)
  {
    if Trail(h, handled, through) {
      PrefixTrail(h, handled, through, k);
      assert SucceedsAt(h, handled, through, k);
      OneTrail(h, handled[..k], trail, through[..k + 1]);
    }
  }

  /** A call fails at one place at most. */
  lemma OneFailure(h: Handler, handled: seq<Node>, a: seq<References>, i: nat, s: StepGraph.StepId, d: string,
                   b: seq<References>, j: nat, t: StepGraph.StepId, e: string)
    requires FailsAt(h, handled, a, i, s, d) && FailsAt(h, handled, b, j, t, e)
    ensures s == t && d == e
  {
    hide Trail;
    if i < j {
      EarlierFailure(h, handled, a, i, s, d, b, j);
    } else if j < i {
      EarlierFailure(h, handled, b, j, t, e, a, i);
    } else {
      OneTrail(h, handled[..i], a, b);
    }
  }

  lemma EarlierFailure(h: Handler, handled: seq<Node>, a: seq<References>, i: nat, s: StepGraph.StepId, d: string,
                       b: seq<References>, j: nat)
    requires FailsAt(h, handled, a, i, s, d) && i < j <= |handled|
    ensures !Trail(h, handled[..j], b)
  {
    assert handled[..j][..i] == handled[..i];
    hide Trail;
    NoTrailPastFailure(h, handled[..j], a, i, s, d, b);
  }

  /** How a run in order ends, with the trail that shows it. */
  ghost predicate Shown(h: Handler, handled: seq<Node>, t: Trace, trail: seq<References>) {
    match t.failure
    case None => |trail| == |handled| + 1 && Trail(h, handled, trail) && t.refs == trail[|handled|]
    case Some(f) => exists k: nat :: FailsAt(h, handled, trail, k, f.0, f.1) && t.refs == trail[k]
  }

  lemma {:induction false} RunIsShown(mode: Mode, h: Handler, order: seq<Node>) returns (trail: seq<References>)
    ensures Shown(h, Handled(mode, order), RunInOrder(mode, h, order), trail)
  {
    if order == [] {
      trail := [map[]];
    } else {
      var init, n := order[..|order| - 1], order[|order| - 1];
      trail := RunIsShown(mode, h, init);
      trail := NodeIsShown(mode, h, order, init, n, trail);
    }
  }

  lemma NodeIsShown(mode: Mode, h: Handler, order: seq<Node>, init: seq<Node>, n: Node, trail: seq<References>)
    returns (more: seq<References>)
    requires order != [] && init == order[..|order| - 1] && n == order[|order| - 1]
    requires Shown(h, Handled(mode, init), RunInOrder(mode, h, init), trail)
    ensures Shown(h, Handled(mode, order), RunInOrder(mode, h, order), more)
  {
    var t, handled, all := RunInOrder(mode, h, init), Handled(mode, init), Handled(mode, order);
    more := trail;
    hide Trail, Succeeds, Adds, Register;
    if t.failure.Some? {
      var f := t.failure.value;
      var k: nat :| FailsAt(h, handled, trail, k, f.0, f.1) && t.refs == trail[k];
      assert all[..k] == handled[..k];
      assert FailsAt(h, all, trail, k, f.0, f.1);
    } else if |all| == |handled| {
      assert all == handled;
    } else {
      assert all == handled + [n] && all[..|handled|] == handled;
      var refs := trail[|handled|];
      if h(n, refs).Success? {
        var after := Register(refs, n, h(n, refs).value);
        RegisterAdds(h, n, refs);
        LongerTrail(h, handled, trail, n, after);
        more := trail + [after];
      } else {
        assert FailsAt(h, all, trail, |handled|, n.stepId, h(n, refs).error);
      }
    }
  }

  lemma RegisterAdds(h: Handler, n: Node, refs: References)
    requires h(n, refs).Success?
    ensures Succeeds(h, n, refs, Register(refs, n, h(n, refs).value))
  {}

  /**
   * A run goes through exactly if the handler succeeds on every node it is called
   * on, each time with the references of those before; it fails with a step and a
   * message exactly if that is the first call that fails.
   */
  lemma RunsThroughIff(mode: Mode, h: Handler, order: seq<Node>)
    ensures var t, handled := RunInOrder(mode, h, order), Handled(mode, order);
            && (t.failure == None <==> GoesThrough(h, handled))
            && (forall trail :: Trail(h, handled, trail) ==> t.refs == trail[|handled|])
            && (forall step, e :: t.failure == Some((step, e))
                  <==> FailsWith(h, handled, step, e))
  {
    var t, handled := RunInOrder(mode, h, order), Handled(mode, order);
    var shown := RunIsShown(mode, h, order);
    ShownIsThere(h, handled, t, shown);
    hide RunInOrder, FailsAt, Handled, SucceedsAt, FailsWith;
    forall trail | Trail(h, handled, trail)
      ensures t.failure == None && |trail| == |handled| + 1 && t.refs == trail[|handled|]
    {
      ThroughOnly(h, handled, t, shown, trail);
    }
    forall step, e | FailsWith(h, handled, step, e)
      ensures t.failure == Some((step, e))
    {
      FailsWithOnly(h, handled, t, shown, step, e);
    }
  }

  lemma FailsWithOnly(h: Handler, handled: seq<Node>, t: Trace, shown: seq<References>, step: StepGraph.StepId, e: string)
    requires Shown(h, handled, t, shown) && FailsWith(h, handled, step, e)
    ensures t.failure == Some((step, e))
  {
    hide FailsAt;
    var trail, k: nat :| FailsAt(h, handled, trail, k, step, e);
    FailsOnly(h, handled, t, shown, trail, k, step, e);
  }

  lemma ShownIsThere(h: Handler, handled: seq<Node>, t: Trace, shown: seq<References>)
    requires Shown(h, handled, t, shown)
    ensures t.failure == None ==> GoesThrough(h, handled)
    ensures t.failure.Some? ==> FailsWith(h, handled, t.failure.value.0, t.failure.value.1)
  {
    hide Trail, FailsAt;
  }

  lemma ThroughOnly(h: Handler, handled: seq<Node>, t: Trace, shown: seq<References>, trail: seq<References>)
    requires Shown(h, handled, t, shown) && Trail(h, handled, trail)
    ensures t.failure == None && trail == shown && |trail| == |handled| + 1 && t.refs == trail[|handled|]
  {
    hide SucceedsAt, FailsAt;
    if t.failure.Some? {
      var f := t.failure.value;
      var k: nat :| FailsAt(h, handled, shown, k, f.0, f.1);
      NoTrailPastFailure(h, handled, shown, k, f.0, f.1, trail);
    } else {
      OneTrail(h, handled, trail, shown);
    }
  }

  lemma FailsOnly(h: Handler, handled: seq<Node>, t: Trace, shown: seq<References>, trail: seq<References>, k: nat,
                  step: StepGraph.StepId, e: string)
    requires Shown(h, handled, t, shown) && FailsAt(h, handled, trail, k, step, e)
    ensures t.failure == Some((step, e))
  {
    hide Trail, FailsAt;
    if t.failure.None? {
      NoTrailPastFailure(h, handled, trail, k, step, e, shown);
    } else {
      var f := t.failure.value;
      var j: nat :| FailsAt(h, handled, shown, j, f.0, f.1);
      OneFailure(h, handled, trail, k, step, e, shown, j, f.0, f.1);
    }
  }

  // ---- What is reported -----------------------------------------------------------------------

  /** Every node is reported started and finished, one after another. */
  function Reported(order: seq<Node>): seq<Event> {
    if order == [] then []
    else
      var n := order[|order| - 1];
      Reported(order[..|order| - 1]) + [Started(n.stepId), Finished(n.stepId)]
  }

  ghost predicate FailureReported(order: seq<Node>, t: Trace, k: nat) {
    && k < |order| && t.failure.Some? && t.failure.value.0 == order[k].stepId
    && t.events == Reported(order[..k]) + [Started(order[k].stepId), Failed(order[k].stepId)]
  }

  /** Until the first failure every node is started and finished in turn; the failing one is reported last. */
  lemma {:induction false} EventsTellTheRun(mode: Mode, h: Handler, order: seq<Node>)
    ensures var t := RunInOrder(mode, h, order);
            if t.failure == None then t.events == Reported(order) else exists k: nat :: FailureReported(order, t, k)
  {
    if order != [] {
      hide Act;
      var init, t := order[..|order| - 1], RunInOrder(mode, h, order);
      EventsTellTheRun(mode, h, init);
      if RunInOrder(mode, h, init).failure.Some? {
        var k: nat :| FailureReported(init, RunInOrder(mode, h, init), k);
        assert init[..k] == order[..k];
        assert FailureReported(order, t, k);
      } else if t.failure.Some? {
        assert FailureReported(order, t, |order| - 1);
      }
    }
  }

  // ---- The dry run at approval ----------------------------------------------------------------

  /** The resolver finds every upload, each call with the references of the uploads before it in the schedule. */
  ghost predicate UploadsResolve(resolver: Handler, nodes: seq<Node>) {
    GoesThrough(resolver, Handled(Preflight, ScheduleOrder(nodes)))
  }

  /** The nodes the dry run calls the resolver on are the plan's uploads, in the order of the schedule. */
  lemma {:induction false} DryRunHandlesUploads(order: seq<Node>)
    ensures forall n :: n in Handled(Preflight, order) <==> n in order && n.opName in {InputUploadRaster, InputUploadVector}
  {
    if order != [] {
      var init, n := order[..|order| - 1], order[|order| - 1];
      DryRunHandlesUploads(init);
      assert order == init + [n];
    }
  }

  /** On an accepted plan the dry run completes exactly if the resolver finds every upload. */
  lemma DryRunCompletesIff(h: Heuristics, resolver: Handler, nodes: seq<Node>)
    requires UniqueIds(nodes) && Acceptable(h, nodes)
    ensures PlanApproval.PreflightPasses(resolver, nodes) <==> UploadsResolve(resolver, nodes)
  {
    DeliveryTheorems.ApprovedPlanNeverStalls(h, resolver, Preflight, nodes);
    hide RunInOrder, GoesThrough, ScheduleOrder, Pipeline.OutcomeOf, Handled, Acceptable;
    RunsThroughIff(Preflight, resolver, ScheduleOrder(nodes));
  }

  /** Execution of an accepted plan completes exactly if the handler succeeds on every node. */
  lemma ExecutionCompletesIff(h: Heuristics, handler: Handler, nodes: seq<Node>)
    requires UniqueIds(nodes) && Acceptable(h, nodes)
    ensures Pipeline.OutcomeOf(nodes, RunInOrder(Execute, handler, ScheduleOrder(nodes))) == Completed
       <==> GoesThrough(handler, ScheduleOrder(nodes))
  {
    DeliveryTheorems.ApprovedPlanNeverStalls(h, handler, Execute, nodes);
    ExecutionHandlesAll(ScheduleOrder(nodes));
    hide RunInOrder, GoesThrough, ScheduleOrder, Pipeline.OutcomeOf, Handled, Acceptable;
    RunsThroughIff(Execute, handler, ScheduleOrder(nodes));
  }

  lemma {:induction false} ExecutionHandlesAll(order: seq<Node>)
    ensures Handled(Execute, order) == order
  {
    if order != [] {
      ExecutionHandlesAll(order[..|order| - 1]);
    }
  }

  /**
   * A request to approve is granted exactly if approval is awaited, there is a
   * plan, the guard accepts it, its version is the one named, and the resolver
   * finds every upload; it is refused for the dry run exactly if only that fails.
   */
  lemma ApprovalNeedsUploads(h: Heuristics, resolver: Handler, t: TaskState.Task, version: int)
    requires PlanApproval.StoredPlanOk(t)
    ensures var ready := t.status == TaskState.AwaitingApproval && t.plan.operation.Some?
                         && Acceptable(h, t.plan.operation.value.nodes) && t.plan.operation.value.version == version;
            var granted := PlanApproval.ApproveAccepted(h, resolver, t, version);
            && granted == (ready && UploadsResolve(resolver, t.plan.operation.value.nodes))
            && (!granted ==> PlanApproval.ApproveRefusedFor(h, t, version, PlanApproval.PreflightFailed) == ready)
  {
    hide Acceptable, UploadsResolve, PlanApproval.PreflightPasses, RejectedFor;
    if t.plan.operation.Some? && Acceptable(h, t.plan.operation.value.nodes) {
      DryRunCompletesIff(h, resolver, t.plan.operation.value.nodes);
    }
  }

  /** The two resolvers do the same with uploads. */
  ghost predicate AgreeOnUploads(a: Handler, b: Handler) {
    forall n: Node, refs :: n.opName in {InputUploadRaster, InputUploadVector} ==> a(n, refs) == b(n, refs)
  }

  /** What a resolver would do with other nodes plays no part in a dry run, nor in an approval. */
  lemma {:induction false} OnlyUploadsMatter(a: Handler, b: Handler, order: seq<Node>)
    requires AgreeOnUploads(a, b)
    ensures RunInOrder(Preflight, a, order) == RunInOrder(Preflight, b, order)
  {
    if order != [] {
      OnlyUploadsMatter(a, b, order[..|order| - 1]);
    }
  }

  lemma ApprovalIgnoresOtherNodes(h: Heuristics, a: Handler, b: Handler, t: TaskState.Task, version: int)
    requires PlanApproval.StoredPlanOk(t) && AgreeOnUploads(a, b)
    ensures PlanApproval.ApproveAccepted(h, a, t, version) <==> PlanApproval.ApproveAccepted(h, b, t, version)
  {
    hide Acceptable, RunInOrder, AgreeOnUploads;
    if t.plan.operation.Some? {
      OnlyUploadsMatter(a, b, ScheduleOrder(t.plan.operation.value.nodes));
    }
  }
}
