/**
 * The scheduling loops of processing_pipeline.py: run_processing_pipeline and
 * its input-only preflight. What an operation does to rasters and vectors is an
 * arbitrary handler; what is kept is when it runs, which references it can see
 * and which reference it registers.
 */
module Pipeline {
  import opened Results
  import opened StepGraph
  import opened OperationRegistry
  import opened OperationPlan
  import opened PassScheduler

  type Path = string
  type References = map<Ref, Path>

  /** What a handler does with a node and the references so far: a produced file, or an error. */
  type Handler = (Node, References) -> Result<Path, string>

  datatype Mode = Preflight | Execute

  datatype Event = Started(step: StepId) | Finished(step: StepId) | Failed(step: StepId)

  datatype Outcome =
    | EmptyPlan
    | Completed
    | NodeFailed(step: StepId, message: string)
    | UnresolvedDependencies(steps: seq<StepId>)

  /** The reference a node registers: its declared output, or its step id; an export may register none. */
  function RegisteredRef(n: Node): Option<Ref> {
    var key := Spec(n.opName).output.key;
    var declared := if key in n.outputs then n.outputs[key] else "";
    if declared != "" then Some(declared)
    else if n.opName == ArtifactExport then None
    else Some(n.stepId)
  }

  function Register(refs: References, n: Node, path: Path): References {
    match RegisteredRef(n)
    case Some(r) => refs[r := path]
    case None => refs
  }

  /** One loop body: preflight only resolves upload nodes. */
  function Act(mode: Mode, h: Handler, n: Node, refs: References): Result<References, string> {
    if mode == Preflight && !IsUpload(n.opName) then Success(refs)
    else
      match h(n, refs)
      case Success(path) => Success(Register(refs, n, path))
      case Failure(e) => Failure(e)
  }

  /** References, events and the first failure of running `order` one node after another. */
  datatype Trace = Trace(refs: References, events: seq<Event>, failure: Option<(StepId, string)>)

  function RunInOrder(mode: Mode, h: Handler, order: seq<Node>): (t: Trace)
    ensures t.failure == None ==> |t.events| == 2 * |order|
  {
    if order == [] then Trace(map[], [], None)
    else
      var n := order[|order| - 1];
      var t := RunInOrder(mode, h, order[..|order| - 1]);
      if t.failure != None then t
      else
        match Act(mode, h, n, t.refs)
        case Success(refs) => Trace(refs, t.events + [Started(n.stepId), Finished(n.stepId)], None)
        case Failure(e) => Trace(t.refs, t.events + [Started(n.stepId), Failed(n.stepId)], Some((n.stepId, e)))
  }

  /** How a run over the whole schedule ends. */
  ghost function OutcomeOf(nodes: seq<Node>, t: Trace): Outcome {
    if nodes == [] then EmptyPlan
    else if t.failure.Some? then NodeFailed(t.failure.value.0, t.failure.value.1)
    else if Unresolved(nodes) != [] then UnresolvedDependencies(Ids(Unresolved(nodes)))
    else Completed
  }

  // ---- The loops --------------------------------------------------------------------------

  /** `pending_nodes.remove(node)` */
  function RemoveFirst(pending: seq<Node>, n: Node): seq<Node> {
    if pending == [] then []
    else if pending[0] == n then pending[1..]
    else [pending[0]] + RemoveFirst(pending[1..], n)
  }

  lemma {:induction false} RemoveIsWithout(nodes: seq<Node>, ids: set<StepId>, n: Node)
    requires UniqueIds(nodes) && n in nodes && n.stepId !in ids
    ensures RemoveFirst(Without(nodes, ids), n) == Without(nodes, ids + {n.stepId})
  {
    var m, rest := nodes[0], nodes[1..];
    UniqueParts(nodes);
    if m == n {
      NoneLost(rest, ids, n.stepId);
    } else {
      assert n in rest;
      SameIdOnlyIfSame(nodes, m, n);
      RemoveIsWithout(rest, ids, n);
    }
  }

  lemma SameIdOnlyIfSame(nodes: seq<Node>, a: Node, b: Node)
    requires UniqueIds(nodes) && a in nodes && b in nodes && a != b
    ensures a.stepId != b.stepId
  {
    if a.stepId == b.stepId {
      SameIdSameNode(nodes, a, b);
    }
  }

  lemma {:induction false} NoneLost(nodes: seq<Node>, ids: set<StepId>, id: StepId)
    requires forall n :: n in nodes ==> n.stepId != id
    ensures Without(nodes, ids + {id}) == Without(nodes, ids)
  {
    if nodes != [] {
      NoneLost(nodes[1..], ids, id);
    }
  }

  /**
   * Where a sweep stands after its first i nodes: `ran` of them were run, the
   * rest of the sweep will run RunInPass of what is left.
   */
  ghost predicate InSweep(snapshot: seq<Node>, before: set<StepId>, i: nat, ran: seq<Node>,
                          pending: seq<Node>, completed: set<StepId>)
    requires i <= |snapshot|
  {
    && completed == before + IdSet(ran)
    && pending == Without(snapshot, IdSet(ran))
    && (forall n :: n in ran ==> n in snapshot[..i])
    && RunInPass(snapshot, before) == ran + RunInPass(snapshot[i..], completed)
  }

  lemma SweepStarts(snapshot: seq<Node>, before: set<StepId>)
    ensures InSweep(snapshot, before, 0, [], snapshot, before)
  {
    assert IdSet([]) == {};
    WithoutNothing(snapshot);
    assert snapshot[0..] == snapshot;
    assert before + {} == before;
  }

  lemma SweepSkips(snapshot: seq<Node>, before: set<StepId>, i: nat, ran: seq<Node>,
                   pending: seq<Node>, completed: set<StepId>)
    requires i < |snapshot| && InSweep(snapshot, before, i, ran, pending, completed)
    requires !Ready(snapshot[i], completed)
    ensures InSweep(snapshot, before, i + 1, ran, pending, completed)
  {
    assert snapshot[i..][1..] == snapshot[i + 1..];
    assert snapshot[..i + 1] == snapshot[..i] + [snapshot[i]];
  }

  lemma SweepRuns(snapshot: seq<Node>, before: set<StepId>, i: nat, ran: seq<Node>,
                  pending: seq<Node>, completed: set<StepId>)
    requires i < |snapshot| && InSweep(snapshot, before, i, ran, pending, completed)
    requires UniqueIds(snapshot) && Ready(snapshot[i], completed)
    ensures InSweep(snapshot, before, i + 1, ran + [snapshot[i]],
                    RemoveFirst(pending, snapshot[i]), completed + {snapshot[i].stepId})
  {
    hide RunInPass, Without, RemoveFirst, IdSet, Ready, UniqueIds;
    var n := snapshot[i];
    IdSetGrows(ran, n);
    NotYetRun(snapshot, i, ran);
    RemoveIsWithout(snapshot, IdSet(ran), n);
    SweepGoesOn(snapshot, before, i, ran, completed);
    assert snapshot[..i + 1] == snapshot[..i] + [n];
    assert before + IdSet(ran) + {n.stepId} == before + (IdSet(ran) + {n.stepId});
  }

  lemma NotYetRun(snapshot: seq<Node>, i: nat, ran: seq<Node>)
    requires i < |snapshot| && UniqueIds(snapshot)
    requires forall n :: n in ran ==> n in snapshot[..i]
    ensures snapshot[i].stepId !in IdSet(ran)
  {
    forall m | m in ran ensures m.stepId != snapshot[i].stepId {
      var k :| 0 <= k < i && snapshot[..i][k] == m;
      assert Apart(snapshot, k, i);
    }
  }

  lemma SweepGoesOn(snapshot: seq<Node>, before: set<StepId>, i: nat, ran: seq<Node>, completed: set<StepId>)
    requires i < |snapshot| && Ready(snapshot[i], completed)
    requires RunInPass(snapshot, before) == ran + RunInPass(snapshot[i..], completed)
    ensures RunInPass(snapshot, before)
         == (ran + [snapshot[i]]) + RunInPass(snapshot[i + 1..], completed + {snapshot[i].stepId})
  {
    var n := snapshot[i];
    var rest := RunInPass(snapshot[i + 1..], completed + {n.stepId});
    assert snapshot[i..][1..] == snapshot[i + 1..];
    assert RunInPass(snapshot[i..], completed) == [n] + rest;
    Regroup(ran, [n], rest);
  }

  lemma IdSetGrows(ran: seq<Node>, n: Node)
    ensures IdSet(ran + [n]) == IdSet(ran) + {n.stepId}
  {
    assert n in ran + [n];
    forall s | s in IdSet(ran) + {n.stepId} ensures s in IdSet(ran + [n]) {
      if s != n.stepId {
        var m :| m in ran && m.stepId == s;
        assert m in ran + [n];
      }
    }
  }

  /** Nothing runs after a failure. */
  lemma {:induction false} FailureSticks(mode: Mode, h: Handler, order: seq<Node>, later: seq<Node>)
    requires RunInOrder(mode, h, order).failure.Some?
    ensures RunInOrder(mode, h, order + later) == RunInOrder(mode, h, order)
  {
    if later == [] {
      assert order + later == order;
    } else {
      FailureSticks(mode, h, order, later[..|later| - 1]);
      assert (order + later)[..|order + later| - 1] == order + later[..|later| - 1];
    }
  }

  /** The result of one sweep: the nodes it ran and what the failure, if any, was. */
  datatype Sweep = Sweep(pending: seq<Node>, completed: set<StepId>, refs: References, events: seq<Event>,
                         progressed: bool, failure: Option<(StepId, string)>)

  /** The `for node in list(pending_nodes)` loop, both of run_processing_pipeline and of the preflight. */
  method SweepOnce(mode: Mode, h: Handler, ghost done: seq<Node>, snapshot: seq<Node>,
                   before: set<StepId>, references: References, log: seq<Event>)
    returns (r: Sweep)
    requires UniqueIds(snapshot)
    requires RunInOrder(mode, h, done) == Trace(references, log, None)
    ensures var run := RunInPass(snapshot, before);
            && RunInOrder(mode, h, done + run) == Trace(r.refs, r.events, r.failure)
            && (r.failure == None ==>
                  && r.pending == Without(snapshot, IdSet(run))
                  && r.completed == before + IdSet(run)
                  && r.progressed == (run != []))
  {
    var pending, completed, refs, events := snapshot, before, references, log;
    var progressed := false;
    ghost var ran: seq<Node> := [];
    SweepStarts(snapshot, before);
    assert done + ran == done;
    for i := 0 to |snapshot|
      invariant InSweep(snapshot, before, i, ran, pending, completed)
      invariant progressed == (ran != [])
      invariant RunInOrder(mode, h, done + ran) == Trace(refs, events, None)
    {
      var n := snapshot[i];
      if !Ready(n, completed) {
        SweepSkips(snapshot, before, i, ran, pending, completed);
        continue;
      }
      SweepRuns(snapshot, before, i, ran, pending, completed);
      RunNext(mode, h, done, ran, n, refs, events);
      events := events + [Started(n.stepId)];
      var acted := Act(mode, h, n, refs);
      if acted.Failure? {
        events := events + [Failed(n.stepId)];
        FailureEndsSweep(mode, h, done, snapshot, before, i, ran + [n], completed + {n.stepId});
        return Sweep(pending, completed, refs, events, progressed, Some((n.stepId, acted.error)));
      }
      refs := acted.value;
      events := events + [Finished(n.stepId)];
      completed := completed + {n.stepId};
      pending := RemoveFirst(pending, n);
      progressed := true;
      ran := ran + [n];
    }
    SweepEnds(snapshot, before, ran, pending, completed);
    return Sweep(pending, completed, refs, events, progressed, None);
  }

  /** The effect of the loop body on the trace. */
  lemma RunNext(mode: Mode, h: Handler, done: seq<Node>, ran: seq<Node>, n: Node, refs: References, events: seq<Event>)
    requires RunInOrder(mode, h, done + ran) == Trace(refs, events, None)
    ensures RunInOrder(mode, h, done + (ran + [n])) ==
            match Act(mode, h, n, refs)
            case Success(refs') => Trace(refs', events + [Started(n.stepId)] + [Finished(n.stepId)], None)
            case Failure(e) => Trace(refs, events + [Started(n.stepId)] + [Failed(n.stepId)], Some((n.stepId, e)))
  {
    hide Act;
    var order := done + (ran + [n]);
    assert order[..|order| - 1] == done + ran && order[|order| - 1] == n;
    TwoEvents(events, Started(n.stepId), Finished(n.stepId));
    TwoEvents(events, Started(n.stepId), Failed(n.stepId));
  }

  lemma TwoEvents(events: seq<Event>, a: Event, b: Event)
    ensures events + [a, b] == events + [a] + [b]
  {}

  lemma FailureEndsSweep(mode: Mode, h: Handler, done: seq<Node>, snapshot: seq<Node>, before: set<StepId>, i: nat,
                         ran: seq<Node>, completed: set<StepId>)
    requires i < |snapshot| && RunInOrder(mode, h, done + ran).failure.Some?
    requires RunInPass(snapshot, before) == ran + RunInPass(snapshot[i + 1..], completed)
    ensures RunInOrder(mode, h, done + RunInPass(snapshot, before)) == RunInOrder(mode, h, done + ran)
  {
    var rest := RunInPass(snapshot[i + 1..], completed);
    FailureSticks(mode, h, done + ran, rest);
    Regroup(done, ran, rest);
  }

  lemma SweepEnds(snapshot: seq<Node>, before: set<StepId>, ran: seq<Node>, pending: seq<Node>, completed: set<StepId>)
    requires InSweep(snapshot, before, |snapshot|, ran, pending, completed)
    ensures ran == RunInPass(snapshot, before)
  {
    assert snapshot[|snapshot|..] == [];
    assert ran + [] == ran;
  }

  /**
   * run_processing_pipeline and preflight_processing_pipeline_inputs: the
   * outcome, references and events are those of running the schedule in order.
   */
  method RunPipeline(mode: Mode, h: Handler, nodes: seq<Node>)
    returns (outcome: Outcome, references: References, events: seq<Event>)
    requires UniqueIds(nodes)
    ensures var t := RunInOrder(mode, h, ScheduleOrder(nodes));
            references == t.refs && events == t.events && outcome == OutcomeOf(nodes, t)
  {
    references, events := map[], [];
    if nodes == [] {
      return EmptyPlan, references, events;
    }
    var pending, completed: set<StepId> := nodes, {};
    ghost var done: seq<Node> := [];
    ghost var order := ScheduleOrder(nodes);
    BetweenStart(nodes);
    assert [] + order == order;
    while pending != []
      invariant Standing(nodes, done, pending, completed)
      invariant RunInOrder(mode, h, done) == Trace(references, events, None)
      decreases |pending|
    {
      UniquePending(nodes, done, pending);
      PassShrinks(pending, completed);
      SweepAdvances(nodes, done, pending, completed);
      ghost var run := RunInPass(pending, completed);
      var sweep := SweepOnce(mode, h, done, pending, completed, references, events);
      references, events := sweep.refs, sweep.events;
      if sweep.failure.Some? {
        ghost var later :| ScheduleOrder(nodes) == (done + run) + later;
        FailureSticks(mode, h, done + run, later);
        return NodeFailed(sweep.failure.value.0, sweep.failure.value.1), references, events;
      }
      if !sweep.progressed {
        return UnresolvedDependencies(Ids(pending)), references, events;
      }
      done, pending, completed := done + run, sweep.pending, sweep.completed;
    }
    NothingPending(nodes, done, completed);
    return Completed, references, events;
  }

  /** Between two sweeps: what has run, what is left, and how the schedule goes on. */
  ghost predicate Standing(nodes: seq<Node>, done: seq<Node>, pending: seq<Node>, completed: set<StepId>) {
    && Between(nodes, done, pending)
    && completed == IdSet(done)
    && ScheduleOrder(nodes) == done + Flatten(Passes(pending, completed))
    && Unresolved(nodes) == Stuck(pending, completed)
  }

  lemma UniquePending(nodes: seq<Node>, done: seq<Node>, pending: seq<Node>)
    requires Between(nodes, done, pending)
    ensures UniqueIds(pending)
  {
    WithoutKeepsUnique(nodes, IdSet(done));
  }

  lemma SweepAdvances(nodes: seq<Node>, done: seq<Node>, pending: seq<Node>, completed: set<StepId>)
    requires Standing(nodes, done, pending, completed)
    ensures var run := RunInPass(pending, completed);
            if run == []
            then ScheduleOrder(nodes) == done == done + run && Unresolved(nodes) == pending
            else Standing(nodes, done + run, Without(pending, IdSet(run)), completed + IdSet(run))
    ensures exists later :: ScheduleOrder(nodes) == (done + RunInPass(pending, completed)) + later
  {
    var run := RunInPass(pending, completed);
    if run == [] {
      assert done + [] == done;
      assert ScheduleOrder(nodes) == (done + run) + [];
    } else {
      PassKeepsBetween(nodes, done, pending);
      PassesUnfold(pending, completed);
      var later := Flatten(Passes(Without(pending, IdSet(run)), completed + IdSet(run)));
      Regroup(done, run, later);
      assert ScheduleOrder(nodes) == (done + run) + later;
    }
  }

  lemma NothingPending(nodes: seq<Node>, done: seq<Node>, completed: set<StepId>)
    requires Standing(nodes, done, [], completed)
    ensures ScheduleOrder(nodes) == done && Unresolved(nodes) == []
  {
    assert done + [] == done;
  }
}
