/**
 * The pass-based schedule of processing_pipeline.py: the pending list is swept
 * again and again, each sweep running every node whose dependencies are done,
 * until nothing is left or a sweep runs nothing.
 */
module PassScheduler {
  import opened StepGraph
  import opened OperationPlan
  import opened TopologicalSort

  predicate Ready(n: Node, completed: set<StepId>) {
    forall d :: d in n.dependsOn ==> d in completed
  }

  function IdSet(nodes: seq<Node>): (r: set<StepId>)
    ensures forall s :: s in r <==> exists n :: n in nodes && n.stepId == s
  {
    set n | n in nodes :: n.stepId
  }

  /** The nodes one sweep over `snapshot` runs; a node run early can ready a later one. */
  function RunInPass(snapshot: seq<Node>, completed: set<StepId>): (r: seq<Node>) {
    if snapshot == [] then []
    else if Ready(snapshot[0], completed)
    then [snapshot[0]] + RunInPass(snapshot[1..], completed + {snapshot[0].stepId})
    else RunInPass(snapshot[1..], completed)
  }

  /** The nodes whose ids are not in `ids`, in their order. */
  function Without(nodes: seq<Node>, ids: set<StepId>): (r: seq<Node>)
    ensures |r| <= |nodes|
    ensures forall n :: n in r <==> n in nodes && n.stepId !in ids
  {
    if nodes == [] then []
    else if nodes[0].stepId in ids then Without(nodes[1..], ids)
    else [nodes[0]] + Without(nodes[1..], ids)
  }

  /** The sweeps from a given pending list; the last sweep, which runs nothing, is not listed. */
  ghost function Passes(pending: seq<Node>, completed: set<StepId>): (r: seq<seq<Node>>)
    decreases |pending|
  {
    var run := RunInPass(pending, completed);
    if run == [] then []
    else
      PassShrinks(pending, completed);
      [run] + Passes(Without(pending, IdSet(run)), completed + IdSet(run))
  }

  /** What is still pending when a sweep runs nothing. */
  ghost function Stuck(pending: seq<Node>, completed: set<StepId>): (r: seq<Node>)
    decreases |pending|
  {
    var run := RunInPass(pending, completed);
    if run == [] then pending
    else
      PassShrinks(pending, completed);
      Stuck(Without(pending, IdSet(run)), completed + IdSet(run))
  }

  function Flatten(passes: seq<seq<Node>>): (r: seq<Node>) {
    if passes == [] then [] else passes[0] + Flatten(passes[1..])
  }

  /** The order in which the scheduler starts the nodes. */
  ghost function ScheduleOrder(nodes: seq<Node>): seq<Node> {
    Flatten(Passes(nodes, {}))
  }

  /** The nodes it reports as unresolved. */
  ghost function Unresolved(nodes: seq<Node>): seq<Node> {
    Stuck(nodes, {})
  }

  // ---- One sweep --------------------------------------------------------------------

  lemma {:induction false} RunInPassMembers(snapshot: seq<Node>, completed: set<StepId>)
    ensures forall n :: n in RunInPass(snapshot, completed) ==> n in snapshot
  {
    if snapshot != [] {
      RunInPassMembers(snapshot[1..], completed);
      RunInPassMembers(snapshot[1..], completed + {snapshot[0].stepId});
    }
  }

  lemma {:induction false} WithoutShrinks(nodes: seq<Node>, ids: set<StepId>, n: Node)
    requires n in nodes && n.stepId in ids
    ensures |Without(nodes, ids)| < |nodes|
  {
    if nodes[0].stepId !in ids {
      WithoutShrinks(nodes[1..], ids, n);
    }
  }

  lemma PassShrinks(pending: seq<Node>, completed: set<StepId>)
    ensures var run := RunInPass(pending, completed);
            run != [] ==> |Without(pending, IdSet(run))| < |pending|
  {
    var run := RunInPass(pending, completed);
    RunInPassMembers(pending, completed);
    if run != [] {
      assert run[0] in run;
      WithoutShrinks(pending, IdSet(run), run[0]);
    }
  }

  lemma {:induction false} WithoutKeepsUnique(nodes: seq<Node>, ids: set<StepId>)
    requires UniqueIds(nodes)
    ensures UniqueIds(Without(nodes, ids))
  {
    if nodes != [] {
      UniqueParts(nodes);
      WithoutKeepsUnique(nodes[1..], ids);
      UniqueJoin([nodes[0]], Without(nodes[1..], ids));
    }
  }

  lemma {:induction false} WithoutTwice(nodes: seq<Node>, a: set<StepId>, b: set<StepId>)
    ensures Without(Without(nodes, a), b) == Without(nodes, a + b)
  {
    if nodes != [] {
      WithoutTwice(nodes[1..], a, b);
    }
  }

  lemma {:induction false} WithoutNothing(nodes: seq<Node>)
    ensures Without(nodes, {}) == nodes
  {
    if nodes != [] {
      WithoutNothing(nodes[1..]);
    }
  }

  /** Every entry's dependencies were completed beforehand or run earlier in `run`. */
  ghost predicate InOrder(run: seq<Node>, completed: set<StepId>) {
    forall i :: 0 <= i < |run| ==> ReadyAt(run, completed, i)
  }

  ghost predicate ReadyAt(run: seq<Node>, completed: set<StepId>, i: nat)
    requires i < |run|
  {
    Ready(run[i], completed + IdSet(run[..i]))
  }

  lemma InOrderJoin(a: seq<Node>, b: seq<Node>, completed: set<StepId>)
    requires InOrder(a, completed) && InOrder(b, completed + IdSet(a))
    ensures InOrder(a + b, completed)
    ensures IdSet(a + b) == IdSet(a) + IdSet(b)
  {
    var all := a + b;
    forall i | 0 <= i < |all| ensures ReadyAt(all, completed, i) {
      if i < |a| {
        assert ReadyAt(a, completed, i);
        assert all[..i] == a[..i];
      } else {
        var k := i - |a|;
        assert ReadyAt(b, completed + IdSet(a), k);
        assert all[..i] == a + b[..k];
        assert completed + IdSet(all[..i]) == completed + IdSet(a) + IdSet(b[..k]);
        assert all[i] == b[k];
      }
    }
  }

  lemma {:induction false} RunInPassOrder(snapshot: seq<Node>, completed: set<StepId>)
    requires UniqueIds(snapshot)
    ensures var run := RunInPass(snapshot, completed);
            UniqueIds(run) && InOrder(run, completed)
  {
    if snapshot != [] {
      var h, t := snapshot[0], snapshot[1..];
      UniqueParts(snapshot);
      if Ready(h, completed) {
        var rest := RunInPass(t, completed + {h.stepId});
        RunInPassOrder(t, completed + {h.stepId});
        RunInPassMembers(t, completed + {h.stepId});
        assert IdSet([h]) == {h.stepId};
        InOrderJoin([h], rest, completed);
        UniqueJoin([h], rest);
      } else {
        RunInPassOrder(t, completed);
      }
    }
  }

  /** A sweep runs every node that was ready when it started. */
  lemma {:induction false} ReadyIsRun(snapshot: seq<Node>, completed: set<StepId>, n: Node)
    requires n in snapshot && Ready(n, completed)
    ensures n in RunInPass(snapshot, completed)
  {
    var h, t := snapshot[0], snapshot[1..];
    if n != h {
      if Ready(h, completed) {
        ReadyIsRun(t, completed + {h.stepId}, n);
      } else {
        ReadyIsRun(t, completed, n);
      }
    }
  }

  // ---- The whole schedule ---------------------------------------------------------------

  /** `done` then `pending` is where the scheduler stands between two sweeps of `nodes`. */
  ghost predicate Between(nodes: seq<Node>, done: seq<Node>, pending: seq<Node>) {
    && UniqueIds(nodes)
    && UniqueIds(done)
    && InOrder(done, {})
    && (forall n :: n in done ==> n in nodes)
    && pending == Without(nodes, IdSet(done))
  }

  lemma PassKeepsBetween(nodes: seq<Node>, done: seq<Node>, pending: seq<Node>)
    requires Between(nodes, done, pending)
    ensures var run := RunInPass(pending, IdSet(done));
            && Between(nodes, done + run, Without(pending, IdSet(run)))
            && IdSet(done + run) == IdSet(done) + IdSet(run)
  {
    var completed := IdSet(done);
    var run := RunInPass(pending, completed);
    WithoutKeepsUnique(nodes, completed);
    RunInPassOrder(pending, completed);
    RunInPassMembers(pending, completed);
    WithoutTwice(nodes, completed, IdSet(run));
    assert {} + IdSet(done) == IdSet(done);
    InOrderJoin(done, run, {});
    UniqueJoin(done, run);
  }

  /** The schedule is its first sweep followed by the rest. */
  lemma PassesUnfold(pending: seq<Node>, completed: set<StepId>)
    requires RunInPass(pending, completed) != []
    ensures var run := RunInPass(pending, completed);
            var later := Passes(Without(pending, IdSet(run)), completed + IdSet(run));
            && |Without(pending, IdSet(run))| < |pending|
            && Passes(pending, completed) == [run] + later
            && Flatten(Passes(pending, completed)) == run + Flatten(later)
            && Stuck(pending, completed) == Stuck(Without(pending, IdSet(run)), completed + IdSet(run))
  {
    var run := RunInPass(pending, completed);
    PassShrinks(pending, completed);
    var later := Passes(Without(pending, IdSet(run)), completed + IdSet(run));
    assert ([run] + later)[1..] == later;
  }

  lemma {:induction false} ScheduleFrom(nodes: seq<Node>, done: seq<Node>, pending: seq<Node>)
    requires Between(nodes, done, pending)
    ensures var r := done + Flatten(Passes(pending, IdSet(done)));
            var s := Stuck(pending, IdSet(done));
            Between(nodes, r, s) && RunInPass(s, IdSet(r)) == []
    decreases |pending|
  {
    var completed := IdSet(done);
    var run := RunInPass(pending, completed);
    if run == [] {
      assert done + [] == done;
    } else {
      PassesUnfold(pending, completed);
      PassKeepsBetween(nodes, done, pending);
      var pending' := Without(pending, IdSet(run));
      ScheduleFrom(nodes, done + run, pending');
      Regroup(done, run, Flatten(Passes(pending', IdSet(done + run))));
    }
  }

  lemma Regroup(a: seq<Node>, b: seq<Node>, c: seq<Node>)
    ensures a + (b + c) == (a + b) + c
  {}

  lemma BetweenStart(nodes: seq<Node>)
    requires UniqueIds(nodes)
    ensures Between(nodes, [], nodes) && IdSet([]) == {}
  {
    WithoutNothing(nodes);
    assert IdSet([]) == {};
  }

  lemma ScheduleEnds(nodes: seq<Node>)
    requires UniqueIds(nodes)
    ensures var r := ScheduleOrder(nodes);
            Between(nodes, r, Unresolved(nodes)) && RunInPass(Unresolved(nodes), IdSet(r)) == []
  {
    BetweenStart(nodes);
    ScheduleFrom(nodes, [], nodes);
    assert [] + ScheduleOrder(nodes) == ScheduleOrder(nodes);
  }

  /** Each node is run at most once, and only after everything it depends on. */
  lemma ScheduleRespectsDependencies(g: Graph, nodes: seq<Node>)
    requires Describes(g, nodes)
    ensures var r := ScheduleOrder(nodes);
            && UniqueIds(r)
            && (forall n :: n in r ==> n in nodes)
            && DependenciesFirst(g, Ids(r))
  {
    ScheduleEnds(nodes);
    InOrderIsDependenciesFirst(g, nodes, ScheduleOrder(nodes));
  }

  lemma InOrderIsDependenciesFirst(g: Graph, nodes: seq<Node>, r: seq<Node>)
    requires Describes(g, nodes) && InOrder(r, {})
    requires forall n :: n in r ==> n in nodes
    ensures DependenciesFirst(g, Ids(r))
  {
    var ids := Ids(r);
    forall i, d | 0 <= i < |ids| && d in g.Deps(ids[i]) ensures d in ids[..i] {
      var n := r[i];
      assert n in r;
      assert d in n.dependsOn;
      assert ReadyAt(r, {}, i);
      EarlierId(r, i, d);
    }
  }

  lemma EarlierId(r: seq<Node>, i: nat, d: StepId)
    requires i <= |r| && d in IdSet(r[..i])
    ensures d in Ids(r)[..i]
  {
    var n :| n in r[..i] && n.stepId == d;
    var k :| 0 <= k < i && r[..i][k] == n;
    assert Ids(r)[..i][k] == d;
  }

  lemma InIdSet(nodes: seq<Node>, done: seq<Node>, n: Node)
    requires UniqueIds(nodes) && n in nodes
    requires forall m :: m in done ==> m in nodes
    ensures n in done <==> n.stepId in IdSet(done)
  {
    if n.stepId in IdSet(done) {
      var m :| m in done && m.stepId == n.stepId;
      SameIdSameNode(nodes, m, n);
    }
  }

  lemma {:induction false} NotReadyCannotRun(g: Graph, nodes: seq<Node>, done: seq<Node>, pending: seq<Node>,
                                             x: Node, n: nat)
    requires Describes(g, nodes)
    requires Between(nodes, done, pending) && RunInPass(pending, IdSet(done)) == []
    requires x in nodes && Runnable(g, x.stepId, n)
    ensures x in done
    decreases n
  {
    InIdSet(nodes, done, x);
    if x !in done {
      forall d | d in x.dependsOn ensures d in IdSet(done) {
        var y := NodeNamed(g, nodes, d);
        NotReadyCannotRun(g, nodes, done, pending, y, n - 1);
      }
      ReadyIsRun(pending, IdSet(done), x);
    }
  }

  /** A node is run exactly when it reaches no cycle and no unknown step. */
  lemma RunIffNotDoomed(g: Graph, nodes: seq<Node>, n: Node)
    requires Describes(g, nodes) && n in nodes
    ensures n in ScheduleOrder(nodes) <==> !Doomed(g, n.stepId)
  {
    CanRunIffNotDoomed(g, n.stepId);
    if n in ScheduleOrder(nodes) {
      ScheduledCanRun(g, nodes, n);
    }
    if CanRun(g, n.stepId) {
      var d: nat :| Runnable(g, n.stepId, d);
      ScheduleEnds(nodes);
      NotReadyCannotRun(g, nodes, ScheduleOrder(nodes), Unresolved(nodes), n, d);
    }
  }

  lemma ScheduledCanRun(g: Graph, nodes: seq<Node>, n: Node)
    requires Describes(g, nodes) && n in ScheduleOrder(nodes)
    ensures CanRun(g, n.stepId)
  {
    var r := ScheduleOrder(nodes);
    ScheduleRespectsDependencies(g, nodes);
    forall s | s in Ids(r) ensures s in g.deps {
      var k :| 0 <= k < |r| && Ids(r)[k] == s;
      assert r[k] in r;
    }
    var i :| 0 <= i < |r| && r[i] == n;
    EmittedCanRun(g, Ids(r), i);
  }

  /**
   * The scheduler runs exactly the nodes that reach no cycle and no unknown
   * step, and reports exactly the others, in plan order.
   */
  lemma ScheduleIsComplete(g: Graph, nodes: seq<Node>)
    requires Describes(g, nodes)
    ensures forall n :: n in ScheduleOrder(nodes) <==> n in nodes && !Doomed(g, n.stepId)
    ensures forall n :: n in Unresolved(nodes) <==> n in nodes && Doomed(g, n.stepId)
    ensures Unresolved(nodes) == Without(nodes, IdSet(ScheduleOrder(nodes)))
    ensures Unresolved(nodes) == [] <==> forall n :: n in nodes ==> !Doomed(g, n.stepId)
  {
    var r := ScheduleOrder(nodes);
    ScheduleEnds(nodes);
    forall n | n in nodes
      ensures (n in r <==> !Doomed(g, n.stepId)) && (n in Unresolved(nodes) <==> Doomed(g, n.stepId))
    {
      RunIffNotDoomed(g, nodes, n);
      InIdSet(nodes, r, n);
    }
    if Unresolved(nodes) != [] {
      assert Unresolved(nodes)[0] in Unresolved(nodes);
    }
  }

  // ---- How many sweeps ---------------------------------------------------------------------

  /** The nodes run in the first k sweeps. */
  ghost function RunBy(passes: seq<seq<Node>>, k: nat): seq<Node> {
    Flatten(if k <= |passes| then passes[..k] else passes)
  }

  /** Everything less than `level` edges deep is done. */
  ghost predicate LevelDone(g: Graph, nodes: seq<Node>, done: seq<Node>, level: nat) {
    forall n :: n in nodes && LessDeep(g, n.stepId, level) ==> n in done
  }

  ghost predicate LessDeep(g: Graph, s: StepId, level: nat) {
    level > 0 && Runnable(g, s, level - 1)
  }

  lemma LevelIsReady(g: Graph, nodes: seq<Node>, done: seq<Node>, level: nat, n: Node)
    requires Describes(g, nodes) && LevelDone(g, nodes, done, level)
    requires n in nodes && Runnable(g, n.stepId, level)
    ensures Ready(n, IdSet(done))
  {
    forall e | e in n.dependsOn ensures e in IdSet(done) {
      assert e in g.deps[n.stepId] && LessDeep(g, e, level);
      var y := NodeNamed(g, nodes, e);
      assert y in done;
    }
  }

  /** One sweep completes one more level. */
  lemma PassRaisesLevel(g: Graph, nodes: seq<Node>, done: seq<Node>, pending: seq<Node>, level: nat)
    requires Describes(g, nodes)
    requires Between(nodes, done, pending) && LevelDone(g, nodes, done, level)
    ensures LevelDone(g, nodes, done + RunInPass(pending, IdSet(done)), level + 1)
  {
    forall n | n in nodes && LessDeep(g, n.stepId, level + 1) ensures n in done + RunInPass(pending, IdSet(done)) {
      InIdSet(nodes, done, n);
      if n !in done {
        LevelIsReady(g, nodes, done, level, n);
        ReadyIsRun(pending, IdSet(done), n);
      }
    }
  }

  /** `x` is done, or among the next d sweeps. */
  ghost predicate Covered(done: seq<Node>, pending: seq<Node>, d: nat, x: Node) {
    x in done || x in RunBy(Passes(pending, IdSet(done)), d)
  }

  /** One sweep of the remaining schedule, seen from a node `x` of rank `n`. */
  lemma DepthTurn(g: Graph, nodes: seq<Node>, done: seq<Node>, pending: seq<Node>, level: nat, d: nat, x: Node, n: nat)
    returns (stalled: bool, done': seq<Node>, pending': seq<Node>)
    requires Describes(g, nodes)
    requires Between(nodes, done, pending) && LevelDone(g, nodes, done, level)
    requires x in nodes && Runnable(g, x.stepId, n)
    ensures stalled ==> x in done
    ensures !stalled ==> Between(nodes, done', pending') && LevelDone(g, nodes, done', level + 1)
    ensures !stalled && Covered(done', pending', d, x) ==> Covered(done, pending, d + 1, x)
    ensures !stalled && n == level ==> x in done'
    ensures stalled || (n == level && d == 0) ==> Covered(done, pending, d + 1, x)
  {
    var run := RunInPass(pending, IdSet(done));
    stalled, done', pending' := run == [], done + run, Without(pending, IdSet(run));
    if stalled {
      NotReadyCannotRun(g, nodes, done, pending, x, n);
    } else {
      PassRaisesLevel(g, nodes, done, pending, level);
      PassKeepsBetween(nodes, done, pending);
      PassesUnfold(pending, IdSet(done));
      RunByUnfold(run, Passes(pending', IdSet(done')), d);
      assert n == level ==> LessDeep(g, x.stepId, level + 1);
    }
  }

  /** The remaining sweeps cover chains `d` edges deeper than what is done. */
  lemma {:induction false} DepthFrom(g: Graph, nodes: seq<Node>, done: seq<Node>, pending: seq<Node>,
                                     level: nat, d: nat, x: Node, n: nat)
    requires Describes(g, nodes)
    requires Between(nodes, done, pending) && LevelDone(g, nodes, done, level)
    requires x in nodes && n == level + d && Runnable(g, x.stepId, n)
    ensures Covered(done, pending, d + 1, x)
    decreases d
  {
    hide *;
    var stalled, done', pending' := DepthTurn(g, nodes, done, pending, level, d, x, n);
    if !stalled && d > 0 {
      DepthFrom(g, nodes, done', pending', level + 1, d - 1, x, n);
    }
  }

  lemma RunByUnfold(run: seq<Node>, later: seq<seq<Node>>, d: nat)
    ensures RunBy([run] + later, d + 1) == run + RunBy(later, d)
  {
    var inner := if d <= |later| then later[..d] else later;
    var passes := [run] + later;
    var outer := if d + 1 <= |passes| then passes[..d + 1] else passes;
    assert outer == [run] + inner;
    assert outer[1..] == inner;
  }

  /** A node whose longest dependency chain has d edges has run by sweep d + 1. */
  lemma DepthBoundsPasses(g: Graph, nodes: seq<Node>, x: Node, d: nat)
    requires Describes(g, nodes) && x in nodes
    requires ChainsWithin(g, x.stepId, d)
    ensures x in RunBy(Passes(nodes, {}), d + 1)
  {
    RankIsChainLength(g, x.stepId, d);
    BetweenStart(nodes);
    DepthFrom(g, nodes, [], nodes, 0, d, x, d);
  }

  // ---- The three algorithms agree -------------------------------------------------------------

  /**
   * On plans without unknown dependencies, "no cycle" for the depth-first
   * search, "Kahn lists every step" and "the schedule leaves nothing over" are
   * one condition.
   */
  lemma AlgorithmsAgree(g: Graph, nodes: seq<Node>)
    requires Describes(g, nodes) && g.Closed()
    ensures !HasCycle(g) <==> forall s :: s in g.deps ==> s in KahnOrder(g)
    ensures !HasCycle(g) <==> Unresolved(nodes) == []
  {
    AcyclicIffNoneDoomed(g);
    KahnOrderIsTopological(g);
    ScheduleIsComplete(g, nodes);
    if Unresolved(nodes) == [] {
      forall s | s in g.deps ensures !Doomed(g, s) {
        var n := NodeNamed(g, nodes, s);
      }
    }
  }

  lemma AcyclicIffNoneDoomed(g: Graph)
    requires g.Closed()
    ensures !HasCycle(g) <==> forall s :: s in g.deps ==> !Doomed(g, s)
  {
    AcyclicIffAllRun(g);
    forall s | s in g.deps ensures CanRun(g, s) <==> !Doomed(g, s) {
      CanRunIffNotDoomed(g, s);
    }
  }

  /** Whatever the plan, Kahn's order and the schedule list the same steps. */
  lemma KahnAndScheduleAgree(g: Graph, nodes: seq<Node>, s: StepId)
    requires Describes(g, nodes)
    ensures s in KahnOrder(g) <==> s in Ids(ScheduleOrder(nodes))
  {
    var r := ScheduleOrder(nodes);
    KahnOrderIsTopological(g);
    ScheduleIsComplete(g, nodes);
    hide KahnOrder, ScheduleOrder, Unresolved, Doomed, Ids;
    if s in Ids(r) {
      var n := NodeWithId(r, s);
    }
    if s in KahnOrder(g) {
      var n := NodeNamed(g, nodes, s);
      IdListed(r, n);
    }
  }

  lemma NodeWithId(nodes: seq<Node>, s: StepId) returns (n: Node)
    requires s in Ids(nodes)
    ensures n in nodes && n.stepId == s
  {
    var i :| 0 <= i < |nodes| && Ids(nodes)[i] == s;
    n := nodes[i];
  }

  lemma IdListed(nodes: seq<Node>, n: Node)
    requires n in nodes
    ensures n.stepId in Ids(nodes)
  {
    var i :| 0 <= i < |nodes| && nodes[i] == n;
    assert Ids(nodes)[i] == n.stepId;
  }
}
