/** Which references a node finds when the pipeline starts it. */
module PlanRuntime {
  import opened Results
  import opened StepGraph
  import opened OperationRegistry
  import opened OperationPlan
  import opened TopologicalSort
  import opened PassScheduler
  import opened PlanGuard
  import opened PlanBuilder
  import opened Pipeline
  import opened PlanTheorems
  import Text

  /** Some node of `run` registers `r`. */
  ghost predicate Registered(run: seq<Node>, r: Ref) {
    exists m :: m in run && RegisteredRef(m) == Some(r)
  }

  /**
   * After running `run` without failure, exactly the registered refs resolve.
   * This depends on the plan alone, not on what the handlers do.
   */
  lemma {:induction false} RefsAreRegistered(h: Handler, run: seq<Node>, r: Ref)
    requires RunInOrder(Execute, h, run).failure == None
    ensures r in RunInOrder(Execute, h, run).refs <==> Registered(run, r)
  {
    if run != [] {
      var init, last := run[..|run| - 1], run[|run| - 1];
      assert run == init + [last];
      RefsAreRegistered(h, init, r);
      if Registered(init, r) {
        var m :| m in init && RegisteredRef(m) == Some(r);
        assert m in run;
      }
    }
  }

  /** Whatever a chain of dependencies leads to stands earlier in a dependencies-first order. */
  lemma {:induction false} AncestorsFirst(g: Graph, ids: seq<StepId>, i: nat, p: seq<StepId>)
    requires DependenciesFirst(g, ids) && i < |ids|
    requires IsPath(g, p) && |p| >= 2 && p[0] == ids[i]
    ensures p[|p| - 1] in ids[..i]
    decreases |p|
  {
    assert p[1] in g.Deps(p[0]);
    var k :| 0 <= k < i && ids[..i][k] == p[1];
    if |p| > 2 {
      SubPath(g, p, 1, |p|);
      var rest := p[1..|p|];
      AncestorsFirst(g, ids, k, rest);
      var j :| 0 <= j < k && ids[..k][j] == p[|p| - 1];
      assert ids[..i][j] == p[|p| - 1];
    }
  }

  /**
   * If the producer of a ref is a transitive dependency of its reader, the ref
   * resolves when the reader starts, in whatever order the plan lists them.
   */
  lemma AncestorRefsResolve(g: Graph, nodes: seq<Node>, h: Handler, i: nat, m: Node, r: Ref)
    requires Describes(g, nodes) && m in nodes && RegisteredRef(m) == Some(r)
    requires i < |ScheduleOrder(nodes)|
    requires DependsTransitively(g, ScheduleOrder(nodes)[i].stepId, m.stepId)
    requires RunInOrder(Execute, h, ScheduleOrder(nodes)[..i]).failure == None
    ensures r in RunInOrder(Execute, h, ScheduleOrder(nodes)[..i]).refs
  {
    var order := ScheduleOrder(nodes);
    ScheduleRespectsDependencies(g, nodes);
    var p :| PathFromTo(g, p, order[i].stepId, m.stepId) && |p| >= 2;
    AncestorsFirst(g, Ids(order), i, p);
    var k :| 0 <= k < i && Ids(order)[..i][k] == m.stepId;
    assert order[k] in order && order[k].stepId == m.stepId;
    SameIdSameNode(nodes, order[k], m);
    assert order[..i][k] == m;
    RefsAreRegistered(h, order[..i], r);
  }

  /** A ref that one node alone registers resolves to the file that node's handler produced. */
  lemma {:induction false} RefHoldsProducersFile(h: Handler, run: seq<Node>, k: nat, r: Ref)
    requires RunInOrder(Execute, h, run).failure == None
    requires k < |run| && RegisteredRef(run[k]) == Some(r)
    requires forall j :: k < j < |run| ==> RegisteredRef(run[j]) != Some(r)
    ensures r in RunInOrder(Execute, h, run).refs
    ensures h(run[k], RunInOrder(Execute, h, run[..k]).refs) == Success(RunInOrder(Execute, h, run).refs[r])
  {
    var init := run[..|run| - 1];
    if k < |run| - 1 {
      RefHoldsProducersFile(h, init, k, r);
      assert init[..k] == run[..k];
    }
  }

  // ---- Compiled plans ------------------------------------------------------------------------

  /** The pipeline never gets stuck on a compiled plan: it runs every node unless a handler fails. */
  lemma BuiltPlanRunsThrough(nodes: seq<Node>)
    requires WellBuilt(nodes)
    ensures UniqueIds(nodes) && Unresolved(nodes) == []
    ensures forall n :: n in nodes ==> n in ScheduleOrder(nodes)
  {
    BuiltIds(nodes);
    BuiltGraphIsAcyclic(nodes);
    var g := GraphOf(nodes);
    GraphOfDescribes(nodes);
    AlgorithmsAgree(g, nodes);
    ScheduleIsComplete(g, nodes);
  }

  /** A node of a compiled plan registers the ref it declares. */
  lemma BuiltNodeRegisters(nodes: seq<Node>, a: Node)
    requires WellBuilt(nodes) && a in nodes
    ensures RegisteredRef(a) == Some(OwnRef(a))
  {
    var i :| 0 <= i < |nodes| && nodes[i] == a;
    assert NodeBuilt(nodes, i, a);
    BuiltRefs(nodes, a);
  }

  /**
   * Every connected input of a compiled plan resolves when the pipeline starts
   * the node, in the pipeline's own order, to the file its producer made.
   */
  lemma BuiltInputsResolve(nodes: seq<Node>, h: Handler, i: nat, p: Port)
    requires WellBuilt(nodes) && i < |ScheduleOrder(nodes)|
    requires var n := ScheduleOrder(nodes)[i]; p in Spec(n.opName).inputs && p.key in n.inputs
    requires RunInOrder(Execute, h, ScheduleOrder(nodes)[..i]).failure == None
    ensures var order := ScheduleOrder(nodes);
            var refs := RunInOrder(Execute, h, order[..i]).refs;
            && order[i].inputs[p.key] in refs
            && exists k :: 0 <= k < i && Feeds(order[k], order[i], p)
                 && h(order[k], RunInOrder(Execute, h, order[..k]).refs) == Success(refs[order[i].inputs[p.key]])
  {
    var order := ScheduleOrder(nodes);
    BuiltIds(nodes);
    GraphOfDescribes(nodes);
    ScheduleRespectsDependencies(GraphOf(nodes), nodes);
    hide *;
    assert order[i] in order;
    var a := BuiltFeeder(nodes, order[i], p);
    var k := FeederPosition(GraphOf(nodes), nodes, order, i, a, p);
    FeederFile(nodes, order, h, i, k);
  }

  /** The ref of the node at k holds, at position i, the file that node made. */
  lemma FeederFile(nodes: seq<Node>, order: seq<Node>, h: Handler, i: nat, k: nat)
    requires WellBuilt(nodes) && UniqueIds(order) && k < i <= |order|
    requires forall n :: n in order ==> n in nodes
    requires RunInOrder(Execute, h, order[..i]).failure == None
    ensures var refs := RunInOrder(Execute, h, order[..i]).refs;
            && OwnRef(order[k]) in refs
            && h(order[k], RunInOrder(Execute, h, order[..k]).refs) == Success(refs[OwnRef(order[k])])
  {
    hide *;
    assert order[k] in order;
    BuiltNodeRegisters(nodes, order[k]);
    forall j | k < j < i ensures RegisteredRef(order[j]) != Some(OwnRef(order[k])) {
      OtherRefs(nodes, order, k, j);
    }
    assert order[..i][..k] == order[..k];
    RefHoldsProducersFile(h, order[..i], k, OwnRef(order[k]));
  }

  lemma FeederPosition(g: Graph, nodes: seq<Node>, order: seq<Node>, i: nat, a: Node, p: Port)
    returns (k: nat)
    requires Describes(g, nodes) && i < |order| && a in nodes && Feeds(a, order[i], p)
    requires DependenciesFirst(g, Ids(order)) && forall n :: n in order ==> n in nodes
    ensures k < i && order[k] == a && Feeds(order[k], order[i], p) && order[i].inputs[p.key] == OwnRef(order[k])
  {
    assert order[i] in order;
    assert a.stepId in g.Deps(Ids(order)[i]);
    k :| 0 <= k < i && Ids(order)[..i][k] == a.stepId;
    assert order[k] in order && order[k].stepId == a.stepId;
    SameIdSameNode(nodes, order[k], a);
  }

  lemma OtherRefs(nodes: seq<Node>, order: seq<Node>, k: nat, j: nat)
    requires WellBuilt(nodes) && UniqueIds(order) && k < j < |order|
    requires forall n :: n in order ==> n in nodes
    ensures RegisteredRef(order[j]) != Some(OwnRef(order[k]))
  {
    assert order[k] in order && order[j] in order;
    BuiltNodeRegisters(nodes, order[j]);
    NotTwice(order, k, j);
    if OwnRef(order[j]) == OwnRef(order[k]) {
      SameRefSameNode(nodes, order[j], order[k]);
    }
  }

  // ---- Where the guard and the pipeline disagree ----------------------------------------------

  /** A reprojection node; without inputs and dependencies it may run on the demo raster. */
  function Reproject(stepId: StepId, dependsOn: seq<StepId>, inputs: map<InputKey, Ref>, output: Ref): Node {
    Node(stepId, RasterReproject, dependsOn, inputs, map[], map[RasterOut := output])
  }

  /** C depends on A but reads the ref of B, which is listed last and no dependency of C. */
  function CrossReading(): seq<Node> {
    [Reproject("a", [], map[], "x"), Reproject("c", ["a"], map[RasterKey := "y"], "z"), Reproject("b", [], map[], "y")]
  }

  lemma CrossReadingKahn(g: Graph)
    requires g == GraphOf(CrossReading())
    ensures UniqueIds(CrossReading()) && g.Valid() && g.Closed()
    ensures KahnOrder(g) == ["a", "b", "c"]
  {
    var nodes := CrossReading();
    assert nodes[0].stepId == "a" && nodes[1].stepId == "c" && nodes[2].stepId == "b";
    assert Ids(nodes) == ["a", "c", "b"];
    assert UniqueIds(nodes);
    GraphOfDescribes(nodes);
    assert nodes[0] in nodes && nodes[1] in nodes && nodes[2] in nodes;
    assert g.deps["a"] == [] && g.deps["c"] == ["a"] && g.deps["b"] == [];
    KahnOfThree(g, "a", "b", "c");
  }

  /** A queue that starts with a and b, where only emitting a releases c. */
  lemma KahnOfThree(g: Graph, a: StepId, b: StepId, c: StepId)
    requires g.Valid() && g.order == [a, c, b]
    requires g.deps[a] == [] && g.deps[c] == [a] && g.deps[b] == []
    ensures KahnOrder(g) == [a, b, c]
  {
    assert g.order[0] == a && g.order[1] == c && g.order[2] == b;
    KahnStarts(g);
    RootsOfThree(g, a, b, c);
    ReleasedByFirst(g, a, b, c);
    NoneReleased(g, g.order, ToSet([a] + [b]), b);
    NoneReleased(g, g.order, ToSet([a, b] + [c]), c);
    hide NewlyReleased, Roots, KahnInv, ToSet;
    QueueOfThree(a, b, c);
    KahnTurn(g, [a, b], []);
    KahnTurn(g, [b, c], [a]);
    KahnTurn(g, [c], [a, b]);
  }

  lemma QueueOfThree(a: StepId, b: StepId, c: StepId)
    ensures [] + [a] == [a] && [a] + [b] == [a, b] && [a, b] + [c] == [a, b, c]
    ensures [a, b][1..] + [c] == [b, c] && [b, c][1..] + [] == [c] && [c][1..] + [] == []
  {}

  lemma RootsOfThree(g: Graph, a: StepId, b: StepId, c: StepId)
    requires g.Deps(a) == [] && g.Deps(c) == [a] && g.Deps(b) == []
    ensures Roots(g, [a, c, b]) == [a, b]
  {
    assert [a, c, b][..2] == [a, c] && [a, c][..1] == [a] && [a][..0] == [];
    assert Roots(g, [a]) == [a];
    assert Roots(g, [a, c]) == [a];
  }

  lemma ReleasedByFirst(g: Graph, a: StepId, b: StepId, c: StepId)
    requires g.Deps(a) == [] && g.Deps(c) == [a] && g.Deps(b) == []
    ensures NewlyReleased(g, [a, c, b], ToSet([] + [a]), a) == [c]
  {
    var done := ToSet([] + [a]);
    assert [a, c, b][..2] == [a, c] && [a, c][..1] == [a] && [a][..0] == [];
    assert a in [a] && a !in g.Deps(a) && a !in g.Deps(b);
    assert NewlyReleased(g, [a], done, a) == [];
    assert Released(g, done, c);
    assert NewlyReleased(g, [a, c], done, a) == [c];
  }

  lemma {:induction false} NoneReleased(g: Graph, order: seq<StepId>, done: set<StepId>, x: StepId)
    requires forall c :: c in order ==> x !in g.Deps(c)
    ensures NewlyReleased(g, order, done, x) == []
  {
    if order != [] {
      NoneReleased(g, order[..|order| - 1], done, x);
    }
  }

  lemma CrossReadingSchedule()
    ensures var nodes := CrossReading(); ScheduleOrder(nodes) == [nodes[0], nodes[1], nodes[2]]
  {
    var nodes := CrossReading();
    var a, c, b := nodes[0], nodes[1], nodes[2];
    assert a.dependsOn == [] && c.dependsOn == ["a"] && b.dependsOn == [];
    hide Reproject, CrossReading;
    SweepOfThree(a, c, b);
  }

  /** A sweep that runs its whole snapshot is the whole schedule. */
  lemma SweepOfThree(a: Node, c: Node, b: Node)
    requires a.dependsOn == [] && c.dependsOn == [a.stepId] && b.dependsOn == []
    ensures ScheduleOrder([a, c, b]) == [a, c, b]
  {
    var nodes := [a, c, b];
    assert nodes[1..] == [c, b] && [c, b][1..] == [b] && [b][1..] == [];
    var none: set<StepId> := {};
    var done3 := none + {a.stepId} + {c.stepId};
    assert RunInPass([b], done3) == [b];
    assert RunInPass([c, b], none + {a.stepId}) == [c] + [b];
    assert RunInPass(nodes, none) == [a] + ([c] + [b]);
    assert [a] + ([c] + [b]) == nodes;
    PassesUnfold(nodes, none);
    AllRemoved(nodes, IdSet(nodes));
    assert Flatten([]) == [];
    assert nodes + [] == nodes;
  }

  lemma {:induction false} AllRemoved(nodes: seq<Node>, ids: set<StepId>)
    requires forall n :: n in nodes ==> n.stepId in ids
    ensures Without(nodes, ids) == []
  {
    if nodes != [] {
      assert nodes[0] in nodes;
      AllRemoved(nodes[1..], ids);
    }
  }

  /**
   * The guard resolves refs in Kahn order, the pipeline starts nodes in list
   * order: a plan every heuristic accepts, whose second node starts before the
   * ref it reads exists, whatever the handlers do.
   */
  lemma AcceptedRefMayBeMissing(hs: Heuristics, h: Handler)
    ensures var nodes := CrossReading();
            && UniqueIds(nodes) && Acceptable(hs, nodes)
            && ScheduleOrder(nodes) == nodes
            && nodes[1].inputs == map[RasterKey := "y"]
            && "y" !in RunInOrder(Execute, h, nodes[..1]).refs
  {
    var nodes := CrossReading();
    OnlyOwnRef(h, nodes[0], "y");
    CrossReadingKahn(GraphOf(nodes));
    CrossReadingSchedule();
    hide Acceptable, RunInOrder, ScheduleOrder, KahnOrder, UniqueIds;
    CrossReadingAccepted(hs);
    assert nodes[..1] == [nodes[0]];
    assert [nodes[0], nodes[1], nodes[2]] == nodes;
  }

  lemma OnlyOwnRef(h: Handler, n: Node, r: Ref)
    requires n.opName == RasterReproject && RasterOut in n.outputs && n.outputs[RasterOut] != "" && n.outputs[RasterOut] != r
    ensures r !in RunInOrder(Execute, h, [n]).refs
  {
    assert [n][..0] == [];
    assert RunInOrder(Execute, h, []).refs == map[];
  }

  lemma CrossReadingAccepted(hs: Heuristics)
    requires UniqueIds(CrossReading())
    requires GraphOf(CrossReading()).Closed() && GraphOf(CrossReading()).Valid()
    requires KahnOrder(GraphOf(CrossReading())) == ["a", "b", "c"]
    ensures Acceptable(hs, CrossReading())
  {
    var nodes := CrossReading();
    var g := GraphOf(nodes);
    var a, c, b := nodes[0], nodes[1], nodes[2];
    GraphOfDescribes(nodes);
    KahnListsAll(g, nodes);
    assert a in nodes && b in nodes && c in nodes;
    GuardRunOfThree(nodes, a, b, c);
    CrossReadingRun(hs, a, b, c);
  }

  lemma GuardRunOfThree(nodes: seq<Node>, a: Node, b: Node, c: Node)
    requires UniqueIds(nodes) && a in nodes && b in nodes && c in nodes && GraphOf(nodes).Valid()
    requires KahnOrder(GraphOf(nodes)) == [a.stepId, b.stepId, c.stepId]
    ensures GuardRun(nodes) == [a, b, c]
  {
    hide KahnOrder, GraphOf, UniqueIds;
    ByIdUnique(nodes, a);
    ByIdUnique(nodes, b);
    ByIdUnique(nodes, c);
  }

  lemma CrossReadingRun(hs: Heuristics, a: Node, b: Node, c: Node)
    requires a == CrossReading()[0] && c == CrossReading()[1] && b == CrossReading()[2]
    ensures RunAccepted(hs, [a, b, c])
  {
    hide Text.Strip, RunAccepted;
    OneLetter("x");
    OneLetter("y");
    OneLetter("z");
    DifferentLetters("x", "y");
    DifferentLetters("y", "z");
    DifferentLetters("x", "z");
    AcceptedInTurn(hs, a, b, c, "x", "y", "z");
  }

  lemma KahnListsAll(g: Graph, nodes: seq<Node>)
    requires Describes(g, nodes) && g.Closed()
    requires forall s :: s in g.order ==> s in KahnOrder(g)
    ensures !HasCycle(g)
  {
    AlgorithmsAgree(g, nodes);
  }

  /** A reprojection node reads one raster and writes one raster. */
  predicate IsReprojection(n: Node, out: Ref) {
    n.opName == RasterReproject && n.outputs == map[RasterOut := out]
  }

  lemma ReprojectionPorts(n: Node, out: Ref)
    requires IsReprojection(n, out)
    ensures Spec(n.opName).inputs == [Port(RasterKey, One(Raster))] && Spec(n.opName).requiredParams == []
    ensures Spec(n.opName).output == OutPort(RasterOut, Raster) && OutputRef(n) == Text.Strip(out)
  {
    hide Text.Strip;
  }

  /** What a reprojection node needs to be accepted: its one input, and a new output ref. */
  lemma ReprojectionAccepted(hs: Heuristics, earlier: seq<Node>, n: Node, out: Ref)
    requires IsReprojection(n, out) && forall k :: k in n.inputs ==> k == RasterKey
    requires InputAccepted(hs, Produced(earlier), n, Port(RasterKey, One(Raster)))
    requires Text.Strip(out) != "" && Text.Strip(out) !in Produced(earlier)
    ensures NodeAccepted(hs, earlier, n)
  {
    ReprojectionPorts(n, out);
    var p := Port(RasterKey, One(Raster));
    hide Text.Strip, Spec, Produced, OutputRef, IsReprojection, InputAccepted;
    assert [p][0] == p && p in Spec(n.opName).inputs;
    assert HasRequiredParams(hs, n);
    assert OutputAccepted(Produced(earlier), n);
    assert KnownInputKeys(n);
  }

  lemma SourceAccepted(hs: Heuristics, earlier: seq<Node>, n: Node, x: Ref)
    requires IsReprojection(n, x) && n.dependsOn == [] && n.inputs == map[]
    requires Text.Strip(x) != "" && Text.Strip(x) !in Produced(earlier)
    ensures NodeAccepted(hs, earlier, n)
  {
    hide Text.Strip, Spec, Produced, OutputRef, NodeAccepted;
    ReprojectionAccepted(hs, earlier, n, x);
  }

  lemma ReaderAccepted(hs: Heuristics, earlier: seq<Node>, n: Node, r: Ref, z: Ref)
    requires IsReprojection(n, z) && n.inputs == map[RasterKey := r]
    requires Text.Strip(r) != "" && Text.Strip(r) in Produced(earlier) && Produced(earlier)[Text.Strip(r)] == Raster
    requires Text.Strip(z) != "" && Text.Strip(z) !in Produced(earlier)
    ensures NodeAccepted(hs, earlier, n)
  {
    hide Text.Strip, Spec, Produced, OutputRef, NodeAccepted;
    ReprojectionAccepted(hs, earlier, n, z);
  }

  lemma OneLetter(s: string)
    requires |s| == 1 && !Text.PySpace(s[0])
    ensures Text.Strip(s) == s
  {
    Text.TrimKeeps(Text.PySpace, s);
  }

  lemma DifferentLetters(s: string, t: string)
    requires s != [] && t != [] && s[0] != t[0]
    ensures s != t
  {}

  lemma StripPadding(padded: string, s: string)
    requires |padded| == 2 && |s| == 1 && padded[0] == ' ' && padded[1] == s[0] && !Text.PySpace(s[0])
    ensures Text.Strip(padded) == s
  {
    assert padded[1..] == s;
    OneLetter(s);
  }

  lemma NoneProduced()
    ensures Produced([]) == map[]
  {}

  lemma ProducedByTwo(a: Node, b: Node)
    ensures Produced([a]) == map[OutputRef(a) := Spec(a.opName).output.kind]
    ensures Produced([a, b]) == Produced([a])[OutputRef(b) := Spec(b.opName).output.kind]
  {
    assert [a][..0] == [] && [a, b][..1] == [a];
  }

  lemma RunOfThree(hs: Heuristics, a: Node, b: Node, c: Node)
    requires NodeAccepted(hs, [], a) && NodeAccepted(hs, [a], b) && NodeAccepted(hs, [a, b], c)
    ensures RunAccepted(hs, [a, b, c])
  {
    var run := [a, b, c];
    hide NodeAccepted;
    assert run[..0] == [] && run[..1] == [a] && run[..2] == [a, b];
    assert AcceptedAt(hs, run, 0) && AcceptedAt(hs, run, 1) && AcceptedAt(hs, run, 2);
  }

  lemma TwoReprojections(a: Node, b: Node, x: Ref, y: Ref)
    requires IsReprojection(a, x) && IsReprojection(b, y)
    ensures Produced([a]) == map[Text.Strip(x) := Raster]
    ensures Produced([a, b]) == map[Text.Strip(x) := Raster][Text.Strip(y) := Raster]
  {
    ProducedByTwo(a, b);
    ReprojectionPorts(a, x);
    ReprojectionPorts(b, y);
    hide *;
  }

  /** Sources a and b, then c reading what b produced. */
  lemma AcceptedInTurn(hs: Heuristics, a: Node, b: Node, c: Node, x: Ref, y: Ref, z: Ref)
    requires IsReprojection(a, x) && a.dependsOn == [] && a.inputs == map[]
    requires IsReprojection(b, y) && b.dependsOn == [] && b.inputs == map[]
    requires IsReprojection(c, z) && c.inputs == map[RasterKey := y]
    requires Text.Strip(x) == x != "" && Text.Strip(y) == y != "" && Text.Strip(z) == z != ""
    requires x != y && y != z && x != z
    ensures RunAccepted(hs, [a, b, c])
  {
    hide *;
    NoneProduced();
    TwoReprojections(a, b, x, y);
    SourceAccepted(hs, [], a, x);
    SourceAccepted(hs, [a], b, y);
    ReaderAccepted(hs, [a, b], c, y, z);
    RunOfThree(hs, a, b, c);
  }

  // ---- Refs with surrounding blanks --------------------------------------------------------

  /** Every ref of the node is already what strip() would make of it. */
  predicate CleanRefs(n: Node) {
    && (forall k :: k in n.inputs ==> Text.Strip(n.inputs[k]) == n.inputs[k])
    && (forall k :: k in n.outputs ==> Text.Strip(n.outputs[k]) == n.outputs[k])
  }

  /**
   * In an accepted plan with clean refs, an input produced by a transitive
   * dependency resolves when the pipeline starts the reader.
   */
  lemma AcceptedRefsResolve(hs: Heuristics, h: Handler, nodes: seq<Node>, i: nat, p: Port, m: Node)
    requires UniqueIds(nodes) && Acceptable(hs, nodes)
    requires forall n :: n in nodes ==> CleanRefs(n)
    requires i < |ScheduleOrder(nodes)| && m in nodes
    requires var n := ScheduleOrder(nodes)[i];
             && p.key in n.inputs && RefAt(n.inputs, p.key) == OutputRef(m)
             && DependsTransitively(GraphOf(nodes), n.stepId, m.stepId)
    requires RunInOrder(Execute, h, ScheduleOrder(nodes)[..i]).failure == None
    ensures ScheduleOrder(nodes)[i].inputs[p.key] in RunInOrder(Execute, h, ScheduleOrder(nodes)[..i]).refs
  {
    var n := ScheduleOrder(nodes)[i];
    GraphOfDescribes(nodes);
    ScheduledAreListed(nodes, n);
    AcceptedPlanIsSound(hs, nodes);
    assert CleanRefs(n) && CleanRefs(m) && OutputRef(m) != "";
    assert n.inputs[p.key] == OutputRef(m);
    hide *;
    CleanNodeRegisters(m);
    AncestorRefsResolve(GraphOf(nodes), nodes, h, i, m, OutputRef(m));
  }

  lemma ScheduledAreListed(nodes: seq<Node>, n: Node)
    requires UniqueIds(nodes) && n in ScheduleOrder(nodes)
    ensures n in nodes
  {
    GraphOfDescribes(nodes);
    hide *;
    ScheduleIsComplete(GraphOf(nodes), nodes);
  }

  lemma CleanNodeRegisters(m: Node)
    requires CleanRefs(m) && OutputRef(m) != ""
    ensures RegisteredRef(m) == Some(OutputRef(m))
  {
    assert Spec(m.opName).output.key in m.outputs;
  }

  function PaddedRef(): seq<Node> {
    [Reproject("a", [], map[], " y"), Reproject("b", ["a"], map[RasterKey := "y"], "z")]
  }

  /**
   * The guard strips refs and the pipeline does not: a plan every heuristic
   * accepts, whose reader depends on the producer and still misses its ref.
   */
  lemma AcceptedPaddedRefIsMissing(hs: Heuristics, h: Handler)
    ensures var nodes := PaddedRef();
            && UniqueIds(nodes) && Acceptable(hs, nodes)
            && ScheduleOrder(nodes) == nodes
            && nodes[1].inputs[RasterKey] == "y" && nodes[0].stepId in nodes[1].dependsOn
            && "y" !in RunInOrder(Execute, h, nodes[..1]).refs
  {
    var nodes := PaddedRef();
    var a, b := nodes[0], nodes[1];
    assert UniqueIds(nodes);
    GraphOfDescribes(nodes);
    assert a in nodes && b in nodes;
    PaddedSchedule(a, b);
    assert nodes[..1] == [a];
    OnlyOwnRef(h, a, "y");
    PaddedAccepted(hs);
  }

  lemma PaddedSchedule(a: Node, b: Node)
    requires a.dependsOn == [] && b.dependsOn == [a.stepId]
    ensures ScheduleOrder([a, b]) == [a, b]
  {
    var nodes := [a, b];
    var none: set<StepId> := {};
    assert nodes[1..] == [b] && [b][1..] == [];
    assert RunInPass([b], none + {a.stepId}) == [b];
    assert RunInPass(nodes, none) == [a] + [b] == nodes;
    PassesUnfold(nodes, none);
    AllRemoved(nodes, IdSet(nodes));
    assert nodes + [] == nodes;
  }

  lemma PaddedAccepted(hs: Heuristics)
    requires UniqueIds(PaddedRef())
    ensures Acceptable(hs, PaddedRef())
  {
    var nodes := PaddedRef();
    var g := GraphOf(nodes);
    var a, b := nodes[0], nodes[1];
    GraphOfDescribes(nodes);
    assert Ids(nodes) == ["a", "b"];
    assert g.order == ["a", "b"];
    assert a in nodes && b in nodes;
    assert g.deps["a"] == [] && g.deps["b"] == ["a"];
    KahnOfChain(g, "a", "b");
    KahnListsAll(g, nodes);
    ByIdUnique(nodes, a);
    ByIdUnique(nodes, b);
    assert GuardRun(nodes) == [a, b];
    PaddedRun(hs, a, b);
  }

  lemma PaddedRun(hs: Heuristics, a: Node, b: Node)
    requires a == PaddedRef()[0] && b == PaddedRef()[1]
    ensures RunAccepted(hs, [a, b])
  {
    hide Text.Strip, RunAccepted;
    OneLetter("y");
    OneLetter("z");
    DifferentLetters("y", "z");
    StripPadding(" y", "y");
    PaddedInTurn(hs, a, b, " y", "y", "z");
  }

  lemma PaddedInTurn(hs: Heuristics, a: Node, b: Node, padded: Ref, clean: Ref, z: Ref)
    requires IsReprojection(a, padded) && a.dependsOn == [] && a.inputs == map[]
    requires IsReprojection(b, z) && b.inputs == map[RasterKey := clean]
    requires Text.Strip(padded) == Text.Strip(clean) == clean != "" && Text.Strip(z) == z != "" && clean != z
    ensures RunAccepted(hs, [a, b])
  {
    hide *;
    NoneProduced();
    TwoReprojections(a, b, padded, z);
    SourceAccepted(hs, [], a, padded);
    ReaderAccepted(hs, [a], b, clean, z);
    RunOfTwo(hs, a, b);
  }

  lemma RunOfTwo(hs: Heuristics, a: Node, b: Node)
    requires NodeAccepted(hs, [], a) && NodeAccepted(hs, [a], b)
    ensures RunAccepted(hs, [a, b])
  {
    var run := [a, b];
    hide NodeAccepted;
    assert run[..0] == [] && run[..1] == [a];
    assert AcceptedAt(hs, run, 0) && AcceptedAt(hs, run, 1);
  }

  lemma KahnOfChain(g: Graph, a: StepId, b: StepId)
    requires g.Valid() && g.order == [a, b] && g.deps[a] == [] && g.deps[b] == [a]
    ensures KahnOrder(g) == [a, b]
  {
    assert g.order[0] == a && g.order[1] == b;
    KahnStarts(g);
    ChainReleases(g, a, b);
    NoneReleased(g, g.order, ToSet([a] + [b]), b);
    hide NewlyReleased, Roots, KahnInv, ToSet;
    QueueOfTwo(a, b);
    KahnTurn(g, [a], []);
    KahnTurn(g, [b], [a]);
  }

  lemma QueueOfTwo(a: StepId, b: StepId)
    ensures [] + [a] == [a] && [a] + [b] == [a, b] && [a][1..] + [b] == [b] && [b][1..] + [] == []
  {}

  lemma ChainReleases(g: Graph, a: StepId, b: StepId)
    requires g.Deps(a) == [] && g.Deps(b) == [a]
    ensures Roots(g, [a, b]) == [a] && NewlyReleased(g, [a, b], ToSet([] + [a]), a) == [b]
  {
    assert [a, b][..1] == [a] && [a][..0] == [];
    assert Roots(g, [a]) == [a];
    var done := ToSet([] + [a]);
    assert NewlyReleased(g, [a], done, a) == [];
    assert Released(g, done, b);
  }
}
