/**
 * Results that span the compiler, the guard and the pipeline: what an accepted
 * plan guarantees, what the guard can object to in a compiled plan, and which
 * references a node finds when the pipeline starts it.
 */
module PlanTheorems {
  import opened Results
  import opened StepGraph
  import opened OperationRegistry
  import opened OperationPlan
  import opened TopologicalSort
  import opened PassScheduler
  import opened PlanGuard
  import opened PlanBuilder
  import Text

  // ---- The guard's run ------------------------------------------------------------------

  /** The guard visits nodes of the plan, each once, dependencies first; on acyclic plans it visits all. */
  lemma GuardRunFacts(nodes: seq<Node>)
    requires UniqueIds(nodes)
    ensures var run := GuardRun(nodes);
            && UniqueIds(run)
            && DependenciesFirst(GraphOf(nodes), Ids(run))
            && (forall n :: n in run ==> n in nodes)
            && (GraphOf(nodes).Closed() && !HasCycle(GraphOf(nodes)) ==> forall n :: n in nodes ==> n in run)
  {
    var g := GraphOf(nodes);
    GraphOfDescribes(nodes);
    KahnOrderNamesNodes(g, nodes);
    RunOverOrder(g, nodes, KahnOrder(g), GuardRun(nodes));
  }

  lemma RunOverOrder(g: Graph, nodes: seq<Node>, order: seq<StepId>, run: seq<Node>)
    requires Describes(g, nodes) && order == KahnOrder(g)
    requires forall s :: s in order ==> s in ById(nodes)
    requires run == NodesNamed(nodes, order)
    ensures UniqueIds(run) && DependenciesFirst(g, Ids(run))
    ensures forall n :: n in run ==> n in nodes
    ensures g.Closed() && !HasCycle(g) ==> forall n :: n in nodes ==> n in run
  {
    hide KahnOrder, NodesNamed, ById, Doomed, HasCycle, DependenciesFirst;
    KahnOrderIsTopological(g);
    assert Ids(run) == order;
    DistinctIdsAreUnique(run);
    if g.Closed() && !HasCycle(g) {
      AcyclicIffNoneDoomed(g);
      forall n | n in nodes ensures n in run {
        VisitedNode(g, nodes, order, n);
      }
    }
  }

  lemma DistinctIdsAreUnique(run: seq<Node>)
    requires Distinct(Ids(run))
    ensures UniqueIds(run)
  {
    forall i, j | 0 <= i < j < |run| ensures Apart(run, i, j) {
      assert Ids(run)[i] != Ids(run)[j];
    }
  }

  lemma VisitedNode(g: Graph, nodes: seq<Node>, order: seq<StepId>, n: Node)
    requires Describes(g, nodes) && n in nodes && n.stepId in order
    requires forall s :: s in order ==> s in ById(nodes)
    ensures n in NodesNamed(nodes, order)
  {
    var i :| 0 <= i < |order| && order[i] == n.stepId;
    ByIdUnique(nodes, n);
    assert NodesNamed(nodes, order)[i] == n;
  }

  /** `a` stands before position i of the run. */
  lemma EarlierInRun(run: seq<Node>, i: nat, a: Node)
    requires i < |run| && UniqueIds(run) && a in run && a.stepId in Ids(run)[..i]
    ensures a in run[..i]
  {
    var k :| 0 <= k < i && Ids(run)[..i][k] == a.stepId;
    assert run[k].stepId == a.stepId && run[k] in run;
    SameIdSameNode(run, run[k], a);
    assert run[..i][k] == a;
  }

  // ---- Guard soundness --------------------------------------------------------------------

  /** How an accepted non-blank input is resolved. */
  ghost predicate ResolvedInput(h: Heuristics, earlier: seq<Node>, n: Node, p: Port) {
    var ref := RefAt(n.inputs, p.key);
    || (exists a :: a in earlier && OutputRef(a) == ref && IsTypeCompatible(Spec(a.opName).output.kind, p.dataType))
    || ((forall a :: a in earlier ==> OutputRef(a) != ref) && ExternalAllowed(h, ref, p.dataType))
  }

  /** Every non-blank input of node i is resolved by what comes before it. */
  ghost predicate InputsResolved(h: Heuristics, run: seq<Node>, i: nat)
    requires i < |run|
  {
    forall p :: p in Spec(run[i].opName).inputs && RefAt(run[i].inputs, p.key) != ""
      ==> ResolvedInput(h, run[..i], run[i], p)
  }

  /**
   * In an accepted plan each output ref is declared once, and each non-blank
   * input is an upload id, an external file of a fitting kind, or the output of
   * a node visited earlier whose type fits.
   */
  lemma AcceptedPlanIsSound(h: Heuristics, nodes: seq<Node>)
    requires UniqueIds(nodes) && Acceptable(h, nodes)
    ensures forall a, b :: a in nodes && b in nodes && OutputRef(a) == OutputRef(b) ==> a == b
    ensures forall a :: a in nodes ==> OutputRef(a) != ""
    ensures forall i :: 0 <= i < |GuardRun(nodes)| ==> InputsResolved(h, GuardRun(nodes), i)
  {
    var run := GuardRun(nodes);
    GuardRunFacts(nodes);
    assert RunAccepted(h, run);
    assert forall n :: n in nodes ==> n in run;
    hide *;
    forall a, b | a in nodes && b in nodes && OutputRef(a) == OutputRef(b) ensures a == b {
      DeclaredOnce(h, run, a, b);
    }
    forall a | a in nodes ensures OutputRef(a) != "" {
      DeclaredOnce(h, run, a, a);
    }
    forall i | 0 <= i < |run| ensures InputsResolved(h, run, i) {
      AllInputsResolved(h, run, i);
    }
  }

  lemma DeclaredOnce(h: Heuristics, run: seq<Node>, a: Node, b: Node)
    requires RunAccepted(h, run) && a in run && b in run && OutputRef(a) == OutputRef(b)
    ensures a == b && OutputRef(a) != ""
  {
    var i :| 0 <= i < |run| && run[i] == a;
    var j :| 0 <= j < |run| && run[j] == b;
    assert AcceptedAt(h, run, i);
    OutputsDiffer(h, run);
    hide *;
    assert run[i] == run[j];
  }

  lemma AllInputsResolved(h: Heuristics, run: seq<Node>, i: nat)
    requires RunAccepted(h, run) && i < |run|
    ensures InputsResolved(h, run, i)
  {
    forall p | p in Spec(run[i].opName).inputs && RefAt(run[i].inputs, p.key) != ""
      ensures ResolvedInput(h, run[..i], run[i], p)
    {
      InputResolved(h, run, i, p);
    }
  }

  lemma OutputsDiffer(h: Heuristics, run: seq<Node>)
    requires RunAccepted(h, run)
    ensures forall i, j :: 0 <= i < j < |run| ==> OutputRef(run[i]) != OutputRef(run[j])
  {
    forall i, j | 0 <= i < j < |run|
      ensures OutputRef(run[i]) != OutputRef(run[j])
    {
      assert AcceptedAt(h, run, j);
      assert run[..j][i] == run[i];
    }
  }

  lemma InputResolved(h: Heuristics, run: seq<Node>, i: nat, p: Port)
    requires RunAccepted(h, run) && i < |run|
    requires p in Spec(run[i].opName).inputs && RefAt(run[i].inputs, p.key) != ""
    ensures ResolvedInput(h, run[..i], run[i], p)
  {
    assert AcceptedAt(h, run, i);
    assert InputAccepted(h, Produced(run[..i]), run[i], p);
    var ref := RefAt(run[i].inputs, p.key);
    if ref in Produced(run[..i]) {
      var a :| a in run[..i] && OutputRef(a) == ref && Spec(a.opName).output.kind == Produced(run[..i])[ref];
    }
  }

  // ---- Compiled plans and the guard ---------------------------------------------------------

  /** Step ids of a compiled plan are unique. */
  lemma BuiltIds(nodes: seq<Node>)
    requires WellBuilt(nodes)
    ensures UniqueIds(nodes)
  {
    forall i, j | 0 <= i < j < |nodes| ensures Apart(nodes, i, j) {
      assert NodeBuilt(nodes, i, nodes[i]) && NodeBuilt(nodes, j, nodes[j]);
      if nodes[i].stepId == nodes[j].stepId {
        NumbersAreUnique(nodes[i].stepId, i + 1, "", nodes[j].stepId, j + 1, "");
      }
    }
  }

  /** Two nodes of a compiled plan never declare the same ref. */
  lemma SameRefSameNode(nodes: seq<Node>, a: Node, b: Node)
    requires WellBuilt(nodes) && a in nodes && b in nodes && OwnRef(a) == OwnRef(b)
    ensures a == b
  {
    var i :| 0 <= i < |nodes| && nodes[i] == a;
    var j :| 0 <= j < |nodes| && nodes[j] == b;
    assert NodeBuilt(nodes, i, nodes[i]) && NodeBuilt(nodes, j, nodes[j]);
    OwnRefsDiffer(a, i + 1, b.stepId, j + 1, Spec(b.opName).output.key);
  }

  /** The refs of a compiled plan survive the guard's strip(). */
  lemma BuiltRefIsClean(nodes: seq<Node>, i: nat)
    requires WellBuilt(nodes) && i < |nodes|
    ensures Text.Strip(OwnRef(nodes[i])) == OwnRef(nodes[i]) != ""
    ensures OutputRef(nodes[i]) == OwnRef(nodes[i])
  {
    var n := nodes[i];
    assert NodeBuilt(nodes, i, n);
    var slug :| n.stepId == StepIdOf(i + 1, slug);
    var ref, text := OwnRef(n), OutputText(Spec(n.opName).output.key);
    assert ref[0] == 's';
    assert ref[|ref| - 1] == text[|text| - 1];
    Text.TrimKeeps(Text.PySpace, ref);
  }

  /** Dependencies of a compiled plan point backwards, so the plan is closed and acyclic. */
  lemma BuiltGraphIsAcyclic(nodes: seq<Node>)
    requires WellBuilt(nodes) && UniqueIds(nodes)
    ensures GraphOf(nodes).Closed() && !HasCycle(GraphOf(nodes))
  {
    var g := GraphOf(nodes);
    GraphOfDescribes(nodes);
    forall s, d | s in g.deps && d in g.deps[s] ensures d in g.deps {
      var n := NodeNamed(g, nodes, s);
      var i :| 0 <= i < |nodes| && nodes[i] == n;
      var j := BackwardDependency(g, nodes, i, d);
    }
    forall s | s in g.deps ensures CanRun(g, s) {
      var n := NodeNamed(g, nodes, s);
      var i :| 0 <= i < |nodes| && nodes[i] == n;
      BuiltNodeCanRun(g, nodes, i);
    }
    AcyclicIffAllRun(g);
  }

  lemma BackwardDependency(g: Graph, nodes: seq<Node>, i: nat, d: StepId) returns (j: nat)
    requires Describes(g, nodes) && WellBuilt(nodes) && i < |nodes| && d in nodes[i].dependsOn
    ensures j < i && nodes[j].stepId == d && d in g.deps
  {
    assert NodeBuilt(nodes, i, nodes[i]);
    var k :| 0 <= k < i && Ids(nodes[..i])[k] == d;
    j := k;
    assert nodes[j] in nodes;
  }

  lemma {:induction false} BuiltNodeCanRun(g: Graph, nodes: seq<Node>, i: nat)
    requires Describes(g, nodes) && WellBuilt(nodes) && i < |nodes|
    ensures CanRun(g, nodes[i].stepId)
    decreases i
  {
    assert nodes[i] in nodes;
    forall d | d in g.deps[nodes[i].stepId] ensures CanRun(g, d) {
      var j := BackwardDependency(g, nodes, i, d);
      BuiltNodeCanRun(g, nodes, j);
    }
    CanRunStep(g, nodes[i].stepId);
  }

  /** The direct dependency that feeds a connected input. */
  lemma BuiltFeeder(nodes: seq<Node>, n: Node, p: Port) returns (a: Node)
    requires WellBuilt(nodes) && n in nodes
    requires p in Spec(n.opName).inputs && p.key in n.inputs
    ensures a in nodes && Feeds(a, n, p)
  {
    var m :| 0 <= m < |nodes| && nodes[m] == n;
    assert NodeBuilt(nodes, m, n);
    assert FedBefore(nodes, m, n, p);
    var j :| 0 <= j < m && Feeds(nodes[j], n, p);
    a := nodes[j];
  }

  lemma BuiltRefs(nodes: seq<Node>, a: Node)
    requires WellBuilt(nodes) && a in nodes
    ensures Text.Strip(OwnRef(a)) == OwnRef(a) == OutputRef(a) != ""
  {
    var i :| 0 <= i < |nodes| && nodes[i] == a;
    BuiltRefIsClean(nodes, i);
  }

  /** The recorded kind of a compiled ref is that of the one node that declares it. */
  lemma ProducedKind(nodes: seq<Node>, earlier: seq<Node>, a: Node)
    requires WellBuilt(nodes) && a in nodes && a in earlier
    requires forall b :: b in earlier ==> b in nodes
    ensures OutputRef(a) in Produced(earlier) && Produced(earlier)[OutputRef(a)] == Spec(a.opName).output.kind
  {
    hide *;
    var ref := OutputRef(a);
    var b :| b in earlier && OutputRef(b) == ref && Spec(b.opName).output.kind == Produced(earlier)[ref];
    BuiltRefs(nodes, a);
    BuiltRefs(nodes, b);
    SameRefSameNode(nodes, a, b);
  }

  /** A connected input of a compiled plan resolves, with a fitting type, whatever the visiting order. */
  lemma BuiltInputResolves(nodes: seq<Node>, run: seq<Node>, i: nat, p: Port)
    requires WellBuilt(nodes) && UniqueIds(nodes) && UniqueIds(run)
    requires forall n :: n in run <==> n in nodes
    requires DependenciesFirst(GraphOf(nodes), Ids(run))
    requires i < |run| && p in Spec(run[i].opName).inputs && p.key in run[i].inputs
    ensures var ref := RefAt(run[i].inputs, p.key);
            && ref != "" && ref in Produced(run[..i])
            && IsTypeCompatible(Produced(run[..i])[ref], p.dataType)
  {
    var n := run[i];
    assert n in run;
    var a := BuiltFeeder(nodes, n, p);
    BuiltRefs(nodes, a);
    FeederIsEarlier(nodes, run, i, a);
    forall b | b in run[..i] ensures b in nodes {
      assert b in run;
    }
    ProducedKind(nodes, run[..i], a);
  }

  lemma FeederIsEarlier(nodes: seq<Node>, run: seq<Node>, i: nat, a: Node)
    requires UniqueIds(nodes) && UniqueIds(run)
    requires forall n :: n in run <==> n in nodes
    requires DependenciesFirst(GraphOf(nodes), Ids(run))
    requires i < |run| && a in nodes && a.stepId in run[i].dependsOn
    ensures a in run[..i]
  {
    GraphOfDescribes(nodes);
    assert run[i] in nodes;
    assert a.stepId in GraphOf(nodes).Deps(Ids(run)[i]);
    EarlierInRun(run, i, a);
  }

  /** What a compiled plan still needs from its parameters. */
  ghost predicate Supplied(h: Heuristics, n: Node) {
    && HasRequiredParams(h, n)
    && forall p :: p in Spec(n.opName).inputs && p.key !in n.inputs ==> BlankAllowed(h, n, p)
  }

  lemma BuiltNodeAccepted(h: Heuristics, nodes: seq<Node>, i: nat)
    requires WellBuilt(nodes) && UniqueIds(nodes) && i < |GuardRun(nodes)|
    ensures AcceptedAt(h, GuardRun(nodes), i) <==> Supplied(h, GuardRun(nodes)[i])
  {
    var run := GuardRun(nodes);
    var n := run[i];
    GuardRunFacts(nodes);
    BuiltGraphIsAcyclic(nodes);
    BuiltNodeOutputs(nodes, run, i);
    forall p | p in Spec(n.opName).inputs
      ensures InputAccepted(h, Produced(run[..i]), n, p) <==> (p.key in n.inputs || BlankAllowed(h, n, p))
    {
      if p.key in n.inputs {
        BuiltInputResolves(nodes, run, i, p);
      }
    }
  }

  lemma BuiltNodeOutputs(nodes: seq<Node>, run: seq<Node>, i: nat)
    requires WellBuilt(nodes) && UniqueIds(nodes) && UniqueIds(run)
    requires forall n :: n in run <==> n in nodes
    requires i < |run|
    ensures KnownInputKeys(run[i]) && OutputAccepted(Produced(run[..i]), run[i])
  {
    var n := run[i];
    assert n in run;
    BuiltRefs(nodes, n);
    BuiltInputKeys(nodes, n);
    forall a | a in run[..i] ensures OutputRef(a) != OutputRef(n) {
      EarlierOutputDiffers(nodes, run, i, a);
    }
  }

  lemma EarlierOutputDiffers(nodes: seq<Node>, run: seq<Node>, i: nat, a: Node)
    requires WellBuilt(nodes) && UniqueIds(run) && i < |run| && a in run[..i]
    requires forall n :: n in run ==> n in nodes
    ensures OutputRef(a) != OutputRef(run[i])
  {
    hide *;
    var k :| 0 <= k < i && run[..i][k] == a;
    assert a == run[k] && a in run && run[i] in run;
    BuiltRefs(nodes, a);
    BuiltRefs(nodes, run[i]);
    NotTwice(run, k, i);
    if OutputRef(a) == OutputRef(run[i]) {
      SameRefSameNode(nodes, a, run[i]);
    }
  }

  lemma NotTwice(run: seq<Node>, k: nat, i: nat)
    requires UniqueIds(run) && k < i < |run|
    ensures run[k] != run[i]
  {
    assert Apart(run, k, i);
  }

  lemma BuiltInputKeys(nodes: seq<Node>, n: Node)
    requires WellBuilt(nodes) && n in nodes
    ensures KnownInputKeys(n)
  {
    var m :| 0 <= m < |nodes| && nodes[m] == n;
    assert NodeBuilt(nodes, m, n);
  }

  /**
   * The guard accepts a compiled plan exactly when it is non-empty, its
   * required parameters are present, and every input the compiler left
   * unconnected can be supplied without a ref.
   */
  lemma BuiltPlanAcceptance(h: Heuristics, nodes: seq<Node>)
    requires WellBuilt(nodes)
    ensures UniqueIds(nodes)
    ensures Acceptable(h, nodes) <==> nodes != [] && forall n :: n in nodes ==> Supplied(h, n)
  {
    BuiltIds(nodes);
    BuiltGraphIsAcyclic(nodes);
    GuardRunFacts(nodes);
    var run := GuardRun(nodes);
    forall i | 0 <= i < |run| ensures AcceptedAt(h, run, i) <==> Supplied(h, run[i]) {
      BuiltNodeAccepted(h, nodes, i);
    }
    if RunAccepted(h, run) {
      forall n | n in nodes ensures Supplied(h, n) {
        var i :| 0 <= i < |run| && run[i] == n;
        assert AcceptedAt(h, run, i);
      }
    }
  }

  /** The only objections the guard can have to a compiled plan. */
  lemma BuiltPlanObjections(h: Heuristics, nodes: seq<Node>, e: GuardError)
    requires WellBuilt(nodes) && UniqueIds(nodes) && RejectedFor(h, nodes, e)
    ensures e.EmptyNodes? || e.ParamMissing? || e.InputMissing?
  {
    BuiltGraphIsAcyclic(nodes);
    GuardRunFacts(nodes);
    GraphOfDescribes(nodes);
    match e
    case EmptyNodes =>
    case UnknownDependency(s) => assert false;
    case DependencyCycle => assert false;
    case _ =>
      var run := GuardRun(nodes);
      var i :| FirstFault(h, run, i, e);
      BuiltNodeFaults(h, nodes, run, i, e);
  }

  lemma BuiltNodeFaults(h: Heuristics, nodes: seq<Node>, run: seq<Node>, i: nat, e: GuardError)
    requires WellBuilt(nodes) && UniqueIds(nodes) && UniqueIds(run)
    requires forall n :: n in run <==> n in nodes
    requires DependenciesFirst(GraphOf(nodes), Ids(run))
    requires i < |run| && NodeFault(h, Produced(run[..i]), run[i], e)
    ensures e.ParamMissing? || e.InputMissing?
  {
    BuiltNodeOutputs(nodes, run, i);
    if e.InputRefUnresolved? || e.InputTypeMismatch? {
      var p :| InputFault(run[i], p, e.key)
            && (e.InputTypeMismatch? ==> !IsTypeCompatible(e.actual, p.dataType));
      BuiltInputResolves(nodes, run, i, p);
    }
  }

  /**
   * The compiler meets the guard: for every operation sequence and every choice
   * of parameters the guard accepts the compiled plan exactly if the sequence
   * is not empty and every node's required parameters and unconnected inputs
   * are supplied, and it has nothing else to object to.
   */
  lemma CompilerMeetsGuard(h: Heuristics, ops: seq<OpName>, paramsFor: (nat, OpName) -> Params)
    ensures var nodes := BuildPlanNodes(ops, paramsFor);
            && UniqueIds(nodes)
            && (Acceptable(h, nodes) <==> ops != [] && forall n :: n in nodes ==> Supplied(h, n))
            && forall e :: RejectedFor(h, nodes, e) ==> OnlySupplies(e)
  {
    var nodes := BuildPlanNodes(ops, paramsFor);
    BuiltPlanIsWired(ops, paramsFor);
    hide BuildPlanNodes, WellBuilt, Acceptable, RejectedFor, Supplied;
    BuiltPlanAcceptance(h, nodes);
    forall e | RejectedFor(h, nodes, e)
      ensures OnlySupplies(e)
    {
      BuiltPlanObjections(h, nodes, e);
    }
  }

  /** An objection to what the caller supplied, not to how the plan is wired. */
  predicate OnlySupplies(e: GuardError) {
    e.EmptyNodes? || e.ParamMissing? || e.InputMissing?
  }
}
