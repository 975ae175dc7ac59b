/** The plan guard (packages/domain/services/plan_guard.py). */
module PlanGuard {
  import opened Results
  import opened StepGraph
  import opened OperationRegistry
  import opened OperationPlan
  import opened TopologicalSort
  import CycleDetection
  import Text

  /**
   * The text heuristics of the guard, left arbitrary: which strings look like
   * external files, the kind their suffix suggests, whether a parameter counts
   * as present, and whether parameters stand in for an input.
   */
  datatype Heuristics = Heuristics(
    looksExternal: string -> bool,
    looksLikeBbox: string -> bool,
    inferKind: string -> Option<Kind>,
    paramPresent: (Params, ParamKey) -> bool,
    paramFallback: (Params, InputKey, DataType) -> bool)

  datatype GuardError =
    | EmptyNodes
    | UnknownDependency(step: StepId)
    | DependencyCycle
    | UnknownInputKey(step: StepId)
    | ParamMissing(step: StepId)
    | InputMissing(step: StepId, key: InputKey)
    | InputRefUnresolved(step: StepId, key: InputKey, ref: Ref)
    | InputTypeMismatch(step: StepId, key: InputKey, ref: Ref, actual: Kind)
    | OutputMissing(step: StepId, outputKey: OutputKey)
    | OutputRefDuplicated(step: StepId, outputKey: OutputKey, ref: Ref)

  // ---- Types and refs -------------------------------------------------------------

  /** _is_type_compatible: the actual type is a base type of the registry. */
  function IsTypeCompatible(actual: Kind, expected: DataType): bool {
    match expected
    case AnyType => true
    case Many(k) => actual == k
    case One(k) => actual == k
    case UploadedFile => false
  }

  /** `str(d.get(key) or "").strip()`; the same text for a missing key and a blank value. */
  function RefAt<K>(d: map<K, Ref>, key: K): Ref {
    if key in d then Text.Strip(d[key]) else ""
  }

  /** _value_matches_expected_input on a non-blank, stripped string. */
  predicate MatchesExpected(h: Heuristics, ref: Ref, expected: DataType) {
    match expected
    case UploadedFile => true
    case AnyType => true
    case One(k) => MatchesKind(h, ref, k)
    case Many(k) => MatchesKind(h, ref, k)
  }

  predicate MatchesKind(h: Heuristics, ref: Ref, k: Kind) {
    || (k == Vector && h.looksLikeBbox(ref))
    || (h.looksExternal(ref) && (h.inferKind(ref) == None || h.inferKind(ref) == Some(k)))
  }

  /** _allows_implicit_demo_input */
  predicate AllowsDemo(n: Node, key: InputKey, expected: DataType) {
    && expected != UploadedFile && expected != One(Artifact) && expected != Many(Artifact)
    && !IsUpload(n.opName)
    && !(n.opName == RasterClip && key in {AoiKey, ClipVectorKey, VectorKey})
    && n.dependsOn == []
  }

  // ---- What an accepted node looks like ----------------------------------------------

  function OutputRef(n: Node): Ref {
    RefAt(n.outputs, Spec(n.opName).output.key)
  }

  /** `produced_refs` once the nodes of `run` have been checked. */
  function Produced(run: seq<Node>): (m: map<Ref, Kind>)
    ensures forall r :: r in m ==> exists n :: n in run && OutputRef(n) == r && Spec(n.opName).output.kind == m[r]
    ensures forall n :: n in run ==> OutputRef(n) in m
  {
    if run == [] then map[]
    else
      var init, last := run[..|run| - 1], run[|run| - 1];
      assert run == init + [last];
      Produced(init)[OutputRef(last) := Spec(last.opName).output.kind]
  }

  lemma ProducedNext(run: seq<Node>, i: nat)
    requires i < |run|
    ensures Produced(run[..i + 1]) == Produced(run[..i])[OutputRef(run[i]) := Spec(run[i].opName).output.kind]
  {
    assert run[..i + 1][..i] == run[..i];
  }

  predicate KnownInputKeys(n: Node) {
    forall k :: k in n.inputs ==> exists p :: p in Spec(n.opName).inputs && p.key == k
  }

  predicate HasRequiredParams(h: Heuristics, n: Node) {
    forall k :: k in Spec(n.opName).requiredParams ==> h.paramPresent(n.params, k)
  }

  /** An input left blank must be suppliable without a ref. */
  predicate BlankAllowed(h: Heuristics, n: Node, p: Port) {
    h.paramFallback(n.params, p.key, p.dataType) || AllowsDemo(n, p.key, p.dataType)
  }

  /** A ref no earlier node produced must be an upload or an external file of a fitting kind. */
  predicate ExternalAllowed(h: Heuristics, ref: Ref, expected: DataType) {
    expected == UploadedFile || (h.looksExternal(ref) && MatchesExpected(h, ref, expected))
  }

  predicate InputAccepted(h: Heuristics, produced: map<Ref, Kind>, n: Node, p: Port) {
    var ref := RefAt(n.inputs, p.key);
    if ref == "" then BlankAllowed(h, n, p)
    else if ref in produced then IsTypeCompatible(produced[ref], p.dataType)
    else ExternalAllowed(h, ref, p.dataType)
  }

  predicate OutputAccepted(produced: map<Ref, Kind>, n: Node) {
    OutputRef(n) != "" && OutputRef(n) !in produced
  }

  predicate NodeAccepted(h: Heuristics, earlier: seq<Node>, n: Node) {
    && KnownInputKeys(n)
    && HasRequiredParams(h, n)
    && (forall p :: p in Spec(n.opName).inputs ==> InputAccepted(h, Produced(earlier), n, p))
    && OutputAccepted(Produced(earlier), n)
  }

  /** Every node of the run is accepted given the nodes before it. */
  ghost predicate RunAccepted(h: Heuristics, run: seq<Node>) {
    forall i :: 0 <= i < |run| ==> AcceptedAt(h, run, i)
  }

  ghost predicate AcceptedAt(h: Heuristics, run: seq<Node>, i: nat)
    requires i < |run|
  {
    NodeAccepted(h, run[..i], run[i])
  }

  /** The nodes named by `ids`. */
  function NodesNamed(nodes: seq<Node>, ids: seq<StepId>): (r: seq<Node>)
    requires forall s :: s in ids ==> s in ById(nodes)
    ensures |r| == |ids| && forall i :: 0 <= i < |ids| ==> r[i] == ById(nodes)[ids[i]]
  {
    seq(|ids|, i requires 0 <= i < |ids| => ById(nodes)[ids[i]])
  }

  lemma KahnOrderNamesNodes(g: Graph, nodes: seq<Node>)
    requires Describes(g, nodes)
    ensures forall s :: s in KahnOrder(g) ==> s in ById(nodes)
  {
    KahnOrderIsTopological(g);
    forall s | s in KahnOrder(g) ensures s in ById(nodes) {
      var n := NodeNamed(g, nodes, s);
    }
  }

  /** The guard's visiting order. */
  ghost function GuardRun(nodes: seq<Node>): seq<Node>
    requires UniqueIds(nodes)
  {
    GraphOfDescribes(nodes);
    KahnOrderNamesNodes(GraphOf(nodes), nodes);
    NodesNamed(nodes, KahnOrder(GraphOf(nodes)))
  }

  /** What the guard accepts. */
  ghost predicate Acceptable(h: Heuristics, nodes: seq<Node>)
    requires UniqueIds(nodes)
  {
    && nodes != []
    && GraphOf(nodes).Closed()
    && !HasCycle(GraphOf(nodes))
    && RunAccepted(h, GuardRun(nodes))
  }

  // ---- Why a plan is rejected ---------------------------------------------------------

  predicate InputFault(n: Node, p: Port, key: InputKey) {
    p in Spec(n.opName).inputs && p.key == key
  }

  /** `e` names something wrong with `n`, given the refs produced before it. */
  ghost predicate NodeFault(h: Heuristics, produced: map<Ref, Kind>, n: Node, e: GuardError) {
    match e
    case UnknownInputKey(s) => s == n.stepId && !KnownInputKeys(n)
    case ParamMissing(s) => s == n.stepId && !HasRequiredParams(h, n)
    case InputMissing(s, k) =>
      s == n.stepId && exists p :: InputFault(n, p, k) && RefAt(n.inputs, k) == "" && !BlankAllowed(h, n, p)
    case InputRefUnresolved(s, k, r) =>
      && s == n.stepId && RefAt(n.inputs, k) == r != "" && r !in produced
      && exists p :: InputFault(n, p, k) && !ExternalAllowed(h, r, p.dataType)
    case InputTypeMismatch(s, k, r, actual) =>
      && s == n.stepId && RefAt(n.inputs, k) == r != "" && r in produced && produced[r] == actual
      && exists p :: InputFault(n, p, k) && !IsTypeCompatible(actual, p.dataType)
    case OutputMissing(s, k) => s == n.stepId && k == Spec(n.opName).output.key && OutputRef(n) == ""
    case OutputRefDuplicated(s, k, r) =>
      s == n.stepId && k == Spec(n.opName).output.key && OutputRef(n) == r != "" && r in produced
    case _ => false
  }

  predicate InputsAccepted(h: Heuristics, produced: map<Ref, Kind>, n: Node) {
    forall p :: p in Spec(n.opName).inputs ==> InputAccepted(h, produced, n, p)
  }

  /** The port at j is the first one whose input is not accepted. */
  ghost predicate FirstBadPort(h: Heuristics, produced: map<Ref, Kind>, n: Node, j: int, key: InputKey) {
    var ports := Spec(n.opName).inputs;
    && 0 <= j < |ports| && ports[j].key == key
    && !InputAccepted(h, produced, n, ports[j])
    && forall i :: 0 <= i < j ==> InputAccepted(h, produced, n, ports[i])
  }

  /** Every check that comes before the one `e` reports has passed. */
  ghost predicate EarlierChecksPass(h: Heuristics, produced: map<Ref, Kind>, n: Node, e: GuardError) {
    match e
    case UnknownInputKey(_) => true
    case ParamMissing(_) => KnownInputKeys(n)
    case OutputMissing(_, _) => KnownInputKeys(n) && HasRequiredParams(h, n) && InputsAccepted(h, produced, n)
    case OutputRefDuplicated(_, _, _) => KnownInputKeys(n) && HasRequiredParams(h, n) && InputsAccepted(h, produced, n)
    case InputMissing(_, k) =>
      KnownInputKeys(n) && HasRequiredParams(h, n) && exists j :: FirstBadPort(h, produced, n, j, k)
    case InputRefUnresolved(_, k, _) =>
      KnownInputKeys(n) && HasRequiredParams(h, n) && exists j :: FirstBadPort(h, produced, n, j, k)
    case InputTypeMismatch(_, k, _, _) =>
      KnownInputKeys(n) && HasRequiredParams(h, n) && exists j :: FirstBadPort(h, produced, n, j, k)
    case _ => true
  }

  /** The first thing wrong with a node, in the order of the checks. */
  ghost predicate FirstNodeFault(h: Heuristics, produced: map<Ref, Kind>, n: Node, e: GuardError) {
    NodeFault(h, produced, n, e) && EarlierChecksPass(h, produced, n, e)
  }

  lemma FaultMeansRejected(h: Heuristics, earlier: seq<Node>, n: Node, e: GuardError)
    requires NodeFault(h, Produced(earlier), n, e)
    ensures !NodeAccepted(h, earlier, n)
  {
    match e
    case InputMissing(s, k) =>
      var p :| InputFault(n, p, k) && RefAt(n.inputs, k) == "" && !BlankAllowed(h, n, p);
      assert !InputAccepted(h, Produced(earlier), n, p);
    case InputRefUnresolved(s, k, r) =>
      var p :| InputFault(n, p, k) && !ExternalAllowed(h, r, p.dataType);
      assert !InputAccepted(h, Produced(earlier), n, p);
    case InputTypeMismatch(s, k, r, actual) =>
      var p :| InputFault(n, p, k) && !IsTypeCompatible(actual, p.dataType);
      assert !InputAccepted(h, Produced(earlier), n, p);
    case _ =>
  }

  /** The rejection is the first thing wrong with the plan, in the guard's order of checks. */
  ghost predicate RejectedFor(h: Heuristics, nodes: seq<Node>, e: GuardError)
    requires UniqueIds(nodes)
  {
    match e
    case EmptyNodes => nodes == []
    case UnknownDependency(s) =>
      nodes != [] && exists i :: FirstUnknownName(nodes, i, s)
    case DependencyCycle => nodes != [] && GraphOf(nodes).Closed() && HasCycle(GraphOf(nodes))
    case _ =>
      && nodes != [] && GraphOf(nodes).Closed() && !HasCycle(GraphOf(nodes))
      && exists i :: FirstFault(h, GuardRun(nodes), i, e)
  }

  predicate NamesKnown(g: Graph, n: Node) {
    forall d :: d in n.dependsOn ==> d in g.deps
  }

  /** The node at i is the first in plan order that names an unknown step. */
  predicate FirstUnknownName(nodes: seq<Node>, i: int, s: StepId) {
    && 0 <= i < |nodes| && nodes[i].stepId == s
    && !NamesKnown(GraphOf(nodes), nodes[i])
    && forall k :: 0 <= k < i ==> NamesKnown(GraphOf(nodes), nodes[k])
  }

  ghost predicate FirstFault(h: Heuristics, run: seq<Node>, i: int, e: GuardError) {
    && 0 <= i < |run|
    && (forall j :: 0 <= j < i ==> AcceptedAt(h, run, j))
    && FirstNodeFault(h, Produced(run[..i]), run[i], e)
  }

  lemma FirstFaultRejects(h: Heuristics, nodes: seq<Node>, e: GuardError)
    requires UniqueIds(nodes) && nodes != []
    requires GraphOf(nodes).Closed() && !HasCycle(GraphOf(nodes))
    requires exists i :: FirstFault(h, GuardRun(nodes), i, e)
    ensures !Acceptable(h, nodes) && RejectedFor(h, nodes, e)
  {
    var run := GuardRun(nodes);
    var i :| FirstFault(h, run, i, e);
    FaultMeansRejected(h, run[..i], run[i], e);
    assert !AcceptedAt(h, run, i);
  }

  /** A node has one first fault. */
  lemma OneNodeFault(h: Heuristics, produced: map<Ref, Kind>, n: Node, e: GuardError, f: GuardError)
    requires FirstNodeFault(h, produced, n, e) && FirstNodeFault(h, produced, n, f)
    ensures e == f
  {
    hide InputPorts, OutputPort, RequiredParams, Text.Strip, BlankAllowed, ExternalAllowed, IsTypeCompatible;
    InputFaultIsBad(h, produced, n, e);
    InputFaultIsBad(h, produced, n, f);
    if AboutInput(e) && AboutInput(f) {
      var i :| FirstBadPort(h, produced, n, i, e.key);
      var j :| FirstBadPort(h, produced, n, j, f.key);
      assert i == j;
    }
  }

  predicate AboutInput(e: GuardError) {
    e.InputMissing? || e.InputRefUnresolved? || e.InputTypeMismatch?
  }

  lemma InputFaultIsBad(h: Heuristics, produced: map<Ref, Kind>, n: Node, e: GuardError)
    requires NodeFault(h, produced, n, e)
    ensures AboutInput(e) ==> !InputsAccepted(h, produced, n)
  {
    hide InputPorts, OutputPort, RequiredParams, Text.Strip, BlankAllowed, ExternalAllowed, IsTypeCompatible;
    if AboutInput(e) {
      var p :| InputFault(n, p, e.key)
            && (e.InputMissing? ==> !BlankAllowed(h, n, p))
            && (e.InputRefUnresolved? ==> !ExternalAllowed(h, e.ref, p.dataType))
            && (e.InputTypeMismatch? ==> !IsTypeCompatible(e.actual, p.dataType));
      assert !InputAccepted(h, produced, n, p);
    }
  }

  /** The plan alone determines what it is rejected for. */
  lemma OneRejection(h: Heuristics, nodes: seq<Node>, e: GuardError, f: GuardError)
    requires UniqueIds(nodes) && RejectedFor(h, nodes, e) && RejectedFor(h, nodes, f)
    ensures e == f
  {
    hide FirstNodeFault, AcceptedAt, UniqueIds, HasCycle, GuardRun;
    if e.UnknownDependency? && nodes != [] {
      UnknownNamesOpen(nodes, e);
    }
    if f.UnknownDependency? && nodes != [] {
      UnknownNamesOpen(nodes, f);
    }
    if e.UnknownDependency? && f.UnknownDependency? {
      var i :| FirstUnknownName(nodes, i, e.step);
      var j :| FirstUnknownName(nodes, j, f.step);
      assert i == j;
    } else if !(e.EmptyNodes? || e.UnknownDependency? || e.DependencyCycle?)
              && !(f.EmptyNodes? || f.UnknownDependency? || f.DependencyCycle?) {
      var run := GuardRun(nodes);
      var i :| FirstFault(h, run, i, e);
      var j :| FirstFault(h, run, j, f);
      FaultyIsNotAccepted(h, run, i, e);
      FaultyIsNotAccepted(h, run, j, f);
      assert i == j;
      OneNodeFault(h, Produced(run[..i]), run[i], e, f);
    }
  }

  lemma FaultyIsNotAccepted(h: Heuristics, run: seq<Node>, i: int, e: GuardError)
    requires FirstFault(h, run, i, e)
    ensures !AcceptedAt(h, run, i)
  {
    FaultMeansRejected(h, run[..i], run[i], e);
  }

  lemma UnknownNamesOpen(nodes: seq<Node>, e: GuardError)
    requires UniqueIds(nodes) && e.UnknownDependency? && exists i :: FirstUnknownName(nodes, i, e.step)
    ensures !GraphOf(nodes).Closed()
  {
    var i :| FirstUnknownName(nodes, i, e.step);
    UnknownNameOpens(nodes, nodes[i]);
  }

  // ---- The guard's loops ----------------------------------------------------------------

  lemma KnownNamesClose(nodes: seq<Node>)
    requires UniqueIds(nodes) && forall k :: 0 <= k < |nodes| ==> NamesKnown(GraphOf(nodes), nodes[k])
    ensures GraphOf(nodes).Closed()
  {
    var g := GraphOf(nodes);
    GraphOfDescribes(nodes);
    forall s, d | s in g.deps && d in g.deps[s]
      ensures d in g.deps
    {
      var n := NodeNamed(g, nodes, s);
      var k :| 0 <= k < |nodes| && nodes[k] == n;
      assert NamesKnown(g, nodes[k]);
    }
  }

  /** The step ids are the graph's keys, and an unknown name leaves the graph open. */
  lemma UnknownNameOpens(nodes: seq<Node>, n: Node)
    requires UniqueIds(nodes) && n in nodes
    ensures GraphOf(nodes).deps.Keys == ToSet(Ids(nodes))
    ensures !NamesKnown(GraphOf(nodes), n) ==> !GraphOf(nodes).Closed()
  {
    GraphOfDescribes(nodes);
    assert GraphOf(nodes).deps[n.stepId] == n.dependsOn;
  }

  /** _build_dependency_graph; the schema only admits registered operation names. */
  method BuildDependencyGraph(nodes: seq<Node>) returns (r: Result<Graph, GuardError>)
    requires UniqueIds(nodes)
    ensures r.Success? ==> r.value == GraphOf(nodes) && r.value.Closed()
    ensures r.Failure? ==> r.error.UnknownDependency? && !GraphOf(nodes).Closed()
    ensures r.Failure? ==> exists i :: FirstUnknownName(nodes, i, r.error.step)
  {
    var stepIds := ToSet(Ids(nodes));
    var deps: map<StepId, seq<StepId>> := map[];
    hide UniqueIds, ToSet, StepGraph.Graph.Closed;
    for i := 0 to |nodes|
      invariant deps == DepsById(nodes[..i])
      invariant forall k :: 0 <= k < i ==> NamesKnown(GraphOf(nodes), nodes[k])
    {
      var n := nodes[i];
      UnknownNameOpens(nodes, n);
      if exists d :: d in n.dependsOn && d !in stepIds {
        ghost var d :| d in n.dependsOn && d !in stepIds;
        assert d !in GraphOf(nodes).deps;
        assert FirstUnknownName(nodes, i, n.stepId);
        return Failure(UnknownDependency(n.stepId));
      }
      assert NamesKnown(GraphOf(nodes), n);
      assert nodes[..i + 1][..i] == nodes[..i];
      deps := deps[n.stepId := n.dependsOn];
    }
    assert nodes[..|nodes|] == nodes;
    KnownNamesClose(nodes);
    return Success(Graph(Ids(nodes), deps));
  }

  /** The loop over spec.input_types. */
  method ValidateInputs(h: Heuristics, produced: map<Ref, Kind>, n: Node) returns (r: Option<GuardError>)
    requires KnownInputKeys(n) && HasRequiredParams(h, n)
    ensures r == None ==> InputsAccepted(h, produced, n)
    ensures r.Some? ==> FirstNodeFault(h, produced, n, r.value) && !InputsAccepted(h, produced, n)
  {
    hide InputPorts, OutputPort, RequiredParams, Text.Strip, RefAt, BlankAllowed, ExternalAllowed, IsTypeCompatible;
    var ports := Spec(n.opName).inputs;
    for i := 0 to |ports|
      invariant forall j :: 0 <= j < i ==> InputAccepted(h, produced, n, ports[j])
    {
      var p := ports[i];
      var ref := RefAt(n.inputs, p.key);
      assert InputFault(n, p, p.key);
      assert !InputAccepted(h, produced, n, p) ==> FirstBadPort(h, produced, n, i, p.key);
      if ref == "" {
        if !BlankAllowed(h, n, p) {
          return Some(InputMissing(n.stepId, p.key));
        }
      } else if ref !in produced {
        if !ExternalAllowed(h, ref, p.dataType) {
          return Some(InputRefUnresolved(n.stepId, p.key, ref));
        }
      } else if !IsTypeCompatible(produced[ref], p.dataType) {
        return Some(InputTypeMismatch(n.stepId, p.key, ref, produced[ref]));
      }
    }
    return None;
  }

  /** The checks _validate_io_chain makes on one node, in its order. */
  method ValidateNode(h: Heuristics, produced: map<Ref, Kind>, n: Node) returns (r: Option<GuardError>)
    ensures r == None ==>
              && KnownInputKeys(n) && HasRequiredParams(h, n) && OutputAccepted(produced, n)
              && InputsAccepted(h, produced, n)
    ensures r.Some? ==> FirstNodeFault(h, produced, n, r.value)
  {
    if !KnownInputKeys(n) {
      return Some(UnknownInputKey(n.stepId));
    }
    if !HasRequiredParams(h, n) {
      return Some(ParamMissing(n.stepId));
    }
    r := ValidateInputs(h, produced, n);
    if r.Some? {
      return r;
    }
    var key := Spec(n.opName).output.key;
    var ref := RefAt(n.outputs, key);
    if ref == "" {
      return Some(OutputMissing(n.stepId, key));
    }
    if ref in produced {
      return Some(OutputRefDuplicated(n.stepId, key, ref));
    }
    return None;
  }

  /** _validate_io_chain */
  method ValidateIoChain(h: Heuristics, nodes: seq<Node>, g: Graph) returns (r: Option<GuardError>)
    requires UniqueIds(nodes) && g == GraphOf(nodes)
    ensures r == None ==> RunAccepted(h, GuardRun(nodes))
    ensures r.Some? ==> exists i :: FirstFault(h, GuardRun(nodes), i, r.value)
  {
    GraphOfDescribes(nodes);
    KahnOrderNamesNodes(g, nodes);
    var nodeById := ById(nodes);
    var orderedSteps := TopologicalSort.Sort(g);
    ghost var run := GuardRun(nodes);
    r := CheckRun(h, nodeById, orderedSteps, run);
  }

  /** The loop of _validate_io_chain over the ordered steps. */
  method CheckRun(h: Heuristics, nodeById: map<StepId, Node>, orderedSteps: seq<StepId>, ghost run: seq<Node>)
    returns (r: Option<GuardError>)
    requires |run| == |orderedSteps|
    requires forall i :: 0 <= i < |run| ==> orderedSteps[i] in nodeById && nodeById[orderedSteps[i]] == run[i]
    ensures r == None ==> RunAccepted(h, run)
    ensures r.Some? ==> exists i :: FirstFault(h, run, i, r.value)
  {
    var produced: map<Ref, Kind> := map[];
    for i := 0 to |orderedSteps|
      invariant CheckedTo(h, run, i, produced)
    {
      var n := nodeById[orderedSteps[i]];
      r := ValidateNode(h, produced, n);
      if r.Some? {
        FaultFound(h, run, i, produced, r.value);
        return r;
      }
      NodeChecked(h, run, i, produced);
      produced := produced[OutputRef(n) := Spec(n.opName).output.kind];
    }
    return None;
  }

  /** The first i nodes are accepted and `produced` holds their refs. */
  ghost predicate CheckedTo(h: Heuristics, run: seq<Node>, i: nat, produced: map<Ref, Kind>)
    requires i <= |run|
  {
    && produced == Produced(run[..i])
    && forall j :: 0 <= j < i ==> AcceptedAt(h, run, j)
  }

  lemma NodeChecked(h: Heuristics, run: seq<Node>, i: nat, produced: map<Ref, Kind>)
    requires i < |run| && CheckedTo(h, run, i, produced)
    requires KnownInputKeys(run[i]) && HasRequiredParams(h, run[i]) && OutputAccepted(produced, run[i])
    requires InputsAccepted(h, produced, run[i])
    ensures CheckedTo(h, run, i + 1, produced[OutputRef(run[i]) := Spec(run[i].opName).output.kind])
  {
    ProducedNext(run, i);
    assert AcceptedAt(h, run, i);
  }

  lemma FaultFound(h: Heuristics, run: seq<Node>, i: nat, produced: map<Ref, Kind>, e: GuardError)
    requires i < |run| && CheckedTo(h, run, i, produced) && FirstNodeFault(h, produced, run[i], e)
    ensures FirstFault(h, run, i, e)
  {}

  /** validate_operation_plan: accepts exactly the acceptable plans, and says what is wrong first. */
  method ValidateOperationPlan(h: Heuristics, plan: Plan) returns (r: Result<Plan, GuardError>)
    requires UniqueIds(plan.nodes)
    ensures r.Success? <==> Acceptable(h, plan.nodes)
    ensures r.Success? ==> r.value == plan.(status := Validated)
    ensures r.Failure? ==> RejectedFor(h, plan.nodes, r.error)
  {
    if plan.nodes == [] {
      return Failure(EmptyNodes);
    }
    var graph := BuildDependencyGraph(plan.nodes);
    if graph.Failure? {
      return Failure(graph.error);
    }
    GraphOfDescribes(plan.nodes);
    var cyclic := CycleDetection.DetectCycle(graph.value);
    if cyclic {
      return Failure(DependencyCycle);
    }
    var fault := ValidateIoChain(h, plan.nodes, graph.value);
    if fault.Some? {
      FirstFaultRejects(h, plan.nodes, fault.value);
      return Failure(fault.value);
    }
    return Success(plan.(status := Validated));
  }
}
