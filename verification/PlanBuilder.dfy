/** The plan compiler (packages/domain/services/operation_plan_builder.py). */
module PlanBuilder {
  import opened StepGraph
  import opened OperationRegistry
  import opened OperationPlan
  import Text

  /** The three collections _build_operation_nodes grows. */
  datatype Build = Build(nodes: seq<Node>, refsByType: map<Kind, seq<Ref>>, producer: map<Ref, StepId>)

  /** The refs and dependencies collected for one new node. */
  datatype Wiring = Wiring(inputs: map<InputKey, Ref>, dependsOn: seq<StepId>)

  function RefsOf(refsByType: map<Kind, seq<Ref>>, k: Kind): seq<Ref> {
    if k in refsByType then refsByType[k] else []
  }

  function LastOnly(refs: seq<Ref>): seq<Ref> {
    if refs == [] then [] else [refs[|refs| - 1]]
  }

  /**
   * _pick_refs_for_input_type. The source's closing loop over other types has
   * nothing to visit: every output type of the registry is one of these four.
   */
  function PickRefs(t: DataType, refsByType: map<Kind, seq<Ref>>): seq<Ref> {
    match t
    case UploadedFile => []
    case Many(k) => RefsOf(refsByType, k)
    case One(k) => LastOnly(RefsOf(refsByType, k))
    case AnyType =>
      if RefsOf(refsByType, Raster) != [] then LastOnly(RefsOf(refsByType, Raster))
      else if RefsOf(refsByType, Vector) != [] then LastOnly(RefsOf(refsByType, Vector))
      else if RefsOf(refsByType, Table) != [] then LastOnly(RefsOf(refsByType, Table))
      else LastOnly(RefsOf(refsByType, Artifact))
  }

  /** f"step_{index}_{op_name.replace('.', '_')}" */
  function StepIdOf(index: nat, slug: string): (r: StepId)
    ensures r != ""
  {
    "step_" + (Text.Decimal(index) + "_" + slug)
  }

  /** f"{step_id}_{output_key}" */
  function RefOf(stepId: StepId, key: OutputKey): Ref {
    stepId + ("_" + OutputText(key))
  }

  /** The steps that produced `refs`, other than the step being built. */
  function Producers(refs: seq<Ref>, producer: map<Ref, StepId>, stepId: StepId): seq<StepId> {
    if refs == [] then []
    else
      var last := refs[|refs| - 1];
      Producers(refs[..|refs| - 1], producer, stepId)
      + (if last in producer && producer[last] != "" && producer[last] != stepId then [producer[last]] else [])
  }

  function Connect(ports: seq<Port>, b: Build, stepId: StepId): Wiring {
    if ports == [] then Wiring(map[], [])
    else
      var w, p := Connect(ports[..|ports| - 1], b, stepId), ports[|ports| - 1];
      var matched := PickRefs(p.dataType, b.refsByType);
      if matched == [] then w
      else Wiring(w.inputs[p.key := matched[|matched| - 1]],
                  w.dependsOn + Producers(matched, b.producer, stepId))
  }

  /** list(dict.fromkeys(xs)) */
  function Dedup(xs: seq<StepId>): (r: seq<StepId>)
    ensures forall x :: x in r <==> x in xs
  {
    if xs == [] then []
    else
      var init, last := xs[..|xs| - 1], xs[|xs| - 1];
      assert xs == init + [last];
      if last in init then Dedup(init) else Dedup(init) + [last]
  }

  /** Where an id first occurs. */
  predicate FirstAt(xs: seq<StepId>, x: StepId, i: int) {
    0 <= i < |xs| && xs[i] == x && forall k :: 0 <= k < i ==> xs[k] != x
  }

  /** dict.fromkeys keeps the ids in the order of their first occurrences. */
  lemma {:induction false} DedupKeepsOrder(xs: seq<StepId>, i: nat, j: nat, a: int, b: int)
    requires i < j < |Dedup(xs)| && FirstAt(xs, Dedup(xs)[i], a) && FirstAt(xs, Dedup(xs)[j], b)
    ensures a < b
  {
    var init, last := xs[..|xs| - 1], xs[|xs| - 1];
    assert xs == init + [last];
    if j < |Dedup(init)| {
      assert Dedup(init)[i] in init && Dedup(init)[j] in init;
      FirstInPart(init, last, Dedup(init)[i], a);
      FirstInPart(init, last, Dedup(init)[j], b);
      DedupKeepsOrder(init, i, j, a, b);
    } else {
      assert Dedup(xs)[j] == last && Dedup(xs)[i] in init;
      FirstInPart(init, last, Dedup(xs)[i], a);
    }
  }

  lemma FirstInPart(init: seq<StepId>, last: StepId, x: StepId, a: int)
    requires x in init && FirstAt(init + [last], x, a)
    ensures FirstAt(init, x, a)
  {
    var k :| 0 <= k < |init| && init[k] == x;
    assert (init + [last])[k] == x;
    assert forall m :: 0 <= m < |init| ==> (init + [last])[m] == init[m];
  }

  function OrPrevious(dependsOn: seq<StepId>, nodes: seq<Node>): seq<StepId> {
    if dependsOn == [] && nodes != [] then [nodes[|nodes| - 1].stepId] else dependsOn
  }

  function AddOperation(b: Build, op: OpName, params: Params): Build {
    AddNode(b, op, StepIdOf(|b.nodes| + 1, Slug(op)), params)
  }

  function AddNode(b: Build, op: OpName, stepId: StepId, params: Params): Build {
    var w := Connect(Spec(op).inputs, b, stepId);
    var out := Spec(op).output;
    var ref := RefOf(stepId, out.key);
    var node := Node(stepId, op, Dedup(OrPrevious(w.dependsOn, b.nodes)), w.inputs, params, map[out.key := ref]);
    Build(b.nodes + [node],
          b.refsByType[out.kind := RefsOf(b.refsByType, out.kind) + [ref]],
          b.producer[ref := stepId])
  }

  /** The loop over the requested operations; `paramsFor` gives each position's merged parameters. */
  function BuildOperations(ops: seq<OpName>, paramsFor: (nat, OpName) -> Params): Build {
    if ops == [] then Build([], map[], map[])
    else
      var b := BuildOperations(ops[..|ops| - 1], paramsFor);
      AddOperation(b, ops[|ops| - 1], paramsFor(|b.nodes|, ops[|ops| - 1]))
  }

  /** _infer_primary_ref */
  function PrimaryRef(refsByType: map<Kind, seq<Ref>>): seq<Ref> {
    PickRefs(AnyType, refsByType)
  }

  function ExportDependency(b: Build): seq<StepId>
    requires b.nodes != []
  {
    var primary := PrimaryRef(b.refsByType);
    if primary == [] then [b.nodes[|b.nodes| - 1].stepId]
    else if primary[0] in b.producer && b.producer[primary[0]] != "" then [b.producer[primary[0]]] else []
  }

  function ExportNode(b: Build, stepId: StepId, params: Params): Node
    requires b.nodes != []
  {
    var primary := PrimaryRef(b.refsByType);
    Node(stepId, ArtifactExport, Dedup(ExportDependency(b)),
         if primary == [] then map[] else map[PrimaryKey := primary[0]],
         params, map[ArtifactOut := RefOf(stepId, ArtifactOut)])
  }

  /** The closing export node, unless the sequence already ends in one. */
  function WithExport(b: Build, params: Params): seq<Node> {
    if b.nodes == [] || b.nodes[|b.nodes| - 1].opName == ArtifactExport then b.nodes
    else b.nodes + [ExportNode(b, StepIdOf(|b.nodes| + 1, Slug(ArtifactExport)), params)]
  }

  function BuildPlanNodes(ops: seq<OpName>, paramsFor: (nat, OpName) -> Params): seq<Node> {
    var b := BuildOperations(ops, paramsFor);
    WithExport(b, paramsFor(|b.nodes|, ArtifactExport))
  }

  // ---- The loops of the builder ----------------------------------------------------------

  /** The inner loop over the matched refs. */
  method AddProducers(matched: seq<Ref>, producer: map<Ref, StepId>, stepId: StepId, before: seq<StepId>)
    returns (dependsOn: seq<StepId>)
    ensures dependsOn == before + Producers(matched, producer, stepId)
  {
    dependsOn := before;
    for j := 0 to |matched|
      invariant dependsOn == before + Producers(matched[..j], producer, stepId)
    {
      assert matched[..j + 1][..j] == matched[..j];
      if matched[j] in producer && producer[matched[j]] != "" && producer[matched[j]] != stepId {
        dependsOn := dependsOn + [producer[matched[j]]];
      }
    }
    assert matched[..|matched|] == matched;
  }

  /** The loop over spec.input_types. */
  method ConnectInputs(b: Build, ports: seq<Port>, stepId: StepId) returns (w: Wiring)
    ensures w == Connect(ports, b, stepId)
  {
    w := Wiring(map[], []);
    for i := 0 to |ports|
      invariant w == Connect(ports[..i], b, stepId)
    {
      assert ports[..i + 1][..i] == ports[..i];
      var matched := PickRefs(ports[i].dataType, b.refsByType);
      if matched != [] {
        var dependsOn := AddProducers(matched, b.producer, stepId, w.dependsOn);
        w := Wiring(w.inputs[ports[i].key := matched[|matched| - 1]], dependsOn);
      }
    }
    assert ports[..|ports|] == ports;
  }

  /** The loop over op_sequence. */
  method BuildSequence(ops: seq<OpName>, paramsFor: (nat, OpName) -> Params)
    returns (nodes: seq<Node>, refsByType: map<Kind, seq<Ref>>, producer: map<Ref, StepId>)
    ensures Build(nodes, refsByType, producer) == BuildOperations(ops, paramsFor)
  {
    hide Connect, Dedup, StepIdOf, RefOf, Slug, InputPorts, OutputPort;
    nodes, refsByType, producer := [], map[], map[];
    for i := 0 to |ops|
      invariant Build(nodes, refsByType, producer) == BuildOperations(ops[..i], paramsFor)
      invariant |nodes| == i
    {
      var op := ops[i];
      assert ops[..i + 1][..i] == ops[..i];
      ghost var b := Build(nodes, refsByType, producer);
      var stepId := StepIdOf(i + 1, Slug(op));
      var w := ConnectInputs(Build(nodes, refsByType, producer), Spec(op).inputs, stepId);
      var out := Spec(op).output;
      var ref := RefOf(stepId, out.key);
      var dependsOn := w.dependsOn;
      if dependsOn == [] && nodes != [] {
        dependsOn := [nodes[|nodes| - 1].stepId];
      }
      refsByType := refsByType[out.kind := RefsOf(refsByType, out.kind) + [ref]];
      producer := producer[ref := stepId];
      nodes := nodes + [Node(stepId, op, Dedup(dependsOn), w.inputs, paramsFor(i, op), map[out.key := ref])];
      assert Build(nodes, refsByType, producer) == AddOperation(b, op, paramsFor(i, op));
    }
    assert ops[..|ops|] == ops;
  }

  /** _build_operation_nodes */
  method BuildOperationNodes(ops: seq<OpName>, paramsFor: (nat, OpName) -> Params) returns (nodes: seq<Node>)
    ensures nodes == BuildPlanNodes(ops, paramsFor)
  {
    var refsByType, producer;
    nodes, refsByType, producer := BuildSequence(ops, paramsFor);
    if nodes == [] || nodes[|nodes| - 1].opName == ArtifactExport {
      return nodes;
    }
    var stepId := StepIdOf(|nodes| + 1, Slug(ArtifactExport));
    var primary := PrimaryRef(refsByType);
    var inputs: map<InputKey, Ref> := map[];
    var dependsOn: seq<StepId> := [];
    if primary != [] {
      inputs := map[PrimaryKey := primary[0]];
      if primary[0] in producer && producer[primary[0]] != "" {
        dependsOn := [producer[primary[0]]];
      }
    } else {
      dependsOn := [nodes[|nodes| - 1].stepId];
    }
    nodes := nodes + [Node(stepId, ArtifactExport, Dedup(dependsOn), inputs, paramsFor(|nodes|, ArtifactExport),
                           map[ArtifactOut := RefOf(stepId, ArtifactOut)])];
  }

  // ---- What a built plan looks like --------------------------------------------------------

  /** The ref a built node declares. */
  function OwnRef(n: Node): Ref {
    RefOf(n.stepId, Spec(n.opName).output.key)
  }

  /** The kind fits what a port of type `t` expects. */
  predicate Fits(k: Kind, t: DataType) {
    t == AnyType || t == One(k) || t == Many(k)
  }

  /** `a` is the declared producer of the ref that `n` reads at `p`, and a direct dependency. */
  predicate Feeds(a: Node, n: Node, p: Port) {
    && p.key in n.inputs
    && n.inputs[p.key] == OwnRef(a)
    && Fits(Spec(a.opName).output.kind, p.dataType)
    && a.stepId in n.dependsOn
  }

  ghost predicate FedBefore(nodes: seq<Node>, i: nat, n: Node, p: Port)
    requires i <= |nodes|
  {
    exists j :: 0 <= j < i && Feeds(nodes[j], n, p)
  }

  /** The step id carries the position it was made at. */
  ghost predicate Numbered(stepId: StepId, index: nat) {
    exists slug :: stepId == StepIdOf(index, slug)
  }

  /** A built node at position i depends only on earlier nodes, and each input is fed by one of them. */
  ghost predicate NodeBuilt(nodes: seq<Node>, i: nat, n: Node)
    requires i <= |nodes|
  {
    && Numbered(n.stepId, i + 1)
    && n.outputs == map[Spec(n.opName).output.key := OwnRef(n)]
    && (forall d :: d in n.dependsOn ==> d in Ids(nodes[..i]))
    && (forall k :: k in n.inputs ==> exists p :: p in Spec(n.opName).inputs && p.key == k)
    && (forall p :: p in Spec(n.opName).inputs && p.key in n.inputs ==> FedBefore(nodes, i, n, p))
  }

  ghost predicate WellBuilt(nodes: seq<Node>) {
    forall i :: 0 <= i < |nodes| ==> NodeBuilt(nodes, i, nodes[i])
  }

  /** A registered ref names the node that declares it, with its kind and its step id. */
  ghost predicate RefKnown(b: Build, k: Kind, r: Ref) {
    exists j :: 0 <= j < |b.nodes| && Declares(b, j, k, r)
  }

  ghost predicate Declares(b: Build, j: nat, k: Kind, r: Ref)
    requires j < |b.nodes|
  {
    && r == OwnRef(b.nodes[j]) && Spec(b.nodes[j].opName).output.kind == k
    && r in b.producer && b.producer[r] == b.nodes[j].stepId
  }

  ghost predicate BuildInv(b: Build) {
    WellBuilt(b.nodes) && forall k, r :: r in RefsOf(b.refsByType, k) ==> RefKnown(b, k, r)
  }

  /** Two step ids, or refs made from them, are equal only if they carry the same position. */
  lemma NumbersAreUnique(s: StepId, i: nat, x: string, t: StepId, j: nat, y: string)
    requires Numbered(s, i) && Numbered(t, j) && s + x == t + y
    ensures i == j
  {
    var a :| s == StepIdOf(i, a);
    var b :| t == StepIdOf(j, b);
    Reassociate("step_", Text.Decimal(i), a, x);
    Reassociate("step_", Text.Decimal(j), b, y);
    SamePrefix("step_", Text.Decimal(i) + "_" + (a + x), Text.Decimal(j) + "_" + (b + y));
    Text.NumberedNamesDiffer(i, a + x, j, b + y);
  }

  lemma Reassociate(p: string, d: string, a: string, x: string)
    ensures p + (d + "_" + a) + x == p + (d + "_" + (a + x))
  {}

  lemma SamePrefix(p: string, a: string, b: string)
    requires p + a == p + b
    ensures a == b
  {
    assert (p + a)[|p|..] == a && (p + b)[|p|..] == b;
  }

  lemma PickedRefsAreKnown(b: Build, t: DataType, r: Ref)
    requires BuildInv(b) && r in PickRefs(t, b.refsByType)
    ensures exists k :: Fits(k, t) && RefKnown(b, k, r)
  {
    match t
    case Many(k) => assert Fits(k, t) && RefKnown(b, k, r);
    case One(k) => assert Fits(k, t) && RefKnown(b, k, r);
    case AnyType =>
      var k :| r in RefsOf(b.refsByType, k);
      assert Fits(k, t) && RefKnown(b, k, r);
  }

  lemma {:induction false} ProducersMembers(refs: seq<Ref>, producer: map<Ref, StepId>, stepId: StepId)
    ensures forall r :: r in refs && r in producer && producer[r] != "" && producer[r] != stepId
              ==> producer[r] in Producers(refs, producer, stepId)
    ensures forall d :: d in Producers(refs, producer, stepId) ==> exists r :: r in refs && r in producer && producer[r] == d
  {
    if refs != [] {
      var init, last := refs[..|refs| - 1], refs[|refs| - 1];
      assert refs == init + [last];
      ProducersMembers(init, producer, stepId);
    }
  }

  /** The wiring of a new node at the end of a well-built list. */
  ghost predicate WiringOk(b: Build, ports: seq<Port>, w: Wiring) {
    && (forall k :: k in w.inputs ==> exists p :: p in ports && p.key == k)
    && (forall d :: d in w.dependsOn ==> d in Ids(b.nodes))
    && (forall p :: p in ports && p.key in w.inputs ==> WiredTo(b, w, p))
  }

  ghost predicate WiredTo(b: Build, w: Wiring, p: Port)
    requires p.key in w.inputs
  {
    exists j :: 0 <= j < |b.nodes| && WiredAt(b, w, p, j)
  }

  ghost predicate WiredAt(b: Build, w: Wiring, p: Port, j: nat)
    requires p.key in w.inputs && j < |b.nodes|
  {
    && w.inputs[p.key] == OwnRef(b.nodes[j])
    && Fits(Spec(b.nodes[j].opName).output.kind, p.dataType)
    && b.nodes[j].stepId in w.dependsOn
  }

  ghost predicate DistinctKeys(ports: seq<Port>) {
    forall i, j :: 0 <= i < j < |ports| ==> ports[i].key != ports[j].key
  }

  /** Everything PickRefs returns has a producer among the nodes, with another id than the new step. */
  lemma PickedProducer(b: Build, t: DataType, r: Ref, stepId: StepId) returns (j: nat)
    requires BuildInv(b) && r in PickRefs(t, b.refsByType)
    requires Numbered(stepId, |b.nodes| + 1)
    ensures j < |b.nodes| && r == OwnRef(b.nodes[j]) && Fits(Spec(b.nodes[j].opName).output.kind, t)
    ensures r in b.producer && b.producer[r] == b.nodes[j].stepId && b.producer[r] != "" && b.producer[r] != stepId
    ensures b.nodes[j].stepId in Ids(b.nodes)
  {
    hide OwnRef, PickRefs, Fits, BuildInv, Numbered, Spec;
    PickedRefsAreKnown(b, t, r);
    var k :| Fits(k, t) && RefKnown(b, k, r);
    j :| 0 <= j < |b.nodes| && Declares(b, j, k, r);
    BuiltIdIsOther(b, j, stepId);
    assert Ids(b.nodes)[j] == b.nodes[j].stepId;
  }

  lemma BuiltIdIsOther(b: Build, j: nat, stepId: StepId)
    requires BuildInv(b) && j < |b.nodes| && Numbered(stepId, |b.nodes| + 1)
    ensures b.nodes[j].stepId != "" && b.nodes[j].stepId != stepId
  {
    assert NodeBuilt(b.nodes, j, b.nodes[j]);
    hide OwnRef, FedBefore, Spec;
    if b.nodes[j].stepId == stepId {
      NumbersAreUnique(stepId, j + 1, "", stepId, |b.nodes| + 1, "");
    }
  }

  lemma {:induction false} ConnectIsWired(b: Build, ports: seq<Port>, stepId: StepId)
    requires BuildInv(b) && DistinctKeys(ports) && Numbered(stepId, |b.nodes| + 1)
    ensures WiringOk(b, ports, Connect(ports, b, stepId))
  {
    if ports != [] {
      var init, p := ports[..|ports| - 1], ports[|ports| - 1];
      assert ports == init + [p];
      ConnectIsWired(b, init, stepId);
      var w := Connect(init, b, stepId);
      var matched := PickRefs(p.dataType, b.refsByType);
      if matched != [] {
        WireOnePort(b, init, p, w, matched, stepId);
      } else {
        assert p.key !in w.inputs;
      }
    }
  }

  lemma WireOnePort(b: Build, init: seq<Port>, p: Port, w: Wiring, matched: seq<Ref>, stepId: StepId)
    requires BuildInv(b) && Numbered(stepId, |b.nodes| + 1)
    requires DistinctKeys(init + [p]) && WiringOk(b, init, w)
    requires matched == PickRefs(p.dataType, b.refsByType) != []
    ensures WiringOk(b, init + [p], Wiring(w.inputs[p.key := matched[|matched| - 1]],
                                           w.dependsOn + Producers(matched, b.producer, stepId)))
  {
    var w' := Wiring(w.inputs[p.key := matched[|matched| - 1]], w.dependsOn + Producers(matched, b.producer, stepId));
    ProducersKnown(b, p, matched, stepId);
    ProducersMembers(matched, b.producer, stepId);
    var j := PickedProducer(b, p.dataType, matched[|matched| - 1], stepId);
    assert WiredAt(b, w', p, j);
    hide *;
    PortsStayWired(b, init, p, w, w', j);
  }

  lemma PortsStayWired(b: Build, init: seq<Port>, p: Port, w: Wiring, w': Wiring, j: nat)
    requires DistinctKeys(init + [p]) && WiringOk(b, init, w)
    requires p.key in w'.inputs && j < |b.nodes| && WiredAt(b, w', p, j)
    requires forall k :: k in w'.inputs && k != p.key ==> k in w.inputs && w'.inputs[k] == w.inputs[k]
    requires forall d :: d in w.dependsOn ==> d in w'.dependsOn
    requires forall d :: d in w'.dependsOn ==> d in Ids(b.nodes)
    ensures WiringOk(b, init + [p], w')
  {
    hide DistinctKeys, WiredAt;
    forall q | q in init + [p] && q.key in w'.inputs ensures WiredTo(b, w', q) {
      if q != p {
        OtherPortStaysWired(b, init, p, w, w', q);
      }
    }
    forall k | k in w'.inputs ensures exists q :: q in init + [p] && q.key == k {
      if k == p.key {
        assert p in init + [p];
      } else {
        var q :| q in init && q.key == k;
        assert q in init + [p];
      }
    }
  }

  lemma ProducersKnown(b: Build, p: Port, matched: seq<Ref>, stepId: StepId)
    requires BuildInv(b) && Numbered(stepId, |b.nodes| + 1) && matched == PickRefs(p.dataType, b.refsByType)
    ensures forall d :: d in Producers(matched, b.producer, stepId) ==> d in Ids(b.nodes)
  {
    hide BuildInv, Numbered, PickRefs, Producers;
    ProducersMembers(matched, b.producer, stepId);
    forall d | d in Producers(matched, b.producer, stepId) ensures d in Ids(b.nodes) {
      var r :| r in matched && r in b.producer && b.producer[r] == d;
      var j := PickedProducer(b, p.dataType, r, stepId);
      assert Ids(b.nodes)[j] == d;
    }
  }

  lemma OtherPortStaysWired(b: Build, init: seq<Port>, p: Port, w: Wiring, w': Wiring, q: Port)
    requires DistinctKeys(init + [p]) && WiringOk(b, init, w) && q in init
    requires forall k :: k in w'.inputs && k != p.key ==> k in w.inputs && w'.inputs[k] == w.inputs[k]
    requires forall d :: d in w.dependsOn ==> d in w'.dependsOn
    requires q.key in w'.inputs
    ensures WiredTo(b, w', q)
  {
    var i :| 0 <= i < |init| && init[i] == q;
    assert (init + [p])[i].key != (init + [p])[|init|].key;
    var m :| 0 <= m < |b.nodes| && WiredAt(b, w, q, m);
    assert WiredAt(b, w', q, m);
  }

  lemma AddNodeKeepsInv(b: Build, op: OpName, stepId: StepId, params: Params)
    requires BuildInv(b) && Numbered(stepId, |b.nodes| + 1)
    ensures BuildInv(AddNode(b, op, stepId, params))
  {
    hide AddNode, WellBuilt, Connect, Spec, RefKnown, Numbered, WiringOk, MadeFrom;
    KeysAreDistinct(op);
    ConnectIsWired(b, Spec(op).inputs, stepId);
    var b' := AddNode(b, op, stepId, params);
    var n := AddedIsMade(b, op, stepId, params);
    AppendIsBuilt(b, Connect(Spec(op).inputs, b, stepId), n);
    forall k, r | r in RefsOf(b'.refsByType, k) ensures RefKnown(b', k, r) {
      AddedRefKnown(b, op, stepId, params, k, r);
    }
  }

  /** The registry names each input of an operation once. */
  lemma KeysAreDistinct(op: OpName)
    ensures DistinctKeys(Spec(op).inputs)
  {}

  lemma AddedIsMade(b: Build, op: OpName, stepId: StepId, params: Params) returns (n: Node)
    requires Numbered(stepId, |b.nodes| + 1)
    requires WiringOk(b, Spec(op).inputs, Connect(Spec(op).inputs, b, stepId))
    ensures AddNode(b, op, stepId, params).nodes == b.nodes + [n]
    ensures MadeFrom(b, Connect(Spec(op).inputs, b, stepId), n)
  {
    hide Connect, WiringOk, Dedup, OrPrevious, Numbered;
    n := AddNode(b, op, stepId, params).nodes[|b.nodes|];
  }

  /** What a node must satisfy to extend a list it was wired to. */
  ghost predicate MadeFrom(b: Build, w: Wiring, n: Node) {
    && Numbered(n.stepId, |b.nodes| + 1)
    && WiringOk(b, Spec(n.opName).inputs, w)
    && n.inputs == w.inputs
    && n.outputs == map[Spec(n.opName).output.key := OwnRef(n)]
    && n.dependsOn == Dedup(OrPrevious(w.dependsOn, b.nodes))
  }

  /** A node wired to a well-built list extends it. */
  lemma AppendIsBuilt(b: Build, w: Wiring, n: Node)
    requires WellBuilt(b.nodes) && MadeFrom(b, w, n)
    ensures WellBuilt(b.nodes + [n])
  {
    hide NodeBuilt, MadeFrom;
    var all := b.nodes + [n];
    forall i | 0 <= i < |all| ensures NodeBuilt(all, i, all[i]) {
      if i < |b.nodes| {
        EarlierStaysBuilt(b.nodes, n, all, i);
      } else {
        LastIsBuilt(b, w, n, all);
      }
    }
  }

  lemma LastIsBuilt(b: Build, w: Wiring, n: Node, all: seq<Node>)
    requires MadeFrom(b, w, n) && all == b.nodes + [n]
    ensures NodeBuilt(all, |b.nodes|, n)
  {
    assert all[..|b.nodes|] == b.nodes;
    forall d | d in n.dependsOn ensures d in Ids(b.nodes) {
      if w.dependsOn == [] {
        assert Ids(b.nodes)[|b.nodes| - 1] == d;
      }
    }
    forall p | p in Spec(n.opName).inputs && p.key in n.inputs ensures FedBefore(all, |b.nodes|, n, p) {
      LastIsFed(b, w, n, p);
    }
  }

  lemma LastIsFed(b: Build, w: Wiring, n: Node, p: Port)
    requires n.inputs == w.inputs && p.key in n.inputs && WiredTo(b, w, p)
    requires n.dependsOn == Dedup(OrPrevious(w.dependsOn, b.nodes))
    ensures FedBefore(b.nodes + [n], |b.nodes|, n, p)
  {
    var j :| 0 <= j < |b.nodes| && WiredAt(b, w, p, j);
    assert (b.nodes + [n])[j] == b.nodes[j];
    assert Feeds(b.nodes[j], n, p);
  }

  lemma EarlierStaysBuilt(nodes: seq<Node>, n: Node, all: seq<Node>, i: nat)
    requires i < |nodes| && NodeBuilt(nodes, i, nodes[i]) && all == nodes + [n]
    ensures NodeBuilt(all, i, all[i])
  {
    assert all[..i] == nodes[..i];
    forall p | p in Spec(nodes[i].opName).inputs && p.key in nodes[i].inputs ensures FedBefore(all, i, nodes[i], p) {
      var j :| 0 <= j < i && Feeds(nodes[j], nodes[i], p);
      assert Feeds(all[j], nodes[i], p);
    }
  }

  lemma AddedRefKnown(b: Build, op: OpName, stepId: StepId, params: Params, k: Kind, r: Ref)
    requires BuildInv(b) && Numbered(stepId, |b.nodes| + 1)
    requires r in RefsOf(AddNode(b, op, stepId, params).refsByType, k)
    ensures RefKnown(AddNode(b, op, stepId, params), k, r)
  {
    var b' := AddNode(b, op, stepId, params);
    if r == RefOf(stepId, Spec(op).output.key) && k == Spec(op).output.kind {
      assert Declares(b', |b.nodes|, k, r);
    } else {
      assert r in RefsOf(b.refsByType, k);
      OldRefStaysKnown(b, b', b'.nodes[|b.nodes|], k, r);
    }
  }

  lemma OldRefStaysKnown(b: Build, b': Build, n: Node, k: Kind, r: Ref)
    requires BuildInv(b) && r in RefsOf(b.refsByType, k)
    requires Numbered(n.stepId, |b.nodes| + 1)
    requires b'.nodes == b.nodes + [n] && b'.producer == b.producer[OwnRef(n) := n.stepId]
    ensures RefKnown(b', k, r)
  {
    hide FedBefore, Numbered, Spec;
    var j :| 0 <= j < |b.nodes| && Declares(b, j, k, r);
    assert NodeBuilt(b.nodes, j, b.nodes[j]);
    if r == OwnRef(n) {
      OwnRefsDiffer(b.nodes[j], j + 1, n.stepId, |b.nodes| + 1, Spec(n.opName).output.key);
    }
    assert b'.nodes[j] == b.nodes[j];
    assert Declares(b', j, k, r);
  }

  lemma OwnRefsDiffer(n: Node, i: nat, stepId: StepId, j: nat, key: OutputKey)
    requires Numbered(n.stepId, i) && Numbered(stepId, j)
    requires OwnRef(n) == RefOf(stepId, key)
    ensures i == j
  {
    NumbersAreUnique(n.stepId, i, "_" + OutputText(Spec(n.opName).output.key), stepId, j, "_" + OutputText(key));
  }

  lemma {:induction false} BuildOperationsInv(ops: seq<OpName>, paramsFor: (nat, OpName) -> Params)
    ensures BuildInv(BuildOperations(ops, paramsFor))
  {
    if ops != [] {
      var init, op := ops[..|ops| - 1], ops[|ops| - 1];
      var b := BuildOperations(init, paramsFor);
      BuildOperationsInv(init, paramsFor);
      var stepId := StepIdOf(|b.nodes| + 1, Slug(op));
      assert Numbered(stepId, |b.nodes| + 1);
      AddNodeKeepsInv(b, op, stepId, paramsFor(|b.nodes|, op));
    }
  }

  lemma AddedNode(b: Build, op: OpName, params: Params) returns (n: Node)
    ensures AddOperation(b, op, params).nodes == b.nodes + [n] && n.opName == op
  {
    n := AddOperation(b, op, params).nodes[|b.nodes|];
  }

  lemma {:induction false} BuildFollowsSequence(ops: seq<OpName>, paramsFor: (nat, OpName) -> Params)
    ensures FollowsSequence(BuildOperations(ops, paramsFor).nodes, ops)
  {
    if ops != [] {
      var b := BuildOperations(ops[..|ops| - 1], paramsFor);
      BuildFollowsSequence(ops[..|ops| - 1], paramsFor);
      var n := AddedNode(b, ops[|ops| - 1], paramsFor(|b.nodes|, ops[|ops| - 1]));
      ExtendSequence(b.nodes, n, ops);
    }
  }

  lemma ExtendSequence(nodes: seq<Node>, n: Node, ops: seq<OpName>)
    requires ops != [] && FollowsSequence(nodes, ops[..|ops| - 1]) && n.opName == ops[|ops| - 1]
    ensures FollowsSequence(nodes + [n], ops)
  {}

  ghost predicate FollowsSequence(nodes: seq<Node>, ops: seq<OpName>) {
    |nodes| == |ops| && forall i :: 0 <= i < |ops| ==> nodes[i].opName == ops[i]
  }

  /**
   * For every operation sequence and every parameter choice: each node depends
   * only on earlier nodes, each input is the ref of a direct dependency whose
   * type fits, and a non-empty plan ends in artifact.export.
   */
  lemma BuiltPlanIsWired(ops: seq<OpName>, paramsFor: (nat, OpName) -> Params)
    ensures var nodes := BuildPlanNodes(ops, paramsFor);
            && WellBuilt(nodes)
            && (nodes == [] <==> ops == [])
            && (nodes != [] ==> nodes[|nodes| - 1].opName == ArtifactExport)
            && |nodes| >= |ops|
            && forall i :: 0 <= i < |ops| ==> nodes[i].opName == ops[i]
  {
    BuildOperationsInv(ops, paramsFor);
    BuildFollowsSequence(ops, paramsFor);
    var b := BuildOperations(ops, paramsFor);
    if b.nodes != [] && b.nodes[|b.nodes| - 1].opName != ArtifactExport {
      var stepId := StepIdOf(|b.nodes| + 1, Slug(ArtifactExport));
      assert Numbered(stepId, |b.nodes| + 1);
      ExportIsWired(b, stepId, paramsFor(|b.nodes|, ArtifactExport));
    }
  }

  lemma ExportIsWired(b: Build, stepId: StepId, params: Params)
    requires BuildInv(b) && b.nodes != [] && Numbered(stepId, |b.nodes| + 1)
    ensures WellBuilt(b.nodes + [ExportNode(b, stepId, params)])
  {
    var n := ExportNode(b, stepId, params);
    assert WellBuilt(b.nodes);
    hide *;
    var w := Wiring(n.inputs, ExportDependency(b));
    ExportFields(b, stepId, params);
    ExportInputWired(b, stepId, params);
    AppendIsBuilt(b, w, n);
  }

  lemma ExportFields(b: Build, stepId: StepId, params: Params)
    requires b.nodes != []
    ensures var n := ExportNode(b, stepId, params);
            && n.stepId == stepId
            && Spec(n.opName).inputs == [Port(PrimaryKey, AnyType)]
            && n.outputs == map[Spec(n.opName).output.key := OwnRef(n)]
            && n.dependsOn == Dedup(ExportDependency(b))
            && n.inputs == if PrimaryRef(b.refsByType) == [] then map[] else map[PrimaryKey := PrimaryRef(b.refsByType)[0]]
  {}

  lemma ExportInputWired(b: Build, stepId: StepId, params: Params)
    requires BuildInv(b) && b.nodes != [] && Numbered(stepId, |b.nodes| + 1)
    ensures var n := ExportNode(b, stepId, params);
            MadeFrom(b, Wiring(n.inputs, ExportDependency(b)), n)
  {
    ExportFields(b, stepId, params);
    hide Spec, OwnRef, ExportNode, RefOf, OutputText, InputPorts, OutputPort, Dedup, WiringOk, WiredTo, BuildInv,
         ExportDependency, PrimaryRef, Numbered;
    var n := ExportNode(b, stepId, params);
    var w := Wiring(n.inputs, ExportDependency(b));
    ExportDependencyKnown(b, n.inputs, stepId);
    OnePortWired(b, Port(PrimaryKey, AnyType), w);
  }

  lemma ExportDependencyKnown(b: Build, inputs: map<InputKey, Ref>, stepId: StepId)
    requires BuildInv(b) && b.nodes != [] && Numbered(stepId, |b.nodes| + 1)
    requires inputs == if PrimaryRef(b.refsByType) == [] then map[] else map[PrimaryKey := PrimaryRef(b.refsByType)[0]]
    ensures var w := Wiring(inputs, ExportDependency(b));
            && w.dependsOn != []
            && (forall d :: d in w.dependsOn ==> d in Ids(b.nodes))
            && (PrimaryKey in inputs ==> WiredTo(b, w, Port(PrimaryKey, AnyType)))
  {
    var primary := PrimaryRef(b.refsByType);
    var w := Wiring(inputs, ExportDependency(b));
    if primary != [] {
      var j := PickedProducer(b, AnyType, primary[0], stepId);
      assert w.dependsOn == [b.nodes[j].stepId];
      assert WiredAt(b, w, Port(PrimaryKey, AnyType), j);
    } else {
      assert Ids(b.nodes)[|b.nodes| - 1] in Ids(b.nodes);
    }
  }

  lemma OnePortWired(b: Build, p: Port, w: Wiring)
    requires forall k :: k in w.inputs ==> k == p.key
    requires forall d :: d in w.dependsOn ==> d in Ids(b.nodes)
    requires p.key in w.inputs ==> WiredTo(b, w, p)
    ensures WiringOk(b, [p], w)
  {
    assert [p][0] in [p];
  }
}
