/**
 * Which outputs the inputs of a compiled plan read, and what each node depends
 * on, said of the list of nodes alone.
 */
module PlanWiring {
  import opened StepGraph
  import opened OperationRegistry
  import opened OperationPlan
  import opened PlanBuilder
  import Text

  function KindOf(n: Node): Kind {
    Spec(n.opName).output.kind
  }

  predicate Has(nodes: seq<Node>, k: Kind) {
    exists j :: 0 <= j < |nodes| && KindOf(nodes[j]) == k
  }

  /** The last node that puts out the kind. */
  predicate IsLast(nodes: seq<Node>, k: Kind, j: nat) {
    j < |nodes| && KindOf(nodes[j]) == k && forall x :: j < x < |nodes| ==> KindOf(nodes[x]) != k
  }

  /** The node an input of this type reads: for "any", of the first kind there is. */
  predicate IsRead(nodes: seq<Node>, t: DataType, j: nat) {
    match t
    case UploadedFile => false
    case One(k) => IsLast(nodes, k, j)
    case Many(k) => IsLast(nodes, k, j)
    case AnyType =>
      || IsLast(nodes, Raster, j)
      || (!Has(nodes, Raster) && IsLast(nodes, Vector, j))
      || (!Has(nodes, Raster) && !Has(nodes, Vector) && IsLast(nodes, Table, j))
      || (!Has(nodes, Raster) && !Has(nodes, Vector) && !Has(nodes, Table) && IsLast(nodes, Artifact, j))
  }

  /** The nodes an input of this type makes its node depend on: for a list, all of the kind. */
  predicate IsAwaited(nodes: seq<Node>, t: DataType, j: nat) {
    match t
    case Many(k) => j < |nodes| && KindOf(nodes[j]) == k
    case _ => IsRead(nodes, t, j)
  }

  /** An input is connected exactly if there is a node for it to read, and then reads that node's output. */
  ghost predicate InputWired(earlier: seq<Node>, n: Node, p: Port) {
    && (p.key in n.inputs <==> exists j: nat :: IsRead(earlier, p.dataType, j))
    && (forall j: nat :: IsRead(earlier, p.dataType, j) ==> p.key in n.inputs && n.inputs[p.key] == RefText(earlier[j]))
  }

  /** f"{step_id}_{output_key}" */
  function RefText(n: Node): Ref {
    n.stepId + "_" + OutputText(Spec(n.opName).output.key)
  }

  ghost predicate Awaits(earlier: seq<Node>, op: OpName, j: nat) {
    exists p :: p in Spec(op).inputs && IsAwaited(earlier, p.dataType, j)
  }

  /** The dependencies: what the inputs await, or the previous node if they await nothing. */
  ghost predicate DependsOn(earlier: seq<Node>, op: OpName, j: nat) {
    j < |earlier| && (Awaits(earlier, op, j) || (j == |earlier| - 1 && forall x: nat :: !Awaits(earlier, op, x)))
  }

  ghost predicate StepsWired(earlier: seq<Node>, n: Node) {
    && (forall d :: d in n.dependsOn <==> exists j: nat :: DependsOn(earlier, n.opName, j) && earlier[j].stepId == d)
    && forall i, j :: 0 <= i < j < |n.dependsOn| ==> n.dependsOn[i] != n.dependsOn[j]
  }

  /** A node as the compiler makes it, after the nodes it has made before. */
  ghost predicate NodeWired(earlier: seq<Node>, n: Node) {
    && n.stepId == "step_" + Text.Decimal(|earlier| + 1) + "_" + Slug(n.opName)
    && n.outputs == map[Spec(n.opName).output.key := RefText(n)]
    && (forall k :: k in n.inputs ==> exists p :: p in Spec(n.opName).inputs && p.key == k)
    && (forall p :: p in Spec(n.opName).inputs ==> InputWired(earlier, n, p))
    && StepsWired(earlier, n)
  }

  // ---- The refs by type --------------------------------------------------------------------

  /** The refs of the nodes that put out the kind, in order. */
  function RefsOfKind(nodes: seq<Node>, k: Kind): seq<Ref> {
    if nodes == [] then []
    else
      var n := nodes[|nodes| - 1];
      RefsOfKind(nodes[..|nodes| - 1], k) + if KindOf(n) == k then [OwnRef(n)] else []
  }

  predicate PutsAt(nodes: seq<Node>, j: nat, k: Kind, r: Ref) {
    j < |nodes| && KindOf(nodes[j]) == k && OwnRef(nodes[j]) == r
  }

  lemma OneMorePut(init: seq<Node>, n: Node, k: Kind, r: Ref)
    ensures (exists j: nat :: PutsAt(init + [n], j, k, r)) <==>
              (KindOf(n) == k && OwnRef(n) == r) || exists j: nat :: PutsAt(init, j, k, r)
  {
    hide KindOf, OwnRef;
    var all := init + [n];
    assert all[|init|] == n;
    if j: nat :| PutsAt(init, j, k, r) {
      assert PutsAt(all, j, k, r);
    }
    if KindOf(n) == k && OwnRef(n) == r {
      assert PutsAt(all, |init|, k, r);
    }
    if j: nat :| PutsAt(all, j, k, r) {
      assert j < |init| ==> PutsAt(init, j, k, r);
    }
  }

  lemma {:induction false} RefsAreOfKind(nodes: seq<Node>, k: Kind, r: Ref)
    ensures r in RefsOfKind(nodes, k) <==> exists j: nat :: PutsAt(nodes, j, k, r)
  {
    if nodes != [] {
      hide OwnRef, KindOf, PutsAt;
      var init, n := nodes[..|nodes| - 1], nodes[|nodes| - 1];
      RefsAreOfKind(init, k, r);
      assert nodes == init + [n];
      OneMorePut(init, n, k, r);
    }
  }

  lemma OneMoreNode(init: seq<Node>, n: Node, k: Kind, j: nat)
    ensures IsLast(init + [n], k, j) <==> if KindOf(n) == k then j == |init| else IsLast(init, k, j)
    ensures Has(init + [n], k) <==> KindOf(n) == k || Has(init, k)
  {
    hide KindOf;
    var all := init + [n];
    assert all[|init|] == n;
    if x :| 0 <= x < |init| && KindOf(init[x]) == k {
      assert all[x] == init[x];
    }
    assert forall x :: 0 <= x < |init| ==> all[x] == init[x];
  }

  /** The refs of a kind end in that of the last node of the kind. */
  ghost predicate EndsInLast(nodes: seq<Node>, k: Kind, refs: seq<Ref>) {
    && (refs == [] <==> !Has(nodes, k))
    && (forall j: nat :: IsLast(nodes, k, j) ==> refs != [] && refs[|refs| - 1] == OwnRef(nodes[j]))
    && (refs != [] ==> exists j: nat :: IsLast(nodes, k, j))
  }

  lemma {:induction false} LastRefOfKind(nodes: seq<Node>, k: Kind)
    ensures EndsInLast(nodes, k, RefsOfKind(nodes, k))
  {
    if nodes != [] {
      var init, n := nodes[..|nodes| - 1], nodes[|nodes| - 1];
      LastRefOfKind(init, k);
      assert nodes == init + [n];
      OneMoreRef(init, n, k);
    }
  }

  lemma OneMoreRef(init: seq<Node>, n: Node, k: Kind)
    requires EndsInLast(init, k, RefsOfKind(init, k))
    ensures EndsInLast(init + [n], k, RefsOfKind(init, k) + if KindOf(n) == k then [OwnRef(n)] else [])
  {
    hide OwnRef, KindOf, IsLast, Has, RefsOfKind;
    forall j: nat
      ensures IsLast(init + [n], k, j) <==> if KindOf(n) == k then j == |init| else IsLast(init, k, j)
      ensures Has(init + [n], k) <==> KindOf(n) == k || Has(init, k)
    {
      OneMoreNode(init, n, k, j);
    }
    forall j: nat | IsLast(init + [n], k, j)
      ensures KindOf(n) == k ==> (init + [n])[j] == n
      ensures KindOf(n) != k ==> j < |init| && (init + [n])[j] == init[j]
    {
      LastIsNode(init, k, j);
    }
    if KindOf(n) == k {
      assert IsLast(init + [n], k, |init|);
    } else if RefsOfKind(init, k) != [] {
      var j: nat :| IsLast(init, k, j);
      assert IsLast(init + [n], k, j);
    }
  }

  lemma LastIsNode(nodes: seq<Node>, k: Kind, j: nat)
    ensures IsLast(nodes, k, j) ==> j < |nodes|
  {}

  /** The compiler's collections tell the nodes' outputs: by kind in order, and by ref the step. */
  ghost predicate Tracks(b: Build) {
    && KindsTracked(b)
    && (forall j :: 0 <= j < |b.nodes| ==> ProducerTracked(b, j))
  }

  ghost predicate KindsTracked(b: Build) {
    forall k :: RefsOf(b.refsByType, k) == RefsOfKind(b.nodes, k)
  }

  ghost predicate ProducerTracked(b: Build, j: nat)
    requires j < |b.nodes|
  {
    var r := OwnRef(b.nodes[j]);
    r in b.producer && b.producer[r] == b.nodes[j].stepId
  }

  lemma AddedFields(b: Build, op: OpName, stepId: StepId, params: Params) returns (n: Node)
    ensures AddNode(b, op, stepId, params).nodes == b.nodes + [n] && n.stepId == stepId && n.opName == op
    ensures AddNode(b, op, stepId, params).producer == b.producer[OwnRef(n) := stepId]
    ensures AddNode(b, op, stepId, params).refsByType
         == b.refsByType[KindOf(n) := RefsOf(b.refsByType, KindOf(n)) + [OwnRef(n)]]
    ensures n.params == params && n.outputs == map[Spec(op).output.key := OwnRef(n)]
    ensures n.inputs == Connect(Spec(op).inputs, b, stepId).inputs
    ensures n.dependsOn == Dedup(OrPrevious(Connect(Spec(op).inputs, b, stepId).dependsOn, b.nodes))
  {
    hide Connect, Dedup, OrPrevious, InputPorts, OutputPort, OutputText;
    n := AddNode(b, op, stepId, params).nodes[|b.nodes|];
  }

  lemma AddNodeTracks(b: Build, op: OpName, stepId: StepId, params: Params)
    requires BuildInv(b) && Tracks(b) && Numbered(stepId, |b.nodes| + 1)
    ensures Tracks(AddNode(b, op, stepId, params))
  {
    hide AddNode, BuildInv, Numbered, OwnRef, KindOf;
    var b' := AddNode(b, op, stepId, params);
    var n := AddedFields(b, op, stepId, params);
    AddedKindTracked(b, b', n);
    forall j | 0 <= j < |b'.nodes|
      ensures ProducerTracked(b', j)
    {
      if j < |b.nodes| {
        assert ProducerTracked(b, j);
        OtherRef(b, n, stepId, j);
        assert b'.nodes[j] == b.nodes[j];
      }
    }
  }

  lemma AddedKindTracked(b: Build, b': Build, n: Node)
    requires KindsTracked(b) && b'.nodes == b.nodes + [n]
    requires b'.refsByType == b.refsByType[KindOf(n) := RefsOf(b.refsByType, KindOf(n)) + [OwnRef(n)]]
    ensures KindsTracked(b')
  {
    hide OwnRef, KindOf;
    assert b'.nodes[..|b.nodes|] == b.nodes;
    forall k
      ensures RefsOf(b'.refsByType, k) == RefsOfKind(b'.nodes, k)
    {
      assert RefsOf(b.refsByType, k) == RefsOfKind(b.nodes, k);
    }
  }

  lemma OtherRef(b: Build, n: Node, stepId: StepId, j: nat)
    requires BuildInv(b) && Numbered(stepId, |b.nodes| + 1) && j < |b.nodes| && n.stepId == stepId
    ensures OwnRef(b.nodes[j]) != OwnRef(n)
  {
    assert NodeBuilt(b.nodes, j, b.nodes[j]);
    hide RefOf, Spec;
    if OwnRef(b.nodes[j]) == OwnRef(n) {
      OwnRefsDiffer(b.nodes[j], j + 1, stepId, |b.nodes| + 1, Spec(n.opName).output.key);
    }
  }

  lemma {:induction false} OperationsTrack(ops: seq<OpName>, paramsFor: (nat, OpName) -> Params)
    ensures Tracks(BuildOperations(ops, paramsFor))
  {
    if ops != [] {
      var init, op := ops[..|ops| - 1], ops[|ops| - 1];
      var b := BuildOperations(init, paramsFor);
      OperationsTrack(init, paramsFor);
      BuildOperationsInv(init, paramsFor);
      var stepId := StepIdOf(|b.nodes| + 1, Slug(op));
      assert Numbered(stepId, |b.nodes| + 1);
      AddNodeTracks(b, op, stepId, paramsFor(|b.nodes|, op));
    }
  }

  // ---- What is picked for a type -------------------------------------------------------------

  /** What is picked for a type ends in the ref that is read. */
  ghost predicate EndsInRead(nodes: seq<Node>, t: DataType, refs: seq<Ref>) {
    && (refs != [] ==> exists j: nat :: IsRead(nodes, t, j))
    && (forall j: nat :: IsRead(nodes, t, j) ==> refs != [] && refs[|refs| - 1] == OwnRef(nodes[j]))
  }

  lemma KindEndsInRead(nodes: seq<Node>, k: Kind, t: DataType, refs: seq<Ref>, picked: seq<Ref>)
    requires EndsInLast(nodes, k, refs) && forall j: nat :: IsRead(nodes, t, j) <==> IsLast(nodes, k, j)
    requires picked == refs || picked == LastOnly(refs)
    ensures EndsInRead(nodes, t, picked)
  {
    hide OwnRef, IsLast, IsRead, Has;
  }

  lemma PickIsRead(b: Build, t: DataType)
    requires KindsTracked(b)
    ensures EndsInRead(b.nodes, t, PickRefs(t, b.refsByType))
  {
    hide OwnRef, RefsOfKind, IsLast, Has, RefsOf, KindOf, EndsInRead, LastOnly;
    if !t.UploadedFile? {
      LastRefOfKind(b.nodes, Raster);
      LastRefOfKind(b.nodes, Vector);
      LastRefOfKind(b.nodes, Table);
      LastRefOfKind(b.nodes, Artifact);
      assert forall k :: RefsOf(b.refsByType, k) == RefsOfKind(b.nodes, k);
      var k := if !t.AnyType? then t.kind else if Has(b.nodes, Raster) then Raster else if Has(b.nodes, Vector) then Vector
               else if Has(b.nodes, Table) then Table else Artifact;
      NoneIsLast(b.nodes);
      LastRefOfKind(b.nodes, k);
      assert RefsOf(b.refsByType, k) == RefsOfKind(b.nodes, k);
      KindEndsInRead(b.nodes, k, t, RefsOf(b.refsByType, k), PickRefs(t, b.refsByType));
    } else {
      NothingRead(b.nodes, t);
    }
  }

  lemma NothingRead(nodes: seq<Node>, t: DataType)
    requires t.UploadedFile?
    ensures EndsInRead(nodes, t, [])
  {}

  lemma NoneIsLast(nodes: seq<Node>)
    ensures forall k, j: nat :: IsLast(nodes, k, j) ==> Has(nodes, k)
  {}

  lemma PickIsAwaited(b: Build, t: DataType, r: Ref)
    requires KindsTracked(b)
    ensures r in PickRefs(t, b.refsByType) <==> exists j: nat :: IsAwaited(b.nodes, t, j) && r == OwnRef(b.nodes[j])
  {
    hide OwnRef, RefsOfKind, IsRead, PickRefs;
    if t.Many? {
      RefsAreOfKind(b.nodes, t.kind, r);
      ManyPicksAll(b, t.kind);
      if j: nat :| PutsAt(b.nodes, j, t.kind, r) {
        assert IsAwaited(b.nodes, t, j);
      }
      if j: nat :| IsAwaited(b.nodes, t, j) && r == OwnRef(b.nodes[j]) {
        assert PutsAt(b.nodes, j, t.kind, r);
      }
    } else {
      PickIsRead(b, t);
      PickedOnce(b, t);
      if r in PickRefs(t, b.refsByType) {
        var j: nat :| IsRead(b.nodes, t, j);
        assert IsAwaited(b.nodes, t, j);
      }
    }
  }

  lemma ManyPicksAll(b: Build, k: Kind)
    requires KindsTracked(b)
    ensures PickRefs(Many(k), b.refsByType) == RefsOfKind(b.nodes, k)
  {}

  lemma PickedOnce(b: Build, t: DataType)
    requires !t.Many?
    ensures |PickRefs(t, b.refsByType)| <= 1
  {}

  // ---- The wiring of one node ---------------------------------------------------------------------

  ghost predicate AwaitedStep(nodes: seq<Node>, t: DataType, d: StepId) {
    exists j: nat :: IsAwaited(nodes, t, j) && nodes[j].stepId == d
  }

  lemma AwaitedIsNode(nodes: seq<Node>, t: DataType)
    ensures forall j: nat :: IsAwaited(nodes, t, j) ==> j < |nodes|
  {
    hide KindOf;
  }

  lemma ProducersAreAwaited(b: Build, t: DataType, stepId: StepId, d: StepId)
    requires BuildInv(b) && Tracks(b) && Numbered(stepId, |b.nodes| + 1)
    ensures d in Producers(PickRefs(t, b.refsByType), b.producer, stepId) <==> AwaitedStep(b.nodes, t, d)
  {
    hide OwnRef, IsAwaited, PickRefs, Producers, BuildInv, Numbered, KindsTracked;
    var picked := PickRefs(t, b.refsByType);
    ProducersMembers(picked, b.producer, stepId);
    AwaitedIsNode(b.nodes, t);
    if d in Producers(picked, b.producer, stepId) {
      var r :| r in picked && r in b.producer && b.producer[r] == d;
      PickIsAwaited(b, t, r);
      var j: nat :| IsAwaited(b.nodes, t, j) && r == OwnRef(b.nodes[j]);
      assert ProducerTracked(b, j);
    }
    if AwaitedStep(b.nodes, t, d) {
      var j: nat :| IsAwaited(b.nodes, t, j) && b.nodes[j].stepId == d;
      PickIsAwaited(b, t, OwnRef(b.nodes[j]));
      assert ProducerTracked(b, j);
      BuiltIdIsOther(b, j, stepId);
    }
  }

  ghost predicate PortWired(nodes: seq<Node>, inputs: map<InputKey, Ref>, p: Port) {
    && (p.key in inputs <==> exists j: nat :: IsRead(nodes, p.dataType, j))
    && (forall j: nat :: IsRead(nodes, p.dataType, j) ==> p.key in inputs && inputs[p.key] == OwnRef(nodes[j]))
  }

  /** The wiring reads and awaits what it should. */
  ghost predicate PortsWired(nodes: seq<Node>, ports: seq<Port>, w: Wiring) {
    && (forall p :: p in ports ==> PortWired(nodes, w.inputs, p))
    && (forall k :: k in w.inputs ==> exists p :: p in ports && p.key == k)
    && (forall d :: d in w.dependsOn <==> exists p :: p in ports && AwaitedStep(nodes, p.dataType, d))
  }

  lemma {:induction false} ConnectWires(b: Build, ports: seq<Port>, stepId: StepId)
    requires BuildInv(b) && Tracks(b) && Numbered(stepId, |b.nodes| + 1) && DistinctKeys(ports)
    ensures PortsWired(b.nodes, ports, Connect(ports, b, stepId))
  {
    if ports != [] {
      var init, p := ports[..|ports| - 1], ports[|ports| - 1];
      assert ports == init + [p];
      ConnectWires(b, init, stepId);
      OnePortMore(b, init, p, Connect(init, b, stepId), Connect(ports, b, stepId), stepId);
    }
  }

  lemma OnePortMore(b: Build, init: seq<Port>, p: Port, w: Wiring, w': Wiring, stepId: StepId)
    requires BuildInv(b) && Tracks(b) && Numbered(stepId, |b.nodes| + 1) && DistinctKeys(init + [p])
    requires PortsWired(b.nodes, init, w)
    requires var picked := PickRefs(p.dataType, b.refsByType);
             w' == if picked == [] then w
                   else Wiring(w.inputs[p.key := picked[|picked| - 1]],
                               w.dependsOn + Producers(picked, b.producer, stepId))
    ensures PortsWired(b.nodes, init + [p], w')
  {
    hide IsRead, PickRefs, Producers, BuildInv, Numbered, KindsTracked, AwaitedStep, OwnRef;
    var picked := PickRefs(p.dataType, b.refsByType);
    PickIsRead(b, p.dataType);
    NewKey(init, p);
    forall d
      ensures d in Producers(picked, b.producer, stepId) <==> AwaitedStep(b.nodes, p.dataType, d)
    {
      ProducersAreAwaited(b, p.dataType, stepId, d);
    }
    if picked == [] {
      NothingPicked(b, p.dataType, stepId);
    }
    hide EndsInRead;
    InputsWired(b.nodes, init, p, w.inputs, w'.inputs, picked);
    StepsAwaited(b.nodes, init, p, w.dependsOn, w'.dependsOn);
  }

  lemma NothingPicked(b: Build, t: DataType, stepId: StepId)
    requires PickRefs(t, b.refsByType) == []
    ensures Producers(PickRefs(t, b.refsByType), b.producer, stepId) == []
  {}

  lemma NewKey(init: seq<Port>, p: Port)
    requires DistinctKeys(init + [p])
    ensures forall q :: q in init ==> q.key != p.key
  {
    forall q | q in init
      ensures q.key != p.key
    {
      var i :| 0 <= i < |init| && init[i] == q;
      assert (init + [p])[i].key != (init + [p])[|init|].key;
    }
  }

  lemma InputsWired(nodes: seq<Node>, init: seq<Port>, p: Port, inputs: map<InputKey, Ref>, inputs': map<InputKey, Ref>,
                    picked: seq<Ref>)
    requires forall q :: q in init ==> PortWired(nodes, inputs, q) && q.key != p.key
    requires forall k :: k in inputs ==> exists q :: q in init && q.key == k
    requires EndsInRead(nodes, p.dataType, picked)
    requires inputs' == if picked == [] then inputs else inputs[p.key := picked[|picked| - 1]]
    ensures forall q :: q in init + [p] ==> PortWired(nodes, inputs', q)
    ensures forall k :: k in inputs' ==> exists q :: q in init + [p] && q.key == k
  {
    hide IsRead, OwnRef;
    assert p.key !in inputs;
    assert PortWired(nodes, inputs', p);
    forall q | q in init
      ensures PortWired(nodes, inputs', q)
    {
      assert PortWired(nodes, inputs, q);
    }
    forall k | k in inputs'
      ensures exists q :: q in init + [p] && q.key == k
    {
      if k == p.key {
        assert p in init + [p];
      } else {
        var q :| q in init && q.key == k;
        assert q in init + [p];
      }
    }
  }

  lemma StepsAwaited(nodes: seq<Node>, init: seq<Port>, p: Port, before: seq<StepId>, after: seq<StepId>)
    requires forall d :: d in before <==> exists q :: q in init && AwaitedStep(nodes, q.dataType, d)
    requires forall d :: d in after <==> d in before || AwaitedStep(nodes, p.dataType, d)
    ensures forall d :: d in after <==> exists q :: q in init + [p] && AwaitedStep(nodes, q.dataType, d)
  {
    hide AwaitedStep;
    forall d
      ensures d in after <==> exists q :: q in init + [p] && AwaitedStep(nodes, q.dataType, d)
    {
      if d in before {
        var q :| q in init && AwaitedStep(nodes, q.dataType, d);
        assert q in init + [p];
      } else if d in after {
        assert p in init + [p];
      }
      if q :| q in init + [p] && AwaitedStep(nodes, q.dataType, d) {
        assert q in init || q == p;
      }
    }
  }

  lemma {:induction false} DedupDistinct(xs: seq<StepId>)
    ensures forall i, j :: 0 <= i < j < |Dedup(xs)| ==> Dedup(xs)[i] != Dedup(xs)[j]
  {
    if xs != [] {
      var init := xs[..|xs| - 1];
      DedupDistinct(init);
      assert forall i :: 0 <= i < |Dedup(init)| ==> Dedup(init)[i] in init;
    }
  }

  lemma StepsAreWired(earlier: seq<Node>, w: Wiring, n: Node)
    requires PortsWired(earlier, Spec(n.opName).inputs, w)
    requires n.dependsOn == Dedup(OrPrevious(w.dependsOn, earlier))
    ensures StepsWired(earlier, n)
  {
    hide IsAwaited, PortWired, Spec;
    DedupDistinct(OrPrevious(w.dependsOn, earlier));
    AwaitsByPort(earlier, n.opName, w);
    forall d
      ensures d in n.dependsOn <==> exists j: nat :: DependsOn(earlier, n.opName, j) && earlier[j].stepId == d
    {
      StepIsWired(earlier, n.opName, w.dependsOn, d);
    }
  }

  ghost predicate AwaitsStep(earlier: seq<Node>, op: OpName, d: StepId) {
    exists j: nat :: Awaits(earlier, op, j) && j < |earlier| && earlier[j].stepId == d
  }

  lemma AwaitsByPort(earlier: seq<Node>, op: OpName, w: Wiring)
    requires PortsWired(earlier, Spec(op).inputs, w)
    ensures forall d :: d in w.dependsOn <==> AwaitsStep(earlier, op, d)
    ensures forall j: nat :: Awaits(earlier, op, j) ==> j < |earlier|
  {
    hide IsAwaited, PortWired, Spec, AwaitsStep, AwaitedStep;
    forall p | p in Spec(op).inputs
      ensures forall j: nat :: IsAwaited(earlier, p.dataType, j) ==> j < |earlier|
    {
      AwaitedIsNode(earlier, p.dataType);
    }
    forall d
      ensures d in w.dependsOn <==> AwaitsStep(earlier, op, d)
    {
      StepAwaitedByPort(earlier, op, d);
    }
  }

  lemma StepAwaitedByPort(earlier: seq<Node>, op: OpName, d: StepId)
    ensures AwaitsStep(earlier, op, d) <==> exists p :: p in Spec(op).inputs && AwaitedStep(earlier, p.dataType, d)
  {
    hide IsAwaited, Spec;
    if p :| p in Spec(op).inputs && AwaitedStep(earlier, p.dataType, d) {
      AwaitedIsNode(earlier, p.dataType);
      var j: nat :| IsAwaited(earlier, p.dataType, j) && earlier[j].stepId == d;
      assert Awaits(earlier, op, j);
    }
    if AwaitsStep(earlier, op, d) {
      var j: nat :| Awaits(earlier, op, j) && j < |earlier| && earlier[j].stepId == d;
      var p :| p in Spec(op).inputs && IsAwaited(earlier, p.dataType, j);
      AwaitedIsNode(earlier, p.dataType);
      assert AwaitedStep(earlier, p.dataType, d);
    }
  }

  lemma StepIsWired(earlier: seq<Node>, op: OpName, dependsOn: seq<StepId>, d: StepId)
    requires forall x :: x in dependsOn <==> AwaitsStep(earlier, op, x)
    requires forall j: nat :: Awaits(earlier, op, j) ==> j < |earlier|
    ensures d in OrPrevious(dependsOn, earlier) <==> exists j: nat :: DependsOn(earlier, op, j) && earlier[j].stepId == d
  {
    hide Awaits;
    if dependsOn == [] {
      assert forall j: nat :: Awaits(earlier, op, j) ==> AwaitsStep(earlier, op, earlier[j].stepId);
      if earlier != [] {
        assert DependsOn(earlier, op, |earlier| - 1);
      }
    } else {
      assert AwaitsStep(earlier, op, dependsOn[0]);
      if d in dependsOn {
        var j: nat :| Awaits(earlier, op, j) && j < |earlier| && earlier[j].stepId == d;
        assert DependsOn(earlier, op, j);
      }
    }
  }

  lemma RefTextIsOwn(n: Node)
    ensures RefText(n) == OwnRef(n)
  {
    var key := "_" + OutputText(Spec(n.opName).output.key);
    assert n.stepId + "_" + OutputText(Spec(n.opName).output.key) == n.stepId + key;
  }

  lemma InputsAreWired(earlier: seq<Node>, w: Wiring, n: Node)
    requires PortsWired(earlier, Spec(n.opName).inputs, w) && n.inputs == w.inputs
    ensures forall k :: k in n.inputs ==> exists p :: p in Spec(n.opName).inputs && p.key == k
    ensures forall p :: p in Spec(n.opName).inputs ==> InputWired(earlier, n, p)
  {
    hide IsRead, Spec, OwnRef, RefText, AwaitedStep;
    forall p | p in Spec(n.opName).inputs
      ensures InputWired(earlier, n, p)
    {
      assert PortWired(earlier, w.inputs, p);
      ReadIsNode(earlier, p.dataType);
      forall j: nat | IsRead(earlier, p.dataType, j)
        ensures RefText(earlier[j]) == OwnRef(earlier[j])
      {
        RefTextIsOwn(earlier[j]);
      }
    }
  }

  lemma ReadIsNode(nodes: seq<Node>, t: DataType)
    ensures forall j: nat :: IsRead(nodes, t, j) ==> j < |nodes|
  {
    hide KindOf;
  }

  lemma StepIdText(i: nat, op: OpName)
    ensures StepIdOf(i, Slug(op)) == "step_" + Text.Decimal(i) + "_" + Slug(op)
  {
    var d, slug := Text.Decimal(i), Slug(op);
    assert "step_" + d + "_" + slug == "step_" + (d + "_" + slug);
  }

  lemma AddedIsWired(b: Build, op: OpName, params: Params) returns (n: Node)
    requires BuildInv(b) && Tracks(b)
    ensures AddOperation(b, op, params).nodes == b.nodes + [n]
    ensures NodeWired(b.nodes, n) && n.opName == op && n.params == params
  {
    var stepId := StepIdOf(|b.nodes| + 1, Slug(op));
    assert Numbered(stepId, |b.nodes| + 1);
    assert AddOperation(b, op, params) == AddNode(b, op, stepId, params);
    KeysAreDistinct(op);
    hide *;
    StepIdText(|b.nodes| + 1, op);
    var w := Connect(Spec(op).inputs, b, stepId);
    ConnectWires(b, Spec(op).inputs, stepId);
    n := AddedFields(b, op, stepId, params);
    RefTextIsOwn(n);
    InputsAreWired(b.nodes, w, n);
    StepsAreWired(b.nodes, w, n);
    WiredNode(b.nodes, n);
  }

  lemma WiredNode(earlier: seq<Node>, n: Node)
    requires n.stepId == "step_" + Text.Decimal(|earlier| + 1) + "_" + Slug(n.opName)
    requires n.outputs == map[Spec(n.opName).output.key := RefText(n)]
    requires forall k :: k in n.inputs ==> exists p :: p in Spec(n.opName).inputs && p.key == k
    requires forall p :: p in Spec(n.opName).inputs ==> InputWired(earlier, n, p)
    requires StepsWired(earlier, n)
    ensures NodeWired(earlier, n)
  {}

  // ---- The compiled plan ------------------------------------------------------------------------

  ghost predicate WiredAt(nodes: seq<Node>, i: nat)
    requires i < |nodes|
  {
    NodeWired(nodes[..i], nodes[i])
  }

  lemma OneMoreWired(nodes: seq<Node>, n: Node)
    requires AllWired(nodes) && NodeWired(nodes, n)
    ensures AllWired(nodes + [n])
  {
    hide NodeWired;
    var all := nodes + [n];
    forall i | 0 <= i < |all|
      ensures WiredAt(all, i)
    {
      assert all[..i] == nodes[..i];
      assert i < |nodes| ==> WiredAt(nodes, i);
      assert nodes[..|nodes|] == nodes;
    }
  }

  /** The nodes carry out the operations, each with the parameters chosen for it. */
  ghost predicate Carries(nodes: seq<Node>, ops: seq<OpName>, paramsFor: (nat, OpName) -> Params) {
    && |nodes| == |ops|
    && forall i :: 0 <= i < |nodes| ==> nodes[i].opName == ops[i] && nodes[i].params == paramsFor(i, ops[i])
  }

  ghost predicate AllWired(nodes: seq<Node>) {
    forall i :: 0 <= i < |nodes| ==> WiredAt(nodes, i)
  }

  lemma OneMoreCarried(nodes: seq<Node>, n: Node, ops: seq<OpName>, op: OpName, paramsFor: (nat, OpName) -> Params)
    requires Carries(nodes, ops, paramsFor) && n.opName == op && n.params == paramsFor(|nodes|, op)
    ensures Carries(nodes + [n], ops + [op], paramsFor)
  {}

  lemma OneMoreOperation(b: Build, ops: seq<OpName>, op: OpName, paramsFor: (nat, OpName) -> Params)
    requires BuildInv(b) && Tracks(b) && AllWired(b.nodes) && Carries(b.nodes, ops, paramsFor)
    ensures var nodes := AddOperation(b, op, paramsFor(|b.nodes|, op)).nodes;
            AllWired(nodes) && Carries(nodes, ops + [op], paramsFor)
  {
    hide *;
    var n := AddedIsWired(b, op, paramsFor(|b.nodes|, op));
    OneMoreWired(b.nodes, n);
    OneMoreCarried(b.nodes, n, ops, op, paramsFor);
  }

  lemma LastOperation(ops: seq<OpName>, paramsFor: (nat, OpName) -> Params)
    requires ops != []
    ensures var b := BuildOperations(ops[..|ops| - 1], paramsFor);
            BuildOperations(ops, paramsFor) == AddOperation(b, ops[|ops| - 1], paramsFor(|b.nodes|, ops[|ops| - 1]))
  {
    hide AddOperation;
  }

  lemma NoOperations(paramsFor: (nat, OpName) -> Params)
    ensures AllWired(BuildOperations([], paramsFor).nodes) && Carries(BuildOperations([], paramsFor).nodes, [], paramsFor)
  {}

  lemma {:induction false} OperationsAreWired(ops: seq<OpName>, paramsFor: (nat, OpName) -> Params)
    ensures AllWired(BuildOperations(ops, paramsFor).nodes)
    ensures Carries(BuildOperations(ops, paramsFor).nodes, ops, paramsFor)
  {
    hide *;
    if ops == [] {
      NoOperations(paramsFor);
    } else {
      var init, op := ops[..|ops| - 1], ops[|ops| - 1];
      OperationsAreWired(init, paramsFor);
      OperationsTrack(init, paramsFor);
      BuildOperationsInv(init, paramsFor);
      LastOperation(ops, paramsFor);
      OneMoreOperation(BuildOperations(init, paramsFor), init, op, paramsFor);
      assert ops == init + [op];
    }
  }

  /** The closing export is the node that adding the operation would make. */
  lemma ExportIsAdded(b: Build, params: Params)
    requires BuildInv(b) && Tracks(b) && b.nodes != []
    ensures AddOperation(b, ArtifactExport, params).nodes
         == b.nodes + [ExportNode(b, StepIdOf(|b.nodes| + 1, Slug(ArtifactExport)), params)]
  {
    var stepId := StepIdOf(|b.nodes| + 1, Slug(ArtifactExport));
    assert Numbered(stepId, |b.nodes| + 1);
    ExportWiring(b, stepId);
    hide Connect, ExportDependency, Dedup, OrPrevious, Slug, StepIdOf, BuildInv, Tracks, Numbered, PrimaryRef, AddNode;
    var n := AddedFields(b, ArtifactExport, stepId, params);
    ExportFields(b, stepId, params);
    assert n == ExportNode(b, stepId, params);
  }

  lemma ConnectOne(p: Port, b: Build, stepId: StepId)
    ensures var picked := PickRefs(p.dataType, b.refsByType);
            Connect([p], b, stepId) == if picked == [] then Wiring(map[], [])
                                       else Wiring(map[p.key := picked[|picked| - 1]], Producers(picked, b.producer, stepId))
  {
    hide PickRefs, Producers;
    assert [p][..0] == [];
    assert Connect([], b, stepId) == Wiring(map[], []);
    var picked := PickRefs(p.dataType, b.refsByType);
    assert [] + Producers(picked, b.producer, stepId) == Producers(picked, b.producer, stepId);
  }

  lemma ProducerOfOne(r: Ref, producer: map<Ref, StepId>, stepId: StepId)
    requires r in producer && producer[r] != "" && producer[r] != stepId
    ensures Producers([r], producer, stepId) == [producer[r]]
  {
    assert [r][..0] == [];
    assert Producers([], producer, stepId) == [];
  }

  lemma ExportPort()
    ensures Spec(ArtifactExport).inputs == [Port(PrimaryKey, AnyType)]
  {}

  lemma ExportWiring(b: Build, stepId: StepId)
    requires BuildInv(b) && b.nodes != [] && Numbered(stepId, |b.nodes| + 1)
    ensures var primary := PrimaryRef(b.refsByType);
            var w := Connect(Spec(ArtifactExport).inputs, b, stepId);
            && w.inputs == (if primary == [] then map[] else map[PrimaryKey := primary[0]])
            && OrPrevious(w.dependsOn, b.nodes) == ExportDependency(b)
  {
    hide PickRefs, BuildInv, Numbered, Connect, Spec, Producers, OwnRef, Fits;
    var primary := PrimaryRef(b.refsByType);
    ExportPort();
    ConnectOne(Port(PrimaryKey, AnyType), b, stepId);
    PickedOnce(b, AnyType);
    if primary != [] {
      var j := PickedProducer(b, AnyType, primary[0], stepId);
      assert primary == [primary[0]];
      ProducerOfOne(primary[0], b.producer, stepId);
    }
  }

  function WithExportOp(ops: seq<OpName>): seq<OpName> {
    if ops == [] || ops[|ops| - 1] == ArtifactExport then ops else ops + [ArtifactExport]
  }

  /**
   * For every operation sequence and parameters, node by node: its id is numbered
   * by its position; an input of one kind reads the last earlier node that puts
   * out the kind, a list input too and awaits all of them, an input of any type
   * reads the last node of the first kind among raster, vector, table, artifact;
   * each is connected exactly if there is such a node, uploads never; and the node
   * depends on exactly what its inputs await, or else on the node before it. The
   * nodes are those of the sequence, and an export unless it ends in one.
   */
  lemma CompiledWiring(ops: seq<OpName>, paramsFor: (nat, OpName) -> Params)
    ensures var nodes := BuildPlanNodes(ops, paramsFor);
            && Carries(nodes, WithExportOp(ops), paramsFor)
            && forall i :: 0 <= i < |nodes| ==> WiredAt(nodes, i)
  {
    var b := BuildOperations(ops, paramsFor);
    OperationsAreWired(ops, paramsFor);
    if ops != [] && ops[|ops| - 1] != ArtifactExport {
      OperationsTrack(ops, paramsFor);
      BuildOperationsInv(ops, paramsFor);
      ExportIsAppended(b, ops, paramsFor);
    }
  }

  lemma ExportIsAppended(b: Build, ops: seq<OpName>, paramsFor: (nat, OpName) -> Params)
    requires BuildInv(b) && Tracks(b) && AllWired(b.nodes) && Carries(b.nodes, ops, paramsFor)
    requires ops != [] && ops[|ops| - 1] != ArtifactExport
    ensures var nodes := WithExport(b, paramsFor(|b.nodes|, ArtifactExport));
            AllWired(nodes) && Carries(nodes, ops + [ArtifactExport], paramsFor)
  {
    assert b.nodes != [] && b.nodes[|b.nodes| - 1].opName != ArtifactExport;
    hide AllWired, AddOperation, Tracks, BuildInv, ExportNode, Carries;
    ExportIsAdded(b, paramsFor(|b.nodes|, ArtifactExport));
    OneMoreOperation(b, ops, ArtifactExport, paramsFor);
  }
}
