/** Operation plans as the schema admits them (packages/schemas/operation_plan.py). */
module OperationPlan {
  import opened StepGraph
  import opened OperationRegistry

  type Ref = string

  /** Merged operation parameters: JSON values by name, kept as text. */
  type Params = map<string, string>

  datatype Node = Node(
    stepId: StepId,
    opName: OpName,
    dependsOn: seq<StepId>,
    inputs: map<InputKey, Ref>,
    params: Params,
    outputs: map<OutputKey, Ref>)

  datatype PlanStatus = Draft | Validated | Approved | Rejected

  datatype Plan = Plan(version: int, status: PlanStatus, nodes: seq<Node>)

  function Ids(nodes: seq<Node>): (r: seq<StepId>)
    ensures |r| == |nodes| && forall i :: 0 <= i < |nodes| ==> r[i] == nodes[i].stepId
  {
    seq(|nodes|, i requires 0 <= i < |nodes| => nodes[i].stepId)
  }

  /** The schema's model validator: step ids are unique. */
  ghost predicate UniqueIds(nodes: seq<Node>) {
    forall i, j :: 0 <= i < j < |nodes| ==> Apart(nodes, i, j)
  }

  ghost predicate Apart(nodes: seq<Node>, i: nat, j: nat)
    requires i < |nodes| && j < |nodes|
  {
    nodes[i].stepId != nodes[j].stepId
  }

  /** Dropping the first or the last node keeps the ids unique. */
  lemma UniqueParts(nodes: seq<Node>)
    requires UniqueIds(nodes) && nodes != []
    ensures UniqueIds(nodes[1..]) && forall n :: n in nodes[1..] ==> n.stepId != nodes[0].stepId
    ensures UniqueIds(nodes[..|nodes| - 1])
  {
    var rest, init := nodes[1..], nodes[..|nodes| - 1];
    forall i, j | 0 <= i < j < |rest| ensures Apart(rest, i, j) {
      assert Apart(nodes, i + 1, j + 1);
    }
    forall i, j | 0 <= i < j < |init| ensures Apart(init, i, j) {
      assert Apart(nodes, i, j);
    }
    forall n | n in rest ensures n.stepId != nodes[0].stepId {
      var i :| 0 <= i < |rest| && rest[i] == n;
      assert Apart(nodes, 0, i + 1);
    }
  }

  lemma UniqueJoin(a: seq<Node>, b: seq<Node>)
    requires UniqueIds(a) && UniqueIds(b)
    requires forall n, m :: n in a && m in b ==> n.stepId != m.stepId
    ensures UniqueIds(a + b)
  {
    var all := a + b;
    forall i, j | 0 <= i < j < |all| ensures Apart(all, i, j) {
      if j < |a| {
        assert Apart(a, i, j);
      } else if i < |a| {
        assert all[i] in a && all[j] in b;
      } else {
        assert Apart(b, i - |a|, j - |a|);
      }
    }
  }

  /** `{node.step_id: node for node in plan.nodes}` */
  function ById(nodes: seq<Node>): (m: map<StepId, Node>)
    ensures forall n :: n in nodes ==> n.stepId in m
    ensures forall s :: s in m ==> m[s] in nodes && m[s].stepId == s
  {
    if nodes == [] then map[]
    else
      assert nodes == nodes[..|nodes| - 1] + [nodes[|nodes| - 1]];
      ById(nodes[..|nodes| - 1])[nodes[|nodes| - 1].stepId := nodes[|nodes| - 1]]
  }

  lemma ByIdUnique(nodes: seq<Node>, n: Node)
    requires UniqueIds(nodes) && n in nodes
    ensures ById(nodes)[n.stepId] == n
  {
    SameIdSameNode(nodes, n, ById(nodes)[n.stepId]);
  }

  function DepsById(nodes: seq<Node>): (m: map<StepId, seq<StepId>>) {
    if nodes == [] then map[]
    else DepsById(nodes[..|nodes| - 1])[nodes[|nodes| - 1].stepId := nodes[|nodes| - 1].dependsOn]
  }

  /** The guard's dependency dict, in plan order. */
  function GraphOf(nodes: seq<Node>): (g: Graph) {
    Graph(Ids(nodes), DepsById(nodes))
  }

  /** `g` lists the nodes' depends_on under their ids, in plan order. */
  ghost predicate Describes(g: Graph, nodes: seq<Node>) {
    && UniqueIds(nodes)
    && g.Valid()
    && g.order == Ids(nodes)
    && forall n :: n in nodes ==> n.stepId in g.deps && g.deps[n.stepId] == n.dependsOn
  }

  lemma {:induction false} GraphOfDescribes(nodes: seq<Node>)
    requires UniqueIds(nodes)
    ensures Describes(GraphOf(nodes), nodes)
  {
    if nodes != [] {
      var init, last := nodes[..|nodes| - 1], nodes[|nodes| - 1];
      UniqueParts(nodes);
      GraphOfDescribes(init);
      assert nodes == init + [last];
      ExtendGraph(init, last);
    }
  }

  lemma ExtendGraph(init: seq<Node>, last: Node)
    requires Describes(GraphOf(init), init) && UniqueIds(init + [last])
    ensures Describes(GraphOf(init + [last]), init + [last])
  {
    var nodes := init + [last];
    IdsAreDistinct(nodes);
    LastIdIsNew(init, last);
    hide UniqueIds, Apart, Distinct;
    assert nodes[..|nodes| - 1] == init;
    assert Ids(nodes) == Ids(init) + [last.stepId];
  }

  lemma IdsAreDistinct(nodes: seq<Node>)
    requires UniqueIds(nodes)
    ensures Distinct(Ids(nodes))
  {
    forall i, j | 0 <= i < j < |nodes| ensures Ids(nodes)[i] != Ids(nodes)[j] {
      assert Apart(nodes, i, j);
    }
  }

  lemma LastIdIsNew(init: seq<Node>, last: Node)
    requires UniqueIds(init + [last])
    ensures forall n :: n in init ==> n.stepId != last.stepId
  {
    forall n | n in init ensures n.stepId != last.stepId {
      var i :| 0 <= i < |init| && init[i] == n;
      assert Apart(init + [last], i, |init|);
    }
  }

  /** The node a known step id names. */
  lemma NodeNamed(g: Graph, nodes: seq<Node>, s: StepId) returns (n: Node)
    requires Describes(g, nodes) && s in g.deps
    ensures n in nodes && n.stepId == s && g.deps[s] == n.dependsOn
  {
    assert s in g.order;
    var i :| 0 <= i < |nodes| && g.order[i] == s;
    n := nodes[i];
  }

  lemma SameIdSameNode(nodes: seq<Node>, a: Node, b: Node)
    requires UniqueIds(nodes) && a in nodes && b in nodes && a.stepId == b.stepId
    ensures a == b
  {
    var i :| 0 <= i < |nodes| && nodes[i] == a;
    var j :| 0 <= j < |nodes| && nodes[j] == b;
    assert i < j ==> Apart(nodes, i, j);
    assert j < i ==> Apart(nodes, j, i);
  }
}
