/**
 * Exactly when a plan finds its refs: in the order the pipeline starts its
 * nodes, and in whatever order the plan lists them.
 */
module PlanListings {
  import opened Results
  import opened StepGraph
  import opened OperationRegistry
  import opened OperationPlan
  import opened TopologicalSort
  import opened PassScheduler
  import opened PlanBuilder
  import opened PlanGuard
  import opened Pipeline
  import opened PlanTheorems
  import opened PlanRuntime
  import Text

  // ---- The exact condition for a plan ---------------------------------------------------------------------

  /** The guard resolves this input to the output of a node of the plan. */
  ghost predicate ReadsOutput(nodes: seq<Node>, n: Node, key: InputKey) {
    && key in n.inputs && RefAt(n.inputs, key) != ""
    && exists m :: m in nodes && OutputRef(m) == RefAt(n.inputs, key)
  }

  /** When the i-th node starts, the text of this input is a key of `references`. */
  ghost predicate FoundAt(h: Handler, order: seq<Node>, i: nat, key: InputKey)
    requires i < |order| && key in order[i].inputs
  {
    var t := RunInOrder(Execute, h, order[..i]);
    t.failure == None ==> order[i].inputs[key] in t.refs
  }

  /** Every node the pipeline starts finds the refs that the guard resolved to outputs. */
  ghost predicate FindsRefs(h: Handler, nodes: seq<Node>) {
    var order := ScheduleOrder(nodes);
    forall i, key :: 0 <= i < |order| && ReadsOutput(nodes, order[i], key) ==> FoundAt(h, order, i, key)
  }

  /** Each such ref, exactly as the reader spells it, is registered by a node scheduled before the reader. */
  ghost predicate WellPlaced(nodes: seq<Node>) {
    var order := ScheduleOrder(nodes);
    forall i, key :: 0 <= i < |order| && ReadsOutput(nodes, order[i], key) ==> PlacedAt(order, i, key)
  }

  ghost predicate PlacedAt(order: seq<Node>, i: nat, key: InputKey)
    requires i < |order| && key in order[i].inputs
  {
    Registered(order[..i], order[i].inputs[key])
  }

  /** One input: it is found exactly if it is placed, for a handler that has not failed so far. */
  lemma FoundIffPlaced(h: Handler, order: seq<Node>, i: nat, key: InputKey)
    requires i < |order| && key in order[i].inputs
    requires RunInOrder(Execute, h, order[..i]).failure == None
    ensures FoundAt(h, order, i, key) <==> PlacedAt(order, i, key)
  {
    RefsAreRegistered(h, order[..i], order[i].inputs[key]);
  }

  /** A handler that always produces a file. */
  function AlwaysProduces(): Handler {
    (n: Node, refs: References) => Success("")
  }

  lemma {:induction false} NeverFails(run: seq<Node>)
    ensures RunInOrder(Execute, AlwaysProduces(), run).failure == None
  {
    if run != [] {
      NeverFails(run[..|run| - 1]);
    }
  }

  lemma PlacedIsFound(h: Handler, nodes: seq<Node>)
    requires WellPlaced(nodes)
    ensures FindsRefs(h, nodes)
  {
    hide RunInOrder, ScheduleOrder;
    var order := ScheduleOrder(nodes);
    forall i, key | 0 <= i < |order| && ReadsOutput(nodes, order[i], key)
      ensures FoundAt(h, order, i, key)
    {
      assert PlacedAt(order, i, key);
      if RunInOrder(Execute, h, order[..i]).failure == None {
        FoundIffPlaced(h, order, i, key);
      }
    }
  }

  lemma FoundIsPlaced(nodes: seq<Node>)
    requires FindsRefs(AlwaysProduces(), nodes)
    ensures WellPlaced(nodes)
  {
    hide RunInOrder, ScheduleOrder;
    var h, order := AlwaysProduces(), ScheduleOrder(nodes);
    forall i, key | 0 <= i < |order| && ReadsOutput(nodes, order[i], key)
      ensures PlacedAt(order, i, key)
    {
      assert FoundAt(h, order, i, key);
      NeverFails(order[..i]);
      FoundIffPlaced(h, order, i, key);
    }
  }

  /**
   * A plan finds its refs at run time, whatever the handlers do, if and only if
   * every ref the guard resolved to an output is registered, in the very same
   * text, by a node scheduled before its reader.
   */
  lemma FindsRefsIff(nodes: seq<Node>)
    ensures (forall h :: FindsRefs(h, nodes)) <==> WellPlaced(nodes)
  {
    if WellPlaced(nodes) {
      forall h
        ensures FindsRefs(h, nodes)
      {
        PlacedIsFound(h, nodes);
      }
    } else if FindsRefs(AlwaysProduces(), nodes) {
      FoundIsPlaced(nodes);
    }
  }

  /** Acceptance by the guard does not give that condition: two accepted plans without it. */
  lemma AcceptedMayBeMisplaced(hs: Heuristics)
    ensures UniqueIds(CrossReading()) && Acceptable(hs, CrossReading()) && !WellPlaced(CrossReading())
    ensures UniqueIds(PaddedRef()) && Acceptable(hs, PaddedRef()) && !WellPlaced(PaddedRef())
  {
    CrossReadingMisplaced(hs);
    PaddedMisplaced(hs);
  }

  lemma Misplaced(nodes: seq<Node>, m: Node, r: Ref)
    requires ScheduleOrder(nodes) == nodes && |nodes| >= 2 && m in nodes
    requires nodes[1].inputs == map[RasterKey := r] && Text.Strip(r) == r != "" && OutputRef(m) == r
    requires r !in RunInOrder(Execute, AlwaysProduces(), nodes[..1]).refs
    ensures !WellPlaced(nodes)
  {
    hide ScheduleOrder, RunInOrder, Text.Strip, OutputRef, Spec, Registered, RegisteredRef;
    assert ReadsOutput(nodes, nodes[1], RasterKey);
    NeverFails(nodes[..1]);
    RefsAreRegistered(AlwaysProduces(), nodes[..1], r);
    assert !PlacedAt(nodes, 1, RasterKey);
  }

  lemma CrossReadingMisplaced(hs: Heuristics)
    ensures UniqueIds(CrossReading()) && Acceptable(hs, CrossReading()) && !WellPlaced(CrossReading())
  {
    hide *;
    AcceptedRefMayBeMissing(hs, AlwaysProduces());
    LettersOfExamples();
    Misplaced(CrossReading(), CrossReading()[2], "y");
  }

  lemma PaddedMisplaced(hs: Heuristics)
    ensures UniqueIds(PaddedRef()) && Acceptable(hs, PaddedRef()) && !WellPlaced(PaddedRef())
  {
    hide *;
    AcceptedPaddedRefIsMissing(hs, AlwaysProduces());
    LettersOfExamples();
    Misplaced(PaddedRef(), PaddedRef()[0], "y");
  }

  lemma LettersOfExamples()
    ensures |CrossReading()| == 3 && |PaddedRef()| == 2
    ensures Text.Strip("y") == "y" != "" && OutputRef(CrossReading()[2]) == "y" && OutputRef(PaddedRef()[0]) == "y"
    ensures PaddedRef()[1].inputs == map[RasterKey := "y"]
  {
    hide Text.Strip, OutputRef, Spec;
    OneLetter("y");
    StripPadding(" y", "y");
    ReprojectionPorts(CrossReading()[2], "y");
    ReprojectionPorts(PaddedRef()[0], " y");
  }

  // ---- Every listing order of a plan -------------------------------------------------------------------------

  /** The same nodes, listed in any order. */
  ghost predicate Relisting(nodes: seq<Node>, other: seq<Node>) {
    UniqueIds(other) && forall n :: n in other <==> n in nodes
  }

  lemma RelistingKeepsDeps(nodes: seq<Node>, other: seq<Node>)
    requires UniqueIds(nodes) && Relisting(nodes, other)
    ensures GraphOf(other).deps == GraphOf(nodes).deps
  {
    GraphOfDescribes(nodes);
    GraphOfDescribes(other);
    var g, f := GraphOf(nodes), GraphOf(other);
    hide UniqueIds, GraphOf;
    forall s
      ensures s in g.deps <==> s in f.deps
      ensures s in g.deps && s in f.deps ==> g.deps[s] == f.deps[s]
    {
      if s in g.deps {
        var n := NodeNamed(g, nodes, s);
      }
      if s in f.deps {
        var n := NodeNamed(f, other, s);
      }
    }
  }

  /** Paths are made of dependencies; the order of the steps plays no part. */
  lemma SamePaths(f: Graph, g: Graph, p: seq<StepId>, a: StepId, b: StepId)
    requires f.deps == g.deps
    ensures PathFromTo(f, p, a, b) == PathFromTo(g, p, a, b)
  {
    assert forall x :: f.Deps(x) == g.Deps(x);
  }

  lemma SameAncestors(f: Graph, g: Graph)
    requires f.deps == g.deps
    ensures forall a, b :: DependsTransitively(f, a, b) == DependsTransitively(g, a, b)
    ensures forall a :: Doomed(f, a) == Doomed(g, a)
  {
    forall p, a, b
      ensures PathFromTo(f, p, a, b) == PathFromTo(g, p, a, b)
    {
      SamePaths(f, g, p, a, b);
    }
    hide PathFromTo;
    forall a, b
      ensures DependsTransitively(f, a, b) == DependsTransitively(g, a, b) && Reaches(f, a, b) == Reaches(g, a, b)
    {
    }
  }

  /** In this listing the reader starts, and by then some node has registered the ref. */
  ghost predicate ResolvesIn(other: seq<Node>, n: Node, r: Ref) {
    exists i :: StartsWithRef(other, i, n, r)
  }

  ghost predicate StartsWithRef(other: seq<Node>, i: int, n: Node, r: Ref) {
    0 <= i < |ScheduleOrder(other)| && ScheduleOrder(other)[i] == n && Registered(ScheduleOrder(other)[..i], r)
  }

  /** An ancestor's ref is registered in time, however the nodes are listed. */
  lemma AncestorResolvesAnywhere(nodes: seq<Node>, other: seq<Node>, n: Node, m: Node, r: Ref)
    requires UniqueIds(nodes) && Relisting(nodes, other) && n in nodes && m in nodes
    requires RegisteredRef(m) == Some(r) && !Doomed(GraphOf(nodes), n.stepId)
    requires DependsTransitively(GraphOf(nodes), n.stepId, m.stepId)
    ensures ResolvesIn(other, n, r)
  {
    var g, f := GraphOf(nodes), GraphOf(other);
    RelistingKeepsDeps(nodes, other);
    SameAncestors(f, g);
    GraphOfDescribes(other);
    ScheduleIsComplete(f, other);
    hide ScheduleOrder, Unresolved, Doomed, DependsTransitively, GraphOf, RegisteredRef, UniqueIds;
    var order := ScheduleOrder(other);
    assert n in order;
    var i :| 0 <= i < |order| && order[i] == n;
    AncestorRegistered(f, other, i, m, r);
    assert StartsWithRef(other, i, n, r);
  }

  lemma AncestorRegistered(g: Graph, nodes: seq<Node>, i: nat, m: Node, r: Ref)
    requires Describes(g, nodes) && m in nodes && RegisteredRef(m) == Some(r) && i < |ScheduleOrder(nodes)|
    requires DependsTransitively(g, ScheduleOrder(nodes)[i].stepId, m.stepId)
    ensures Registered(ScheduleOrder(nodes)[..i], r)
  {
    hide ScheduleOrder, RegisteredRef;
    NeverFails(ScheduleOrder(nodes)[..i]);
    AncestorRefsResolve(g, nodes, AlwaysProduces(), i, m, r);
    RefsAreRegistered(AlwaysProduces(), ScheduleOrder(nodes)[..i], r);
  }

  // ---- A listing that starts the reader first --------------------------------------------------------------------

  /** The nodes that n depends on, in the order they are given. */
  ghost function AncestorsIn(g: Graph, order: seq<Node>, n: StepId): (r: seq<Node>)
    ensures forall x :: x in r <==> x in order && DependsTransitively(g, n, x.stepId)
  {
    if order == [] then []
    else
      var init, last := order[..|order| - 1], order[|order| - 1];
      assert order == init + [last];
      AncestorsIn(g, init, n) + if DependsTransitively(g, n, last.stepId) then [last] else []
  }

  lemma AncestorsUnfold(g: Graph, init: seq<Node>, last: Node, n: StepId)
    ensures AncestorsIn(g, init + [last], n)
         == if DependsTransitively(g, n, last.stepId) then AncestorsIn(g, init, n) + [last] else AncestorsIn(g, init, n)
  {
    hide DependsTransitively;
    var order := init + [last];
    assert order[..|order| - 1] == init && order[|order| - 1] == last;
    assert AncestorsIn(g, init, n) + [] == AncestorsIn(g, init, n);
  }

  lemma {:induction false} AncestorsAreUnique(g: Graph, order: seq<Node>, n: StepId)
    requires UniqueIds(order)
    ensures UniqueIds(AncestorsIn(g, order, n))
  {
    if order != [] {
      var init, last := order[..|order| - 1], order[|order| - 1];
      UniqueParts(order);
      assert order == init + [last];
      AncestorsAreUnique(g, init, n);
      LastIdIsNew(init, last);
      OneIsUnique(last);
      hide UniqueIds, DependsTransitively;
      AncestorsUnfold(g, init, last, n);
      if DependsTransitively(g, n, last.stepId) {
        UniqueJoin(AncestorsIn(g, init, n), [last]);
      }
    }
  }

  lemma OneIsUnique(n: Node)
    ensures UniqueIds([n])
  {}

  /** A dependency of an ancestor is an ancestor. */
  lemma OneEdgeMore(g: Graph, n: StepId, x: StepId, d: StepId)
    requires (n == x || DependsTransitively(g, n, x)) && d in g.Deps(x)
    ensures DependsTransitively(g, n, d)
  {
    if n == x {
      assert PathFromTo(g, [x, d], n, d);
    } else {
      var p :| PathFromTo(g, p, n, x) && |p| >= 2;
      var q := p + [d];
      forall i | 0 <= i < |q| - 1
        ensures q[i + 1] in g.Deps(q[i])
      {
        assert i < |p| - 1 ==> p[i + 1] in g.Deps(p[i]);
      }
      assert PathFromTo(g, q, n, d);
    }
  }

  /** The ancestors, in schedule order, can run one after another. */
  lemma {:induction false} AncestorsInOrder(g: Graph, nodes: seq<Node>, order: seq<Node>, n: StepId)
    requires Describes(g, nodes) && InOrder(order, {}) && forall x :: x in order ==> x in nodes
    ensures InOrder(AncestorsIn(g, order, n), {})
  {
    if order != [] {
      var init, last := order[..|order| - 1], order[|order| - 1];
      assert order == init + [last];
      hide Describes, DependsTransitively, AncestorsIn, InOrder, Ready;
      InOrderInit(order);
      AncestorsInOrder(g, nodes, init, n);
      AncestorsUnfold(g, init, last, n);
      if DependsTransitively(g, n, last.stepId) {
        LastIsReady(g, nodes, init, last, n);
        OneMoreInOrder(AncestorsIn(g, init, n), last);
      }
    }
  }

  lemma InOrderInit(order: seq<Node>)
    requires InOrder(order, {}) && order != []
    ensures InOrder(order[..|order| - 1], {}) && Ready(order[|order| - 1], IdSet(order[..|order| - 1]))
  {
    hide Ready;
    var init := order[..|order| - 1];
    forall i | 0 <= i < |init|
      ensures ReadyAt(init, {}, i)
    {
      assert ReadyAt(order, {}, i) && order[..i] == init[..i];
    }
    assert ReadyAt(order, {}, |order| - 1);
    assert {} + IdSet(init) == IdSet(init);
  }

  lemma OneMoreInOrder(run: seq<Node>, n: Node)
    requires InOrder(run, {}) && Ready(n, IdSet(run))
    ensures InOrder(run + [n], {})
  {
    assert ReadyAt([n], {} + IdSet(run), 0) by {
      assert [n][..0] == [] && IdSet([]) == {};
    }
    InOrderJoin(run, [n], {});
  }

  /** What is ready after the nodes before it is ready after its ancestors among them. */
  lemma LastIsReady(g: Graph, nodes: seq<Node>, before: seq<Node>, x: Node, n: StepId)
    requires Describes(g, nodes) && x in nodes && (n == x.stepId || DependsTransitively(g, n, x.stepId))
    requires Ready(x, IdSet(before))
    ensures Ready(x, IdSet(AncestorsIn(g, before, n)))
  {
    forall d | d in x.dependsOn
      ensures d in IdSet(AncestorsIn(g, before, n))
    {
      assert d in IdSet(before);
      var y :| y in before && y.stepId == d;
      assert d in g.Deps(x.stepId);
      OneEdgeMore(g, n, x.stepId, d);
      assert y in AncestorsIn(g, before, n);
    }
  }

  /** A sweep runs a leading part that can run in its order, before anything else. */
  lemma {:induction false} SweepRunsPrefix(prefix: seq<Node>, rest: seq<Node>, completed: set<StepId>)
    requires InOrder(prefix, completed)
    ensures prefix <= RunInPass(prefix + rest, completed)
  {
    if prefix != [] {
      var first, tail := prefix[0], prefix[1..];
      assert (prefix + rest)[1..] == tail + rest && (prefix + rest)[0] == first;
      assert ReadyAt(prefix, completed, 0);
      assert prefix[..0] == [] && IdSet([]) == {} && completed + {} == completed;
      var more := completed + {first.stepId};
      forall i | 0 <= i < |tail|
        ensures ReadyAt(tail, more, i)
      {
        var k := i + 1;
        assert ReadyAt(prefix, completed, k);
        assert prefix[..k] == [first] + tail[..i];
        assert completed + IdSet(prefix[..k]) == more + IdSet(tail[..i]);
      }
      hide Ready, IdSet;
      SweepRunsPrefix(tail, rest, more);
    }
  }

  lemma ScheduleStartsWith(prefix: seq<Node>, rest: seq<Node>)
    requires InOrder(prefix, {}) && prefix != []
    ensures prefix <= ScheduleOrder(prefix + rest)
  {
    SweepRunsPrefix(prefix, rest, {});
    var all := prefix + rest;
    hide RunInPass, InOrder;
    PassesUnfold(all, {});
  }

  /** The plan with the ancestors of n first, then n, then the rest. */
  ghost function ReaderFirst(nodes: seq<Node>, n: Node): seq<Node> {
    var prefix := Before(nodes, n) + [n];
    prefix + Without(nodes, IdSet(prefix))
  }

  /** The ancestors of n as the scheduler would start them. */
  ghost function Before(nodes: seq<Node>, n: Node): seq<Node> {
    AncestorsIn(GraphOf(nodes), ScheduleOrder(nodes), n.stepId)
  }

  lemma BeforeIsRunnable(nodes: seq<Node>, n: Node)
    requires UniqueIds(nodes) && n in nodes && !Doomed(GraphOf(nodes), n.stepId)
    ensures UniqueIds(Before(nodes, n) + [n]) && InOrder(Before(nodes, n) + [n], {})
    ensures forall x :: x in Before(nodes, n) ==> x in nodes && DependsTransitively(GraphOf(nodes), n.stepId, x.stepId)
  {
    var g, order := GraphOf(nodes), ScheduleOrder(nodes);
    GraphOfDescribes(nodes);
    ScheduleEnds(nodes);
    ScheduleIsComplete(g, nodes);
    hide ScheduleOrder, Unresolved, GraphOf, UniqueIds, InOrder, Ready, DependsTransitively, Describes, AncestorsIn;
    AncestorsAreUnique(g, order, n.stepId);
    AncestorsInOrder(g, nodes, order, n.stepId);
    ReaderIsReady(g, nodes, order, n);
    OneMoreInOrder(Before(nodes, n), n);
    NotItsOwnAncestor(g, n.stepId);
    OneIsUnique(n);
    UniqueJoin(Before(nodes, n), [n]);
  }

  lemma NotItsOwnAncestor(g: Graph, s: StepId)
    requires !Doomed(g, s)
    ensures !DependsTransitively(g, s, s)
  {
    assert PathFromTo(g, [s], s, s);
    assert Reaches(g, s, s);
  }

  /** The reader is ready once its ancestors among the scheduled nodes are done. */
  lemma ReaderIsReady(g: Graph, nodes: seq<Node>, order: seq<Node>, n: Node)
    requires Describes(g, nodes) && n in order && InOrder(order, {}) && forall x :: x in order ==> x in nodes
    ensures Ready(n, IdSet(AncestorsIn(g, order, n.stepId)))
  {
    var i :| 0 <= i < |order| && order[i] == n;
    assert ReadyAt(order, {}, i);
    forall d | d in n.dependsOn
      ensures d in IdSet(order)
    {
      assert d in {} + IdSet(order[..i]);
      var y :| y in order[..i] && y.stepId == d;
      assert y in order;
    }
    hide InOrder, Describes, AncestorsIn, DependsTransitively;
    LastIsReady(g, nodes, order, n, n.stepId);
  }

  lemma ReaderFirstRelists(nodes: seq<Node>, n: Node)
    requires UniqueIds(nodes) && n in nodes && !Doomed(GraphOf(nodes), n.stepId)
    ensures Relisting(nodes, ReaderFirst(nodes, n))
  {
    BeforeIsRunnable(nodes, n);
    var prefix := Before(nodes, n) + [n];
    hide GraphOf, Before, InOrder, Doomed, DependsTransitively;
    WithoutKeepsUnique(nodes, IdSet(prefix));
    forall x | x in nodes && x.stepId in IdSet(prefix)
      ensures x in prefix
    {
      var y :| y in prefix && y.stepId == x.stepId;
      SameIdSameNode(nodes, x, y);
    }
    hide UniqueIds, IdSet, Without;
    UniqueJoin(prefix, Without(nodes, IdSet(prefix)));
  }

  /** A producer that is no ancestor has not run when that listing starts the reader. */
  lemma ReaderFirstMisses(nodes: seq<Node>, n: Node, m: Node, r: Ref)
    requires UniqueIds(nodes) && n in nodes && m in nodes && !Doomed(GraphOf(nodes), n.stepId)
    requires forall x :: x in nodes && RegisteredRef(x) == Some(r) ==> x == m
    requires !DependsTransitively(GraphOf(nodes), n.stepId, m.stepId)
    ensures !ResolvesIn(ReaderFirst(nodes, n), n, r)
  {
    BeforeIsRunnable(nodes, n);
    ReaderFirstStarts(nodes, n);
    var before, order := Before(nodes, n), ScheduleOrder(ReaderFirst(nodes, n));
    hide ScheduleOrder, GraphOf, Before, ReaderFirst, InOrder, Doomed, DependsTransitively, RegisteredRef, UniqueIds;
    assert !Registered(before, r);
    forall i | StartsWithRef(ReaderFirst(nodes, n), i, n, r)
      ensures false
    {
      OnePlace(order, i, |before|);
    }
  }

  lemma ReaderFirstStarts(nodes: seq<Node>, n: Node)
    requires UniqueIds(nodes) && n in nodes && !Doomed(GraphOf(nodes), n.stepId)
    ensures var before, order := Before(nodes, n), ScheduleOrder(ReaderFirst(nodes, n));
            UniqueIds(order) && |before| < |order| && order[|before|] == n && order[..|before|] == before
  {
    var prefix := Before(nodes, n) + [n];
    var rest := Without(nodes, IdSet(prefix));
    assert ReaderFirst(nodes, n) == prefix + rest;
    hide *;
    BeforeIsRunnable(nodes, n);
    ReaderFirstRelists(nodes, n);
    RelistingIsUnique(nodes, ReaderFirst(nodes, n));
    ScheduleStartsWith(prefix, rest);
    EndOfPrefix(Before(nodes, n), n, ScheduleOrder(prefix + rest));
  }

  lemma EndOfPrefix(before: seq<Node>, n: Node, order: seq<Node>)
    requires before + [n] <= order
    ensures |before| < |order| && order[|before|] == n && order[..|before|] == before
  {
    assert order[|before|] == (before + [n])[|before|];
  }

  lemma RelistingIsUnique(nodes: seq<Node>, other: seq<Node>)
    requires Relisting(nodes, other)
    ensures UniqueIds(ScheduleOrder(other))
  {
    ScheduleEnds(other);
    hide UniqueIds, ScheduleOrder;
  }

  lemma OnePlace(order: seq<Node>, i: nat, j: nat)
    requires UniqueIds(order) && i < |order| && j < |order| && order[i] == order[j]
    ensures i == j
  {
    assert i < j ==> Apart(order, i, j);
    assert j < i ==> Apart(order, j, i);
  }

  /**
   * A ref that one node alone registers is found by a reader in every order in
   * which the plan may list its nodes if and only if its producer is a
   * transitive dependency of the reader.
   */
  lemma FoundInEveryListingIff(nodes: seq<Node>, n: Node, m: Node, r: Ref)
    requires UniqueIds(nodes) && n in nodes && m in nodes && !Doomed(GraphOf(nodes), n.stepId)
    requires RegisteredRef(m) == Some(r) && forall x :: x in nodes && RegisteredRef(x) == Some(r) ==> x == m
    ensures (forall other :: Relisting(nodes, other) ==> ResolvesIn(other, n, r))
       <==> DependsTransitively(GraphOf(nodes), n.stepId, m.stepId)
  {
    hide *;
    if DependsTransitively(GraphOf(nodes), n.stepId, m.stepId) {
      forall other | Relisting(nodes, other)
        ensures ResolvesIn(other, n, r)
      {
        AncestorResolvesAnywhere(nodes, other, n, m, r);
      }
    } else {
      ReaderFirstRelists(nodes, n);
      ReaderFirstMisses(nodes, n, m, r);
    }
  }

  // ---- Plans listed in order ----------------------------------------------------------------------------------

  /** Every dependency is listed before the node that names it. */
  ghost predicate ListedInOrder(nodes: seq<Node>) {
    forall i, d :: 0 <= i < |nodes| && d in nodes[i].dependsOn ==> d in Ids(nodes)[..i]
  }

  lemma ListedIsInOrder(nodes: seq<Node>)
    requires ListedInOrder(nodes)
    ensures InOrder(nodes, {})
  {
    forall i | 0 <= i < |nodes|
      ensures ReadyAt(nodes, {}, i)
    {
      forall d | d in nodes[i].dependsOn
        ensures d in IdSet(nodes[..i])
      {
        var k :| 0 <= k < i && Ids(nodes)[..i][k] == d;
        assert nodes[..i][k] in nodes[..i];
      }
    }
  }

  /** The pipeline starts the nodes just as they are listed if and only if each is listed after its dependencies. */
  lemma ListedOrderIsKeptIff(nodes: seq<Node>)
    requires UniqueIds(nodes)
    ensures ScheduleOrder(nodes) == nodes <==> ListedInOrder(nodes)
  {
    var g, r := GraphOf(nodes), ScheduleOrder(nodes);
    GraphOfDescribes(nodes);
    ScheduleRespectsDependencies(g, nodes);
    hide ScheduleOrder, UniqueIds, InOrder;
    if r == nodes {
      forall i, d | 0 <= i < |nodes| && d in nodes[i].dependsOn
        ensures d in Ids(nodes)[..i]
      {
        assert nodes[i] in nodes && d in g.Deps(Ids(nodes)[i]);
      }
    }
    if ListedInOrder(nodes) {
      ListedIsInOrder(nodes);
      if nodes != [] {
        ScheduleStartsWith(nodes, []);
      }
      assert nodes + [] == nodes;
      NoRoomForMore(nodes, r);
    }
  }

  lemma NoRoomForMore(nodes: seq<Node>, r: seq<Node>)
    requires nodes <= r && UniqueIds(r) && forall n :: n in r ==> n in nodes
    ensures r == nodes
  {
    if |r| > |nodes| {
      var n := r[|nodes|];
      assert n in r;
      var k :| 0 <= k < |nodes| && nodes[k] == n;
      NotTwice(r, k, |nodes|);
    }
  }

  lemma BuiltIsListedInOrder(nodes: seq<Node>)
    requires WellBuilt(nodes)
    ensures ListedInOrder(nodes)
  {
    forall i, d | 0 <= i < |nodes| && d in nodes[i].dependsOn
      ensures d in Ids(nodes)[..i]
    {
      assert NodeBuilt(nodes, i, nodes[i]);
      assert Ids(nodes[..i]) == Ids(nodes)[..i];
    }
  }

  /** A compiled plan is run in the order in which it was compiled. */
  lemma CompiledOrderIsKept(ops: seq<OpName>, paramsFor: (nat, OpName) -> Params)
    ensures ScheduleOrder(BuildPlanNodes(ops, paramsFor)) == BuildPlanNodes(ops, paramsFor)
  {
    hide *;
    var nodes := BuildPlanNodes(ops, paramsFor);
    BuiltPlanIsWired(ops, paramsFor);
    BuiltIds(nodes);
    BuiltIsListedInOrder(nodes);
    ListedOrderIsKeptIff(nodes);
  }
}
