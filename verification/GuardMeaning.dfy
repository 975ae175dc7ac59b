/**
 * What the guard's verdicts mean: acceptance and rejection said in terms of the
 * texts and kinds that stand in the plan, without the guard's own tests.
 */
module GuardMeaning {
  import opened Results
  import opened StepGraph
  import opened OperationRegistry
  import opened OperationPlan
  import opened PlanGuard
  import PlanTheorems
  import Text

  /** The node names this text as its input. */
  predicate Reads(n: Node, key: InputKey, text: Ref) {
    key in n.inputs && text == Text.Strip(n.inputs[key]) && text != ""
  }

  /** The node declares this text as its output. */
  predicate Declares(n: Node, text: Ref) {
    var key := Spec(n.opName).output.key;
    key in n.outputs && text == Text.Strip(n.outputs[key]) && text != ""
  }

  /** A port of type "any", of the kind, or of a list of it. */
  predicate Takes(t: DataType, k: Kind) {
    t == AnyType || t == One(k) || t == Many(k)
  }

  ghost predicate IsBlank(n: Node, key: InputKey) {
    forall text :: !Reads(n, key, text)
  }

  ghost predicate IsDeclared(nodes: seq<Node>, text: Ref) {
    exists m :: m in nodes && Declares(m, text)
  }

  /** A blank input stands for a parameter, or for demo data of a node without dependencies. */
  predicate MayBeBlank(h: Heuristics, n: Node, p: Port) {
    || h.paramFallback(n.params, p.key, p.dataType)
    || (&& n.dependsOn == [] && n.opName !in {InputUploadRaster, InputUploadVector}
        && p.dataType !in {UploadedFile, One(Artifact), Many(Artifact)}
        && (n.opName == RasterClip ==> p.key !in {AoiKey, ClipVectorKey, VectorKey}))
  }

  /** A text no earlier node declares is an upload id, or names an external file that may hold the kind. */
  predicate IsExternal(h: Heuristics, text: Ref, t: DataType) {
    match t
    case UploadedFile => true
    case AnyType => h.looksExternal(text)
    case One(k) => h.looksExternal(text) && MayHold(h, text, k)
    case Many(k) => h.looksExternal(text) && MayHold(h, text, k)
  }

  predicate MayHold(h: Heuristics, text: Ref, k: Kind) {
    h.inferKind(text) in {None, Some(k)} || (k == Vector && h.looksLikeBbox(text))
  }

  /** What an input has to be, after the nodes visited before it. */
  ghost predicate InputRight(h: Heuristics, earlier: seq<Node>, n: Node, p: Port) {
    && (IsBlank(n, p.key) ==> MayBeBlank(h, n, p))
    && (forall text :: Reads(n, p.key, text) && !IsDeclared(earlier, text) ==> IsExternal(h, text, p.dataType))
    && (forall text :: Reads(n, p.key, text) ==> TakesDeclared(earlier, p, text))
  }

  /** The port takes what the earlier nodes that declare the text put out. */
  ghost predicate TakesDeclared(earlier: seq<Node>, p: Port, text: Ref) {
    forall m :: m in earlier && Declares(m, text) ==> Takes(p.dataType, Spec(m.opName).output.kind)
  }

  /** What a node has to be: known keys, its parameters, right inputs, and an output of its own. */
  ghost predicate NodeRight(h: Heuristics, earlier: seq<Node>, n: Node) {
    && (forall k :: k in n.inputs ==> exists p :: p in Spec(n.opName).inputs && p.key == k)
    && (forall k :: k in Spec(n.opName).requiredParams ==> h.paramPresent(n.params, k))
    && (forall p :: p in Spec(n.opName).inputs ==> InputRight(h, earlier, n, p))
    && exists text :: Declares(n, text) && !IsDeclared(earlier, text)
  }

  lemma RefIsText(n: Node, key: InputKey)
    ensures forall text :: Reads(n, key, text) <==> text == RefAt(n.inputs, key) && text != ""
    ensures IsBlank(n, key) <==> RefAt(n.inputs, key) == ""
  {
    hide Text.Strip;
    assert RefAt(n.inputs, key) != "" ==> Reads(n, key, RefAt(n.inputs, key));
  }

  lemma OutputIsText(n: Node)
    ensures forall text :: Declares(n, text) <==> text == OutputRef(n) && text != ""
  {
    hide Text.Strip, OutputPort, InputPorts;
  }

  lemma ProducedIsDeclared(earlier: seq<Node>, text: Ref)
    requires text != ""
    ensures text in Produced(earlier) <==> IsDeclared(earlier, text)
    ensures text in Produced(earlier) ==>
              exists m :: m in earlier && Declares(m, text) && Spec(m.opName).output.kind == Produced(earlier)[text]
  {
    hide OutputRef, Spec, Declares;
    if text in Produced(earlier) {
      var m :| m in earlier && OutputRef(m) == text && Spec(m.opName).output.kind == Produced(earlier)[text];
      OutputIsText(m);
    }
    if IsDeclared(earlier, text) {
      var m :| m in earlier && Declares(m, text);
      OutputIsText(m);
    }
  }

  /** No two of the nodes declare the same text. */
  predicate DeclareApart(nodes: seq<Node>) {
    forall i, j :: 0 <= i < j < |nodes| ==> OutputRef(nodes[i]) != OutputRef(nodes[j])
  }

  lemma OneDeclares(earlier: seq<Node>, a: Node, b: Node, text: Ref)
    requires DeclareApart(earlier) && a in earlier && b in earlier && Declares(a, text) && Declares(b, text)
    ensures a == b
  {
    var i :| 0 <= i < |earlier| && earlier[i] == a;
    var j :| 0 <= j < |earlier| && earlier[j] == b;
    hide Declares, OutputRef, Spec;
    OutputIsText(a);
    OutputIsText(b);
  }

  lemma RecordedKind(earlier: seq<Node>, m: Node, text: Ref)
    requires DeclareApart(earlier) && m in earlier && Declares(m, text)
    ensures text != "" && text in Produced(earlier) && Produced(earlier)[text] == Spec(m.opName).output.kind
  {
    hide OutputRef, Spec, Declares, DeclareApart, Produced;
    OutputIsText(m);
    ProducedIsDeclared(earlier, text);
    var b :| b in earlier && Declares(b, text) && Spec(b.opName).output.kind == Produced(earlier)[text];
    OneDeclares(earlier, m, b, text);
  }

  lemma ExternalIsText(h: Heuristics, text: Ref, t: DataType)
    ensures ExternalAllowed(h, text, t) <==> IsExternal(h, text, t)
  {}

  lemma BlankIsText(h: Heuristics, n: Node, p: Port)
    ensures BlankAllowed(h, n, p) <==> MayBeBlank(h, n, p)
  {}

  lemma KindIsTaken(k: Kind, t: DataType)
    ensures IsTypeCompatible(k, t) <==> Takes(t, k)
  {}

  /** The clause about kinds, for the one node that declares the text. */
  lemma KindClause(earlier: seq<Node>, n: Node, p: Port, text: Ref)
    requires DeclareApart(earlier) && IsDeclared(earlier, text)
    ensures text in Produced(earlier)
    ensures IsTypeCompatible(Produced(earlier)[text], p.dataType) <==> TakesDeclared(earlier, p, text)
  {
    hide Declares, Produced, DeclareApart, Spec, Takes, IsTypeCompatible;
    var m :| m in earlier && Declares(m, text);
    forall b | b in earlier && Declares(b, text)
      ensures b == m
    {
      OneDeclares(earlier, m, b, text);
    }
    RecordedKind(earlier, m, text);
    KindIsTaken(Spec(m.opName).output.kind, p.dataType);
  }

  lemma InputIsRight(h: Heuristics, earlier: seq<Node>, n: Node, p: Port)
    requires DeclareApart(earlier)
    ensures InputAccepted(h, Produced(earlier), n, p) <==> InputRight(h, earlier, n, p)
  {
    hide RefAt, Reads, Declares, IsBlank, BlankAllowed, ExternalAllowed, MayBeBlank, IsExternal, Produced, DeclareApart,
         Spec, IsTypeCompatible, IsDeclared, TakesDeclared;
    var text := RefAt(n.inputs, p.key);
    RefIsText(n, p.key);
    BlankIsText(h, n, p);
    ExternalIsText(h, text, p.dataType);
    if text != "" {
      ProducedIsDeclared(earlier, text);
      if IsDeclared(earlier, text) {
        KindClause(earlier, n, p, text);
      } else {
        NoneDeclares(earlier, p, text);
      }
    }
  }

  lemma NoneDeclares(earlier: seq<Node>, p: Port, text: Ref)
    requires !IsDeclared(earlier, text)
    ensures TakesDeclared(earlier, p, text)
  {}

  lemma NodeIsRight(h: Heuristics, earlier: seq<Node>, n: Node)
    requires DeclareApart(earlier)
    ensures NodeAccepted(h, earlier, n) <==> NodeRight(h, earlier, n)
  {
    hide InputAccepted, InputRight, Declares, OutputRef, Spec, IsDeclared;
    forall p
      ensures InputAccepted(h, Produced(earlier), n, p) <==> InputRight(h, earlier, n, p)
    {
      InputIsRight(h, earlier, n, p);
    }
    OutputIsText(n);
    if OutputRef(n) != "" {
      ProducedIsDeclared(earlier, OutputRef(n));
    }
  }

  // ---- Acceptance -------------------------------------------------------------------------

  ghost predicate RightAt(h: Heuristics, run: seq<Node>, i: nat)
    requires i < |run|
  {
    NodeRight(h, run[..i], run[i])
  }

  lemma OwnOutput(h: Heuristics, earlier: seq<Node>, n: Node, m: Node)
    requires NodeRight(h, earlier, n) && m in earlier
    ensures OutputRef(m) != OutputRef(n)
  {
    hide InputRight, Declares, OutputRef, Spec;
    OutputIsText(m);
    OutputIsText(n);
  }

  lemma RightNodesDeclareApart(h: Heuristics, run: seq<Node>)
    requires forall i :: 0 <= i < |run| ==> RightAt(h, run, i)
    ensures DeclareApart(run)
  {
    hide NodeRight, OutputRef;
    forall i, j | 0 <= i < j < |run|
      ensures OutputRef(run[i]) != OutputRef(run[j])
    {
      assert RightAt(h, run, j);
      assert run[..j][i] == run[i];
      OwnOutput(h, run[..j], run[j], run[i]);
    }
  }

  lemma AcceptedNodesDeclareApart(h: Heuristics, run: seq<Node>)
    requires RunAccepted(h, run)
    ensures DeclareApart(run)
  {
    PlanTheorems.OutputsDiffer(h, run);
    hide OutputRef;
  }

  lemma PrefixDeclaresApart(run: seq<Node>, i: nat)
    requires DeclareApart(run) && i <= |run|
    ensures DeclareApart(run[..i])
  {
    hide OutputRef;
  }

  lemma RunIsRight(h: Heuristics, run: seq<Node>)
    ensures RunAccepted(h, run) <==> forall i :: 0 <= i < |run| ==> RightAt(h, run, i)
  {
    hide NodeRight, NodeAccepted, DeclareApart;
    if RunAccepted(h, run) {
      AcceptedNodesDeclareApart(h, run);
    }
    if forall i :: 0 <= i < |run| ==> RightAt(h, run, i) {
      RightNodesDeclareApart(h, run);
    }
    if DeclareApart(run) {
      forall i | 0 <= i < |run|
        ensures AcceptedAt(h, run, i) <==> RightAt(h, run, i)
      {
        PrefixDeclaresApart(run, i);
        NodeIsRight(h, run[..i], run[i]);
      }
    }
  }

  /**
   * The guard accepts a plan exactly if it has nodes, every dependency is a step,
   * no step depends on itself, and every node is right after the nodes visited
   * before it: an input that names an earlier output has type "any", that
   * output's kind, or a list of it.
   */
  lemma AcceptedExactly(h: Heuristics, nodes: seq<Node>)
    requires UniqueIds(nodes)
    ensures Acceptable(h, nodes) <==>
              && nodes != []
              && (forall n, d :: n in nodes && d in n.dependsOn ==> exists m :: m in nodes && m.stepId == d)
              && !HasCycle(GraphOf(nodes))
              && forall i :: 0 <= i < |GuardRun(nodes)| ==> RightAt(h, GuardRun(nodes), i)
  {
    ClosedMeans(nodes);
    RunIsRight(h, GuardRun(nodes));
    hide UniqueIds, GuardRun, HasCycle, RunAccepted, RightAt, StepGraph.Graph.Closed;
  }

  lemma ClosedMeans(nodes: seq<Node>)
    requires UniqueIds(nodes)
    ensures GraphOf(nodes).Closed()
       <==> forall n, d :: n in nodes && d in n.dependsOn ==> exists m :: m in nodes && m.stepId == d
  {
    var g := GraphOf(nodes);
    GraphOfDescribes(nodes);
    hide UniqueIds, GraphOf;
    if g.Closed() {
      forall n, d | n in nodes && d in n.dependsOn
        ensures exists m :: m in nodes && m.stepId == d
      {
        assert n.stepId in g.deps && d in g.deps[n.stepId];
        var m := NodeNamed(g, nodes, d);
      }
    } else {
      var s, d :| s in g.deps && d in g.deps[s] && d !in g.deps;
      var n := NodeNamed(g, nodes, s);
      assert forall m :: m in nodes ==> m.stepId in g.deps;
    }
  }

  /** In an accepted plan no input reads an earlier output of another kind than its port takes. */
  lemma AcceptedKindsFit(h: Heuristics, nodes: seq<Node>)
    requires UniqueIds(nodes) && Acceptable(h, nodes)
    ensures var run := GuardRun(nodes);
            forall i, p, m, text :: 0 <= i < |run| && p in Spec(run[i].opName).inputs && m in run[..i]
                                    && Reads(run[i], p.key, text) && Declares(m, text) ==>
              p.dataType.AnyType? || (!p.dataType.UploadedFile? && p.dataType.kind == Spec(m.opName).output.kind)
  {
    AcceptedExactly(h, nodes);
    var run := GuardRun(nodes);
    hide *;
    forall i, p, m, text | 0 <= i < |run| && p in Spec(run[i].opName).inputs && m in run[..i]
                           && Reads(run[i], p.key, text) && Declares(m, text)
      ensures p.dataType.AnyType? || (!p.dataType.UploadedFile? && p.dataType.kind == Spec(m.opName).output.kind)
    {
      assert RightAt(h, run, i);
      KindFits(h, run, i, p, m, text);
    }
  }

  lemma KindFits(h: Heuristics, run: seq<Node>, i: nat, p: Port, m: Node, text: Ref)
    requires i < |run| && RightAt(h, run, i)
    requires p in Spec(run[i].opName).inputs && m in run[..i] && Reads(run[i], p.key, text) && Declares(m, text)
    ensures Takes(p.dataType, Spec(m.opName).output.kind)
    ensures p.dataType.AnyType? || (!p.dataType.UploadedFile? && p.dataType.kind == Spec(m.opName).output.kind)
  {
    hide Reads, Declares, Spec;
    assert InputRight(h, run[..i], run[i], p);
  }

  // ---- Rejection for a type -----------------------------------------------------------------

  /** Port j is the first whose input is not right: it reads `text`, which `m` declared before with another kind. */
  ghost predicate WrongKindAt(h: Heuristics, earlier: seq<Node>, n: Node, j: nat, m: Node, text: Ref) {
    var ports, k := Spec(n.opName).inputs, Spec(m.opName).output.kind;
    && j < |ports|
    && (forall x :: x in n.inputs ==> exists p :: p in ports && p.key == x)
    && (forall x :: x in Spec(n.opName).requiredParams ==> h.paramPresent(n.params, x))
    && (forall i :: 0 <= i < j ==> InputRight(h, earlier, n, ports[i]))
    && m in earlier && Declares(m, text) && Reads(n, ports[j].key, text)
    && !Takes(ports[j].dataType, k)
  }

  ghost predicate MismatchIn(h: Heuristics, run: seq<Node>, i: nat, e: GuardError)
    requires e.InputTypeMismatch?
  {
    && i < |run|
    && (forall x :: 0 <= x < i ==> RightAt(h, run, x))
    && MismatchOf(h, run[..i], run[i], e)
  }

  ghost predicate MismatchOf(h: Heuristics, earlier: seq<Node>, n: Node, e: GuardError)
    requires e.InputTypeMismatch?
  {
    && e.step == n.stepId
    && exists j: nat, m :: WrongKindFor(h, earlier, n, e, j, m)
  }

  ghost predicate WrongKindFor(h: Heuristics, earlier: seq<Node>, n: Node, e: GuardError, j: nat, m: Node)
    requires e.InputTypeMismatch?
  {
    && WrongKindAt(h, earlier, n, j, m, e.ref)
    && e.key == Spec(n.opName).inputs[j].key && e.actual == Spec(m.opName).output.kind
  }

  lemma AllInputsAlike(h: Heuristics, earlier: seq<Node>, n: Node)
    requires DeclareApart(earlier)
    ensures forall p :: InputAccepted(h, Produced(earlier), n, p) <==> InputRight(h, earlier, n, p)
  {
    hide InputAccepted, InputRight, DeclareApart, Produced;
    forall p
      ensures InputAccepted(h, Produced(earlier), n, p) <==> InputRight(h, earlier, n, p)
    {
      InputIsRight(h, earlier, n, p);
    }
  }

  /** The first port with an input that is not accepted is the first with one that is not right. */
  lemma BadPortIsWrong(h: Heuristics, earlier: seq<Node>, n: Node, j: int, key: InputKey)
    requires DeclareApart(earlier)
    ensures FirstBadPort(h, Produced(earlier), n, j, key) <==>
              && 0 <= j < |Spec(n.opName).inputs| && Spec(n.opName).inputs[j].key == key
              && !InputRight(h, earlier, n, Spec(n.opName).inputs[j])
              && forall i :: 0 <= i < j ==> InputRight(h, earlier, n, Spec(n.opName).inputs[i])
  {
    AllInputsAlike(h, earlier, n);
    hide InputRight, InputAccepted, Spec, Produced, DeclareApart;
  }

  /** A resolved input that is not accepted reads an earlier output its port does not take. */
  lemma BadKind(h: Heuristics, earlier: seq<Node>, n: Node, p: Port, text: Ref) returns (m: Node)
    requires RefAt(n.inputs, p.key) == text && text != "" && text in Produced(earlier)
    requires !InputAccepted(h, Produced(earlier), n, p)
    ensures m in earlier && Declares(m, text) && Reads(n, p.key, text)
    ensures Spec(m.opName).output.kind == Produced(earlier)[text] && !Takes(p.dataType, Spec(m.opName).output.kind)
  {
    hide RefAt, Declares, Reads, Produced, Spec, BlankAllowed, ExternalAllowed, IsTypeCompatible, Takes;
    RefIsText(n, p.key);
    ProducedIsDeclared(earlier, text);
    m :| m in earlier && Declares(m, text) && Spec(m.opName).output.kind == Produced(earlier)[text];
    KindIsTaken(Produced(earlier)[text], p.dataType);
  }

  lemma MismatchIsWrongKind(h: Heuristics, earlier: seq<Node>, n: Node, e: GuardError)
    requires DeclareApart(earlier) && e.InputTypeMismatch? && FirstNodeFault(h, Produced(earlier), n, e)
    ensures MismatchOf(h, earlier, n, e)
  {
    hide InputRight, InputAccepted, Declares, Reads, RefAt, Spec, DeclareApart, Produced, Takes;
    var j :| FirstBadPort(h, Produced(earlier), n, j, e.key);
    BadPortIsWrong(h, earlier, n, j, e.key);
    var m := BadKind(h, earlier, n, Spec(n.opName).inputs[j], e.ref);
    assert WrongKindFor(h, earlier, n, e, j, m);
  }

  lemma WrongKindIsMismatch(h: Heuristics, earlier: seq<Node>, n: Node, e: GuardError)
    requires DeclareApart(earlier) && e.InputTypeMismatch? && MismatchOf(h, earlier, n, e)
    ensures FirstNodeFault(h, Produced(earlier), n, e)
  {
    hide InputRight, InputAccepted, Declares, Reads, RefAt, Spec, DeclareApart, Produced, Takes, FirstBadPort,
         IsTypeCompatible;
    var j: nat, m :| WrongKindFor(h, earlier, n, e, j, m);
    WrongKindIsFault(h, earlier, n, e, j, m);
    BadPortIsWrong(h, earlier, n, j, e.key);
  }

  lemma WrongKindIsFault(h: Heuristics, earlier: seq<Node>, n: Node, e: GuardError, j: nat, m: Node)
    requires DeclareApart(earlier) && e.InputTypeMismatch? && WrongKindFor(h, earlier, n, e, j, m) && e.step == n.stepId
    ensures NodeFault(h, Produced(earlier), n, e) && !InputRight(h, earlier, n, Spec(n.opName).inputs[j])
  {
    hide InputRight, InputAccepted, Declares, Reads, RefAt, Spec, DeclareApart, Produced, Takes, IsTypeCompatible;
    var p := Spec(n.opName).inputs[j];
    InputIsRight(h, earlier, n, p);
    RefIsText(n, e.key);
    RecordedKind(earlier, m, e.ref);
    WrongKindNotAccepted(h, Produced(earlier), n, p, e.ref);
    assert InputFault(n, p, e.key);
  }

  lemma WrongKindNotAccepted(h: Heuristics, produced: map<Ref, Kind>, n: Node, p: Port, text: Ref)
    requires RefAt(n.inputs, p.key) == text && text != "" && text in produced
    requires !Takes(p.dataType, produced[text])
    ensures !IsTypeCompatible(produced[text], p.dataType) && !InputAccepted(h, produced, n, p)
  {
    hide RefAt;
  }

  /**
   * A plan is rejected for a type exactly if a node visited after right nodes
   * only has, as its first input that is not right, one that reads an earlier
   * output of another kind; and the message names that node, input, text and kind.
   */
  lemma MismatchExactly(h: Heuristics, nodes: seq<Node>, e: GuardError)
    requires UniqueIds(nodes) && e.InputTypeMismatch?
    ensures RejectedFor(h, nodes, e) <==>
              && nodes != [] && GraphOf(nodes).Closed() && !HasCycle(GraphOf(nodes))
              && exists i: nat :: MismatchIn(h, GuardRun(nodes), i, e)
  {
    hide *;
    MismatchSomewhere(h, GuardRun(nodes), e);
    InputObjection(h, nodes, e);
  }

  lemma InputObjection(h: Heuristics, nodes: seq<Node>, e: GuardError)
    requires UniqueIds(nodes) && e.InputTypeMismatch?
    ensures RejectedFor(h, nodes, e) <==>
              && nodes != [] && GraphOf(nodes).Closed() && !HasCycle(GraphOf(nodes))
              && exists i :: FirstFault(h, GuardRun(nodes), i, e)
  {
    hide FirstFault, FirstUnknownName, GraphOf, GuardRun, HasCycle, StepGraph.Graph.Closed, UniqueIds;
  }

  lemma MismatchSomewhere(h: Heuristics, run: seq<Node>, e: GuardError)
    requires e.InputTypeMismatch?
    ensures (exists i :: FirstFault(h, run, i, e)) <==> (exists i: nat :: MismatchIn(h, run, i, e))
  {
    if i :| FirstFault(h, run, i, e) {
      MismatchAt(h, run, i, e);
    }
    if j: nat :| MismatchIn(h, run, j, e) {
      MismatchAt(h, run, j, e);
    }
    hide FirstFault, MismatchIn;
  }

  lemma MismatchAt(h: Heuristics, run: seq<Node>, i: nat, e: GuardError)
    requires i < |run| && e.InputTypeMismatch?
    ensures FirstFault(h, run, i, e) <==> MismatchIn(h, run, i, e)
  {
    hide FirstNodeFault, MismatchOf, NodeRight, NodeAccepted, Produced;
    PrefixIsRight(h, run, i);
    if forall x :: 0 <= x < i ==> RightAt(h, run, x) {
      RightNodesDeclareApart(h, run[..i]);
      if FirstNodeFault(h, Produced(run[..i]), run[i], e) {
        MismatchIsWrongKind(h, run[..i], run[i], e);
      }
      if MismatchOf(h, run[..i], run[i], e) {
        WrongKindIsMismatch(h, run[..i], run[i], e);
      }
    }
  }

  /** Right nodes up to i are accepted nodes up to i. */
  lemma PrefixIsRight(h: Heuristics, run: seq<Node>, i: nat)
    requires i <= |run|
    ensures (forall x :: 0 <= x < i ==> AcceptedAt(h, run, x)) <==> (forall x :: 0 <= x < i ==> RightAt(h, run, x))
    ensures (forall x :: 0 <= x < i ==> RightAt(h, run, x)) <==> (forall x :: 0 <= x < i ==> RightAt(h, run[..i], x))
  {
    var part := run[..i];
    hide NodeRight, NodeAccepted;
    RunIsRight(h, part);
    forall x | 0 <= x < i
      ensures AcceptedAt(h, run, x) == AcceptedAt(h, part, x) && RightAt(h, run, x) == RightAt(h, part, x)
    {
      assert part[..x] == run[..x];
    }
  }

  // ---- Every objection in plain words ----------------------------------------------------------

  /** What the message says is so. */
  ghost predicate Explained(h: Heuristics, earlier: seq<Node>, n: Node, e: GuardError) {
    match e
    case UnknownInputKey(s) =>
      s == n.stepId && exists k :: k in n.inputs && forall p :: p in Spec(n.opName).inputs ==> p.key != k
    case ParamMissing(s) =>
      s == n.stepId && exists k :: k in Spec(n.opName).requiredParams && !h.paramPresent(n.params, k)
    case InputMissing(s, k) =>
      s == n.stepId && IsBlank(n, k) && exists p :: InputFault(n, p, k) && !MayBeBlank(h, n, p)
    case InputRefUnresolved(s, k, r) =>
      && s == n.stepId && Reads(n, k, r) && !IsDeclared(earlier, r)
      && exists p :: InputFault(n, p, k) && !IsExternal(h, r, p.dataType)
    case InputTypeMismatch(s, k, r, actual) =>
      && s == n.stepId && Reads(n, k, r)
      && (exists m :: m in earlier && Declares(m, r) && Spec(m.opName).output.kind == actual)
      && exists p :: InputFault(n, p, k) && !Takes(p.dataType, actual)
    case OutputMissing(s, k) =>
      s == n.stepId && k == Spec(n.opName).output.key && forall text :: !Declares(n, text)
    case OutputRefDuplicated(s, k, r) =>
      s == n.stepId && k == Spec(n.opName).output.key && Declares(n, r) && IsDeclared(earlier, r)
    case _ => false
  }

  lemma FaultIsExplained(h: Heuristics, earlier: seq<Node>, n: Node, e: GuardError)
    requires NodeFault(h, Produced(earlier), n, e)
    ensures Explained(h, earlier, n, e)
  {
    hide RefAt, Reads, Declares, IsBlank, BlankAllowed, ExternalAllowed, MayBeBlank, IsExternal, Produced, Spec,
         IsTypeCompatible, Takes, OutputRef, IsDeclared;
    match e
    case InputMissing(s, k) =>
      RefIsText(n, k);
      var p :| InputFault(n, p, k) && !BlankAllowed(h, n, p);
      BlankIsText(h, n, p);
    case InputRefUnresolved(s, k, r) =>
      RefIsText(n, k);
      ProducedIsDeclared(earlier, r);
      var p :| InputFault(n, p, k) && !ExternalAllowed(h, r, p.dataType);
      ExternalIsText(h, r, p.dataType);
    case InputTypeMismatch(s, k, r, actual) =>
      RefIsText(n, k);
      ProducedIsDeclared(earlier, r);
      var p :| InputFault(n, p, k) && !IsTypeCompatible(actual, p.dataType);
      KindIsTaken(actual, p.dataType);
    case OutputMissing(s, k) => OutputIsText(n);
    case OutputRefDuplicated(s, k, r) =>
      OutputIsText(n);
      ProducedIsDeclared(earlier, r);
    case _ =>
  }

  predicate IsStep(nodes: seq<Node>, d: StepId) {
    exists m :: m in nodes && m.stepId == d
  }

  ghost predicate UnknownNameIn(nodes: seq<Node>, s: StepId) {
    exists n, d :: n in nodes && n.stepId == s && d in n.dependsOn && !IsStep(nodes, d)
  }

  lemma UnknownNameMeans(nodes: seq<Node>, s: StepId, i: int)
    requires UniqueIds(nodes) && FirstUnknownName(nodes, i, s)
    ensures UnknownNameIn(nodes, s)
  {
    GraphOfDescribes(nodes);
    hide UniqueIds, GraphOf;
    var d :| d in nodes[i].dependsOn && d !in GraphOf(nodes).deps;
    assert nodes[i] in nodes && !IsStep(nodes, d);
  }

  ghost predicate ExplainedAt(h: Heuristics, run: seq<Node>, i: nat, e: GuardError) {
    i < |run| && (forall x :: 0 <= x < i ==> RightAt(h, run, x)) && Explained(h, run[..i], run[i], e)
  }

  lemma FirstFaultMeans(h: Heuristics, run: seq<Node>, i: int, e: GuardError)
    requires FirstFault(h, run, i, e)
    ensures i >= 0 && ExplainedAt(h, run, i, e)
  {
    hide NodeFault, AcceptedAt, RightAt, Explained;
    FaultIsExplained(h, run[..i], run[i], e);
    PrefixIsRight(h, run, i);
  }

  /** Whatever a plan is rejected for holds of it, at a node before which every node is right. */
  lemma RejectionMeans(h: Heuristics, nodes: seq<Node>, e: GuardError)
    requires UniqueIds(nodes) && RejectedFor(h, nodes, e)
    ensures match e
            case EmptyNodes => nodes == []
            case UnknownDependency(s) => UnknownNameIn(nodes, s)
            case DependencyCycle => HasCycle(GraphOf(nodes))
            case _ => exists i: nat :: ExplainedAt(h, GuardRun(nodes), i, e)
  {
    hide FirstFault, FirstUnknownName, GraphOf, GuardRun, HasCycle, StepGraph.Graph.Closed, UniqueIds, ExplainedAt,
         UnknownNameIn;
    match e
    case EmptyNodes =>
    case DependencyCycle =>
    case UnknownDependency(s) =>
      var i :| FirstUnknownName(nodes, i, s);
      UnknownNameMeans(nodes, s, i);
    case _ =>
      var run := GuardRun(nodes);
      var i :| FirstFault(h, run, i, e);
      FirstFaultMeans(h, run, i, e);
  }
}
