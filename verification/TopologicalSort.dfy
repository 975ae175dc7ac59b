/**
 * The guard's Kahn sort (plan_guard.py, _topological_sort): the counting loop
 * with its `indegree` and `children` dicts, proved to compute the order of a
 * simple queue that never counts anything.
 */
module TopologicalSort {
  import opened StepGraph

  // ---- The simple form ----------------------------------------------------------

  /** All of c's dependencies have been emitted. */
  predicate Released(g: Graph, done: set<StepId>, c: StepId) {
    forall d :: d in g.Deps(c) ==> d in done
  }

  /** The steps that emitting `x` last releases, in plan order. */
  function NewlyReleased(g: Graph, order: seq<StepId>, done: set<StepId>, x: StepId): (r: seq<StepId>) {
    if order == [] then []
    else
      var init, c := order[..|order| - 1], order[|order| - 1];
      NewlyReleased(g, init, done, x)
      + (if x in g.Deps(c) && Released(g, done, c) then [c] else [])
  }

  /** The steps with no dependencies, in plan order. */
  function Roots(g: Graph, order: seq<StepId>): (r: seq<StepId>) {
    if order == [] then []
    else
      var init, c := order[..|order| - 1], order[|order| - 1];
      Roots(g, init) + (if g.Deps(c) == [] then [c] else [])
  }

  /** Emitted and queued steps are distinct, and are exactly those whose dependencies are emitted. */
  ghost predicate KahnInv(g: Graph, queue: seq<StepId>, ordered: seq<StepId>) {
    && g.Valid()
    && Distinct(ordered + queue)
    && (forall c :: c in ordered + queue <==> c in g.order && Released(g, ToSet(ordered), c))
  }

  /** The queue without counters: emit the head, enqueue what that releases. */
  ghost function KahnFrom(g: Graph, queue: seq<StepId>, ordered: seq<StepId>): (r: seq<StepId>)
    requires KahnInv(g, queue, ordered)
    decreases |g.deps.Keys| - |ordered|
  {
    if queue == [] then ordered
    else
      KahnRoom(g, queue, ordered);
      KahnStepKeepsInv(g, queue, ordered);
      KahnFrom(g, queue[1..] + NewlyReleased(g, g.order, ToSet(ordered + [queue[0]]), queue[0]), ordered + [queue[0]])
  }

  ghost function KahnOrder(g: Graph): (r: seq<StepId>)
    requires g.Valid()
  {
    KahnStarts(g);
    KahnFrom(g, Roots(g, g.order), [])
  }

  lemma {:induction false} NewlyReleasedMembers(g: Graph, order: seq<StepId>, done: set<StepId>, x: StepId)
    requires Distinct(order)
    ensures var r := NewlyReleased(g, order, done, x);
            && Distinct(r)
            && forall c :: c in r <==> c in order && x in g.Deps(c) && Released(g, done, c)
  {
    if order != [] {
      var init := order[..|order| - 1];
      NewlyReleasedMembers(g, init, done, x);
      assert order == init + [order[|order| - 1]];
    }
  }

  lemma {:induction false} RootsMembers(g: Graph, order: seq<StepId>)
    requires Distinct(order)
    ensures var r := Roots(g, order);
            && Distinct(r)
            && forall c :: c in r <==> c in order && g.Deps(c) == []
  {
    if order != [] {
      var init := order[..|order| - 1];
      RootsMembers(g, init);
      assert order == init + [order[|order| - 1]];
    }
  }

  lemma KahnStarts(g: Graph)
    requires g.Valid()
    ensures KahnInv(g, Roots(g, g.order), [])
  {
    RootsMembers(g, g.order);
    var q := Roots(g, g.order);
    assert [] + q == q;
    forall c ensures c in q <==> c in g.order && Released(g, ToSet([]), c) {
      if g.Deps(c) != [] {
        assert g.Deps(c)[0] in g.Deps(c);
      }
    }
  }

  lemma DistinctJoin(a: seq<StepId>, b: seq<StepId>)
    requires Distinct(a) && Distinct(b)
    requires forall x :: x in b ==> x !in a
    ensures Distinct(a + b)
  {
    forall i, j | 0 <= i < j < |a + b| ensures (a + b)[i] != (a + b)[j] {
      if i < |a| <= j {
        assert (a + b)[j] in b;
      }
    }
  }

  lemma KahnRoom(g: Graph, queue: seq<StepId>, ordered: seq<StepId>)
    requires KahnInv(g, queue, ordered) && queue != []
    ensures |ordered| < |g.deps.Keys| && queue[0] !in ordered
  {
    var all := ordered + queue;
    assert forall c :: c in all ==> c in g.deps.Keys;
    DistinctFits(all, g.deps.Keys);
    assert all[|ordered|] == queue[0];
    assert forall i :: 0 <= i < |ordered| ==> all[i] == ordered[i] && all[i] != all[|ordered|];
  }

  lemma KahnStepKeepsInv(g: Graph, queue: seq<StepId>, ordered: seq<StepId>)
    requires KahnInv(g, queue, ordered) && queue != []
    ensures KahnInv(g, queue[1..] + NewlyReleased(g, g.order, ToSet(ordered + [queue[0]]), queue[0]), ordered + [queue[0]])
  {
    var x := queue[0];
    var ordered' := ordered + [x];
    var added := NewlyReleased(g, g.order, ToSet(ordered'), x);
    var all := ordered + queue;
    NewlyReleasedMembers(g, g.order, ToSet(ordered'), x);
    AddedAreNew(g, queue, ordered, added);
    hide NewlyReleased, Released, Distinct;
    DistinctJoin(all, added);
    assert ordered' + (queue[1..] + added) == all + added;
    forall c ensures c in all + added <==> c in g.order && Released(g, ToSet(ordered'), c) {
      FrontierGrows(g, queue, ordered, added, c);
    }
  }

  lemma AddedAreNew(g: Graph, queue: seq<StepId>, ordered: seq<StepId>, added: seq<StepId>)
    requires KahnInv(g, queue, ordered) && queue != []
    requires forall c :: c in added ==> queue[0] in g.Deps(c)
    ensures forall c :: c in added ==> c !in ordered + queue
  {
    KahnRoom(g, queue, ordered);
    forall c | c in added ensures c !in ordered + queue {
      assert !Released(g, ToSet(ordered), c);
    }
  }

  lemma FrontierGrows(g: Graph, queue: seq<StepId>, ordered: seq<StepId>, added: seq<StepId>, c: StepId)
    requires KahnInv(g, queue, ordered) && queue != []
    requires forall e :: e in added <==>
               e in g.order && queue[0] in g.Deps(e) && Released(g, ToSet(ordered + [queue[0]]), e)
    ensures c in ordered + queue + added <==> c in g.order && Released(g, ToSet(ordered + [queue[0]]), c)
  {
    if c in g.order && Released(g, ToSet(ordered + [queue[0]]), c) && queue[0] !in g.Deps(c) {
      assert Released(g, ToSet(ordered), c);
    }
    if c in ordered + queue {
      assert Released(g, ToSet(ordered), c);
    }
  }

  /** One turn of the queue. */
  lemma KahnTurn(g: Graph, queue: seq<StepId>, ordered: seq<StepId>)
    requires KahnInv(g, queue, ordered) && queue != []
    ensures var done := ToSet(ordered + [queue[0]]);
            var next := queue[1..] + NewlyReleased(g, g.order, done, queue[0]);
            && KahnInv(g, next, ordered + [queue[0]])
            && KahnFrom(g, queue, ordered) == KahnFrom(g, next, ordered + [queue[0]])
            && |ordered| < |g.deps.Keys|
  {
    KahnRoom(g, queue, ordered);
    KahnStepKeepsInv(g, queue, ordered);
  }

  // ---- What the order means -------------------------------------------------------

  /** Each entry's dependencies all stand before it. */
  ghost predicate DependenciesFirst(g: Graph, s: seq<StepId>) {
    forall i, d :: 0 <= i < |s| && d in g.Deps(s[i]) ==> d in s[..i]
  }

  lemma {:induction false} KahnFromCorrect(g: Graph, queue: seq<StepId>, ordered: seq<StepId>)
    requires KahnInv(g, queue, ordered)
    requires DependenciesFirst(g, ordered)
    ensures var r := KahnFrom(g, queue, ordered);
            KahnInv(g, [], r) && DependenciesFirst(g, r) && ordered <= r
    decreases |g.deps.Keys| - |ordered|
  {
    if queue != [] {
      KahnRoom(g, queue, ordered);
      KahnStepKeepsInv(g, queue, ordered);
      var ordered' := ordered + [queue[0]];
      assert queue[0] in ordered + queue;
      forall i, d | 0 <= i < |ordered'| && d in g.Deps(ordered'[i]) ensures d in ordered'[..i] {
        if i < |ordered| {
          assert ordered'[..i] == ordered[..i];
        } else {
          assert ordered'[..i] == ordered;
        }
      }
      KahnFromCorrect(g, queue[1..] + NewlyReleased(g, g.order, ToSet(ordered'), queue[0]), ordered');
    }
  }

  /**
   * The order is duplicate-free, puts every dependency first, and lists exactly
   * the steps that reach no cycle and no unknown step.
   */
  lemma KahnOrderIsTopological(g: Graph)
    requires g.Valid()
    ensures var r := KahnOrder(g);
            && Distinct(r)
            && DependenciesFirst(g, r)
            && forall s :: s in r <==> s in g.deps && !Doomed(g, s)
  {
    KahnStarts(g);
    KahnFromCorrect(g, Roots(g, g.order), []);
    var r := KahnOrder(g);
    assert r + [] == r;
    forall i | 0 <= i < |r| ensures CanRun(g, r[i]) {
      EmittedCanRun(g, r, i);
    }
    forall s ensures s in r <==> s in g.deps && !Doomed(g, s) {
      CanRunIffNotDoomed(g, s);
      if CanRun(g, s) {
        var n: nat :| Runnable(g, s, n);
        RunnableIsEmitted(g, r, s, n);
      }
    }
  }

  lemma {:induction false} EmittedCanRun(g: Graph, r: seq<StepId>, i: nat)
    requires DependenciesFirst(g, r) && i < |r|
    requires forall s :: s in r ==> s in g.deps
    ensures CanRun(g, r[i])
    decreases i
  {
    forall d | d in g.deps[r[i]] ensures CanRun(g, d) {
      assert d in g.Deps(r[i]);
      var k :| 0 <= k < i && r[..i][k] == d;
      EmittedCanRun(g, r, k);
    }
    CanRunStep(g, r[i]);
  }

  lemma {:induction false} RunnableIsEmitted(g: Graph, r: seq<StepId>, s: StepId, n: nat)
    requires KahnInv(g, [], r) && Runnable(g, s, n)
    ensures s in r
    decreases n
  {
    forall d | d in g.Deps(s) ensures d in ToSet(r) {
      RunnableIsEmitted(g, r, d, n - 1);
    }
    assert s in r + [];
  }

  // ---- Shallow steps first --------------------------------------------------------------

  /** No chain of dependencies from a is longer than the longest from b. */
  ghost predicate NoDeeper(g: Graph, a: StepId, b: StepId) {
    forall n: nat :: Runnable(g, b, n) ==> Runnable(g, a, n)
  }

  /** At most one edge deeper. */
  ghost predicate LittleDeeper(g: Graph, a: StepId, b: StepId) {
    forall n: nat :: Runnable(g, b, n) ==> Runnable(g, a, n + 1)
  }

  /** The emitted and queued steps come by depth, and the queue spans two depths at most. */
  ghost predicate ByDepth(g: Graph, queue: seq<StepId>, ordered: seq<StepId>) {
    && (forall i, j :: 0 <= i < j < |ordered + queue| ==> NoDeeper(g, (ordered + queue)[i], (ordered + queue)[j]))
    && (forall i :: 0 <= i < |queue| ==> LittleDeeper(g, queue[i], queue[0]))
  }

  lemma DepthIsTransitive(g: Graph, a: StepId, b: StepId, c: StepId)
    requires NoDeeper(g, a, b)
    ensures NoDeeper(g, b, c) ==> NoDeeper(g, a, c)
    ensures LittleDeeper(g, b, c) ==> LittleDeeper(g, a, c)
  {}

  lemma LittleDeeperSelf(g: Graph, a: StepId)
    ensures LittleDeeper(g, a, a) && NoDeeper(g, a, a)
  {
    forall n: nat | Runnable(g, a, n)
      ensures Runnable(g, a, n + 1)
    {
      RunnableMonotone(g, a, n, n + 1);
    }
  }

  /** A step released by x, whose other dependencies are no deeper, is exactly one edge deeper than x. */
  ghost predicate OneDeeper(g: Graph, c: StepId, x: StepId) {
    && (forall n: nat :: Runnable(g, x, n) ==> Runnable(g, c, n + 1))
    && (forall n: nat :: Runnable(g, c, n) ==> n > 0 && Runnable(g, x, n - 1))
  }

  lemma ReleasedIsOneDeeper(g: Graph, c: StepId, x: StepId)
    requires c in g.deps && x in g.deps[c] && forall d :: d in g.deps[c] ==> NoDeeper(g, d, x)
    ensures OneDeeper(g, c, x)
  {
    forall n: nat | Runnable(g, x, n)
      ensures Runnable(g, c, n + 1)
    {
      assert forall d :: d in g.deps[c] ==> Runnable(g, d, n);
    }
  }

  lemma AddedComesAfter(g: Graph, e: StepId, c: StepId, x: StepId)
    requires OneDeeper(g, c, x) && LittleDeeper(g, e, x)
    ensures NoDeeper(g, e, c)
  {
    forall n: nat | Runnable(g, c, n)
      ensures Runnable(g, e, n)
    {
      assert Runnable(g, x, n - 1);
    }
  }

  lemma AddedStaysNear(g: Graph, c: StepId, x: StepId, y: StepId)
    requires OneDeeper(g, c, x) && NoDeeper(g, x, y)
    ensures LittleDeeper(g, c, y)
  {}

  lemma KahnTurnByDepth(g: Graph, queue: seq<StepId>, ordered: seq<StepId>)
    requires KahnInv(g, queue, ordered) && queue != [] && ByDepth(g, queue, ordered)
    ensures ByDepth(g, queue[1..] + NewlyReleased(g, g.order, ToSet(ordered + [queue[0]]), queue[0]), ordered + [queue[0]])
  {
    var x := queue[0];
    var done := ToSet(ordered + [x]);
    var added := NewlyReleased(g, g.order, done, x);
    NewlyReleasedMembers(g, g.order, done, x);
    forall c | c in added
      ensures OneDeeper(g, c, x)
    {
      forall d | d in g.deps[c]
        ensures NoDeeper(g, d, x)
      {
        EmittedIsNoDeeper(g, queue, ordered, d);
      }
      ReleasedIsOneDeeper(g, c, x);
    }
    hide NewlyReleased, NoDeeper, LittleDeeper, OneDeeper, KahnInv, Distinct, Released;
    QueueByDepth(g, queue, ordered, added);
  }

  lemma EmittedIsNoDeeper(g: Graph, queue: seq<StepId>, ordered: seq<StepId>, d: StepId)
    requires queue != [] && ByDepth(g, queue, ordered) && d in ordered + [queue[0]]
    ensures NoDeeper(g, d, queue[0])
  {
    hide NoDeeper, LittleDeeper;
    LittleDeeperSelf(g, d);
    var all := ordered + queue;
    if d in ordered {
      var i :| 0 <= i < |ordered| && ordered[i] == d;
      assert all[i] == d && all[|ordered|] == queue[0];
    }
  }

  lemma QueueByDepth(g: Graph, queue: seq<StepId>, ordered: seq<StepId>, added: seq<StepId>)
    requires queue != [] && ByDepth(g, queue, ordered)
    requires forall c :: c in added ==> OneDeeper(g, c, queue[0])
    ensures ByDepth(g, queue[1..] + added, ordered + [queue[0]])
  {
    hide NoDeeper, LittleDeeper, OneDeeper;
    var x, before, next := queue[0], ordered + queue, queue[1..] + added;
    var all := (ordered + [x]) + next;
    assert all == before + added;
    assert before[|ordered|] == x;
    forall e | e in before
      ensures LittleDeeper(g, e, x)
    {
      OldIsLittleDeeper(g, queue, ordered, e);
    }
    forall c | c in added
      ensures LittleDeeper(g, c, x)
    {
      LittleDeeperSelf(g, x);
      AddedStaysNear(g, c, x, x);
    }
    forall i, j | 0 <= i < j < |all|
      ensures NoDeeper(g, all[i], all[j])
    {
      if j < |before| {
        assert all[i] == before[i] && all[j] == before[j];
      } else {
        assert all[j] in added;
        assert all[i] in before || all[i] in added;
        AddedComesAfter(g, all[i], all[j], x);
      }
    }
    forall i | 0 <= i < |next|
      ensures LittleDeeper(g, next[i], next[0])
    {
      HeadIsNear(g, queue, ordered, added, next[i]);
    }
  }

  lemma OldIsLittleDeeper(g: Graph, queue: seq<StepId>, ordered: seq<StepId>, e: StepId)
    requires queue != [] && ByDepth(g, queue, ordered) && e in ordered + queue
    ensures LittleDeeper(g, e, queue[0])
  {
    hide NoDeeper, LittleDeeper;
    if e in ordered {
      assert e in ordered + [queue[0]];
      EmittedIsNoDeeper(g, queue, ordered, e);
      LittleDeeperSelf(g, queue[0]);
      DepthIsTransitive(g, e, queue[0], queue[0]);
    }
  }

  lemma HeadIsNear(g: Graph, queue: seq<StepId>, ordered: seq<StepId>, added: seq<StepId>, q: StepId)
    requires queue != [] && ByDepth(g, queue, ordered) && q in queue[1..] + added
    requires forall c :: c in added ==> OneDeeper(g, c, queue[0]) && LittleDeeper(g, c, queue[0])
    requires forall e :: e in ordered + queue ==> LittleDeeper(g, e, queue[0])
    ensures LittleDeeper(g, q, (queue[1..] + added)[0])
  {
    hide NoDeeper, OneDeeper;
    var x, before, head := queue[0], ordered + queue, (queue[1..] + added)[0];
    assert before[|ordered|] == x;
    if |queue| > 1 {
      assert before[|ordered| + 1] == queue[1] == head;
      assert NoDeeper(g, x, head);
    } else {
      assert head in added;
      LittleDeeperSelf(g, x);
      AddedComesAfter(g, x, head, x);
    }
    assert q in before || q in added;
    NearerHead(g, q, x, head);
  }

  lemma NearerHead(g: Graph, q: StepId, x: StepId, head: StepId)
    requires LittleDeeper(g, q, x) && NoDeeper(g, x, head)
    ensures LittleDeeper(g, q, head)
  {}

  lemma {:induction false} KahnFromByDepth(g: Graph, queue: seq<StepId>, ordered: seq<StepId>)
    requires KahnInv(g, queue, ordered) && ByDepth(g, queue, ordered)
    ensures ByDepth(g, [], KahnFrom(g, queue, ordered))
    decreases |g.deps.Keys| - |ordered|
  {
    hide ByDepth, NewlyReleased;
    if queue != [] {
      KahnTurn(g, queue, ordered);
      KahnTurnByDepth(g, queue, ordered);
      KahnFromByDepth(g, queue[1..] + NewlyReleased(g, g.order, ToSet(ordered + [queue[0]]), queue[0]), ordered + [queue[0]]);
    } else {
      NothingQueued(ordered);
    }
  }

  lemma NothingQueued(ordered: seq<StepId>)
    ensures ordered + [] == ordered
  {}

  lemma RootsByDepth(g: Graph)
    requires g.Valid()
    ensures ByDepth(g, Roots(g, g.order), [])
  {
    var roots := Roots(g, g.order);
    RootsMembers(g, g.order);
    assert [] + roots == roots;
    assert forall c, n: nat :: c in roots ==> Runnable(g, c, n);
  }

  /** Kahn's order lists the steps by depth: one with a shorter longest chain of dependencies never comes later. */
  lemma KahnListsByDepth(g: Graph, i: nat, j: nat, n: nat)
    requires g.Valid() && i < j < |KahnOrder(g)| && Runnable(g, KahnOrder(g)[j], n)
    ensures Runnable(g, KahnOrder(g)[i], n)
  {
    KahnStarts(g);
    RootsByDepth(g);
    KahnFromByDepth(g, Roots(g, g.order), []);
    var r := KahnOrder(g);
    hide KahnOrder;
    NothingQueued(r);
    assert NoDeeper(g, r[i], r[j]);
  }

  // ---- Counting: entries of depends_on still missing -------------------------------

  function Count(s: seq<StepId>, x: StepId): (n: nat)
    ensures n > 0 <==> x in s
  {
    if s == [] then 0
    else
      assert s == s[..|s| - 1] + [s[|s| - 1]];
      Count(s[..|s| - 1], x) + (if s[|s| - 1] == x then 1 else 0)
  }

  lemma {:induction false} CountJoin(a: seq<StepId>, b: seq<StepId>, x: StepId)
    ensures Count(a + b, x) == Count(a, x) + Count(b, x)
  {
    if b == [] {
      assert a + b == a;
    } else {
      CountJoin(a, b[..|b| - 1], x);
      assert (a + b)[..|a + b| - 1] == a + b[..|b| - 1];
    }
  }

  function Missing(ds: seq<StepId>, done: set<StepId>): (n: nat)
    ensures n == 0 <==> forall d :: d in ds ==> d in done
  {
    if ds == [] then 0
    else
      assert ds == ds[..|ds| - 1] + [ds[|ds| - 1]];
      Missing(ds[..|ds| - 1], done) + (if ds[|ds| - 1] in done then 0 else 1)
  }

  lemma {:induction false} MissingAll(ds: seq<StepId>)
    ensures Missing(ds, {}) == |ds|
  {
    if ds != [] {
      MissingAll(ds[..|ds| - 1]);
    }
  }

  /** Emitting x lowers the count by the number of times x is listed. */
  lemma {:induction false} MissingDrops(ds: seq<StepId>, done: set<StepId>, x: StepId)
    requires x !in done
    ensures Missing(ds, done) == Missing(ds, done + {x}) + Count(ds, x)
  {
    if ds != [] {
      var init := ds[..|ds| - 1];
      assert ds == init + [ds[|ds| - 1]];
      MissingDrops(init, done, x);
    }
  }

  // ---- The children dict: one entry per listed dependency ----------------------------

  function Times(c: StepId, n: nat): (r: seq<StepId>)
    ensures |r| == n && forall i :: 0 <= i < n ==> r[i] == c
  {
    if n == 0 then [] else Times(c, n - 1) + [c]
  }

  lemma {:induction false} CountTimes(c: StepId, n: nat, x: StepId)
    ensures Count(Times(c, n), x) == if c == x then n else 0
  {
    if n > 0 {
      CountTimes(c, n - 1, x);
      assert Times(c, n)[..n - 1] == Times(c, n - 1);
    }
  }

  /** `children[x]`: c once for each time it lists x, in plan order. */
  function ChildEntries(g: Graph, order: seq<StepId>, x: StepId): (r: seq<StepId>)
    ensures forall c :: c in r ==> c in order && x in g.Deps(c)
  {
    if order == [] then []
    else
      var init, c := order[..|order| - 1], order[|order| - 1];
      assert order == init + [c];
      ChildEntries(g, init, x) + Times(c, Count(g.Deps(c), x))
  }

  lemma {:induction false} ChildEntriesCount(g: Graph, order: seq<StepId>, x: StepId, c: StepId)
    requires Distinct(order) && c in order
    ensures Count(ChildEntries(g, order, x), c) == Count(g.Deps(c), x)
  {
    var init, last := order[..|order| - 1], order[|order| - 1];
    assert order == init + [last];
    var n := Count(g.Deps(last), x);
    CountJoin(ChildEntries(g, init, x), Times(last, n), c);
    CountTimes(last, n, c);
    if c == last {
      assert c !in ChildEntries(g, init, x);
    } else {
      ChildEntriesCount(g, init, x, c);
    }
  }

  /** No later entry names the same step. */
  predicate LastEntry(entries: seq<StepId>, j: nat)
    requires j < |entries|
  {
    forall k :: j < k < |entries| ==> entries[k] != entries[j]
  }

  /** Entry j is where its step joins the queue: its last entry, all dependencies emitted. */
  predicate Joins(g: Graph, done: set<StepId>, entries: seq<StepId>, j: nat)
    requires j < |entries|
  {
    LastEntry(entries, j) && Released(g, done, entries[j])
  }

  function JoinFlags(g: Graph, done: set<StepId>, entries: seq<StepId>): (r: seq<bool>)
    ensures |r| == |entries| && forall j :: 0 <= j < |entries| ==> r[j] == Joins(g, done, entries, j)
  {
    seq(|entries|, j requires 0 <= j < |entries| => Joins(g, done, entries, j))
  }

  /** `queue` followed by the first j entries that are flagged. */
  function Select(entries: seq<StepId>, flags: seq<bool>, j: nat, queue: seq<StepId>): seq<StepId>
    requires j <= |entries| == |flags|
  {
    if j == 0 then queue
    else
      var before := Select(entries, flags, j - 1, queue);
      if flags[j - 1] then before + [entries[j - 1]] else before
  }

  lemma {:induction false} SelectIgnoresTail(entries: seq<StepId>, flags: seq<bool>, e: seq<StepId>, f: seq<bool>,
                                             j: nat, queue: seq<StepId>)
    requires |entries| == |flags| && |e| == |f| && j <= |e| && j <= |entries|
    requires e[..j] == entries[..j] && f[..j] == flags[..j]
    ensures Select(e, f, j, queue) == Select(entries, flags, j, queue)
  {
    if j > 0 {
      assert e[..j][..j - 1] == e[..j - 1] && entries[..j][..j - 1] == entries[..j - 1];
      assert f[..j][..j - 1] == f[..j - 1] && flags[..j][..j - 1] == flags[..j - 1];
      SelectIgnoresTail(entries, flags, e, f, j - 1, queue);
      assert e[j - 1] == e[..j][j - 1] && entries[j - 1] == entries[..j][j - 1];
      assert f[j - 1] == f[..j][j - 1] && flags[j - 1] == flags[..j][j - 1];
    }
  }

  /** The flags of entries `a` are not changed by a block of another step's entries. */
  lemma FlagsOfPrefix(g: Graph, done: set<StepId>, a: seq<StepId>, c: StepId, n: nat)
    requires c !in a
    ensures JoinFlags(g, done, a + Times(c, n))[..|a|] == JoinFlags(g, done, a)
  {
    var s := a + Times(c, n);
    forall j | 0 <= j < |a| ensures Joins(g, done, s, j) == Joins(g, done, a, j) {
      assert s[j] == a[j] && a[j] in a;
      assert forall k :: 0 <= k < |a| ==> s[k] == a[k];
      assert forall k :: |a| <= k < |s| ==> s[k] == Times(c, n)[k - |a|];
    }
  }

  lemma {:induction false} SelectBlock(g: Graph, done: set<StepId>, a: seq<StepId>, c: StepId, n: nat, j: nat,
                                       queue: seq<StepId>, s: seq<StepId>, before: seq<StepId>)
    requires c !in a && j <= n && s == a + Times(c, n)
    requires before == Select(a, JoinFlags(g, done, a), |a|, queue)
    ensures Select(s, JoinFlags(g, done, s), |a| + j, queue)
         == if 0 < j == n && Released(g, done, c) then before + [c] else before
  {
    if j == 0 {
      FlagsOfPrefix(g, done, a, c, n);
      SelectIgnoresTail(a, JoinFlags(g, done, a), s, JoinFlags(g, done, s), |a|, queue);
    } else {
      SelectBlock(g, done, a, c, n, j - 1, queue, s, before);
      assert s[|a| + j - 1] == Times(c, n)[j - 1] == c;
      if j < n {
        assert s[|a| + j] == Times(c, n)[j] == c;
      }
      assert LastEntry(s, |a| + j - 1) <==> j == n;
    }
  }

  /** Over all its entries the inner loop enqueues what the simple form does. */
  lemma {:induction false} SelectIsNewlyReleased(g: Graph, order: seq<StepId>, done: set<StepId>, x: StepId,
                                                 queue: seq<StepId>)
    requires Distinct(order)
    ensures var e := ChildEntries(g, order, x);
            Select(e, JoinFlags(g, done, e), |e|, queue) == queue + NewlyReleased(g, order, done, x)
  {
    if order != [] {
      var init, c := order[..|order| - 1], order[|order| - 1];
      assert order == init + [c];
      SelectIsNewlyReleased(g, init, done, x, queue);
      assert c !in ChildEntries(g, init, x);
      SelectNext(g, init, c, done, x, queue, ChildEntries(g, init, x), NewlyReleased(g, init, done, x));
      assert (init + [c])[..|init|] == init;
    }
  }

  lemma SelectNext(g: Graph, init: seq<StepId>, c: StepId, done: set<StepId>, x: StepId, queue: seq<StepId>,
                   a: seq<StepId>, before: seq<StepId>)
    requires c !in a && Select(a, JoinFlags(g, done, a), |a|, queue) == queue + before
    ensures var e := a + Times(c, Count(g.Deps(c), x));
            Select(e, JoinFlags(g, done, e), |e|, queue)
            == queue + (before + (if x in g.Deps(c) && Released(g, done, c) then [c] else []))
  {
    var n := Count(g.Deps(c), x);
    var e := a + Times(c, n);
    assert |e| == |a| + n;
    SelectBlock(g, done, a, c, n, n, queue, e, queue + before);
    var joined: seq<StepId> := if x in g.Deps(c) && Released(g, done, c) then [c] else [];
    assert queue + (before + joined) == (queue + before) + joined;
    assert (queue + before) + [] == queue + before;
  }

  // ---- The loop itself ------------------------------------------------------------

  function Lookup(children: map<StepId, seq<StepId>>, x: StepId): seq<StepId> {
    if x in children then children[x] else []
  }

  /** children.setdefault(dep, []).append(step_id) for every entry of every step. */
  method BuildChildren(g: Graph) returns (children: map<StepId, seq<StepId>>)
    requires g.Valid()
    ensures forall x :: Lookup(children, x) == ChildEntries(g, g.order, x)
  {
    children := map s | s in g.deps :: [];
    for i := 0 to |g.order|
      invariant forall x :: Lookup(children, x) == ChildEntries(g, g.order[..i], x)
    {
      children := AddChild(g, i, children);
    }
    assert g.order[..|g.order|] == g.order;
  }

  /** x's list has grown by one entry for each time x is among the first j listed dependencies. */
  ghost predicate EntryAdded(children: map<StepId, seq<StepId>>, before: map<StepId, seq<StepId>>,
                             step: StepId, ds: seq<StepId>, j: nat, x: StepId)
    requires j <= |ds|
  {
    Lookup(children, x) == Lookup(before, x) + Times(step, Count(ds[..j], x))
  }

  ghost predicate EntriesAdded(children: map<StepId, seq<StepId>>, before: map<StepId, seq<StepId>>,
                               step: StepId, ds: seq<StepId>, j: nat)
    requires j <= |ds|
  {
    forall x :: EntryAdded(children, before, step, ds, j, x)
  }

  /** The inner loop of BuildChildren: one step's depends_on entries. */
  method AddChild(g: Graph, i: nat, before: map<StepId, seq<StepId>>) returns (children: map<StepId, seq<StepId>>)
    requires g.Valid() && i < |g.order|
    requires forall x :: Lookup(before, x) == ChildEntries(g, g.order[..i], x)
    ensures forall x :: Lookup(children, x) == ChildEntries(g, g.order[..i + 1], x)
  {
    var step := g.order[i];
    var ds := g.deps[step];
    children := before;
    NothingAdded(before, step, ds);
    for j := 0 to |ds|
      invariant EntriesAdded(children, before, step, ds, j)
    {
      AddEntries(children, before, step, ds, j);
      children := children[ds[j] := Lookup(children, ds[j]) + [step]];
    }
    AllAdded(g, i, children, before);
  }

  lemma NothingAdded(before: map<StepId, seq<StepId>>, step: StepId, ds: seq<StepId>)
    ensures EntriesAdded(before, before, step, ds, 0)
  {
    forall x ensures EntryAdded(before, before, step, ds, 0, x) {
      assert Lookup(before, x) + [] == Lookup(before, x);
    }
  }

  lemma AllAdded(g: Graph, i: nat, children: map<StepId, seq<StepId>>, before: map<StepId, seq<StepId>>)
    requires g.Valid() && i < |g.order|
    requires forall x :: Lookup(before, x) == ChildEntries(g, g.order[..i], x)
    requires EntriesAdded(children, before, g.order[i], g.deps[g.order[i]], |g.deps[g.order[i]]|)
    ensures forall x :: Lookup(children, x) == ChildEntries(g, g.order[..i + 1], x)
  {
    var step := g.order[i];
    var ds := g.deps[step];
    assert ds[..|ds|] == ds;
    assert g.order[..i + 1][..i] == g.order[..i];
    forall x ensures Lookup(children, x) == ChildEntries(g, g.order[..i + 1], x) {
      assert EntryAdded(children, before, step, ds, |ds|, x);
    }
  }

  lemma AddEntries(was: map<StepId, seq<StepId>>, before: map<StepId, seq<StepId>>,
                   step: StepId, ds: seq<StepId>, j: nat)
    requires j < |ds| && EntriesAdded(was, before, step, ds, j)
    ensures EntriesAdded(was[ds[j] := Lookup(was, ds[j]) + [step]], before, step, ds, j + 1)
  {
    var grown := was[ds[j] := Lookup(was, ds[j]) + [step]];
    var k := j + 1;
    hide EntryAdded, Lookup;
    forall x ensures EntryAdded(grown, before, step, ds, k, x) {
      assert EntryAdded(was, before, step, ds, j, x);
      AddEntry(was, before, step, ds, j, x);
    }
  }

  lemma AddEntry(was: map<StepId, seq<StepId>>, before: map<StepId, seq<StepId>>,
                 step: StepId, ds: seq<StepId>, j: nat, x: StepId)
    requires j < |ds| && EntryAdded(was, before, step, ds, j, x)
    ensures EntryAdded(was[ds[j] := Lookup(was, ds[j]) + [step]], before, step, ds, j + 1, x)
  {
    CountNext(ds, j, x);
    TimesNext(Lookup(before, x), step, Count(ds[..j], x));
    hide Count, Times;
  }

  lemma CountNext(ds: seq<StepId>, j: nat, x: StepId)
    requires j < |ds|
    ensures Count(ds[..j + 1], x) == Count(ds[..j], x) + (if ds[j] == x then 1 else 0)
  {
    assert ds[..j + 1][..j] == ds[..j];
  }

  lemma TimesNext(head: seq<StepId>, c: StepId, n: nat)
    ensures head + Times(c, n + 1) == head + Times(c, n) + [c]
  {}

  /** Each counter holds the entries still missing, plus its own entries not yet visited. */
  ghost predicate Counting(g: Graph, done: set<StepId>, entries: seq<StepId>, j: nat, indegree: map<StepId, int>)
    requires j <= |entries|
  {
    && indegree.Keys == g.deps.Keys
    && forall c :: c in g.deps ==> indegree[c] == Missing(g.deps[c], done) + Count(entries[j..], c)
  }

  /** The counters and the queue after the first j entries. */
  ghost predicate ReleasedTo(g: Graph, done: set<StepId>, entries: seq<StepId>, waiting: seq<StepId>, j: nat,
                             indegree: map<StepId, int>, queue: seq<StepId>)
    requires j <= |entries|
  {
    && Counting(g, done, entries, j, indegree)
    && queue == Select(entries, JoinFlags(g, done, entries), j, waiting)
  }

  /** The loop over `children.get(step_id, [])`, after step_id was emitted. */
  method ReleaseChildren(ghost g: Graph, ghost done: set<StepId>, entries: seq<StepId>,
                         counts: map<StepId, int>, waiting: seq<StepId>)
    returns (indegree: map<StepId, int>, queue: seq<StepId>)
    requires forall e :: e in entries ==> e in g.deps
    requires Counting(g, done, entries, 0, counts)
    ensures ReleasedTo(g, done, entries, waiting, |entries|, indegree, queue)
  {
    hide *;
    indegree, queue := counts, waiting;
    ReleaseStarts(g, done, entries, counts, waiting);
    for j := 0 to |entries|
      invariant ReleasedTo(g, done, entries, waiting, j, indegree, queue)
      invariant indegree.Keys == g.deps.Keys
    {
      var child := entries[j];
      ReleaseStep(g, done, entries, waiting, j, indegree, queue);
      indegree := indegree[child := indegree[child] - 1];
      if indegree[child] == 0 {
        queue := queue + [child];
      }
    }
  }

  lemma ReleaseStarts(g: Graph, done: set<StepId>, entries: seq<StepId>, counts: map<StepId, int>, waiting: seq<StepId>)
    requires Counting(g, done, entries, 0, counts)
    ensures counts.Keys == g.deps.Keys && ReleasedTo(g, done, entries, waiting, 0, counts, waiting)
  {}

  lemma ReleaseStep(g: Graph, done: set<StepId>, entries: seq<StepId>, waiting: seq<StepId>, j: nat,
                    indegree: map<StepId, int>, queue: seq<StepId>)
    requires j < |entries| && entries[j] in g.deps
    requires ReleasedTo(g, done, entries, waiting, j, indegree, queue)
    ensures var child := entries[j];
            var next := indegree[child := indegree[child] - 1];
            && ReleasedTo(g, done, entries, waiting, j + 1, next, if next[child] == 0 then queue + [child] else queue)
            && next.Keys == g.deps.Keys
  {
    CountingStep(g, done, entries, j, indegree);
    var flags := JoinFlags(g, done, entries);
    assert flags[j] == Joins(g, done, entries, j);
    assert Select(entries, flags, j + 1, waiting)
        == if flags[j] then Select(entries, flags, j, waiting) + [entries[j]] else Select(entries, flags, j, waiting);
  }

  lemma CountingStep(g: Graph, done: set<StepId>, entries: seq<StepId>, j: nat, indegree: map<StepId, int>)
    requires j < |entries| && entries[j] in g.deps
    requires Counting(g, done, entries, j, indegree)
    ensures var child := entries[j];
            var next := indegree[child := indegree[child] - 1];
            && Counting(g, done, entries, j + 1, next)
            && (next[child] == 0 <==> Joins(g, done, entries, j))
  {
    var child := entries[j];
    var next := indegree[child := indegree[child] - 1];
    forall c | c in g.deps
      ensures next[c] == Missing(g.deps[c], done) + Count(entries[j + 1..], c)
    {
      FewerLeft(entries, j, c);
    }
    assert child !in entries[j + 1..] <==> LastEntry(entries, j) by {
      assert forall k :: j < k < |entries| ==> entries[k] == entries[j + 1..][k - j - 1];
    }
  }

  lemma FewerLeft(entries: seq<StepId>, j: nat, c: StepId)
    requires j < |entries|
    ensures Count(entries[j..], c) == Count(entries[j + 1..], c) + (if c == entries[j] then 1 else 0)
  {
    assert entries[j..] == [entries[j]] + entries[j + 1..];
    CountJoin([entries[j]], entries[j + 1..], c);
    assert Count([entries[j]], c) == if c == entries[j] then 1 else 0;
  }

  /** Every counter holds the number of listed dependencies not yet emitted. */
  ghost predicate CountsMissing(g: Graph, ordered: seq<StepId>, indegree: map<StepId, int>) {
    && indegree.Keys == g.deps.Keys
    && forall c :: c in g.deps ==> indegree[c] == Missing(g.deps[c], ToSet(ordered))
  }

  lemma CountsStart(g: Graph, indegree: map<StepId, int>)
    requires indegree.Keys == g.deps.Keys
    requires forall c :: c in g.deps ==> indegree[c] == |g.deps[c]|
    ensures CountsMissing(g, [], indegree)
  {
    assert ToSet([]) == {};
    forall c | c in g.deps ensures indegree[c] == Missing(g.deps[c], {}) {
      MissingAll(g.deps[c]);
    }
  }

  /** The initial queue: steps whose counter is zero, in plan order. */
  method FindRoots(g: Graph, indegree: map<StepId, int>) returns (queue: seq<StepId>)
    requires g.Valid() && indegree.Keys == g.deps.Keys
    requires forall s :: s in g.deps ==> indegree[s] == |g.deps[s]|
    ensures queue == Roots(g, g.order)
  {
    queue := [];
    for i := 0 to |g.order|
      invariant queue == Roots(g, g.order[..i])
    {
      assert g.order[..i + 1][..i] == g.order[..i];
      if indegree[g.order[i]] == 0 {
        queue := queue + [g.order[i]];
      }
    }
    assert g.order[..|g.order|] == g.order;
  }

  /** plan_guard.py, _topological_sort. */
  method Sort(g: Graph) returns (ordered: seq<StepId>)
    requires g.Valid()
    ensures ordered == KahnOrder(g)
  {
    var children := BuildChildren(g);
    var indegree: map<StepId, int> := map s | s in g.deps :: |g.deps[s]|;
    var queue := FindRoots(g, indegree);
    KahnStarts(g);
    ordered := [];
    CountsStart(g, indegree);
    while queue != []
      invariant KahnInv(g, queue, ordered)
      invariant KahnFrom(g, queue, ordered) == KahnOrder(g)
      invariant CountsMissing(g, ordered, indegree)
      decreases |g.deps.Keys| - |ordered|
    {
      var step := queue[0];
      var entries := Lookup(children, step);
      KahnTurn(g, queue, ordered);
      CountsToEntries(g, queue, ordered, indegree, entries);
      ghost var done := ToSet(ordered + [step]);
      SelectIsNewlyReleased(g, g.order, done, step, queue[1..]);
      indegree, queue := ReleaseChildren(g, done, entries, indegree, queue[1..]);
      ordered := ordered + [step];
      CountsAfterEntries(g, ordered, entries, indegree);
    }
  }

  lemma CountsToEntries(g: Graph, queue: seq<StepId>, ordered: seq<StepId>, indegree: map<StepId, int>,
                        entries: seq<StepId>)
    requires KahnInv(g, queue, ordered) && queue != []
    requires CountsMissing(g, ordered, indegree)
    requires entries == ChildEntries(g, g.order, queue[0])
    ensures Counting(g, ToSet(ordered + [queue[0]]), entries, 0, indegree)
  {
    EmittingLowersCounts(g, queue, ordered);
    assert entries[0..] == entries;
  }

  lemma CountsAfterEntries(g: Graph, ordered: seq<StepId>, entries: seq<StepId>, indegree: map<StepId, int>)
    requires Counting(g, ToSet(ordered), entries, |entries|, indegree)
    ensures CountsMissing(g, ordered, indegree)
  {
    assert entries[|entries|..] == [];
  }

  /** Emitting the head leaves each count short by the head's entries among the children. */
  lemma EmittingLowersCounts(g: Graph, queue: seq<StepId>, ordered: seq<StepId>)
    requires KahnInv(g, queue, ordered) && queue != []
    ensures forall c :: c in g.deps ==>
              Missing(g.deps[c], ToSet(ordered))
              == Missing(g.deps[c], ToSet(ordered + [queue[0]])) + Count(ChildEntries(g, g.order, queue[0]), c)
  {
    var x := queue[0];
    KahnRoom(g, queue, ordered);
    assert ToSet(ordered + [x]) == ToSet(ordered) + {x};
    forall c | c in g.deps
      ensures Missing(g.deps[c], ToSet(ordered))
           == Missing(g.deps[c], ToSet(ordered + [x])) + Count(ChildEntries(g, g.order, x), c)
    {
      MissingDrops(g.deps[c], ToSet(ordered), x);
      ChildEntriesCount(g, g.order, x, c);
    }
  }
}
