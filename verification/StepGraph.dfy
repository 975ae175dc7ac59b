/**
 * The dependency graph of an operation plan, and the reachability theory that
 * the guard's depth-first search, the guard's Kahn sort and the pipeline's
 * pass-based scheduler are all measured against.
 */
module StepGraph {

  type StepId = string

  /** The guard's `graph` dict: `order` is its insertion order. */
  datatype Graph = Graph(order: seq<StepId>, deps: map<StepId, seq<StepId>>) {
    ghost predicate Valid() {
      && Distinct(order)
      && (forall s :: s in order <==> s in deps)
    }

    /** `graph.get(step, [])` */
    function Deps(step: StepId): seq<StepId> {
      if step in deps then deps[step] else []
    }

    /** Every dependency names a step of the plan. */
    ghost predicate Closed() {
      forall s, d :: s in deps && d in deps[s] ==> d in deps
    }
  }

  ghost predicate Distinct<T>(s: seq<T>) {
    forall i, j :: 0 <= i < j < |s| ==> s[i] != s[j]
  }

  function ToSet(s: seq<StepId>): (r: set<StepId>)
    ensures forall x :: x in r <==> x in s
  {
    set x | x in s
  }

  /** A duplicate-free sequence is no longer than a set it fits in. */
  lemma {:induction false} DistinctFits<T>(p: seq<T>, s: set<T>)
    requires Distinct(p)
    requires forall x :: x in p ==> x in s
    ensures |p| <= |s|
  {
    if |p| > 0 {
      var rest := p[1..];
      forall x | x in rest ensures x in s - {p[0]} {
        var i :| 0 <= i < |rest| && rest[i] == x;
        assert p[i + 1] == x;
      }
      DistinctFits(rest, s - {p[0]});
    }
  }

  // ---- Paths ----------------------------------------------------------------

  /** Consecutive entries of `p` are joined by depends_on edges. */
  ghost predicate IsPath(g: Graph, p: seq<StepId>) {
    && |p| > 0
    && forall i :: 0 <= i < |p| - 1 ==> p[i + 1] in g.Deps(p[i])
  }

  ghost predicate PathFromTo(g: Graph, p: seq<StepId>, a: StepId, b: StepId) {
    IsPath(g, p) && p[0] == a && p[|p| - 1] == b
  }

  /** `a` is `b`, or depends on it through a chain of depends_on entries. */
  ghost predicate Reaches(g: Graph, a: StepId, b: StepId) {
    exists p :: PathFromTo(g, p, a, b)
  }

  /** `a` depends on `b` through at least one depends_on entry. */
  ghost predicate DependsTransitively(g: Graph, a: StepId, b: StepId) {
    exists p :: PathFromTo(g, p, a, b) && |p| >= 2
  }

  ghost predicate OnCycle(g: Graph, x: StepId) {
    DependsTransitively(g, x, x)
  }

  ghost predicate HasCycle(g: Graph) {
    exists x :: OnCycle(g, x)
  }

  /** Some chain of dependencies from `x` runs into an unknown step or a cycle. */
  ghost predicate Doomed(g: Graph, x: StepId) {
    exists y :: Reaches(g, x, y) && (y !in g.deps || OnCycle(g, y))
  }

  // ---- Ranks ----------------------------------------------------------------

  /** `x` and everything it depends on are known steps, at most `n` edges deep. */
  ghost predicate Runnable(g: Graph, x: StepId, n: nat)
    decreases n
  {
    x in g.deps && forall d :: d in g.deps[x] ==> n > 0 && Runnable(g, d, n - 1)
  }

  ghost predicate CanRun(g: Graph, x: StepId) {
    exists n: nat :: Runnable(g, x, n)
  }

  /** Every dependency chain from `x` has at most `n` edges; unknown steps end a chain. */
  ghost predicate Bounded(g: Graph, x: StepId, n: nat)
    decreases n
  {
    forall d :: d in g.Deps(x) ==> n > 0 && Bounded(g, d, n - 1)
  }

  ghost predicate Terminates(g: Graph, x: StepId) {
    exists n: nat :: Bounded(g, x, n)
  }

  lemma {:induction false} RunnableMonotone(g: Graph, x: StepId, n: nat, m: nat)
    requires Runnable(g, x, n) && n <= m
    ensures Runnable(g, x, m)
    decreases n
  {
    forall d | d in g.deps[x] ensures m > 0 && Runnable(g, d, m - 1) {
      RunnableMonotone(g, d, n - 1, m - 1);
    }
  }

  lemma {:induction false} BoundedMonotone(g: Graph, x: StepId, n: nat, m: nat)
    requires Bounded(g, x, n) && n <= m
    ensures Bounded(g, x, m)
    decreases n
  {
    forall d | d in g.Deps(x) ensures m > 0 && Bounded(g, d, m - 1) {
      BoundedMonotone(g, d, n - 1, m - 1);
    }
  }

  /** One rank that fits a whole dependency list. */
  lemma {:induction false} CommonRank(g: Graph, ds: seq<StepId>) returns (n: nat)
    requires forall d :: d in ds ==> CanRun(g, d)
    ensures forall d :: d in ds ==> Runnable(g, d, n)
  {
    if ds == [] {
      n := 0;
    } else {
      var m := CommonRank(g, ds[1..]);
      assert CanRun(g, ds[0]);
      var k: nat :| Runnable(g, ds[0], k);
      n := if m < k then k else m;
      forall d | d in ds ensures Runnable(g, d, n) {
        if d == ds[0] {
          RunnableMonotone(g, d, k, n);
        } else {
          RunnableMonotone(g, d, m, n);
        }
      }
    }
  }

  lemma {:induction false} CommonBound(g: Graph, ds: seq<StepId>) returns (n: nat)
    requires forall d :: d in ds ==> Terminates(g, d)
    ensures forall d :: d in ds ==> Bounded(g, d, n)
  {
    if ds == [] {
      n := 0;
    } else {
      var m := CommonBound(g, ds[1..]);
      assert Terminates(g, ds[0]);
      var k: nat :| Bounded(g, ds[0], k);
      n := if m < k then k else m;
      forall d | d in ds ensures Bounded(g, d, n) {
        if d == ds[0] {
          BoundedMonotone(g, d, k, n);
        } else {
          BoundedMonotone(g, d, m, n);
        }
      }
    }
  }

  /** A known step all of whose dependencies can run can run. */
  lemma CanRunStep(g: Graph, x: StepId)
    requires x in g.deps
    requires forall d :: d in g.deps[x] ==> CanRun(g, d)
    ensures CanRun(g, x)
  {
    var n := CommonRank(g, g.deps[x]);
    assert Runnable(g, x, n + 1);
  }

  lemma TerminatesStep(g: Graph, x: StepId)
    requires forall d :: d in g.Deps(x) ==> Terminates(g, d)
    ensures Terminates(g, x)
  {
    var n := CommonBound(g, g.Deps(x));
    assert Bounded(g, x, n + 1);
  }

  lemma {:induction false} RunnableIsBounded(g: Graph, x: StepId, n: nat)
    requires Runnable(g, x, n)
    ensures Bounded(g, x, n)
    decreases n
  {
    forall d | d in g.Deps(x) ensures n > 0 && Bounded(g, d, n - 1) {
      RunnableIsBounded(g, d, n - 1);
    }
  }

  // ---- Ranks and paths agree --------------------------------------------------

  lemma {:induction false} BoundedLimitsPaths(g: Graph, x: StepId, n: nat, p: seq<StepId>)
    requires Bounded(g, x, n)
    requires IsPath(g, p) && p[0] == x
    ensures |p| <= n + 1
    decreases n
  {
    if |p| > 1 {
      var rest := p[1..];
      assert p[1] in g.Deps(p[0]);
      assert IsPath(g, rest) by {
        forall i | 0 <= i < |rest| - 1 ensures rest[i + 1] in g.Deps(rest[i]) {
          assert p[i + 2] in g.Deps(p[i + 1]);
        }
      }
      BoundedLimitsPaths(g, p[1], n - 1, rest);
    }
  }

  lemma {:induction false} RunnablePathsStayKnown(g: Graph, x: StepId, n: nat, p: seq<StepId>)
    requires Runnable(g, x, n)
    requires IsPath(g, p) && p[0] == x
    ensures CanRun(g, p[|p| - 1]) && p[|p| - 1] in g.deps
    decreases n
  {
    if |p| > 1 {
      var rest := p[1..];
      assert p[1] in g.Deps(p[0]);
      assert IsPath(g, rest) by {
        forall i | 0 <= i < |rest| - 1 ensures rest[i + 1] in g.Deps(rest[i]) {
          assert p[i + 2] in g.Deps(p[i + 1]);
        }
      }
      RunnablePathsStayKnown(g, p[1], n - 1, rest);
    }
  }

  /** The rank is the longest chain: at most `n` edges on every chain, and no unknown step. */
  ghost predicate ChainsWithin(g: Graph, x: StepId, n: nat) {
    forall p :: IsPath(g, p) && p[0] == x ==> |p| <= n + 1 && p[|p| - 1] in g.deps
  }

  lemma {:induction false} RankIsChainLength(g: Graph, x: StepId, n: nat)
    ensures Runnable(g, x, n) <==> ChainsWithin(g, x, n)
    decreases n
  {
    if Runnable(g, x, n) {
      RunnableIsBounded(g, x, n);
      forall p | IsPath(g, p) && p[0] == x ensures |p| <= n + 1 && p[|p| - 1] in g.deps {
        BoundedLimitsPaths(g, x, n, p);
        RunnablePathsStayKnown(g, x, n, p);
      }
    }
    if ChainsWithin(g, x, n) {
      assert IsPath(g, [x]) && [x][0] == x;
      assert x in g.deps;
      forall d | d in g.deps[x] ensures n > 0 && Runnable(g, d, n - 1) {
        var two := [x, d];
        assert IsPath(g, two) && two[0] == x;
        forall p | IsPath(g, p) && p[0] == d ensures |p| <= n && p[|p| - 1] in g.deps {
          PrependStep(g, x, p);
          var q := [x] + p;
          assert q[0] == x && q[|q| - 1] == p[|p| - 1];
        }
        assert n > 0;
        RankIsChainLength(g, d, n - 1);
      }
    }
  }

  lemma PrependStep(g: Graph, x: StepId, p: seq<StepId>)
    requires IsPath(g, p) && p[0] in g.Deps(x)
    ensures IsPath(g, [x] + p)
  {
    var q := [x] + p;
    forall i | 0 <= i < |q| - 1 ensures q[i + 1] in g.Deps(q[i]) {
      if i > 0 {
        assert p[i] in g.Deps(p[i - 1]);
      }
    }
  }

  lemma JoinPaths(g: Graph, p: seq<StepId>, q: seq<StepId>)
    requires IsPath(g, p) && IsPath(g, q) && p[|p| - 1] == q[0]
    ensures PathFromTo(g, p + q[1..], p[0], q[|q| - 1])
  {
    var r := p + q[1..];
    forall i | 0 <= i < |r| - 1 ensures r[i + 1] in g.Deps(r[i]) {
      if i < |p| - 1 {
        assert p[i + 1] in g.Deps(p[i]);
      } else {
        var k := i - |p| + 1;
        assert r[i + 1] == q[k + 1];
        assert r[i] == q[k];
        assert q[k + 1] in g.Deps(q[k]);
      }
    }
    assert r[|r| - 1] == q[|q| - 1];
  }

  /** A piece of a path is a path. */
  lemma SubPath(g: Graph, p: seq<StepId>, i: nat, j: nat)
    requires IsPath(g, p) && i < j <= |p|
    ensures PathFromTo(g, p[i..j], p[i], p[j - 1])
  {
    var q := p[i..j];
    forall k | 0 <= k < |q| - 1 ensures q[k + 1] in g.Deps(q[k]) {
      assert p[i + k + 1] in g.Deps(p[i + k]);
    }
  }

  /** Going round a cycle gives a path of any length. */
  lemma {:induction false} LoopForever(g: Graph, c: seq<StepId>, x: StepId, k: nat) returns (p: seq<StepId>)
    requires PathFromTo(g, c, x, x) && |c| >= 2
    ensures PathFromTo(g, p, x, x) && |p| > k
  {
    if k == 0 {
      p := c;
    } else {
      var q := LoopForever(g, c, x, k - 1);
      JoinPaths(g, q, c);
      p := q + c[1..];
    }
  }

  /** A step whose chains are bounded is on no cycle. */
  lemma TerminatesNotOnCycle(g: Graph, x: StepId)
    requires Terminates(g, x)
    ensures !OnCycle(g, x)
  {
    if OnCycle(g, x) {
      var c :| PathFromTo(g, c, x, x) && |c| >= 2;
      var n: nat :| Bounded(g, x, n);
      var p := LoopForever(g, c, x, n + 1);
      BoundedLimitsPaths(g, x, n, p);
    }
  }

  // ---- Stuck steps reach an unknown step or a cycle ------------------------------

  /** Follows steps that cannot run until the walk leaves the plan or repeats itself. */
  lemma {:induction false} StuckWalk(g: Graph, p: seq<StepId>) returns (y: StepId)
    requires IsPath(g, p) && Distinct(p)
    requires forall s :: s in p ==> s in g.deps
    requires !CanRun(g, p[|p| - 1])
    ensures Reaches(g, p[0], y) && (y !in g.deps || OnCycle(g, y))
    decreases |g.deps.Keys| + 1 - |p|
  {
    DistinctFits(p, g.deps.Keys);
    var last := p[|p| - 1];
    if forall d :: d in g.deps[last] ==> CanRun(g, d) {
      CanRunStep(g, last);
      assert false;
    }
    var d :| d in g.deps[last] && !CanRun(g, d);
    JoinPaths(g, p, [last, d]);
    assert p + [last, d][1..] == p + [d];
    if d !in g.deps {
      y := d;
      assert PathFromTo(g, p + [d], p[0], y);
    } else if d in p {
      y := d;
      assert PathFromTo(g, p + [d], p[0], y);
      var i :| 0 <= i < |p| && p[i] == d;
      SubPath(g, p + [d], i, |p| + 1);
      assert PathFromTo(g, (p + [d])[i..|p| + 1], d, d);
    } else {
      y := StuckWalk(g, p + [d]);
    }
  }

  /** A step can run exactly when no chain from it meets an unknown step or a cycle. */
  lemma CanRunIffNotDoomed(g: Graph, x: StepId)
    ensures CanRun(g, x) <==> !Doomed(g, x)
  {
    if CanRun(g, x) && Doomed(g, x) {
      var n: nat :| Runnable(g, x, n);
      var y :| Reaches(g, x, y) && (y !in g.deps || OnCycle(g, y));
      var p :| PathFromTo(g, p, x, y);
      RunnablePathsStayKnown(g, x, n, p);
      var m: nat :| Runnable(g, y, m);
      RunnableIsBounded(g, y, m);
      TerminatesNotOnCycle(g, y);
    }
    if !CanRun(g, x) {
      assert PathFromTo(g, [x], x, x);
      if x !in g.deps {
        assert Reaches(g, x, x);
      } else {
        var y := StuckWalk(g, [x]);
        assert Doomed(g, x);
      }
    }
  }

  /** On a closed graph the doomed steps are those that transitively reach a cycle. */
  lemma {:induction false} ClosedPathsStayInside(g: Graph, p: seq<StepId>)
    requires g.Closed() && IsPath(g, p) && p[0] in g.deps
    ensures p[|p| - 1] in g.deps
  {
    if |p| > 1 {
      SubPath(g, p, 0, |p| - 1);
      ClosedPathsStayInside(g, p[0..|p| - 1]);
      assert p[|p| - 1] in g.Deps(p[|p| - 2]);
    }
  }

  /** On a closed graph: no cycle at all iff every step can run. */
  lemma AcyclicIffAllRun(g: Graph)
    requires g.Closed()
    ensures !HasCycle(g) <==> forall s :: s in g.deps ==> CanRun(g, s)
  {
    if !HasCycle(g) {
      forall s | s in g.deps ensures CanRun(g, s) {
        CanRunIffNotDoomed(g, s);
        if Doomed(g, s) {
          var y :| Reaches(g, s, y) && (y !in g.deps || OnCycle(g, y));
          var p :| PathFromTo(g, p, s, y);
          ClosedPathsStayInside(g, p);
        }
      }
    }
    if HasCycle(g) {
      var x :| OnCycle(g, x);
      var c :| PathFromTo(g, c, x, x) && |c| >= 2;
      assert c[1] in g.Deps(c[0]);
      assert x in g.deps;
      CanRunIffNotDoomed(g, x);
      assert PathFromTo(g, [x], x, x);
      assert Reaches(g, x, x);
      assert Doomed(g, x);
    }
  }
}
