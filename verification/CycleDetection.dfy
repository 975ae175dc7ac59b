/**
 * The guard's depth-first search (plan_guard.py, _detect_cycle): one recursive
 * walk sharing a `visiting` and a `visited` set.
 */
module CycleDetection {
  import opened StepGraph

  /** Steps of the graph and steps it only mentions. */
  ghost function Universe(g: Graph): set<StepId> {
    g.deps.Keys + (set s, d | s in g.deps && d in g.deps[s] :: d)
  }

  class CycleSearch {
    const graph: Graph
    var visiting: set<StepId>
    var visited: set<StepId>

    constructor (g: Graph)
      ensures graph == g && visiting == {} && visited == {}
    {
      graph := g;
      visiting, visited := {}, {};
    }

    /** `stack` is the chain of steps being visited; everything in `visited` is free of cycles. */
    ghost predicate Valid(stack: seq<StepId>)
      reads this
    {
      && (forall s :: s in visiting <==> s in stack)
      && (forall s :: s in stack ==> s in graph.deps)
      && (forall i :: 0 <= i < |stack| - 1 ==> stack[i + 1] in graph.Deps(stack[i]))
      && (forall s :: s in visited ==> Terminates(graph, s))
    }

    /** `_walk`: true as soon as a step being visited is met again. */
    method Walk(step: StepId, ghost stack: seq<StepId>) returns (found: bool)
      requires Valid(stack)
      requires stack != [] ==> step in graph.Deps(stack[|stack| - 1])
      modifies this
      ensures found ==> HasCycle(graph)
      ensures !found ==> Valid(stack) && step in visited
      ensures !found ==> visiting == old(visiting) && old(visited) <= visited
      decreases Universe(graph) - visiting
    {
      if step in visiting {
        CloseCycle(graph, stack, step);
        return true;
      }
      if step in visited {
        return false;
      }
      visiting := visiting + {step};
      var ds := graph.Deps(step);
      ghost var inner := stack + [step];
      if step !in graph.deps {
        assert ds == [];
        TerminatesStep(graph, step);
      } else {
        assert Valid(inner);
        for i := 0 to |ds|
          invariant Valid(inner) && visiting == old(visiting) + {step} && old(visited) <= visited
          invariant forall k :: 0 <= k < i ==> ds[k] in visited
        {
          var hit := Walk(ds[i], inner);
          if hit {
            return true;
          }
        }
        TerminatesStep(graph, step);
      }
      visiting := visiting - {step};
      visited := visited + {step};
      return false;
    }
  }

  /** Meeting a step of the current chain again closes a cycle. */
  lemma CloseCycle(g: Graph, stack: seq<StepId>, step: StepId)
    requires stack != [] && step in stack
    requires forall i :: 0 <= i < |stack| - 1 ==> stack[i + 1] in g.Deps(stack[i])
    requires step in g.Deps(stack[|stack| - 1])
    ensures OnCycle(g, step) && HasCycle(g)
  {
    var k :| 0 <= k < |stack| && stack[k] == step;
    var p := stack[k..] + [step];
    forall i | 0 <= i < |p| - 1 ensures p[i + 1] in g.Deps(p[i]) {
      if i < |stack| - k - 1 {
        assert stack[k + i + 1] in g.Deps(stack[k + i]);
      }
    }
    assert PathFromTo(g, p, step, step);
    assert OnCycle(g, step);
  }

  /** `_detect_cycle`: true iff some step transitively depends on itself. */
  method DetectCycle(g: Graph) returns (found: bool)
    requires g.Valid()
    ensures found <==> HasCycle(g)
  {
    var search := new CycleSearch(g);
    for i := 0 to |g.order|
      invariant search.graph == g && search.visiting == {} && search.Valid([])
      invariant forall k :: 0 <= k < i ==> g.order[k] in search.visited
    {
      var hit := search.Walk(g.order[i], []);
      if hit {
        return true;
      }
    }
    if HasCycle(g) {
      var x :| OnCycle(g, x);
      var c :| PathFromTo(g, c, x, x) && |c| >= 2;
      assert c[1] in g.Deps(c[0]);
      assert x in g.order;
      TerminatesNotOnCycle(g, x);
    }
    return false;
  }
}
