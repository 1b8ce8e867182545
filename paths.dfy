/**
 * What the searches of src/pathfinding.rs share: reading a path back from
 * a parent map (`reconstruct_path`), the cost of a path as the source
 * computes it (`calculate_cost`), and facts about walks in a graph.
 */
module Paths {
  import opened Graphs

  /** `s` back to front. */
  function Reversed<T>(s: seq<T>): (r: seq<T>)
    ensures |r| == |s|
    ensures forall k :: 0 <= k < |s| ==> r[k] == s[|s| - 1 - k]
  {
    if |s| == 0 then [] else Reversed(s[1..]) + [s[0]]
  }

  /**
   * Every parent link stays inside the map and goes to a vertex of strictly
   * lower rank, so following links from any vertex ends.
   */
  ghost predicate RankedBy(parent: seq<Option<nat>>, rank: seq<nat>) {
    && |rank| == |parent|
    && forall v :: 0 <= v < |parent| && parent[v].Some? ==>
         parent[v].value < |parent| && rank[parent[v].value] < rank[v]
  }

  /**
   * `path` is the chain of parent links that ends at `target`, read from its
   * root (the vertex without a parent) to `target`.
   */
  predicate IsParentChain(parent: seq<Option<nat>>, path: seq<nat>, target: nat) {
    && |path| >= 1
    && path[|path| - 1] == target
    && (forall k :: 0 <= k < |path| ==> path[k] < |parent|)
    && parent[path[0]].None?
    && (forall k :: 0 <= k < |path| - 1 ==> parent[path[k + 1]] == Some(path[k]))
  }

  /**
   * Follows the parent links from `target` until a vertex without a parent,
   * then reverses the collected vertices. The ghost `rank` witnesses that
   * the links cannot cycle.
   */
  method ReconstructPath(parent: seq<Option<nat>>, target: nat, ghost rank: seq<nat>) returns (path: seq<nat>)
    requires target < |parent| && RankedBy(parent, rank)
    ensures IsParentChain(parent, path, target)
    ensures Distinct(path)
  {
    var rev: seq<nat> := [target];
    var current: nat := target;
    while parent[current].Some?
      invariant current < |parent|
      invariant |rev| >= 1 && rev[0] == target && rev[|rev| - 1] == current
      invariant forall k :: 0 <= k < |rev| ==> rev[k] < |parent|
      invariant forall k :: 0 <= k < |rev| - 1 ==> parent[rev[k]] == Some(rev[k + 1])
      invariant forall i, j :: 0 <= i < j < |rev| ==> rank[rev[j]] < rank[rev[i]]
      decreases rank[current]
    {
      current := parent[current].value;
      rev := rev + [current];
    }
    path := Reversed(rev);
  }

  /** A parent chain is determined by its target: there is only one. */
  lemma {:induction false} ParentChainUnique(parent: seq<Option<nat>>, p: seq<nat>, q: seq<nat>, target: nat)
    requires IsParentChain(parent, p, target) && IsParentChain(parent, q, target)
    ensures p == q
    decreases |p|
  {
    // A chain of length one ends at a root; a longer one ends at a vertex with a parent.
    assert |p| > 1 ==> parent[p[|p| - 1]] == Some(p[|p| - 2]);
    assert |q| > 1 ==> parent[q[|q| - 1]] == Some(q[|q| - 2]);
    if |p| > 1 && |q| > 1 {
      var t := p[|p| - 2];
      ParentChainUnique(parent, p[..|p| - 1], q[..|q| - 1], t);
      assert p == p[..|p| - 1] + [target];
      assert q == q[..|q| - 1] + [target];
    }
  }

  /** The weight `calculate_cost` adds for the step to `v`: that of the first edge to `v`, or 0 without one. */
  function StepCost(es: seq<Edge>, v: nat): (w: nat)
    ensures HasEdge(es, v) ==>
      exists k :: 0 <= k < |es| && es[k].target == v && es[k].weight == w && (forall j :: 0 <= j < k ==> es[j].target != v)
    ensures !HasEdge(es, v) ==> w == 0
  {
    match FirstEdgeTo(es, v)
    case Some(k) => es[k].weight
    case None => 0
  }

  /** Every vertex of `p` but the last is a vertex of `g`: all that `calculate_cost` indexes. */
  predicate StepsIndexable(g: Graph, p: seq<nat>) {
    forall k :: 0 <= k < |p| - 1 ==> p[k] < |g.vertices|
  }

  /** The total `calculate_cost` computes for `p`: the step costs summed in path order. */
  function PathCost(g: Graph, p: seq<nat>): nat
    requires StepsIndexable(g, p)
  {
    if |p| <= 1 then 0
    else PathCost(g, p[..|p| - 1]) + StepCost(g.vertices[p[|p| - 2]].neighbors, p[|p| - 1])
  }

  /** Sums, left to right, the weight of the first edge between each pair of consecutive vertices. */
  method CalculateCost(g: Graph, solution: seq<nat>) returns (cost: nat)
    requires StepsIndexable(g, solution)
    ensures cost == PathCost(g, solution)
  {
    cost := 0;
    if |solution| == 0 {
      return;
    }
    for i := 0 to |solution| - 1
      invariant StepsIndexable(g, solution[..i + 1])
      invariant cost == PathCost(g, solution[..i + 1])
    {
      assert solution[..i + 2][..i + 1] == solution[..i + 1];
      cost := cost + StepCost(g.vertices[solution[i]].neighbors, solution[i + 1]);
    }
    assert solution[..|solution|] == solution;
  }

  /** The smallest weight among the edges of `es` to `v`. */
  function MinWeight(es: seq<Edge>, v: nat): (w: nat)
    requires HasEdge(es, v)
    ensures exists k :: 0 <= k < |es| && es[k].target == v && es[k].weight == w
    ensures forall k :: 0 <= k < |es| && es[k].target == v ==> w <= es[k].weight
  {
    if es[0].target == v && !HasEdge(es[1..], v) then
      assert forall k :: 1 <= k < |es| ==> es[k] == es[1..][k - 1];
      es[0].weight
    else if es[0].target != v then
      assert HasEdge(es[1..], v) by {
        var k :| 0 <= k < |es| && es[k].target == v;
        assert es[1..][k - 1] == es[k];
      }
      assert forall k :: 1 <= k < |es| ==> es[k] == es[1..][k - 1];
      MinWeight(es[1..], v)
    else
      assert forall k :: 1 <= k < |es| ==> es[k] == es[1..][k - 1];
      var rest := MinWeight(es[1..], v);
      if es[0].weight <= rest then es[0].weight else rest
  }

  /** The cost of walk `p` when each step takes its cheapest edge: what Dijkstra's distances measure. */
  function MinPathCost(g: Graph, p: seq<nat>): nat
    requires IsWalk(g, p)
  {
    if |p| == 1 then 0
    else
      assert IsWalk(g, p[..|p| - 1]);
      MinPathCost(g, p[..|p| - 1]) + MinWeight(g.vertices[p[|p| - 2]].neighbors, p[|p| - 1])
  }

  /** On a walk, the cost `calculate_cost` reports is never below the cheapest-edge cost. */
  lemma {:induction false} PathCostAtLeastMin(g: Graph, p: seq<nat>)
    requires IsWalk(g, p)
    ensures StepsIndexable(g, p) && MinPathCost(g, p) <= PathCost(g, p)
  {
    if |p| > 1 {
      var init := p[..|p| - 1];
      assert IsWalk(g, init);
      PathCostAtLeastMin(g, init);
      assert Links(g, p[|p| - 2], p[|p| - 1]);
    }
  }

  /** When every edge weighs `w`, a walk costs `w` per step: on the unreduced grid, its number of pixel steps. */
  lemma {:induction false} UniformPathCost(g: Graph, p: seq<nat>, w: nat)
    requires IsWalk(g, p)
    requires forall u, k :: 0 <= u < |g.vertices| && 0 <= k < |g.vertices[u].neighbors| ==>
      g.vertices[u].neighbors[k].weight == w
    ensures StepsIndexable(g, p) && PathCost(g, p) == MinPathCost(g, p) == w * (|p| - 1)
  {
    if |p| > 1 {
      var init := p[..|p| - 1];
      assert IsWalk(g, init);
      UniformPathCost(g, init, w);
      UniformStep(g, p[|p| - 2], p[|p| - 1], w);
      var n := |init| - 1;
      assert w * (n + 1) == w * n + w;
    }
  }

  /** With every edge weighing `w`, a step along an edge costs `w` both ways of counting. */
  lemma UniformStep(g: Graph, u: nat, v: nat, w: nat)
    requires Links(g, u, v)
    requires forall u, k :: 0 <= u < |g.vertices| && 0 <= k < |g.vertices[u].neighbors| ==>
      g.vertices[u].neighbors[k].weight == w
    ensures u < |g.vertices|
    ensures StepCost(g.vertices[u].neighbors, v) == w && MinWeight(g.vertices[u].neighbors, v) == w
  {
    var es := g.vertices[u].neighbors;
    assert forall k :: 0 <= k < |es| ==> es[k].weight == w;
  }

  /** A step along which no edge exists adds nothing to the cost. */
  lemma MissingStepFree(g: Graph, p: seq<nat>, v: nat)
    requires StepsIndexable(g, p) && |p| >= 1 && p[|p| - 1] < |g.vertices|
    requires !HasEdge(g.vertices[p[|p| - 1]].neighbors, v)
    ensures StepsIndexable(g, p + [v]) && PathCost(g, p + [v]) == PathCost(g, p)
  {
    var q := p + [v];
    assert q[..|q| - 1] == p;
    assert q[|q| - 2] == p[|p| - 1];
    assert StepCost(g.vertices[p[|p| - 1]].neighbors, v) == 0;
  }

  /** Every edge out of a vertex marked `inside` leads to a vertex marked `inside`. */
  predicate ClosedUnderEdges(g: Graph, inside: seq<bool>)
    requires |inside| == |g.vertices| && TargetsValid(g.vertices)
  {
    forall u, k :: 0 <= u < |g.vertices| && inside[u] && 0 <= k < |g.vertices[u].neighbors| ==>
      inside[g.vertices[u].neighbors[k].target]
  }

  /** A walk that starts inside a set closed under edges stays inside it. */
  lemma {:induction false} WalkStaysInside(g: Graph, inside: seq<bool>, p: seq<nat>)
    requires |inside| == |g.vertices| && TargetsValid(g.vertices) && ClosedUnderEdges(g, inside)
    requires IsWalk(g, p) && inside[p[0]]
    ensures inside[p[|p| - 1]]
  {
    if |p| > 1 {
      var init := p[..|p| - 1];
      assert IsWalk(g, init);
      WalkStaysInside(g, inside, init);
      assert Links(g, p[|p| - 2], p[|p| - 1]);
    }
  }

  /**
   * A parent chain whose links all follow edges of `g` and whose root is
   * `s` is a path of `g` from `s` to its target.
   */
  lemma ParentChainIsPath(g: Graph, parent: seq<Option<nat>>, path: seq<nat>, s: nat, t: nat)
    requires |parent| == |g.vertices| && IsParentChain(parent, path, t)
    requires forall v :: 0 <= v < |parent| && parent[v].Some? ==> Links(g, parent[v].value, v)
    requires path[0] == s
    ensures IsPath(g, path, s, t)
  {
    forall k | 0 <= k < |path| - 1
      ensures Links(g, path[k], path[k + 1])
    {
      assert parent[path[k + 1]] == Some(path[k]);
    }
  }

  /** How many vertices a visited vector still marks as unvisited. */
  function CountFalse(visited: seq<bool>): nat {
    if |visited| == 0 then 0
    else CountFalse(visited[..|visited| - 1]) + (if visited[|visited| - 1] then 0 else 1)
  }

  /** Marking an unvisited vertex leaves one fewer to visit. */
  lemma {:induction false} CountFalseMark(visited: seq<bool>, v: nat)
    requires v < |visited| && !visited[v]
    ensures CountFalse(visited[v := true]) == CountFalse(visited) - 1
    ensures CountFalse(visited) >= 1
  {
    var last := |visited| - 1;
    if v == last {
      assert visited[v := true][..last] == visited[..last];
    } else {
      assert visited[v := true][..last] == visited[..last][v := true];
      CountFalseMark(visited[..last], v);
    }
  }
}
