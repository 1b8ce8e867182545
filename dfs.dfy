/**
 * The iterative depth-first search (`dfs_iterative` in src/pathfinding.rs):
 * a stack of vertices to explore, a visited flag and a parent link per
 * vertex; the search stops when it pops the end vertex.
 */
module Dfs {
  import opened Graphs
  import opened Paths

  /**
   * The targets of `es` that `visited` does not mark, in edge order and with
   * repeats: what the inner loop pushes, since it does not mark them.
   */
  function PushedTargets(es: seq<Edge>, visited: seq<bool>): (ts: seq<nat>)
    requires forall k :: 0 <= k < |es| ==> es[k].target < |visited|
  {
    if |es| == 0 then []
    else
      var t := es[|es| - 1].target;
      PushedTargets(es[..|es| - 1], visited) + (if visited[t] then [] else [t])
  }

  /** Exactly the unvisited targets are pushed. */
  lemma {:induction false} PushedTargetsMembers(es: seq<Edge>, visited: seq<bool>)
    requires forall k :: 0 <= k < |es| ==> es[k].target < |visited|
    ensures forall v: nat :: v in PushedTargets(es, visited) <==> v < |visited| && HasEdge(es, v) && !visited[v]
  {
    if |es| > 0 {
      var init := es[..|es| - 1];
      PushedTargetsMembers(init, visited);
      forall v: nat | v < |visited| && HasEdge(es, v) && !visited[v]
        ensures v in PushedTargets(es, visited)
      {
        var k :| 0 <= k < |es| && es[k].target == v;
        if k < |init| {
          assert init[k] == es[k];
        }
      }
      forall v | HasEdge(init, v)
        ensures HasEdge(es, v)
      {
        var k :| 0 <= k < |init| && init[k].target == v;
        assert es[k] == init[k];
      }
    }
  }

  /**
   * The inner loop for the vertex just visited: every neighbour not yet
   * visited gets `current` as parent and is pushed, in edge order.
   */
  method PushUnvisited(es: seq<Edge>, current: nat, visited: seq<bool>, parent0: seq<Option<nat>>, stack0: seq<nat>)
    returns (parent: seq<Option<nat>>, stack: seq<nat>)
    requires |parent0| == |visited|
    requires forall k :: 0 <= k < |es| ==> es[k].target < |visited|
    ensures stack == stack0 + PushedTargets(es, visited)
    ensures |parent| == |visited|
    ensures forall v :: 0 <= v < |visited| ==>
      parent[v] == if v in PushedTargets(es, visited) then Some(current) else parent0[v]
  {
    parent, stack := parent0, stack0;
    for k := 0 to |es|
      invariant |parent| == |visited|
      invariant stack == stack0 + PushedTargets(es[..k], visited)
      invariant forall v :: 0 <= v < |visited| ==>
        parent[v] == if v in PushedTargets(es[..k], visited) then Some(current) else parent0[v]
    {
      assert es[..k + 1][..k] == es[..k];
      var neighbor := es[k].target;
      if !visited[neighbor] {
        parent := parent[neighbor := Some(current)];
        stack := stack + [neighbor];
      }
    }
    assert es[..|es|] == es;
  }

  /**
   * The bookkeeping part of the loop invariant: sizes, bounds, and the
   * start and end markings. The end is never marked (the search stops when
   * it pops it); the start is the first vertex popped and marked.
   */
  ghost predicate DfsShape(g: Graph, stack: seq<nat>, visited: seq<bool>, parent: seq<Option<nat>>, time: seq<nat>) {
    var n := |g.vertices|;
    && WellFormed(g)
    && |visited| == n && |parent| == n && |time| == n
    && (forall v :: v in stack ==> v < n)
    && !visited[g.end]
    && (visited[g.start] || (|stack| == 1 && stack[0] == g.start))
    && parent[g.start].None?
  }

  /** Every edge out of a marked vertex leads to a marked vertex or to one still on the stack. */
  ghost predicate DfsClosed(g: Graph, stack: seq<nat>, visited: seq<bool>)
    requires |visited| == |g.vertices| && TargetsValid(g.vertices)
  {
    forall v, k :: 0 <= v < |g.vertices| && visited[v] && 0 <= k < |g.vertices[v].neighbors| ==>
      visited[g.vertices[v].neighbors[k].target] || g.vertices[v].neighbors[k].target in stack
  }

  /**
   * The ghost visit times: every marked vertex was marked before `clock`,
   * and a parent link follows an edge out of a marked vertex, marked before
   * its child.
   */
  ghost predicate DfsTimed(g: Graph, visited: seq<bool>, parent: seq<Option<nat>>, time: seq<nat>, clock: nat)
    requires |visited| == |g.vertices| && |parent| == |g.vertices| && |time| == |g.vertices|
  {
    var n := |g.vertices|;
    && (forall v :: 0 <= v < n && visited[v] ==> time[v] < clock)
    && (forall v :: 0 <= v < n && parent[v].Some? ==>
          && parent[v].value < n
          && visited[parent[v].value]
          && Links(g, parent[v].value, v)
          && (visited[v] ==> time[parent[v].value] < time[v]))
  }

  /** Only the start is reached without a parent link. */
  ghost predicate DfsRooted(g: Graph, stack: seq<nat>, visited: seq<bool>, parent: seq<Option<nat>>)
    requires |visited| == |g.vertices| && |parent| == |g.vertices|
  {
    forall v :: 0 <= v < |g.vertices| && (visited[v] || v in stack) ==> v == g.start || parent[v].Some?
  }

  /** What holds between iterations of the search loop. `time` and `clock` are ghost. */
  ghost predicate DfsInvariant(g: Graph, stack: seq<nat>, visited: seq<bool>, parent: seq<Option<nat>>,
                               time: seq<nat>, clock: nat)
  {
    && DfsShape(g, stack, visited, parent, time)
    && DfsClosed(g, stack, visited)
    && DfsTimed(g, visited, parent, time, clock)
    && DfsRooted(g, stack, visited, parent)
  }

  /** The rank of a vertex: its visit time, or the current clock for an unvisited one. */
  ghost function DfsRank(visited: seq<bool>, time: seq<nat>, clock: nat): seq<nat>
    requires |time| == |visited|
  {
    seq(|visited|, v requires 0 <= v < |visited| => if visited[v] then time[v] else clock)
  }

  lemma DfsInitial(g: Graph)
    requires WellFormed(g)
    ensures var n := |g.vertices|;
      DfsInvariant(g, [g.start], seq(n, _ => false), seq(n, _ => None), seq(n, _ => 0), 0)
  {
  }

  /**
   * When the end is popped the parent links are ranked, so the path can
   * be read back, and it runs from the start to the end along edges.
   */
  lemma DfsFound(g: Graph, stack: seq<nat>, visited: seq<bool>, parent: seq<Option<nat>>,
                 time: seq<nat>, clock: nat, path: seq<nat>)
    requires DfsInvariant(g, stack, visited, parent, time, clock)
    requires g.end in stack
    ensures RankedBy(parent, DfsRank(visited, time, clock))
    ensures IsParentChain(parent, path, g.end) ==>
      IsPath(g, path, g.start, g.end) && (g.start == g.end ==> path == [g.start])
  {
    if IsParentChain(parent, path, g.end) {
      assert |path| > 1 ==> parent[path[1]] == Some(path[0]);
      assert path[0] == g.start;
      ParentChainIsPath(g, parent, path, g.start, g.end);
      assert |path| > 1 ==> parent[path[|path| - 1]] == Some(path[|path| - 2]);
    }
  }

  /** Popping a vertex that is already marked keeps the invariant. */
  lemma DfsSkip(g: Graph, stack: seq<nat>, visited: seq<bool>, parent: seq<Option<nat>>,
                time: seq<nat>, clock: nat, current: nat)
    requires DfsInvariant(g, stack + [current], visited, parent, time, clock)
    requires current != g.end && current < |visited| && visited[current]
    ensures DfsInvariant(g, stack, visited, parent, time, clock)
  {
    assert forall v :: v in stack + [current] <==> v in stack || v == current;
    assert (stack + [current])[|stack|] == current;
    assert DfsShape(g, stack, visited, parent, time);
    assert DfsClosed(g, stack, visited);
    assert DfsTimed(g, visited, parent, time, clock);
    assert DfsRooted(g, stack, visited, parent);
  }

  /** The four parts of the invariant after popping and marking `current` and pushing `pushed`. */
  lemma DfsVisitShape(g: Graph, stack: seq<nat>, visited: seq<bool>, parent: seq<Option<nat>>,
                      time: seq<nat>, clock: nat, current: nat, pushed: seq<nat>, parent': seq<Option<nat>>)
    requires DfsShape(g, stack + [current], visited, parent, time)
    requires current != g.end && current < |visited| && !visited[current]
    requires forall t :: t in pushed ==> t < |visited| && !visited[current := true][t]
    requires |parent'| == |parent|
    requires forall v :: 0 <= v < |parent| && v !in pushed ==> parent'[v] == parent[v]
    ensures DfsShape(g, stack + pushed, visited[current := true], parent', time[current := clock])
  {
    assert (stack + [current])[|stack|] == current;
    assert forall v :: v in stack + [current] <==> v in stack || v == current;
    var marked := visited[current := true];
    assert marked[g.start] by {
      if !visited[g.start] {
        assert current == g.start;
      }
    }
    assert !marked[g.end];
    assert forall v :: v in stack + pushed <==> v in stack || v in pushed;
    assert parent'[g.start] == parent[g.start];
    var stack' := stack + pushed;
    assert WellFormed(g);
    assert |marked| == |g.vertices| && |parent'| == |g.vertices| && |time[current := clock]| == |g.vertices|;
    assert forall v :: v in stack' ==> v < |g.vertices|;
    assert marked[g.start];
    assert parent'[g.start].None?;
  }

  lemma DfsVisitClosed(g: Graph, stack: seq<nat>, visited: seq<bool>, current: nat, pushed: seq<nat>)
    requires |visited| == |g.vertices| && current < |visited| && TargetsValid(g.vertices)
    requires DfsClosed(g, stack + [current], visited)
    requires forall t: nat :: t < |visited| && HasEdge(g.vertices[current].neighbors, t) && !visited[current := true][t] ==> t in pushed
    ensures DfsClosed(g, stack + pushed, visited[current := true])
  {
    var marked := visited[current := true];
    var es := g.vertices[current].neighbors;
    assert forall v :: v in stack + [current] <==> v in stack || v == current;
    assert forall v :: v in stack + pushed <==> v in stack || v in pushed;
    forall v, k | 0 <= v < |g.vertices| && marked[v] && 0 <= k < |g.vertices[v].neighbors|
      ensures marked[g.vertices[v].neighbors[k].target] || g.vertices[v].neighbors[k].target in stack + pushed
    {
      var t := g.vertices[v].neighbors[k].target;
      if v == current && !marked[t] {
        assert HasEdge(es, t);
      }
    }
  }

  lemma DfsVisitTimed(g: Graph, visited: seq<bool>, parent: seq<Option<nat>>, time: seq<nat>, clock: nat,
                      current: nat, pushed: seq<nat>, parent': seq<Option<nat>>)
    requires |visited| == |g.vertices| && |parent| == |g.vertices| && |time| == |g.vertices|
    requires DfsTimed(g, visited, parent, time, clock)
    requires current < |visited| && !visited[current]
    requires forall t :: t in pushed ==> t < |visited| && HasEdge(g.vertices[current].neighbors, t) && !visited[current := true][t]
    requires |parent'| == |parent|
    requires forall v :: 0 <= v < |parent| ==> parent'[v] == if v in pushed then Some(current) else parent[v]
    ensures DfsTimed(g, visited[current := true], parent', time[current := clock], clock + 1)
  {
  }

  lemma DfsVisitRooted(g: Graph, stack: seq<nat>, visited: seq<bool>, parent: seq<Option<nat>>,
                       current: nat, pushed: seq<nat>, parent': seq<Option<nat>>)
    requires |visited| == |g.vertices| && |parent| == |g.vertices| && current < |visited|
    requires DfsRooted(g, stack + [current], visited, parent)
    requires |parent'| == |parent|
    requires forall v :: 0 <= v < |parent| ==> parent'[v] == if v in pushed then Some(current) else parent[v]
    ensures DfsRooted(g, stack + pushed, visited[current := true], parent')
  {
    assert forall v :: v in stack + [current] <==> v in stack || v == current;
    assert forall v :: v in stack + pushed <==> v in stack || v in pushed;
  }

  /** Popping an unmarked vertex, marking it and pushing its unmarked neighbours keeps the invariant. */
  lemma DfsVisit(g: Graph, stack: seq<nat>, visited: seq<bool>, parent: seq<Option<nat>>,
                 time: seq<nat>, clock: nat, current: nat, stack': seq<nat>, parent': seq<Option<nat>>)
    requires DfsInvariant(g, stack + [current], visited, parent, time, clock)
    requires current != g.end && current < |visited| && !visited[current]
    requires var es := g.vertices[current].neighbors; var marked := visited[current := true];
      && stack' == stack + PushedTargets(es, marked)
      && |parent'| == |parent|
      && forall v :: 0 <= v < |parent| ==>
           parent'[v] == if v in PushedTargets(es, marked) then Some(current) else parent[v]
    ensures DfsInvariant(g, stack', visited[current := true], parent', time[current := clock], clock + 1)
  {
    var es := g.vertices[current].neighbors;
    var marked := visited[current := true];
    PushedTargetsMembers(es, marked);
    var pushed := PushedTargets(es, marked);
    assert forall j :: 0 <= j < |pushed| ==> pushed[j] in pushed;
    DfsVisitShape(g, stack, visited, parent, time, clock, current, pushed, parent');
    DfsVisitClosed(g, stack, visited, current, pushed);
    DfsVisitTimed(g, visited, parent, time, clock, current, pushed, parent');
    DfsVisitRooted(g, stack, visited, parent, current, pushed, parent');
  }

  /** With the stack empty, the marked vertices are closed under edges and hold the start but not the end. */
  lemma DfsExhausted(g: Graph, visited: seq<bool>, parent: seq<Option<nat>>, time: seq<nat>, clock: nat)
    requires DfsInvariant(g, [], visited, parent, time, clock)
    ensures !Reachable(g, g.start, g.end)
  {
    forall p | IsWalk(g, p) && p[0] == g.start
      ensures visited[p[|p| - 1]]
    {
      WalkStaysInside(g, visited, p);
    }
  }

  /** Taking the top off a stack leaves the rest below it. */
  lemma PopLast(stack: seq<nat>)
    requires |stack| > 0
    ensures stack[|stack| - 1] in stack && stack == stack[..|stack| - 1] + [stack[|stack| - 1]]
  {
  }

  /**
   * Depth-first search from `g.start` to `g.end`. A returned path runs
   * along stored edges from start to end without repeating a vertex, and
   * the search finds nothing only when the end cannot be reached.
   */
  method DfsIterative(g: Graph) returns (r: Option<seq<nat>>)
    requires WellFormed(g)
    ensures r.Some? ==> IsPath(g, r.value, g.start, g.end) && Distinct(r.value)
    ensures r.None? <==> !Reachable(g, g.start, g.end)
    ensures g.start == g.end ==> r == Some([g.start])
  {
    var n := |g.vertices|;
    var stack: seq<nat> := [g.start];
    var visited: seq<bool> := seq(n, _ => false);
    var parent: seq<Option<nat>> := seq(n, _ => None);
    ghost var time: seq<nat> := seq(n, _ => 0);
    ghost var clock: nat := 0;
    DfsInitial(g);
    while |stack| > 0
      invariant DfsInvariant(g, stack, visited, parent, time, clock)
      decreases CountFalse(visited), |stack|
    {
      var current := stack[|stack| - 1];
      ghost var popped := stack;
      stack := stack[..|stack| - 1];
      PopLast(popped);
      if current == g.end {
        DfsFound(g, popped, visited, parent, time, clock, []);
        var path := ReconstructPath(parent, g.end, DfsRank(visited, time, clock));
        DfsFound(g, popped, visited, parent, time, clock, path);
        return Some(path);
      }
      if !visited[current] {
        CountFalseMark(visited, current);
        var marked := visited[current := true];
        var parent', stack' := PushUnvisited(g.vertices[current].neighbors, current, marked, parent, stack);
        DfsVisit(g, stack, visited, parent, time, clock, current, stack', parent');
        visited, stack, parent := marked, stack', parent';
        time := time[current := clock];
        clock := clock + 1;
      } else {
        DfsSkip(g, stack, visited, parent, time, clock, current);
      }
    }
    DfsExhausted(g, visited, parent, time, clock);
    return None;
  }
}
