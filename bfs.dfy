/**
 * The breadth-first search (`bfs` in src/pathfinding.rs): a FIFO queue of
 * vertices, a visited flag set when a vertex is queued and a parent link
 * per vertex; the search stops when it dequeues the end vertex. Because a
 * vertex is marked when queued, each vertex is queued at most once.
 */
module Bfs {
  import opened Graphs
  import opened Paths

  /**
   * The targets of `es` that `visited` does not mark, each once, in the
   * order of their first edge: what the inner loop queues, since it marks a
   * vertex as it queues it.
   */
  function FreshTargets(es: seq<Edge>, visited: seq<bool>): seq<nat>
    requires forall k :: 0 <= k < |es| ==> es[k].target < |visited|
  {
    if |es| == 0 then []
    else
      var head := FreshTargets(es[..|es| - 1], visited);
      var t := es[|es| - 1].target;
      head + (if visited[t] || t in head then [] else [t])
  }

  /** Exactly the unmarked targets are queued, and none twice. */
  lemma {:induction false} FreshTargetsMembers(es: seq<Edge>, visited: seq<bool>)
    requires forall k :: 0 <= k < |es| ==> es[k].target < |visited|
    ensures forall v: nat :: v in FreshTargets(es, visited) <==> v < |visited| && HasEdge(es, v) && !visited[v]
    ensures Distinct(FreshTargets(es, visited))
  {
    if |es| > 0 {
      var init := es[..|es| - 1];
      var t := es[|es| - 1].target;
      var head := FreshTargets(init, visited);
      FreshTargetsMembers(init, visited);
      forall v: nat | v < |visited| && HasEdge(es, v) && !visited[v]
        ensures v in FreshTargets(es, visited)
      {
        var k :| 0 <= k < |es| && es[k].target == v;
        if k < |init| {
          assert init[k] == es[k];
        }
      }
      forall v | HasEdge(init, v)
        ensures HasEdge(es, v)
      {
        var k :| 0 <= k < |init| && init[k].target == v;
        assert es[k] == init[k];
      }
      if !(visited[t] || t in head) {
        var r := head + [t];
        forall i, j | 0 <= i < j < |r|
          ensures r[i] != r[j]
        {
          if j == |head| {
            assert r[i] == head[i];
          }
        }
      }
    }
  }

  /**
   * The inner loop for the vertex just dequeued: every neighbour not yet
   * marked is marked, gets `current` as parent and is queued, in edge order.
   */
  method VisitNeighbors(es: seq<Edge>, current: nat, visited0: seq<bool>, parent0: seq<Option<nat>>, queue0: seq<nat>)
    returns (visited: seq<bool>, parent: seq<Option<nat>>, queue: seq<nat>)
    requires |parent0| == |visited0|
    requires forall k :: 0 <= k < |es| ==> es[k].target < |visited0|
    ensures queue == queue0 + FreshTargets(es, visited0)
    ensures |visited| == |visited0| && |parent| == |visited0|
    ensures forall v :: 0 <= v < |visited0| ==> visited[v] == (visited0[v] || v in FreshTargets(es, visited0))
    ensures forall v :: 0 <= v < |visited0| ==>
      parent[v] == if v in FreshTargets(es, visited0) then Some(current) else parent0[v]
    ensures CountFalse(visited) + |FreshTargets(es, visited0)| == CountFalse(visited0)
  {
    visited, parent, queue := visited0, parent0, queue0;
    for k := 0 to |es|
      invariant |visited| == |visited0| && |parent| == |visited0|
      invariant queue == queue0 + FreshTargets(es[..k], visited0)
      invariant forall v :: 0 <= v < |visited0| ==> visited[v] == (visited0[v] || v in FreshTargets(es[..k], visited0))
      invariant forall v :: 0 <= v < |visited0| ==>
        parent[v] == if v in FreshTargets(es[..k], visited0) then Some(current) else parent0[v]
      invariant CountFalse(visited) + |FreshTargets(es[..k], visited0)| == CountFalse(visited0)
    {
      assert es[..k + 1][..k] == es[..k];
      var neighbor := es[k].target;
      ghost var head := FreshTargets(es[..k], visited0);
      assert FreshTargets(es[..k + 1], visited0) ==
        head + (if visited0[neighbor] || neighbor in head then [] else [neighbor]);
      assert visited[neighbor] == (visited0[neighbor] || neighbor in head);
      if !visited[neighbor] {
        CountFalseMark(visited, neighbor);
        visited := visited[neighbor := true];
        parent := parent[neighbor := Some(current)];
        queue := queue + [neighbor];
      }
    }
    assert es[..|es|] == es;
  }

  /**
   * Sizes, bounds, and the start and end markings: queued vertices are
   * marked, the start is marked from the outset and has no parent, and a
   * marked end is still queued (dequeuing it ends the search).
   */
  ghost predicate BfsShape(g: Graph, queue: seq<nat>, visited: seq<bool>, parent: seq<Option<nat>>, level: seq<nat>) {
    var n := |g.vertices|;
    && WellFormed(g)
    && |visited| == n && |parent| == n && |level| == n
    && (forall v :: v in queue ==> v < n && visited[v])
    && (forall i :: 0 <= i < |queue| ==> queue[i] < n)
    && visited[g.start] && parent[g.start].None? && level[g.start] == 0
    && (visited[g.end] ==> g.end in queue)
  }

  /**
   * The parent links form a tree of marked vertices rooted at the start:
   * each follows an edge and goes one level down; every other marked
   * vertex has a parent.
   */
  ghost predicate BfsTree(g: Graph, visited: seq<bool>, parent: seq<Option<nat>>, level: seq<nat>)
    requires |visited| == |g.vertices| && |parent| == |g.vertices| && |level| == |g.vertices|
  {
    forall v :: 0 <= v < |g.vertices| ==>
      && (parent[v].Some? ==>
            && parent[v].value < |g.vertices| && visited[v] && visited[parent[v].value]
            && Links(g, parent[v].value, v) && level[v] == level[parent[v].value] + 1)
      && (visited[v] && v != g.start ==> parent[v].Some?)
  }

  /** Every edge out of a marked vertex that has left the queue leads to a marked vertex. */
  ghost predicate BfsClosed(g: Graph, queue: seq<nat>, visited: seq<bool>)
    requires |visited| == |g.vertices| && TargetsValid(g.vertices)
  {
    forall v, k :: 0 <= v < |g.vertices| && visited[v] && v !in queue && 0 <= k < |g.vertices[v].neighbors| ==>
      visited[g.vertices[v].neighbors[k].target]
  }

  /** The queue holds levels `d` and `d + 1` only, in non-decreasing order. */
  ghost predicate BfsLayered(queue: seq<nat>, level: seq<nat>, d: nat)
    requires forall i :: 0 <= i < |queue| ==> queue[i] < |level|
  {
    && (forall i :: 0 <= i < |queue| ==> d <= level[queue[i]] <= d + 1)
    && (forall i, j :: 0 <= i < j < |queue| ==> level[queue[i]] <= level[queue[j]])
  }

  /**
   * What the levels mean: a walk from the start with fewer than `d` edges
   * ends at a vertex that is marked and has left the queue, and no walk
   * from the start reaches a marked vertex in fewer edges than its level.
   */
  ghost predicate BfsNear(g: Graph, queue: seq<nat>, visited: seq<bool>, level: seq<nat>, d: nat)
    requires |visited| == |g.vertices| && |level| == |g.vertices|
  {
    && (forall p :: IsWalk(g, p) && p[0] == g.start && |p| - 1 < d ==>
          visited[p[|p| - 1]] && p[|p| - 1] !in queue)
    && (forall p :: IsWalk(g, p) && p[0] == g.start && visited[p[|p| - 1]] ==>
          level[p[|p| - 1]] <= |p| - 1)
  }

  /** What holds between iterations of the search loop. `level` and `d` are ghost. */
  ghost predicate BfsInvariant(g: Graph, queue: seq<nat>, visited: seq<bool>, parent: seq<Option<nat>>,
                               level: seq<nat>, d: nat)
  {
    && BfsShape(g, queue, visited, parent, level)
    && BfsTree(g, visited, parent, level)
    && BfsClosed(g, queue, visited)
    && BfsLayered(queue, level, d)
    && BfsNear(g, queue, visited, level, d)
  }

  lemma BfsInitial(g: Graph)
    requires WellFormed(g)
    ensures var n := |g.vertices|;
      BfsInvariant(g, [g.start], seq(n, _ => false)[g.start := true], seq(n, _ => None), seq(n, _ => 0), 0)
  {
    var n := |g.vertices|;
    var visited := seq(n, _ => false)[g.start := true];
    forall p | IsWalk(g, p) && p[0] == g.start && visited[p[|p| - 1]]
      ensures 0 <= |p| - 1
    {
    }
  }

  /** Under the invariant, every walk from the start with at most `d` edges ends at a marked vertex. */
  lemma BfsWithinReach(g: Graph, queue: seq<nat>, visited: seq<bool>, parent: seq<Option<nat>>,
                       level: seq<nat>, d: nat, p: seq<nat>)
    requires BfsShape(g, queue, visited, parent, level)
    requires BfsClosed(g, queue, visited) && BfsNear(g, queue, visited, level, d)
    requires IsWalk(g, p) && p[0] == g.start && |p| - 1 <= d
    ensures visited[p[|p| - 1]]
  {
    if |p| - 1 == d && |p| > 1 {
      var init := p[..|p| - 1];
      assert IsWalk(g, init) && init[0] == g.start && |init| - 1 < d;
      var u, v := p[|p| - 2], p[|p| - 1];
      assert init[|init| - 1] == u;
      assert Links(g, u, v);
      var k :| 0 <= k < |g.vertices[u].neighbors| && g.vertices[u].neighbors[k].target == v;
    }
  }

  /** When the queue's front is one level further, the invariant holds for that level. */
  lemma BfsAdvance(g: Graph, queue: seq<nat>, visited: seq<bool>, parent: seq<Option<nat>>,
                   level: seq<nat>, d: nat)
    requires BfsInvariant(g, queue, visited, parent, level, d)
    requires |queue| > 0
    ensures BfsInvariant(g, queue, visited, parent, level, level[queue[0]])
  {
    if level[queue[0]] != d {
      forall i | 0 <= i < |queue|
        ensures level[queue[i]] == d + 1
      {
        assert i > 0 ==> level[queue[0]] <= level[queue[i]];
      }
      forall v | v in queue
        ensures level[v] == d + 1
      {
        var i :| 0 <= i < |queue| && queue[i] == v;
      }
      BfsAdvanceNear(g, queue, visited, parent, level, d);
    }
  }

  /** With the whole queue at level `d + 1`, every walk of at most `d` edges from the start has left the queue. */
  lemma BfsAdvanceNear(g: Graph, queue: seq<nat>, visited: seq<bool>, parent: seq<Option<nat>>,
                       level: seq<nat>, d: nat)
    requires BfsInvariant(g, queue, visited, parent, level, d)
    requires forall v :: v in queue ==> level[v] == d + 1
    ensures BfsNear(g, queue, visited, level, d + 1)
  {
    forall p | IsWalk(g, p) && p[0] == g.start && |p| - 1 < d + 1
      ensures visited[p[|p| - 1]] && p[|p| - 1] !in queue
    {
      BfsWithinReach(g, queue, visited, parent, level, d, p);
    }
  }

  /**
   * When the end is dequeued the parent links are ranked by level, so the
   * path can be read back; it runs from the start to the end along edges,
   * has one vertex per level, and no walk from the start reaches the end in
   * fewer edges.
   */
  lemma BfsFound(g: Graph, queue: seq<nat>, visited: seq<bool>, parent: seq<Option<nat>>,
                 level: seq<nat>, d: nat, path: seq<nat>)
    requires BfsInvariant(g, queue, visited, parent, level, d)
    requires g.end in queue
    ensures RankedBy(parent, level)
    ensures IsParentChain(parent, path, g.end) ==>
      && IsPath(g, path, g.start, g.end)
      && (forall q :: IsPath(g, q, g.start, g.end) ==> |path| <= |q|)
      && (g.start == g.end ==> path == [g.start])
  {
    if IsParentChain(parent, path, g.end) {
      assert |path| > 1 ==> parent[path[1]] == Some(path[0]);
      assert visited[path[0]];
      assert path[0] == g.start;
      ParentChainIsPath(g, parent, path, g.start, g.end);
      ChainLevels(g, visited, parent, level, path, |path| - 1);
      forall q | IsPath(g, q, g.start, g.end)
        ensures |path| <= |q|
      {
      }
      assert |path| > 1 ==> parent[path[|path| - 1]] == Some(path[|path| - 2]);
    }
  }

  /** Along a parent chain rooted at the start, the `k`th vertex sits at level `k`. */
  lemma {:induction false} ChainLevels(g: Graph, visited: seq<bool>, parent: seq<Option<nat>>,
                                       level: seq<nat>, path: seq<nat>, k: nat)
    requires |visited| == |g.vertices| && |parent| == |g.vertices| && |level| == |g.vertices|
    requires BfsTree(g, visited, parent, level)
    requires |path| >= 1 && forall j :: 0 <= j < |path| ==> path[j] < |parent|
    requires level[path[0]] == 0
    requires forall j :: 0 <= j < |path| - 1 ==> parent[path[j + 1]] == Some(path[j])
    requires k < |path|
    ensures level[path[k]] == k
  {
    if k > 0 {
      ChainLevels(g, visited, parent, level, path, k - 1);
      assert parent[path[k]] == Some(path[k - 1]);
    }
  }

  /** Every part of the invariant after dequeuing `current` and queuing `added`. */
  lemma BfsStepShape(g: Graph, current: nat, rest: seq<nat>, visited: seq<bool>, parent: seq<Option<nat>>,
                     level: seq<nat>, added: seq<nat>, visited': seq<bool>, parent': seq<Option<nat>>, level': seq<nat>)
    requires BfsShape(g, [current] + rest, visited, parent, level) && current != g.end
    requires forall v :: v in added ==> v < |visited| && !visited[v]
    requires |visited'| == |visited| && |parent'| == |visited| && |level'| == |visited|
    requires forall v :: 0 <= v < |visited| ==> visited'[v] == (visited[v] || v in added)
    requires forall v :: 0 <= v < |visited| && v !in added ==> parent'[v] == parent[v] && level'[v] == level[v]
    ensures BfsShape(g, rest + added, visited', parent', level')
  {
    assert forall v :: v in [current] + rest <==> v == current || v in rest;
    assert forall v :: v in rest + added <==> v in rest || v in added;
    assert forall i :: 0 <= i < |rest + added| ==> (rest + added)[i] in rest + added;
  }

  lemma BfsStepTree(g: Graph, current: nat, visited: seq<bool>, parent: seq<Option<nat>>,
                    level: seq<nat>, added: seq<nat>, visited': seq<bool>, parent': seq<Option<nat>>, level': seq<nat>)
    requires |visited| == |g.vertices| && |parent| == |g.vertices| && |level| == |g.vertices|
    requires BfsTree(g, visited, parent, level)
    requires current < |visited| && visited[current]
    requires forall v :: v in added ==> v < |visited| && !visited[v] && Links(g, current, v)
    requires |visited'| == |visited| && |parent'| == |visited| && |level'| == |visited|
    requires forall v :: 0 <= v < |visited| ==> visited'[v] == (visited[v] || v in added)
    requires forall v :: 0 <= v < |visited| ==>
      parent'[v] == (if v in added then Some(current) else parent[v]) &&
      level'[v] == (if v in added then level[current] + 1 else level[v])
    ensures BfsTree(g, visited', parent', level')
  {
  }

  lemma BfsStepClosed(g: Graph, current: nat, rest: seq<nat>, visited: seq<bool>,
                      added: seq<nat>, visited': seq<bool>)
    requires |visited| == |g.vertices| && current < |visited| && TargetsValid(g.vertices)
    requires BfsClosed(g, [current] + rest, visited)
    requires forall t: nat :: t < |visited| && HasEdge(g.vertices[current].neighbors, t) && !visited[t] ==> t in added
    requires |visited'| == |visited|
    requires forall v :: 0 <= v < |visited| ==> visited'[v] == (visited[v] || v in added)
    ensures BfsClosed(g, rest + added, visited')
  {
    assert forall v :: v in [current] + rest <==> v == current || v in rest;
    assert forall v :: v in rest + added <==> v in rest || v in added;
    forall v, k | 0 <= v < |g.vertices| && visited'[v] && v !in rest + added && 0 <= k < |g.vertices[v].neighbors|
      ensures visited'[g.vertices[v].neighbors[k].target]
    {
      var t := g.vertices[v].neighbors[k].target;
      if v == current {
        assert HasEdge(g.vertices[current].neighbors, t);
      }
    }
  }

  lemma BfsStepLayered(current: nat, rest: seq<nat>, level: seq<nat>, d: nat, added: seq<nat>, level': seq<nat>)
    requires current < |level|
    requires forall i :: 0 <= i < |[current] + rest| ==> ([current] + rest)[i] < |level|
    requires BfsLayered([current] + rest, level, d) && level[current] == d
    requires forall i :: 0 <= i < |rest + added| ==> (rest + added)[i] < |level|
    requires |level'| == |level|
    requires forall v :: 0 <= v < |level| && v in rest ==> level'[v] == level[v]
    requires forall v :: 0 <= v < |level| && v in added ==> level'[v] == d + 1
    ensures BfsLayered(rest + added, level', d)
  {
    var q := [current] + rest;
    var r := rest + added;
    forall i | 0 <= i < |r|
      ensures r[i] < |level| && d <= level'[r[i]] <= d + 1
      ensures i < |rest| ==> level'[r[i]] == level[q[i + 1]]
      ensures i >= |rest| ==> level'[r[i]] == d + 1
    {
      if i < |rest| {
        assert r[i] == rest[i] == q[i + 1];
        assert rest[i] in rest;
      } else {
        assert r[i] == added[i - |rest|];
        assert added[i - |rest|] in added;
      }
    }
    forall i, j | 0 <= i < j < |r|
      ensures level'[r[i]] <= level'[r[j]]
    {
      if j < |rest| {
        assert level[q[i + 1]] <= level[q[j + 1]];
      }
    }
  }

  lemma BfsStepNear(g: Graph, current: nat, rest: seq<nat>, visited: seq<bool>, parent: seq<Option<nat>>,
                    level: seq<nat>, d: nat, added: seq<nat>, visited': seq<bool>, level': seq<nat>)
    requires current < |level| && BfsInvariant(g, [current] + rest, visited, parent, level, d) && level[current] == d
    requires forall v :: v in added ==> v < |visited| && !visited[v]
    requires |visited'| == |visited| && |level'| == |visited|
    requires forall v :: 0 <= v < |visited| ==> visited'[v] == (visited[v] || v in added)
    requires forall v :: 0 <= v < |visited| ==> level'[v] == (if v in added then d + 1 else level[v])
    ensures BfsNear(g, rest + added, visited', level', d)
  {
    assert forall v :: v in [current] + rest <==> v == current || v in rest;
    assert forall v :: v in rest + added <==> v in rest || v in added;
    forall p | IsWalk(g, p) && p[0] == g.start && visited'[p[|p| - 1]]
      ensures level'[p[|p| - 1]] <= |p| - 1
    {
      var v := p[|p| - 1];
      if v in added && |p| - 1 <= d {
        BfsWithinReach(g, [current] + rest, visited, parent, level, d, p);
        assert false;
      }
    }
  }

  /** Dequeuing `current` and visiting its neighbours keeps the queue, tree and closure parts of the invariant. */
  lemma BfsStepFrame(g: Graph, current: nat, rest: seq<nat>, visited: seq<bool>, parent: seq<Option<nat>>,
                level: seq<nat>, visited': seq<bool>, parent': seq<Option<nat>>, level': seq<nat>)
    requires current < |level|
    requires BfsInvariant(g, [current] + rest, visited, parent, level, level[current])
    requires current != g.end
    requires var es := g.vertices[current].neighbors; var added := FreshTargets(es, visited);
      && |visited'| == |visited| && |parent'| == |visited| && |level'| == |visited|
      && (forall v :: 0 <= v < |visited| ==> visited'[v] == (visited[v] || v in added))
      && (forall v :: 0 <= v < |visited| ==> parent'[v] == if v in added then Some(current) else parent[v])
      && (forall v :: 0 <= v < |visited| ==> level'[v] == if v in added then level[current] + 1 else level[v])
    ensures var queue' := rest + FreshTargets(g.vertices[current].neighbors, visited);
      && BfsShape(g, queue', visited', parent', level')
      && BfsTree(g, visited', parent', level')
      && BfsClosed(g, queue', visited')
  {
    var es := g.vertices[current].neighbors;
    var added := FreshTargets(es, visited);
    var d := level[current];
    assert current in [current] + rest;
    FreshTargetsMembers(es, visited);
    assert forall j :: 0 <= j < |added| ==> added[j] in added;
    assert forall v :: v in rest ==> v in [current] + rest;
    BfsStepShape(g, current, rest, visited, parent, level, added, visited', parent', level');
    BfsStepTree(g, current, visited, parent, level, added, visited', parent', level');
    BfsStepClosed(g, current, rest, visited, added, visited');
  }

  /** Dequeuing `current` and appending what it discovers one level down keeps the queue in level order. */
  lemma BfsStepOrder(g: Graph, current: nat, rest: seq<nat>, visited: seq<bool>, parent: seq<Option<nat>>,
                     level: seq<nat>, level': seq<nat>)
    requires BfsShape(g, [current] + rest, visited, parent, level) && current < |level|
    requires BfsLayered([current] + rest, level, level[current])
    requires var added := FreshTargets(g.vertices[current].neighbors, visited);
      && |level'| == |level|
      && (forall v :: 0 <= v < |level| ==> level'[v] == if v in added then level[current] + 1 else level[v])
    ensures var queue' := rest + FreshTargets(g.vertices[current].neighbors, visited);
      && (forall i :: 0 <= i < |queue'| ==> queue'[i] < |level'|)
      && BfsLayered(queue', level', level[current])
  {
    var es := g.vertices[current].neighbors;
    var added := FreshTargets(es, visited);
    FreshTargetsMembers(es, visited);
    assert forall v :: v in rest ==> v in [current] + rest;
    assert forall i :: 0 <= i < |rest + added| ==> (rest + added)[i] in rest || (rest + added)[i] in added;
    BfsStepLayered(current, rest, level, level[current], added, level');
  }



  /** With the queue empty, the marked vertices are closed under edges and hold the start but not the end. */
  lemma BfsExhausted(g: Graph, visited: seq<bool>, parent: seq<Option<nat>>, level: seq<nat>, d: nat)
    requires BfsInvariant(g, [], visited, parent, level, d)
    ensures !Reachable(g, g.start, g.end)
  {
    forall p | IsWalk(g, p) && p[0] == g.start
      ensures visited[p[|p| - 1]]
    {
      WalkStaysInside(g, visited, p);
    }
  }

  /** The levels after `current` discovers `added`: one more than its own for each of them. */
  ghost function NextLevels(level: seq<nat>, current: nat, added: seq<nat>): (level': seq<nat>)
    requires current < |level|
    ensures |level'| == |level|
    ensures forall v :: 0 <= v < |level| ==> level'[v] == if v in added then level[current] + 1 else level[v]
  {
    seq(|level|, v requires 0 <= v < |level| => if v in added then level[current] + 1 else level[v])
  }

  /** Dequeuing a vertex other than the end and visiting its neighbours keeps the invariant. */
  lemma BfsRound(g: Graph, current: nat, rest: seq<nat>, visited: seq<bool>, parent: seq<Option<nat>>,
                 level: seq<nat>, d: nat, visited': seq<bool>, parent': seq<Option<nat>>, level': seq<nat>)
    requires BfsInvariant(g, [current] + rest, visited, parent, level, d)
    requires current != g.end && current < |g.vertices|
    requires var es := g.vertices[current].neighbors; var added := FreshTargets(es, visited);
      && |visited'| == |visited| && |parent'| == |visited|
      && (forall v :: 0 <= v < |visited| ==> visited'[v] == (visited[v] || v in added))
      && (forall v :: 0 <= v < |visited| ==> parent'[v] == if v in added then Some(current) else parent[v])
      && level' == NextLevels(level, current, added)
    ensures BfsInvariant(g, rest + FreshTargets(g.vertices[current].neighbors, visited),
                         visited', parent', level', level[current])
  {
    BfsAdvance(g, [current] + rest, visited, parent, level, d);
    assert ([current] + rest)[0] == current;
    BfsStepFrame(g, current, rest, visited, parent, level, visited', parent', level');
    BfsStepOrder(g, current, rest, visited, parent, level, level');
    FreshTargetsMembers(g.vertices[current].neighbors, visited);
    BfsStepNear(g, current, rest, visited, parent, level, level[current], FreshTargets(g.vertices[current].neighbors, visited), visited', level');
  }

  /**
   * Breadth-first search from `g.start` to `g.end`. A returned path runs
   * along stored edges from start to end without repeating a vertex and
   * has the fewest edges of any such path; the search finds nothing only
   * when the end cannot be reached.
   */
  method Bfs(g: Graph) returns (r: Option<seq<nat>>)
    requires WellFormed(g)
    ensures r.Some? ==> IsPath(g, r.value, g.start, g.end) && Distinct(r.value)
    ensures r.Some? ==> forall q :: IsPath(g, q, g.start, g.end) ==> |r.value| <= |q|
    ensures r.None? <==> !Reachable(g, g.start, g.end)
    ensures g.start == g.end ==> r == Some([g.start])
  {
    var n := |g.vertices|;
    var queue: seq<nat> := [g.start];
    var visited: seq<bool> := seq(n, _ => false)[g.start := true];
    var parent: seq<Option<nat>> := seq(n, _ => None);
    ghost var level: seq<nat> := seq(n, _ => 0);
    ghost var d: nat := 0;
    BfsInitial(g);
    while |queue| > 0
      invariant BfsInvariant(g, queue, visited, parent, level, d)
      decreases CountFalse(visited) + |queue|
    {
      var current := queue[0];
      ghost var popped := queue;
      queue := queue[1..];
      assert popped == [current] + queue;
      if current == g.end {
        BfsFound(g, popped, visited, parent, level, d, []);
        var path := ReconstructPath(parent, g.end, level);
        BfsFound(g, popped, visited, parent, level, d, path);
        return Some(path);
      }
      var es := g.vertices[current].neighbors;
      var visited', parent', queue' := VisitNeighbors(es, current, visited, parent, queue);
      ghost var level' := NextLevels(level, current, FreshTargets(es, visited));
      BfsRound(g, current, queue, visited, parent, level, d, visited', parent', level');
      visited, parent, queue, level, d := visited', parent', queue', level', level[current];
    }
    BfsExhausted(g, visited, parent, level, d);
    return None;
  }
}
