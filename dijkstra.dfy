/**
 * Dijkstra's search (`dijkstra` in src/pathfinding.rs): tentative
 * distances, parent links and a priority queue of (cost, position) states
 * with lazy deletion. A state is popped cheapest first; a state dearer than
 * its vertex's current distance is skipped; otherwise every edge out of the
 * vertex is relaxed. The search stops when it pops the end vertex.
 */
module Dijkstra {
  import opened Graphs
  import opened Paths

  /** A tentative distance; `Infinity` stands for the source's `f32::MAX`, "not reached yet". */
  datatype Dist = Finite(value: nat) | Infinity

  /** `x` is strictly below `d`; every number is below `Infinity`. */
  predicate Below(x: nat, d: Dist) {
    d.Infinity? || x < d.value
  }

  /** A heap entry: the cost at which `position` was reached. */
  datatype State = State(cost: nat, position: nat)

  datatype Ordering = Less | Equal | Greater

  /**
   * `State`'s `Ord`: the costs compared the other way round, so that the
   * max-heap hands out the cheapest state first. The position plays no part.
   */
  function Cmp(a: State, b: State): (o: Ordering)
    ensures o == Greater <==> a.cost < b.cost
    ensures o == Less <==> b.cost < a.cost
  {
    if b.cost < a.cost then Less else if b.cost == a.cost then Equal else Greater
  }

  /** The ordering is the reverse of the order on costs, and swapping the operands reverses it. */
  lemma CmpReversed(a: State, b: State)
    ensures Cmp(a, b) == Greater <==> a.cost < b.cost
    ensures Cmp(a, b) == Less <==> b.cost < a.cost
    ensures Cmp(a, b) == Equal <==> a.cost == b.cost
    ensures Cmp(a, b) == Greater <==> Cmp(b, a) == Less
  {
  }

  /** Some state of a non-empty heap costs no more than any other. */
  lemma {:induction false} CheapestExists(heap: multiset<State>)
    requires |heap| > 0
    ensures exists top :: top in heap && forall s :: s in heap ==> top.cost <= s.cost
    decreases |heap|
  {
    var x :| x in heap;
    var others := heap - multiset{x};
    forall s | s in heap && s != x
      ensures s in others
    {
      assert others[s] == heap[s];
    }
    if |others| == 0 {
      assert others == multiset{};
      assert forall s :: s in heap ==> x.cost <= s.cost;
    } else {
      CheapestExists(others);
      var y :| y in others && forall s :: s in others ==> y.cost <= s.cost;
      assert y in heap;
      var top := if x.cost <= y.cost then x else y;
      assert forall s :: s in heap ==> top.cost <= s.cost;
    }
  }

  /** `BinaryHeap::pop`: removes one greatest state under `Cmp`; ties may go either way. */
  method Pop(heap: multiset<State>) returns (top: State, rest: multiset<State>)
    requires |heap| > 0
    ensures top in heap && rest == heap - multiset{top}
    ensures forall s :: s in heap ==> Cmp(top, s) != Less
  {
    CheapestExists(heap);
    top :| top in heap && forall s :: s in heap ==> top.cost <= s.cost;
    rest := heap - multiset{top};
  }

  /** How many distances are still infinite. */
  function InfCount(d: seq<Dist>): nat {
    if |d| == 0 then 0
    else InfCount(d[..|d| - 1]) + (if d[|d| - 1].Infinity? then 1 else 0)
  }

  /** The sum of the finite distances. */
  function FinSum(d: seq<Dist>): nat {
    if |d| == 0 then 0
    else FinSum(d[..|d| - 1]) + (if d[|d| - 1].Finite? then d[|d| - 1].value else 0)
  }

  /** `d'` is lower than `d` in the order that bounds the search: fewer infinite, or as many and a smaller sum. */
  predicate Improves(d': seq<Dist>, d: seq<Dist>) {
    InfCount(d') < InfCount(d) || (InfCount(d') == InfCount(d) && FinSum(d') < FinSum(d))
  }

  /** Lowering one distance either removes an infinite one or lowers the sum by the difference. */
  lemma {:induction false} LowerOne(d: seq<Dist>, v: nat, x: nat)
    requires v < |d| && Below(x, d[v])
    ensures d[v].Infinity? ==> InfCount(d[v := Finite(x)]) + 1 == InfCount(d)
    ensures d[v].Finite? ==>
      InfCount(d[v := Finite(x)]) == InfCount(d) && FinSum(d[v := Finite(x)]) + d[v].value == FinSum(d) + x
    ensures Improves(d[v := Finite(x)], d)
  {
    var last := |d| - 1;
    if v == last {
      assert d[v := Finite(x)][..last] == d[..last];
    } else {
      assert d[v := Finite(x)][..last] == d[..last][v := Finite(x)];
      LowerOne(d[..last], v, x);
    }
  }
  /** An improvement of `d1`, itself equal to `d0` or an improvement of it, improves `d0`. */
  lemma ImprovesFrom(d0: seq<Dist>, d1: seq<Dist>, d2: seq<Dist>)
    requires d1 == d0 || Improves(d1, d0)
    requires Improves(d2, d1)
    ensures Improves(d2, d0)
  {
    if d1 != d0 {
      assert InfCount(d2) <= InfCount(d1) <= InfCount(d0);
    }
  }


  /**
   * Vertex `v` either kept its distance and parent, or got, with `u` as its
   * parent, a lower distance `cost + w` through one of the first `m` edges
   * (`v`, `w`) of `u`.
   */
  predicate Relaxed(es: seq<Edge>, m: nat, u: nat, cost: nat, v: nat, d0: Dist, p0: Option<nat>, d: Dist, p: Option<nat>) {
    || (d == d0 && p == p0)
    || (&& d.Finite? && Below(d.value, d0) && p == Some(u)
        && exists k :: 0 <= k < m && k < |es| && es[k].target == v && d.value == cost + es[k].weight)
  }

  /**
   * The effect of relaxing the first `m` edges of `u`, reached at `cost`:
   * no relaxed edge leads to a vertex dearer than through it, each vertex
   * kept its distance or was lowered through an edge, and the heap gained a
   * state for every lowered vertex and nothing cheaper than `cost`.
   */
  predicate RelaxOutcome(es: seq<Edge>, m: nat, u: nat, cost: nat,
                         dists0: seq<Dist>, parent0: seq<Option<nat>>, heap0: multiset<State>,
                         dists: seq<Dist>, parent: seq<Option<nat>>, heap: multiset<State>)
    requires |parent0| == |dists0|
  {
    && |dists| == |dists0| && |parent| == |dists0|
    && (forall k :: 0 <= k < m && k < |es| ==>
          es[k].target < |dists| && !Below(cost + es[k].weight, dists[es[k].target]))
    && (forall v :: 0 <= v < |dists0| ==> Relaxed(es, m, u, cost, v, dists0[v], parent0[v], dists[v], parent[v]))
    && (forall v :: 0 <= v < |dists0| && dists[v] != dists0[v] ==> dists[v].Finite? && State(dists[v].value, v) in heap)
    && heap0 <= heap
    && (forall s :: s in heap ==>
          s in heap0 || (s.position < |dists| && cost <= s.cost && dists[s.position].Finite? && dists[s.position].value <= s.cost))
  }

  /**
   * Edge `k` of `u`, reached at `cost`, beats both the distance its target
   * had before the relax loop and every earlier edge of `u` to that target.
   */
  predicate Lowers(es: seq<Edge>, k: nat, cost: nat, dists0: seq<Dist>)
    requires k < |es| && es[k].target < |dists0|
  {
    && Below(cost + es[k].weight, dists0[es[k].target])
    && forall j :: 0 <= j < k && es[j].target == es[k].target ==> es[k].weight < es[j].weight
  }

  /** The states pushed for the first `m` edges of `u`: one per lowering edge, in edge order. */
  function Pushed(es: seq<Edge>, m: nat, cost: nat, dists0: seq<Dist>): seq<State>
    requires m <= |es| && forall k :: 0 <= k < |es| ==> es[k].target < |dists0|
  {
    if m == 0 then []
    else
      var k := m - 1;
      Pushed(es, k, cost, dists0) + (if Lowers(es, k, cost, dists0) then [State(cost + es[k].weight, es[k].target)] else [])
  }

  /** Edge `k` adds its state to the pushed ones exactly when it lowers its target. */
  lemma PushedStep(es: seq<Edge>, k: nat, cost: nat, dists0: seq<Dist>, heap0: multiset<State>, heap: multiset<State>)
    requires k < |es| && forall j :: 0 <= j < |es| ==> es[j].target < |dists0|
    requires heap == heap0 + multiset(Pushed(es, k, cost, dists0))
    ensures Lowers(es, k, cost, dists0) ==>
      heap + multiset{State(cost + es[k].weight, es[k].target)} == heap0 + multiset(Pushed(es, k + 1, cost, dists0))
    ensures !Lowers(es, k, cost, dists0) ==> heap == heap0 + multiset(Pushed(es, k + 1, cost, dists0))
  {
    var s := State(cost + es[k].weight, es[k].target);
    if Lowers(es, k, cost, dists0) {
      assert Pushed(es, k + 1, cost, dists0) == Pushed(es, k, cost, dists0) + [s];
    } else {
      assert Pushed(es, k + 1, cost, dists0) == Pushed(es, k, cost, dists0) + [];
    }
  }

  /**
   * Midway through the relax loop, edge `k` lowers its target's current
   * distance exactly when it beats the original distance and every earlier
   * edge to the same target.
   */
  lemma LowersNow(es: seq<Edge>, k: nat, u: nat, cost: nat,
                  dists0: seq<Dist>, parent0: seq<Option<nat>>, heap0: multiset<State>,
                  dists: seq<Dist>, parent: seq<Option<nat>>, heap: multiset<State>)
    requires |parent0| == |dists0| && k < |es|
    requires forall j :: 0 <= j < |es| ==> es[j].target < |dists0|
    requires RelaxOutcome(es, k, u, cost, dists0, parent0, heap0, dists, parent, heap)
    ensures Below(cost + es[k].weight, dists[es[k].target]) <==> Lowers(es, k, cost, dists0)
  {
    var t, x := es[k].target, cost + es[k].weight;
    assert Relaxed(es, k, u, cost, t, dists0[t], parent0[t], dists[t], parent[t]);
    if Lowers(es, k, cost, dists0) && dists[t] != dists0[t] {
      var j :| 0 <= j < k && j < |es| && es[j].target == t && dists[t].value == cost + es[j].weight;
      assert es[k].weight < es[j].weight;
    }
    if Below(x, dists[t]) {
      forall j | 0 <= j < k && es[j].target == t
        ensures es[k].weight < es[j].weight
      {
        assert !Below(cost + es[j].weight, dists[t]);
      }
    }
  }

  /**
   * The inner loop for the vertex `u` popped at `cost`: each neighbour whose
   * distance `cost + w` beats its current one gets that distance, `u` as
   * parent and a heap entry; no other state is pushed.
   */
  method RelaxNeighbors(es: seq<Edge>, u: nat, cost: nat, dists0: seq<Dist>, parent0: seq<Option<nat>>, heap0: multiset<State>)
    returns (dists: seq<Dist>, parent: seq<Option<nat>>, heap: multiset<State>)
    requires |parent0| == |dists0|
    requires forall k :: 0 <= k < |es| ==> es[k].target < |dists0|
    ensures RelaxOutcome(es, |es|, u, cost, dists0, parent0, heap0, dists, parent, heap)
    ensures (dists == dists0 && heap == heap0) || Improves(dists, dists0)
    ensures heap == heap0 + multiset(Pushed(es, |es|, cost, dists0))
  {
    dists, parent, heap := dists0, parent0, heap0;
    for k := 0 to |es|
      invariant RelaxOutcome(es, k, u, cost, dists0, parent0, heap0, dists, parent, heap)
      invariant (dists == dists0 && heap == heap0) || Improves(dists, dists0)
      invariant heap == heap0 + multiset(Pushed(es, k, cost, dists0))
    {
      var neighbor := es[k].target;
      var nextDist := cost + es[k].weight;
      if Below(nextDist, dists[neighbor]) {
        RelaxRoundLower(es, k, u, cost, dists0, parent0, heap0, dists, parent, heap);
        dists := dists[neighbor := Finite(nextDist)];
        parent := parent[neighbor := Some(u)];
        heap := heap + multiset{State(nextDist, neighbor)};
      } else {
        RelaxRoundKeep(es, k, u, cost, dists0, parent0, heap0, dists, parent, heap);
      }
    }
  }

  /** An iteration of the relax loop whose edge `k` lowers its target keeps the loop's three invariants. */
  lemma RelaxRoundLower(es: seq<Edge>, k: nat, u: nat, cost: nat,
                        dists0: seq<Dist>, parent0: seq<Option<nat>>, heap0: multiset<State>,
                        dists: seq<Dist>, parent: seq<Option<nat>>, heap: multiset<State>)
    requires |parent0| == |dists0| && k < |es|
    requires forall j :: 0 <= j < |es| ==> es[j].target < |dists0|
    requires RelaxOutcome(es, k, u, cost, dists0, parent0, heap0, dists, parent, heap)
    requires (dists == dists0 && heap == heap0) || Improves(dists, dists0)
    requires heap == heap0 + multiset(Pushed(es, k, cost, dists0))
    requires Below(cost + es[k].weight, dists[es[k].target])
    ensures var t, x := es[k].target, cost + es[k].weight;
      var dists', heap' := dists[t := Finite(x)], heap + multiset{State(x, t)};
      && RelaxOutcome(es, k + 1, u, cost, dists0, parent0, heap0, dists', parent[t := Some(u)], heap')
      && Improves(dists', dists0)
      && heap' == heap0 + multiset(Pushed(es, k + 1, cost, dists0))
  {
    var t, x := es[k].target, cost + es[k].weight;
    LowersNow(es, k, u, cost, dists0, parent0, heap0, dists, parent, heap);
    PushedStep(es, k, cost, dists0, heap0, heap);
    RelaxOutcomeLower(es, k, u, cost, dists0, parent0, heap0, dists, parent, heap);
    LowerImproves(dists0, dists, t, x);
  }

  /** Lowering one more distance, after none or some improvements, improves the distances overall. */
  lemma LowerImproves(dists0: seq<Dist>, dists: seq<Dist>, t: nat, x: nat)
    requires t < |dists| && Below(x, dists[t])
    requires dists == dists0 || Improves(dists, dists0)
    ensures Improves(dists[t := Finite(x)], dists0)
  {
    LowerOne(dists, t, x);
    ImprovesFrom(dists0, dists, dists[t := Finite(x)]);
  }

  /** An iteration of the relax loop whose edge `k` does not lower its target keeps the loop's three invariants. */
  lemma RelaxRoundKeep(es: seq<Edge>, k: nat, u: nat, cost: nat,
                       dists0: seq<Dist>, parent0: seq<Option<nat>>, heap0: multiset<State>,
                       dists: seq<Dist>, parent: seq<Option<nat>>, heap: multiset<State>)
    requires |parent0| == |dists0| && k < |es|
    requires forall j :: 0 <= j < |es| ==> es[j].target < |dists0|
    requires RelaxOutcome(es, k, u, cost, dists0, parent0, heap0, dists, parent, heap)
    requires heap == heap0 + multiset(Pushed(es, k, cost, dists0))
    requires !Below(cost + es[k].weight, dists[es[k].target])
    ensures RelaxOutcome(es, k + 1, u, cost, dists0, parent0, heap0, dists, parent, heap)
    ensures heap == heap0 + multiset(Pushed(es, k + 1, cost, dists0))
  {
    LowersNow(es, k, u, cost, dists0, parent0, heap0, dists, parent, heap);
    PushedStep(es, k, cost, dists0, heap0, heap);
    RelaxOutcomeKeep(es, k, u, cost, dists0, parent0, heap0, dists, parent, heap);
  }

  /** Relaxing edge `k` when it lowers its target extends the outcome of the first `k` edges to the first `k + 1`. */
  lemma RelaxOutcomeLower(es: seq<Edge>, k: nat, u: nat, cost: nat,
                          dists0: seq<Dist>, parent0: seq<Option<nat>>, heap0: multiset<State>,
                          dists: seq<Dist>, parent: seq<Option<nat>>, heap: multiset<State>)
    requires |parent0| == |dists0| && k < |es|
    requires forall j :: 0 <= j < |es| ==> es[j].target < |dists0|
    requires RelaxOutcome(es, k, u, cost, dists0, parent0, heap0, dists, parent, heap)
    requires Below(cost + es[k].weight, dists[es[k].target])
    ensures var t, nextDist := es[k].target, cost + es[k].weight;
      RelaxOutcome(es, k + 1, u, cost, dists0, parent0, heap0,
                   dists[t := Finite(nextDist)], parent[t := Some(u)], heap + multiset{State(nextDist, t)})
  {
    var t, nextDist := es[k].target, cost + es[k].weight;
    var dists', parent', heap' := dists[t := Finite(nextDist)], parent[t := Some(u)], heap + multiset{State(nextDist, t)};
    forall v | 0 <= v < |dists0|
      ensures Relaxed(es, k + 1, u, cost, v, dists0[v], parent0[v], dists'[v], parent'[v])
    {
      assert Relaxed(es, k, u, cost, v, dists0[v], parent0[v], dists[v], parent[v]);
    }
    forall s | s in heap'
      ensures s in heap0 || (s.position < |dists'| && cost <= s.cost && dists'[s.position].Finite? && dists'[s.position].value <= s.cost)
    {
      if s != State(nextDist, t) {
        assert s in heap;
      }
    }
  }

  /** Relaxing edge `k` when it does not lower its target extends the outcome to the first `k + 1` edges unchanged. */
  lemma RelaxOutcomeKeep(es: seq<Edge>, k: nat, u: nat, cost: nat,
                         dists0: seq<Dist>, parent0: seq<Option<nat>>, heap0: multiset<State>,
                         dists: seq<Dist>, parent: seq<Option<nat>>, heap: multiset<State>)
    requires |parent0| == |dists0| && k < |es|
    requires forall j :: 0 <= j < |es| ==> es[j].target < |dists0|
    requires RelaxOutcome(es, k, u, cost, dists0, parent0, heap0, dists, parent, heap)
    requires !Below(cost + es[k].weight, dists[es[k].target])
    ensures RelaxOutcome(es, k + 1, u, cost, dists0, parent0, heap0, dists, parent, heap)
  {
    forall v | 0 <= v < |dists0|
      ensures Relaxed(es, k + 1, u, cost, v, dists0[v], parent0[v], dists[v], parent[v])
    {
      assert Relaxed(es, k, u, cost, v, dists0[v], parent0[v], dists[v], parent[v]);
    }
  }

  /** Sizes, bounds, and the start and end: the start stays at distance 0 with no parent; the end is never settled. */
  ghost predicate DjShape(g: Graph, dists: seq<Dist>, parent: seq<Option<nat>>, heap: multiset<State>,
                          settled: seq<bool>, order: seq<nat>) {
    var n := |g.vertices|;
    && WellFormed(g)
    && |dists| == n && |parent| == n && |settled| == n && |order| == n
    && dists[g.start] == Finite(0) && parent[g.start].None?
    && !settled[g.end]
    && (forall s :: s in heap ==> s.position < n)
  }

  /**
   * Every heap entry costs at least `bound` and at least its vertex's
   * distance; every reached vertex not yet settled has an entry at exactly
   * its distance.
   */
  ghost predicate DjQueued(g: Graph, dists: seq<Dist>, heap: multiset<State>, settled: seq<bool>, bound: nat)
    requires |dists| == |g.vertices| && |settled| == |g.vertices|
  {
    && (forall s :: s in heap ==>
          s.position < |dists| && dists[s.position].Finite? && dists[s.position].value <= s.cost && bound <= s.cost)
    && (forall v :: 0 <= v < |dists| && dists[v].Finite? && !settled[v] ==> State(dists[v].value, v) in heap)
  }

  /** A settled vertex has a distance no more than `bound`, and all its edges are relaxed. */
  ghost predicate DjSettled(g: Graph, dists: seq<Dist>, settled: seq<bool>, bound: nat)
    requires |dists| == |g.vertices| && |settled| == |g.vertices| && TargetsValid(g.vertices)
  {
    && (forall v :: 0 <= v < |dists| && settled[v] ==> dists[v].Finite? && dists[v].value <= bound)
    && (forall v, k :: 0 <= v < |dists| && settled[v] && 0 <= k < |g.vertices[v].neighbors| ==>
          dists[v].Finite? && !Below(dists[v].value + g.vertices[v].neighbors[k].weight, dists[g.vertices[v].neighbors[k].target]))
  }

  /** No walk from the start reaches a settled vertex more cheaply than its distance. */
  ghost predicate DjOptimal(g: Graph, dists: seq<Dist>, settled: seq<bool>)
    requires |dists| == |g.vertices| && |settled| == |g.vertices|
  {
    forall p :: IsWalk(g, p) && p[0] == g.start && settled[p[|p| - 1]] ==>
      dists[p[|p| - 1]].Finite? && dists[p[|p| - 1]].value <= MinPathCost(g, p)
  }

  /**
   * The parent links: each goes from a settled vertex along an edge, and a
   * vertex's distance is at least its parent's plus the cheapest edge
   * between them; a parent was settled before its child. Only the start is
   * reached without a parent.
   */
  ghost predicate DjTree(g: Graph, dists: seq<Dist>, parent: seq<Option<nat>>, settled: seq<bool>,
                         order: seq<nat>, clock: nat)
    requires |dists| == |g.vertices| && |parent| == |g.vertices| && |settled| == |g.vertices| && |order| == |g.vertices|
  {
    forall v :: 0 <= v < |g.vertices| ==>
      && (parent[v].Some? ==>
            && parent[v].value < |g.vertices| && settled[parent[v].value] && Links(g, parent[v].value, v)
            && dists[parent[v].value].Finite? && dists[v].Finite?
            && dists[parent[v].value].value + MinWeight(g.vertices[parent[v].value].neighbors, v) <= dists[v].value
            && (settled[v] ==> order[parent[v].value] < order[v]))
      && (settled[v] ==> order[v] < clock)
      && (dists[v].Finite? ==> v == g.start || parent[v].Some?)
  }

  /** What holds between iterations of the search loop. `settled`, `order`, `clock` and `bound` are ghost. */
  ghost predicate DjInvariant(g: Graph, dists: seq<Dist>, parent: seq<Option<nat>>, heap: multiset<State>,
                              settled: seq<bool>, order: seq<nat>, clock: nat, bound: nat)
  {
    && DjShape(g, dists, parent, heap, settled, order)
    && DjQueued(g, dists, heap, settled, bound)
    && DjSettled(g, dists, settled, bound)
    && DjOptimal(g, dists, settled)
    && DjTree(g, dists, parent, settled, order, clock)
  }

  /** The rank of a vertex: its settle time, or the current clock for one not settled. */
  ghost function DjRank(settled: seq<bool>, order: seq<nat>, clock: nat): seq<nat>
    requires |order| == |settled|
  {
    seq(|settled|, v requires 0 <= v < |settled| => if settled[v] then order[v] else clock)
  }

  lemma DjInitial(g: Graph)
    requires WellFormed(g)
    ensures var n := |g.vertices|;
      DjInvariant(g, seq(n, _ => Infinity)[g.start := Finite(0)], seq(n, _ => None), multiset{State(0, g.start)},
                  seq(n, _ => false), seq(n, _ => 0), 0, 0)
  {
  }

  /**
   * With `top` a cheapest heap entry: a walk from the start costs at least
   * its end's distance if that end is settled, and at least `top`'s cost
   * if not (the walk must leave the settled vertices somewhere, at a
   * vertex whose heap entry is no cheaper than `top`).
   */
  lemma {:induction false} DjFrontier(g: Graph, dists: seq<Dist>, parent: seq<Option<nat>>, heap: multiset<State>,
                                      settled: seq<bool>, order: seq<nat>, clock: nat, bound: nat, top: State, p: seq<nat>)
    requires DjShape(g, dists, parent, heap, settled, order) && DjQueued(g, dists, heap, settled, bound)
    requires DjSettled(g, dists, settled, bound) && DjOptimal(g, dists, settled)
    requires forall s :: s in heap ==> top.cost <= s.cost
    requires IsWalk(g, p) && p[0] == g.start
    ensures !settled[p[|p| - 1]] ==> top.cost <= MinPathCost(g, p)
  {
    var x := p[|p| - 1];
    if |p| == 1 {
      assert x == g.start;
      assert !settled[x] ==> State(0, g.start) in heap;
    } else {
      var init := p[..|p| - 1];
      var y := p[|p| - 2];
      assert IsWalk(g, init) && init[0] == g.start && init[|init| - 1] == y;
      DjFrontier(g, dists, parent, heap, settled, order, clock, bound, top, init);
      if settled[y] && !settled[x] {
        assert Links(g, y, x);
        var es := g.vertices[y].neighbors;
        var k :| 0 <= k < |es| && es[k].target == x && es[k].weight == MinWeight(es, x);
        assert !Below(dists[y].value + es[k].weight, dists[x]);
        assert State(dists[x].value, x) in heap;
      }
    }
  }

  /** Along a parent chain from the start, the cheapest-edge cost of each prefix is at most its last vertex's distance. */
  lemma {:induction false} ChainCost(g: Graph, dists: seq<Dist>, parent: seq<Option<nat>>, settled: seq<bool>,
                                     order: seq<nat>, clock: nat, path: seq<nat>, k: nat)
    requires |dists| == |g.vertices| && |parent| == |g.vertices| && |settled| == |g.vertices| && |order| == |g.vertices|
    requires DjTree(g, dists, parent, settled, order, clock)
    requires IsWalk(g, path) && path[0] == g.start && dists[g.start] == Finite(0)
    requires forall j :: 0 <= j < |path| - 1 ==> parent[path[j + 1]] == Some(path[j])
    requires k < |path|
    ensures IsWalk(g, path[..k + 1]) && dists[path[k]].Finite? && MinPathCost(g, path[..k + 1]) <= dists[path[k]].value
  {
    assert IsWalk(g, path[..k + 1]);
    if k > 0 {
      ChainCost(g, dists, parent, settled, order, clock, path, k - 1);
      assert path[..k + 1][..k] == path[..k];
      assert parent[path[k]] == Some(path[k - 1]);
    }
  }

  /** Parent links go to vertices settled earlier, so settle times rank them. */
  lemma DjRanked(g: Graph, dists: seq<Dist>, parent: seq<Option<nat>>, heap: multiset<State>,
                 settled: seq<bool>, order: seq<nat>, clock: nat)
    requires DjShape(g, dists, parent, heap, settled, order) && DjTree(g, dists, parent, settled, order, clock)
    ensures RankedBy(parent, DjRank(settled, order, clock))
  {
  }

  /**
   * When the end is popped the parent links are ranked by settle time, so
   * the path can be read back; it runs from the start to the end along
   * edges, and no path from the start to the end is cheaper.
   */
  lemma DjFound(g: Graph, dists: seq<Dist>, parent: seq<Option<nat>>, heap: multiset<State>,
                settled: seq<bool>, order: seq<nat>, clock: nat, bound: nat, top: State, path: seq<nat>)
    requires DjInvariant(g, dists, parent, heap, settled, order, clock, bound)
    requires top in heap && top.position == g.end
    requires forall s :: s in heap ==> top.cost <= s.cost
    ensures RankedBy(parent, DjRank(settled, order, clock))
    ensures IsParentChain(parent, path, g.end) ==>
      && IsPath(g, path, g.start, g.end)
      && (forall q :: IsPath(g, q, g.start, g.end) ==> MinPathCost(g, path) <= MinPathCost(g, q))
      && (g.start == g.end ==> path == [g.start])
  {
    DjRanked(g, dists, parent, heap, settled, order, clock);
    if IsParentChain(parent, path, g.end) {
      assert |path| > 1 ==> parent[path[1]] == Some(path[0]) && settled[path[0]];
      assert dists[path[0]].Finite?;
      assert path[0] == g.start;
      ParentChainIsPath(g, parent, path, g.start, g.end);
      ChainCost(g, dists, parent, settled, order, clock, path, |path| - 1);
      assert path[..|path|] == path;
      forall q | IsPath(g, q, g.start, g.end)
        ensures MinPathCost(g, path) <= MinPathCost(g, q)
      {
        DjFrontier(g, dists, parent, heap, settled, order, clock, bound, top, q);
      }
      assert |path| > 1 ==> parent[path[|path| - 1]] == Some(path[|path| - 2]);
    }
  }

  /** Skipping a state dearer than its vertex's distance keeps the invariant. */
  lemma DjStale(g: Graph, dists: seq<Dist>, parent: seq<Option<nat>>, heap: multiset<State>,
                settled: seq<bool>, order: seq<nat>, clock: nat, bound: nat, top: State)
    requires DjInvariant(g, dists, parent, heap, settled, order, clock, bound)
    requires top in heap && top.position < |dists| && dists[top.position].Finite? && top.cost > dists[top.position].value
    ensures DjInvariant(g, dists, parent, heap - multiset{top}, settled, order, clock, bound)
  {
    var rest := heap - multiset{top};
    forall v | 0 <= v < |dists| && dists[v].Finite? && !settled[v]
      ensures State(dists[v].value, v) in rest
    {
      assert State(dists[v].value, v) in heap;
    }
  }

  /** After the relaxation, a vertex whose distance was at most `cost` kept its distance and parent. */
  lemma RelaxKeepsCheap(es: seq<Edge>, u: nat, cost: nat, dists: seq<Dist>, parent: seq<Option<nat>>, heap: multiset<State>,
                        dists': seq<Dist>, parent': seq<Option<nat>>, heap': multiset<State>, v: nat)
    requires |parent| == |dists|
    requires RelaxOutcome(es, |es|, u, cost, dists, parent, heap, dists', parent', heap')
    requires v < |dists| && dists[v].Finite? && dists[v].value <= cost
    ensures dists'[v] == dists[v] && parent'[v] == parent[v]
  {
    assert Relaxed(es, |es|, u, cost, v, dists[v], parent[v], dists'[v], parent'[v]);
  }

  /**
   * One settle step apart from the invariant: `top` is a cheapest entry,
   * popped at its vertex's own distance; the edges of its vertex were
   * relaxed from the heap without `top`; and the vertex is settled, with the
   * next settle time if it was not settled yet.
   */
  ghost predicate SettleFrame(g: Graph, dists: seq<Dist>, parent: seq<Option<nat>>, heap: multiset<State>,
                              settled: seq<bool>, order: seq<nat>, clock: nat, top: State,
                              dists': seq<Dist>, parent': seq<Option<nat>>, heap': multiset<State>,
                              settled': seq<bool>, order': seq<nat>, clock': nat)
    requires DjShape(g, dists, parent, heap, settled, order)
  {
    && top in heap && (forall s :: s in heap ==> top.cost <= s.cost)
    && top.position != g.end && dists[top.position] == Finite(top.cost)
    && RelaxOutcome(g.vertices[top.position].neighbors, |g.vertices[top.position].neighbors|, top.position, top.cost,
                    dists, parent, heap - multiset{top}, dists', parent', heap')
    && settled' == settled[top.position := true]
    && (settled[top.position] ==> order' == order && clock' == clock)
    && (!settled[top.position] ==> order' == order[top.position := clock] && clock' == clock + 1)
  }

  lemma DjSettleShape(g: Graph, dists: seq<Dist>, parent: seq<Option<nat>>, heap: multiset<State>,
                      settled: seq<bool>, order: seq<nat>, clock: nat, bound: nat, top: State,
                      dists': seq<Dist>, parent': seq<Option<nat>>, heap': multiset<State>,
                      settled': seq<bool>, order': seq<nat>, clock': nat)
    requires DjShape(g, dists, parent, heap, settled, order)
    requires SettleFrame(g, dists, parent, heap, settled, order, clock, top, dists', parent', heap', settled', order', clock')
    ensures DjShape(g, dists', parent', heap', settled', order')
  {
    var es := g.vertices[top.position].neighbors;
    RelaxKeepsCheap(es, top.position, top.cost, dists, parent, heap - multiset{top}, dists', parent', heap', g.start);
  }

  /** After relaxing, every heap entry still costs at least `cost` and at least its vertex's distance. */
  lemma RelaxKeepsEntries(es: seq<Edge>, u: nat, cost: nat, dists: seq<Dist>, parent: seq<Option<nat>>, heap: multiset<State>,
                          dists': seq<Dist>, parent': seq<Option<nat>>, heap': multiset<State>)
    requires |parent| == |dists|
    requires RelaxOutcome(es, |es|, u, cost, dists, parent, heap, dists', parent', heap')
    requires forall s :: s in heap ==>
      s.position < |dists| && dists[s.position].Finite? && dists[s.position].value <= s.cost && cost <= s.cost
    ensures forall s :: s in heap' ==>
      s.position < |dists'| && dists'[s.position].Finite? && dists'[s.position].value <= s.cost && cost <= s.cost
  {
    forall s | s in heap'
      ensures s.position < |dists'| && dists'[s.position].Finite? && dists'[s.position].value <= s.cost && cost <= s.cost
    {
      if s in heap {
        var v := s.position;
        assert Relaxed(es, |es|, u, cost, v, dists[v], parent[v], dists'[v], parent'[v]);
      }
    }
  }

  /** After relaxing, every reached vertex other than `u` and not settled still has an entry at its distance. */
  lemma RelaxKeepsReached(es: seq<Edge>, u: nat, cost: nat, dists: seq<Dist>, parent: seq<Option<nat>>, heap: multiset<State>,
                          dists': seq<Dist>, parent': seq<Option<nat>>, heap': multiset<State>, settled: seq<bool>)
    requires |parent| == |dists| && |settled| == |dists|
    requires RelaxOutcome(es, |es|, u, cost, dists, parent, heap, dists', parent', heap')
    requires forall v :: 0 <= v < |dists| && dists[v].Finite? && !settled[v] && v != u ==> State(dists[v].value, v) in heap
    ensures forall v :: 0 <= v < |dists'| && dists'[v].Finite? && !settled[v] && v != u ==> State(dists'[v].value, v) in heap'
  {
  }

  lemma DjSettleQueued(g: Graph, dists: seq<Dist>, parent: seq<Option<nat>>, heap: multiset<State>,
                       settled: seq<bool>, order: seq<nat>, clock: nat, bound: nat, top: State,
                       dists': seq<Dist>, parent': seq<Option<nat>>, heap': multiset<State>,
                       settled': seq<bool>, order': seq<nat>, clock': nat)
    requires DjShape(g, dists, parent, heap, settled, order) && DjQueued(g, dists, heap, settled, bound)
    requires SettleFrame(g, dists, parent, heap, settled, order, clock, top, dists', parent', heap', settled', order', clock')
    ensures |dists'| == |g.vertices| && |settled'| == |g.vertices|
    ensures DjQueued(g, dists', heap', settled', top.cost)
  {
    var x := top.position;
    var es := g.vertices[x].neighbors;
    var rest := heap - multiset{top};
    assert forall s :: s in rest ==> s in heap;
    RelaxKeepsEntries(es, x, top.cost, dists, parent, rest, dists', parent', heap');
    forall v | 0 <= v < |dists| && dists[v].Finite? && !settled[v] && v != x
      ensures State(dists[v].value, v) in rest
    {
      assert State(dists[v].value, v) in heap;
    }
    RelaxKeepsReached(es, x, top.cost, dists, parent, rest, dists', parent', heap', settled);
  }

  lemma DjSettleSettled(g: Graph, dists: seq<Dist>, parent: seq<Option<nat>>, heap: multiset<State>,
                        settled: seq<bool>, order: seq<nat>, clock: nat, bound: nat, top: State,
                        dists': seq<Dist>, parent': seq<Option<nat>>, heap': multiset<State>,
                        settled': seq<bool>, order': seq<nat>, clock': nat)
    requires DjShape(g, dists, parent, heap, settled, order) && DjQueued(g, dists, heap, settled, bound)
    requires DjSettled(g, dists, settled, bound)
    requires SettleFrame(g, dists, parent, heap, settled, order, clock, top, dists', parent', heap', settled', order', clock')
    ensures |dists'| == |g.vertices| && |settled'| == |g.vertices|
    ensures DjSettled(g, dists', settled', top.cost)
  {
    var x := top.position;
    var es := g.vertices[x].neighbors;
    var rest := heap - multiset{top};
    forall v | 0 <= v < |dists| && settled'[v]
      ensures dists'[v] == dists[v] && dists[v].Finite? && dists[v].value <= top.cost
    {
      assert bound <= top.cost;
      RelaxKeepsCheap(es, x, top.cost, dists, parent, rest, dists', parent', heap', v);
    }
    forall v, k | 0 <= v < |dists'| && settled'[v] && 0 <= k < |g.vertices[v].neighbors|
      ensures dists'[v].Finite? && !Below(dists'[v].value + g.vertices[v].neighbors[k].weight, dists'[g.vertices[v].neighbors[k].target])
    {
      var t := g.vertices[v].neighbors[k].target;
      if v != x {
        assert !Below(dists[v].value + g.vertices[v].neighbors[k].weight, dists[t]);
        assert Relaxed(es, |es|, x, top.cost, t, dists[t], parent[t], dists'[t], parent'[t]);
      }
    }
  }

  lemma DjSettleOptimal(g: Graph, dists: seq<Dist>, parent: seq<Option<nat>>, heap: multiset<State>,
                        settled: seq<bool>, order: seq<nat>, clock: nat, bound: nat, top: State,
                        dists': seq<Dist>, parent': seq<Option<nat>>, heap': multiset<State>,
                        settled': seq<bool>, order': seq<nat>, clock': nat)
    requires DjShape(g, dists, parent, heap, settled, order) && DjQueued(g, dists, heap, settled, bound)
    requires DjSettled(g, dists, settled, bound) && DjOptimal(g, dists, settled)
    requires SettleFrame(g, dists, parent, heap, settled, order, clock, top, dists', parent', heap', settled', order', clock')
    ensures |dists'| == |g.vertices| && |settled'| == |g.vertices|
    ensures DjOptimal(g, dists', settled')
  {
    var x := top.position;
    var es := g.vertices[x].neighbors;
    var rest := heap - multiset{top};
    forall p | IsWalk(g, p) && p[0] == g.start && settled'[p[|p| - 1]]
      ensures dists'[p[|p| - 1]].Finite? && dists'[p[|p| - 1]].value <= MinPathCost(g, p)
    {
      var v := p[|p| - 1];
      assert dists[v].Finite? && dists[v].value <= top.cost;
      RelaxKeepsCheap(es, x, top.cost, dists, parent, rest, dists', parent', heap', v);
      DjFrontier(g, dists, parent, heap, settled, order, clock, bound, top, p);
    }
  }

  /**
   * After settling `x` at `cost` and relaxing its edges `es`, the parent
   * link of `v` satisfies the tree conditions. A vertex no dearer than
   * `cost` kept its distance and parent (`RelaxKeepsCheap`).
   */
  lemma DjSettleParentAt(g: Graph, dists: seq<Dist>, parent: seq<Option<nat>>, settled: seq<bool>, order: seq<nat>,
                         clock: nat, bound: nat, x: nat, cost: nat, dists': seq<Dist>, parent': seq<Option<nat>>,
                         settled': seq<bool>, order': seq<nat>, clock': nat, v: nat)
    requires var n := |g.vertices|;
      && |dists| == n && |parent| == n && |settled| == n && |order| == n
      && |dists'| == n && |parent'| == n
      && x < n && v < n && dists[x] == Finite(cost) && bound <= cost
    requires DjTree(g, dists, parent, settled, order, clock)
    requires forall w :: 0 <= w < |settled| && settled[w] ==> dists[w].Finite? && dists[w].value <= bound
    requires forall w :: 0 <= w < |dists| && dists[w].Finite? && dists[w].value <= cost ==>
      dists'[w] == dists[w] && parent'[w] == parent[w]
    requires Relaxed(g.vertices[x].neighbors, |g.vertices[x].neighbors|, x, cost, v, dists[v], parent[v], dists'[v], parent'[v])
    requires settled' == settled[x := true]
    requires settled[x] ==> order' == order && clock' == clock
    requires !settled[x] ==> order' == order[x := clock] && clock' == clock + 1
    requires parent'[v].Some?
    ensures var u := parent'[v].value;
      && u < |g.vertices| && settled'[u] && Links(g, u, v)
      && dists'[u].Finite? && dists'[v].Finite?
      && dists'[u].value + MinWeight(g.vertices[u].neighbors, v) <= dists'[v].value
      && (settled'[v] ==> order'[u] < order'[v])
  {
    var es := g.vertices[x].neighbors;
    var u := parent'[v].value;
    if settled'[v] {
      assert dists[v].Finite? && dists[v].value <= cost;
    }
    if dists'[v] == dists[v] && parent'[v] == parent[v] {
      assert settled[u];
      assert dists'[u] == dists[u];
      if settled'[v] && v == x && !settled[x] {
        assert order[u] < clock;
      }
    } else {
      var k :| 0 <= k < |es| && es[k].target == v && dists'[v].value == cost + es[k].weight;
      assert u == x && HasEdge(es, v);
      assert MinWeight(es, v) <= es[k].weight;
    }
  }

  lemma DjSettleTree(g: Graph, dists: seq<Dist>, parent: seq<Option<nat>>, heap: multiset<State>,
                     settled: seq<bool>, order: seq<nat>, clock: nat, bound: nat, top: State,
                     dists': seq<Dist>, parent': seq<Option<nat>>, heap': multiset<State>,
                     settled': seq<bool>, order': seq<nat>, clock': nat)
    requires DjShape(g, dists, parent, heap, settled, order) && DjQueued(g, dists, heap, settled, bound)
    requires DjSettled(g, dists, settled, bound) && DjTree(g, dists, parent, settled, order, clock)
    requires SettleFrame(g, dists, parent, heap, settled, order, clock, top, dists', parent', heap', settled', order', clock')
    ensures |dists'| == |g.vertices| && |parent'| == |g.vertices| && |settled'| == |g.vertices| && |order'| == |g.vertices|
    ensures DjTree(g, dists', parent', settled', order', clock')
  {
    var x := top.position;
    var es := g.vertices[x].neighbors;
    var rest := heap - multiset{top};
    assert bound <= top.cost;
    forall w | 0 <= w < |dists| && dists[w].Finite? && dists[w].value <= top.cost
      ensures dists'[w] == dists[w] && parent'[w] == parent[w]
    {
      RelaxKeepsCheap(es, x, top.cost, dists, parent, rest, dists', parent', heap', w);
    }
    forall v | 0 <= v < |g.vertices|
      ensures parent'[v].Some? ==>
            && parent'[v].value < |g.vertices| && settled'[parent'[v].value] && Links(g, parent'[v].value, v)
            && dists'[parent'[v].value].Finite? && dists'[v].Finite?
            && dists'[parent'[v].value].value + MinWeight(g.vertices[parent'[v].value].neighbors, v) <= dists'[v].value
            && (settled'[v] ==> order'[parent'[v].value] < order'[v])
      ensures settled'[v] ==> order'[v] < clock'
      ensures dists'[v].Finite? ==> v == g.start || parent'[v].Some?
    {
      assert Relaxed(es, |es|, x, top.cost, v, dists[v], parent[v], dists'[v], parent'[v]);
      if parent'[v].Some? {
        DjSettleParentAt(g, dists, parent, settled, order, clock, bound, x, top.cost, dists', parent', settled', order', clock', v);
      }
    }
  }

  /** A popped entry that is not stale, with its edges relaxed and its vertex marked settled, is one settle step. */
  lemma DjPopped(g: Graph, dists: seq<Dist>, parent: seq<Option<nat>>, heap: multiset<State>,
                 settled: seq<bool>, order: seq<nat>, clock: nat, bound: nat, top: State, rest: multiset<State>,
                 dists': seq<Dist>, parent': seq<Option<nat>>, heap': multiset<State>,
                 settled': seq<bool>, order': seq<nat>, clock': nat)
    requires DjShape(g, dists, parent, heap, settled, order) && DjQueued(g, dists, heap, settled, bound)
    requires top in heap && (forall s :: s in heap ==> top.cost <= s.cost) && rest == heap - multiset{top}
    requires top.position != g.end && top.position < |g.vertices|
    requires !(dists[top.position].Finite? && top.cost > dists[top.position].value)
    requires RelaxOutcome(g.vertices[top.position].neighbors, |g.vertices[top.position].neighbors|, top.position, top.cost,
                          dists, parent, rest, dists', parent', heap')
    requires settled' == settled[top.position := true]
    requires settled[top.position] ==> order' == order && clock' == clock
    requires !settled[top.position] ==> order' == order[top.position := clock] && clock' == clock + 1
    ensures SettleFrame(g, dists, parent, heap, settled, order, clock, top, dists', parent', heap', settled', order', clock')
  {
    assert dists[top.position] == Finite(top.cost);
  }

  /** A settle step keeps the invariant, with the popped cost as the new bound. */
  lemma DjSettle(g: Graph, dists: seq<Dist>, parent: seq<Option<nat>>, heap: multiset<State>,
                 settled: seq<bool>, order: seq<nat>, clock: nat, bound: nat, top: State,
                 dists': seq<Dist>, parent': seq<Option<nat>>, heap': multiset<State>,
                 settled': seq<bool>, order': seq<nat>, clock': nat)
    requires DjInvariant(g, dists, parent, heap, settled, order, clock, bound)
    requires SettleFrame(g, dists, parent, heap, settled, order, clock, top, dists', parent', heap', settled', order', clock')
    ensures DjInvariant(g, dists', parent', heap', settled', order', clock', top.cost)
  {
    DjSettleShape(g, dists, parent, heap, settled, order, clock, bound, top, dists', parent', heap', settled', order', clock');
    DjSettleQueued(g, dists, parent, heap, settled, order, clock, bound, top, dists', parent', heap', settled', order', clock');
    DjSettleSettled(g, dists, parent, heap, settled, order, clock, bound, top, dists', parent', heap', settled', order', clock');
    DjSettleOptimal(g, dists, parent, heap, settled, order, clock, bound, top, dists', parent', heap', settled', order', clock');
    DjSettleTree(g, dists, parent, heap, settled, order, clock, bound, top, dists', parent', heap', settled', order', clock');
  }

  /** With the heap empty, the settled vertices are closed under edges and hold the start but not the end. */
  lemma DjExhausted(g: Graph, dists: seq<Dist>, parent: seq<Option<nat>>,
                    settled: seq<bool>, order: seq<nat>, clock: nat, bound: nat)
    requires DjInvariant(g, dists, parent, multiset{}, settled, order, clock, bound)
    ensures !Reachable(g, g.start, g.end)
  {
    assert ClosedUnderEdges(g, settled);
    forall p | IsWalk(g, p) && p[0] == g.start
      ensures settled[p[|p| - 1]]
    {
      WalkStaysInside(g, settled, p);
    }
  }

  /**
   * Dijkstra's search from `g.start` to `g.end`. A returned path runs along
   * stored edges from start to end without repeating a vertex, and no path
   * from start to end is cheaper when every step is charged its cheapest
   * edge; the search finds nothing only when the end cannot be reached.
   */
  /**
   * The loop body for an entry `top` popped at its vertex's own distance:
   * relax the vertex's edges. The ghost state marks the vertex settled.
   */
  method SettleVertex(g: Graph, dists: seq<Dist>, parent: seq<Option<nat>>, heap: multiset<State>,
                      ghost settled: seq<bool>, ghost order: seq<nat>, ghost clock: nat, ghost bound: nat,
                      top: State, rest: multiset<State>)
    returns (dists': seq<Dist>, parent': seq<Option<nat>>, heap': multiset<State>,
             ghost settled': seq<bool>, ghost order': seq<nat>, ghost clock': nat)
    requires DjInvariant(g, dists, parent, heap, settled, order, clock, bound)
    requires top in heap && (forall s :: s in heap ==> top.cost <= s.cost) && rest == heap - multiset{top}
    requires top.position != g.end
    requires !(dists[top.position].Finite? && top.cost > dists[top.position].value)
    ensures DjInvariant(g, dists', parent', heap', settled', order', clock', top.cost)
    ensures (dists' == dists && heap' == rest) || Improves(dists', dists)
  {
    var es := g.vertices[top.position].neighbors;
    dists', parent', heap' := RelaxNeighbors(es, top.position, top.cost, dists, parent, rest);
    settled' := settled[top.position := true];
    order' := if settled[top.position] then order else order[top.position := clock];
    clock' := if settled[top.position] then clock else clock + 1;
    DjPopped(g, dists, parent, heap, settled, order, clock, bound, top, rest, dists', parent', heap', settled', order', clock');
    DjSettle(g, dists, parent, heap, settled, order, clock, bound, top, dists', parent', heap', settled', order', clock');
  }

  method Dijkstra(g: Graph) returns (r: Option<seq<nat>>)
    requires WellFormed(g)
    ensures r.Some? ==> IsPath(g, r.value, g.start, g.end) && Distinct(r.value)
    ensures r.Some? ==> forall q :: IsPath(g, q, g.start, g.end) ==> MinPathCost(g, r.value) <= MinPathCost(g, q)
    ensures r.None? <==> !Reachable(g, g.start, g.end)
    ensures g.start == g.end ==> r == Some([g.start])
  {
    var n := |g.vertices|;
    var dists: seq<Dist> := seq(n, _ => Infinity)[g.start := Finite(0)];
    var parent: seq<Option<nat>> := seq(n, _ => None);
    var heap: multiset<State> := multiset{State(0, g.start)};
    ghost var settled: seq<bool> := seq(n, _ => false);
    ghost var order: seq<nat> := seq(n, _ => 0);
    ghost var clock: nat := 0;
    ghost var bound: nat := 0;
    DjInitial(g);
    while |heap| > 0
      invariant DjInvariant(g, dists, parent, heap, settled, order, clock, bound)
      decreases InfCount(dists), FinSum(dists), |heap|
    {
      var top, rest := Pop(heap);
      assert forall s :: s in heap ==> top.cost <= s.cost;
      var cost, position := top.cost, top.position;
      if position == g.end {
        DjFound(g, dists, parent, heap, settled, order, clock, bound, top, []);
        var path := ReconstructPath(parent, g.end, DjRank(settled, order, clock));
        DjFound(g, dists, parent, heap, settled, order, clock, bound, top, path);
        return Some(path);
      }
      if dists[position].Finite? && cost > dists[position].value {
        DjStale(g, dists, parent, heap, settled, order, clock, bound, top);
        heap := rest;
        continue;
      }
      dists, parent, heap, settled, order, clock := SettleVertex(g, dists, parent, heap, settled, order, clock, bound, top, rest);
      bound := cost;
    }
    DjExhausted(g, dists, parent, settled, order, clock, bound);
    return None;
  }
}
