# rust-maze-solving in Dafny

This project models the core of a maze solver. The solver reads a black-and-white maze
image and turns it into a graph: one vertex per open pixel, that is, a pixel whose first
(red) channel is non-zero, with unit-weight edges between orthogonal neighbours. It then
collapses every corridor vertex (one with exactly two edges) into a direct edge between
its two neighbours. It picks the first two vertices found on the image border as entrance
and exit. Finally it searches the graph with depth-first search, breadth-first search or
Dijkstra's algorithm.

The modules follow the two source files:

- `src/graph.rs`:
  - `Geometry`: coordinates and their candidate neighbours.
  - `Graphs`: edges, vertices, graphs, walks and paths, and the position-to-index map.
  - `Sampler`: `create_vertices`.
  - `Adjacency`: `populate_vertex_neighbors`.
  - `Reducer`: `reduce_vertex_count`.
  - `Boundary`: `find_boundary_vertices`.
  - `Construction`: the pipeline of `Graph::from_png`.
- `src/pathfinding.rs`:
  - `Paths`: `reconstruct_path` and `calculate_cost`.
  - `Dfs`: `dfs_iterative`.
  - `Bfs`: `bfs`.
  - `Dijkstra`: `dijkstra`, `State` and its `Ord`.
  - `Solve`: `solve_graph`.

The code works in place, and the model keeps that form:

- The vertex vector is an `array<Vertex>`. The adjacency builder and the reducer rewrite it in
  place, and each is proved equal to a specification function (`Populated`, `Reduced`). The
  graph properties are proved about those functions.
- Each search keeps its stack, queue, heap, visited flags, parent links and distances in local
  variables, and updates them in a loop. Each loop is proved against a loop invariant made of
  named predicates; the lemmas beside the loop show that each step preserves it.

The reducer is modelled as the code is written:

- When vertex `i` with edges `(a, wa)` and `(b, wb)` collapses, `a`'s edge becomes
  `(b, wa + wb)`.
- `b`'s edge becomes `(a, wb + wb)`. The weight `wb` is doubled, so the two directions of a
  bypass can disagree. `Reducer.AsymmetricBypass` and `Construction.CorridorWeights` show this.
  On a straight four-pixel corridor one end gets weight 3 and the other weight 2.
- The comment at src/graph.rs:234 warns about 2x2 blocks of open pixels.
  `Construction.TwoByTwoBlockLosesAllEdges` shows what happens: the sweep removes every edge of
  such a block.

## Model

| member | source | states |
|---|---|---|
| Geometry.PotentialNeighbors | src/graph.rs:14-28 | At most four candidates. A coordinate is a candidate exactly when it differs from the cell by one on exactly one axis and stays in the unsigned 32-bit range. Candidates come in the order up, down, left, right. |
| Graphs.PositionIndex | src/graph.rs:138-142 | The position-to-index map collected from the enumerated positions: the last listed position maps to the last index, so a later index overwrites an earlier one for the same position. |
| Graphs.PositionIndexSound | src/graph.rs:215-219 | Every key of the position-to-index map is a listed position, mapped to an index holding it. Every listed position is a key, mapped to its last occurrence. |
| Graphs.PositionIndexInverse | src/graph.rs:138-142 | With distinct positions, the map sends each position to its own index and so inverts the enumeration. |
| Graphs.FirstEdgeTo | src/graph.rs:242-253 | The `find` over a neighbour list: returns None exactly when no edge targets `v`, and otherwise the index of the first edge that does. |
| Sampler.CreateVertices | src/graph.rs:198-206 | Exactly one vertex per pixel whose channel 0 is non-zero, each with no edges, in strictly increasing row-major order. |
| Sampler.SortedDistinct | src/graph.rs:198-206 | Row-major order makes the sampled positions pairwise distinct. |
| Sampler.AllWallsNoVertices | src/graph.rs:199-200 | An image with no non-zero channel-0 pixel yields no vertex. |
| Adjacency.PopulateVertexNeighbors | src/graph.rs:208-228 | The array afterwards equals `Populated` of the array before: every vertex has the edges to its present candidates appended. |
| Adjacency.LinkVertex | src/graph.rs:221-227 | One outer iteration: vertex `i` gets one unit-weight edge per candidate that holds a vertex, in candidate order; every other vertex is unchanged. |
| Adjacency.LinkEdgesShape | src/graph.rs:212-226 | At most one edge per candidate, each of weight 1. |
| Adjacency.LinkEdgesTargets | src/graph.rs:222-226 | An edge to `t` is appended exactly when some candidate holds the vertex with index `t`. |
| Adjacency.AdjacencyExact | src/graph.rs:215-227 | On freshly sampled vertices, vertex i lists vertex j exactly when their positions are orthogonally adjacent. |
| Adjacency.PopulatedSymmetric | src/graph.rs:221-227 | On freshly sampled vertices, i lists j exactly when j lists i. |
| Adjacency.PopulatedTargetsValid | src/graph.rs:215-227 | Every edge target is a valid vertex index. |
| Adjacency.PopulatedDegree | src/graph.rs:212-227 | On freshly sampled vertices each vertex has at most four edges, no self-edge, no two edges to the same vertex, and only weight 1. |
| Reducer.RedirectFirst | src/graph.rs:242-248 | The slot of the first edge to `from` now holds `e`, and every other slot keeps its edge. The length is unchanged, and a list without an edge to `from` is returned as it was. |
| Reducer.Redirected | src/graph.rs:242-256 | Only vertex `v` changes, and in its list only the slot of the first edge to `from`, which now holds `e`. Positions and edge counts are kept, and targets stay valid when the new target is valid. |
| Reducer.Collapse | src/graph.rs:235-258 | One step of the sweep keeps the vertex count, every position and valid targets. It clears the vertex exactly when it had two edges and keeps every other edge count. |
| Reducer.ReduceVertexCount | src/graph.rs:230-261 | The array afterwards equals `Reduced` of the array before: one forward sweep of `Collapse` over the indices. |
| Reducer.CollapseAt | src/graph.rs:235-259 | The in-place body of one iteration equals `Collapse` at that index. |
| Reducer.RedirectAt | src/graph.rs:242-256 | In place, only vertex `v` changes, and its first edge to `from` is overwritten. |
| Reducer.ReduceFromShape | src/graph.rs:231-258 | From index `i` on, the sweep keeps the count, positions and valid targets. It empties exactly the later vertices that had two edges and keeps the other edge counts. |
| Reducer.ReducedShape | src/graph.rs:230-261 | The reducer keeps the vertex count, every position and valid targets, and never adds an edge. A vertex with two edges ends with none, and every other vertex keeps its edge count. |
| Reducer.NoCorridorVertexLeft | src/graph.rs:236-258 | Afterwards no vertex has exactly two edges. |
| Reducer.ReduceFromNoCorridor | src/graph.rs:231-236 | Without a two-edge vertex the sweep changes nothing. |
| Reducer.ReduceIdempotent | src/graph.rs:230-261 | A second run of the reducer changes nothing. |
| Reducer.CollapseBypasses | src/graph.rs:238-258 | Collapsing `i` between distinct `a` and `b`: the slot of `a`'s first edge to `i` becomes `(b, wa + wb)`, the slot of `b`'s first edge to `i` becomes `(a, wb + wb)`, and all their other slots are kept. A neighbour without an edge back to `i` is untouched, `i` ends with no edge, and all other vertices are unchanged. |
| Reducer.CollapseDoubleEdge | src/graph.rs:238-258 | When both edges of `i` lead to the same other vertex `a`, the two first-edge searches run on `a`'s list in turn. The first edge to `i` becomes `(a, wa + wb)`, the next edge to `i` (if any) becomes `(a, wb + wb)`, and every other slot and vertex is kept. `i` ends with no edge. |
| Reducer.CollapseFirstLoop | src/graph.rs:238-258 | When `i`'s first edge loops back to `i` and its second leads to `b`, only `b` keeps a change: the slot of its first edge to `i` becomes `(i, wb + wb)`. `i` ends with no edge, and every other slot and vertex is kept. |
| Reducer.CollapseSecondLoop | src/graph.rs:238-258 | When `i`'s first edge leads to `a` and its second loops back to `i`, the slot of `a`'s first edge to `i` becomes `(i, wa + wb)`. `i` ends with no edge, and every other slot and vertex is kept. |
| Reducer.CollapseSelfLoops | src/graph.rs:238-258 | When both edges of `i` loop back to `i`, collapsing it only clears its own list. |
| Reducer.AsymmetricBypass | src/graph.rs:247-255 | A corridor vertex with edge weights 3 and 1 yields a bypass weighing 4 one way and 2 the other. |
| Boundary.RowProbes | src/graph.rs:146-153 | The first loop probes two cells per column. |
| Boundary.RowProbesAt | src/graph.rs:146-153 | For column x the first loop probes (x, 0) and then (x, height - 1). |
| Boundary.ColumnProbes | src/graph.rs:155-162 | The second loop probes two cells for each of the rows 1 to height - 2. |
| Boundary.ColumnProbesAt | src/graph.rs:155-162 | For row y the second loop probes (0, y) and then (width - 1, y). |
| Boundary.FoundMembers | src/graph.rs:144-164 | An index is reported exactly when some probed cell holds that vertex. |
| Boundary.FindBoundaryVertices | src/graph.rs:137-165 | The result is the index found at each probed cell, in probing order: the first loop's cells, then the second loop's cells. |
| Boundary.ScanRows | src/graph.rs:146-153 | The first loop's result. |
| Boundary.ScanColumns | src/graph.rs:155-162 | The second loop's result. |
| Boundary.RowProbesOnBorder | src/graph.rs:146-153 | Every cell the first loop probes lies on the top or bottom row. |
| Boundary.ColumnProbesOnBorder | src/graph.rs:155-162 | Every cell the second loop probes lies on the left or right column. |
| Boundary.ProbesOnBorder | src/graph.rs:146-162 | Every probed cell lies on the image border. |
| Boundary.BorderProbed | src/graph.rs:146-162 | Every border cell is probed. |
| Boundary.BoundaryExact | src/graph.rs:137-165 | Every reported index is a valid index of a vertex on the border. With distinct positions, every border vertex is reported. |
| Boundary.SingleRowDuplicates | src/graph.rs:146-153 | In a one-row image every index is reported twice in a row. |
| Boundary.SingleColumnDuplicates | src/graph.rs:155-162 | In a one-column image the left and right probes of each inner row coincide, so the second loop reports every index twice in a row. |
| Boundary.SinglePixelBoundary | src/graph.rs:146-153 | A one-pixel maze reports its only vertex as both the first and the second boundary vertex. |
| Construction.MazeVertices | src/graph.rs:84-88 | The constructed vertex list has valid targets and exactly one vertex per open pixel: a position is listed exactly when its pixel is open, and no position is listed twice. No vertex has two edges or more than four. |
| Construction.FromRaster | src/graph.rs:82-101 | With fewer than two boundary vertices there is no graph. Otherwise start and end are the first two reported boundary vertices, both on the border, and the graph is well formed. Every vertex on the border is reported. |
| Construction.PopulatedBlock | src/graph.rs:208-228 | The adjacency builder links each corner of a 2x2 block to its two orthogonal neighbours with unit weight. |
| Construction.TwoByTwoBlockLosesAllEdges | src/graph.rs:234 | The sweep leaves a 2x2 block of open pixels with no edge at all. |
| Construction.PopulatedCorridor | src/graph.rs:208-228 | The adjacency builder links each pixel of a straight corridor to its left and right neighbours with unit weight. |
| Construction.CorridorWeights | src/graph.rs:247-255 | On a straight four-pixel corridor the reducer joins the two ends with weight 3 one way and weight 2 the other way. |
| Paths.Reversed | src/pathfinding.rs:29 | The reversal keeps the length and puts element k at position n - 1 - k. |
| Paths.ReconstructPath | src/pathfinding.rs:20-31 | On an acyclic parent map (ranked links): the result ends at the target and starts at a vertex without a parent. Each element is the parent of the next, and no vertex repeats. |
| Paths.ParentChainUnique | src/pathfinding.rs:20-31 | There is only one such parent chain for a given target. |
| Paths.StepCost | src/pathfinding.rs:38-44 | A step costs the weight of the first edge to the next vertex (no earlier edge targets it), or 0 when there is none. |
| Paths.CalculateCost | src/pathfinding.rs:33-47 | The loop's total equals the step costs summed over consecutive pairs. Paths of length 0 or 1 cost 0. |
| Paths.MissingStepFree | src/pathfinding.rs:38-44 | A step with no edge adds nothing to the cost. |
| Paths.MinWeight | src/pathfinding.rs:120-122 | The cheapest weight among the parallel edges to a vertex. |
| Paths.PathCostAtLeastMin | src/pathfinding.rs:33-47 | On a walk, the cost `calculate_cost` reports is at least the cost when each step takes its cheapest edge. |
| Paths.UniformPathCost | src/pathfinding.rs:33-47 | When every edge weighs `w`, a walk of n steps costs `w * n`. On the unreduced grid that is its number of pixel steps. |
| Paths.ParentChainIsPath | src/pathfinding.rs:20-31 | A parent chain rooted at `s` whose links follow edges is a path from `s` to its target. |
| Paths.WalkStaysInside | src/pathfinding.rs:56-71 | A walk that starts inside a vertex set closed under edges stays inside it. Each search uses this to show that an end it did not reach is unreachable. |
| Paths.CountFalseMark | src/pathfinding.rs:61-62 | Marking an unvisited vertex leaves one fewer unvisited. |
| Dfs.PushedTargetsMembers | src/pathfinding.rs:64-69 | DFS pushes exactly the unvisited neighbours. |
| Dfs.PushUnvisited | src/pathfinding.rs:64-69 | The inner loop appends the unvisited neighbours to the stack in edge order, and gives each of them the popped vertex as parent. |
| Dfs.DfsVisit | src/pathfinding.rs:61-69 | Visiting a vertex (mark, set parents, push) preserves the search invariant. |
| Dfs.DfsFound | src/pathfinding.rs:57-58 | When the end is popped, the parent chain from it is a path from start to end. |
| Dfs.DfsExhausted | src/pathfinding.rs:56-72 | When the stack empties without popping the end, the end is unreachable. |
| Dfs.DfsIterative | src/pathfinding.rs:49-73 | A returned path runs along stored edges from start to end without repeating a vertex. None is returned exactly when the end is unreachable, and start == end gives `[start]`. |
| Bfs.FreshTargetsMembers | src/pathfinding.rs:89-95 | BFS enqueues exactly the unmarked neighbours, and none of them twice. |
| Bfs.VisitNeighbors | src/pathfinding.rs:89-95 | The inner loop marks the unmarked neighbours, gives each the dequeued vertex as parent and appends it once to the queue. The count of unmarked vertices drops by the number enqueued. |
| Bfs.ChainLevels | src/pathfinding.rs:84-95 | Along a parent chain rooted at the start, the k-th vertex sits at level k, its distance in edges from the start. |
| Bfs.BfsRound | src/pathfinding.rs:84-95 | One dequeue-and-expand round preserves the search invariant (tree, closure, layering, distances) with the dequeued vertex's level as the new frontier level. |
| Bfs.BfsStepFrame | src/pathfinding.rs:89-95 | Expanding a vertex keeps the shape, parent-tree and closure parts of the invariant: queued vertices are marked, parent links follow edges, and no edge leads from a dequeued vertex to an unmarked one. |
| Bfs.BfsStepOrder | src/pathfinding.rs:84-95 | After the expansion the queue's levels still go up by at most one from front to back. |
| Bfs.BfsFound | src/pathfinding.rs:85-86 | When the end is dequeued, the parent chain from it is a start-to-end path with the fewest edges. |
| Bfs.BfsExhausted | src/pathfinding.rs:84-97 | When the queue empties without dequeuing the end, the end is unreachable. |
| Bfs.Bfs | src/pathfinding.rs:75-98 | The same as for DFS, and a returned path has no more vertices than any path from start to end. |
| Dijkstra.Cmp | src/pathfinding.rs:143-156 | `State::cmp`: Greater exactly when the state is cheaper, Less exactly when it is dearer. The position plays no part. |
| Dijkstra.CmpReversed | src/pathfinding.rs:143-156 | `State`'s ordering is the cost order reversed: a state is greater exactly when it is cheaper, and swapping the operands reverses the result. |
| Dijkstra.CheapestExists | src/pathfinding.rs:111 | A non-empty heap holds a state no dearer than any other. |
| Dijkstra.Pop | src/pathfinding.rs:111 | Removes one occurrence of a greatest state under the ordering, that is, a cheapest one. |
| Dijkstra.LowerOne | src/pathfinding.rs:122-123 | Lowering one distance removes an infinite distance or lowers the sum of the finite ones. This is why the loop ends. |
| Dijkstra.RelaxNeighbors | src/pathfinding.rs:120-130 | After the relax loop, no edge out of the vertex leads to a vertex dearer than through it. Each lowered vertex has the popped vertex as parent and a heap entry. The distances either stay as they were or improve. The new heap is the old one plus exactly one state `(cost + w, target)` per edge that beats both the distance before the loop and every earlier edge to the same target (`Pushed`), and nothing else. |
| Dijkstra.LowersNow | src/pathfinding.rs:122-123 | Midway through the loop, edge k lowers its target's current distance exactly when it beats the distance before the loop and every earlier edge to the same target. This is the independent description `Pushed` uses. |
| Dijkstra.PushedStep | src/pathfinding.rs:122-128 | Edge k extends the pushed states by its own state exactly when it lowers its target. |
| Dijkstra.SettleVertex | src/pathfinding.rs:120-130 | Relaxing the edges of an entry popped at its vertex's own distance keeps the search invariant, with its cost as the new bound. The distances either stay as they were (and the heap loses the entry) or improve. |
| Dijkstra.DjStale | src/pathfinding.rs:116-118 | Skipping an entry dearer than its vertex's distance preserves the invariant. |
| Dijkstra.ImprovesFrom | src/pathfinding.rs:120-130 | Improving the distances twice improves them overall, which keeps the loop's measure going down. |
| Dijkstra.DjPopped | src/pathfinding.rs:111-130 | A cheapest entry that is not stale carries exactly its vertex's distance, so relaxing its edges is a settle step at that cost. |
| Dijkstra.DjSettle | src/pathfinding.rs:120-130 | Relaxing the edges of a vertex popped at its own distance preserves the invariant: settled distances are optimal and parent links follow edges. |
| Dijkstra.ChainCost | src/pathfinding.rs:120-124 | Along a parent chain from the start, each prefix costs at most its last vertex's distance when each step takes its cheapest edge. |
| Dijkstra.DjFound | src/pathfinding.rs:112-113 | When the end is popped, the parent chain is a start-to-end path no dearer than any other path. |
| Dijkstra.DjExhausted | src/pathfinding.rs:111-132 | When the heap empties without popping the end, the end is unreachable. |
| Dijkstra.Dijkstra | src/pathfinding.rs:100-133 | The same as for DFS, and no start-to-end path is cheaper than the returned one when each step takes its cheapest edge. |
| Solve.SolveGraph | src/pathfinding.rs:12-18 | Whichever search is chosen, the common contract holds. Breadth-first also returns a path with the fewest vertices, and Dijkstra a path of least cost. |

## Left out

- Image decoding (src/graph.rs:84) is left out because it is file I/O. The model starts from a `Raster` of channel-0 values per pixel, with declared width and height.
- Writing the solved image (src/graph.rs:131) is left out because it is file I/O.
- `draw_path` and the line drawing (src/graph.rs:103-196) are left out: they only paint an overlay onto an image.
- The `Display` implementations (src/graph.rs:31-41, 66-73) are formatting only.
- The advisory `println!` when the border does not yield exactly two vertices (src/graph.rs:90-94) is console output only.
- src/main.rs is not part of this model. It parses arguments, measures time and prints results.
- Floating point:
  - Weights and costs are natural numbers, since only the weight 1.0 and sums of weights ever arise.
  - `f32::MAX` as "not reached" becomes `Infinity`.
  - Rounding of large sums is not modelled.
  - The NaN fallback to `Equal` in `State`'s ordering has no counterpart.
- Library internals are left out: `HashMap`/`FxHashMap` hashing, and the order in which `BinaryHeap` breaks ties between equally cheap states. The maps are Dafny maps; the heap is a multiset, and `Pop` may return any cheapest state.
- `State` derives equality on both fields while its ordering looks at the cost only. The model compares only through the ordering, so this mismatch is not represented.
- The search scratch vectors (stack, queue, heap, visited flags, parent links, distances) are values reassigned in place, not arrays. The searches never share or alias them.
- Boundary.FindBoundaryVertices: requires `height >= 1`, and `width >= 1` when the second loop runs. Otherwise `height - 1` or `width - 1` underflows, which panics in a debug build and wraps in a release build. The wrapped behaviour is not modelled.
- Construction.FromRaster: returns None where the source would index an empty or one-element boundary list and panic.
- Construction.FromRaster: requires a well-shaped raster (row lengths match the width), which every decoded image satisfies.
- Dfs.DfsIterative, Bfs.Bfs, Dijkstra.Dijkstra and Solve.SolveGraph require a well-formed graph: start, end and every edge target are valid indices. Otherwise the source's indexing would panic. `Construction.FromRaster` proves that its graphs satisfy this.
- Dijkstra.Dijkstra: optimality is stated with each step charged its cheapest edge (`MinPathCost`), not with `calculate_cost`. After reduction two parallel edges may join the same vertices, and `calculate_cost` charges the first of them. `Paths.PathCostAtLeastMin` relates the two costs, and `Paths.UniformPathCost` shows they agree when all weights are equal.
- Reducer.Collapse: keeps the source's `weight_b + weight_b` for the second rewritten edge rather than the symmetric `weight_a + weight_b`. So the model does not promise that a bypass weighs the same in both directions.
