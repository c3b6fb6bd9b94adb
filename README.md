# Road-graph routing: a verified Dafny model

This project models `lab.py`, a small routing library over OpenStreetMap-style data, and proves what it computes.

The builder, `build_internal_representation`, reads way records and node records:
- It keeps the ways whose `highway` tag is an allowed road type.
- For every consecutive pair of nodes on such a way, it adds a directed edge weighted by the way's speed limit. The reverse edge is added too unless the way is one-way.
- When an edge already exists, it keeps the larger speed.
- It keeps the node records of the nodes on accepted ways.

Three best-first searches run over the resulting graph:
- uniform-cost search on distance;
- the same search ordered by distance so far plus straight-line distance to the goal;
- uniform-cost search on travel time, where an edge costs its length divided by its speed.

Three route queries snap each query coordinate to its nearest node, run a search, and turn the node path back into coordinates.

Modules:
- `Common` holds `Option`, `Result`, `Max` and `NoDuplicates`.
- `RoadData` holds the records and the graph. The graph is the returned triple `(nodeSet, neighbors, waySet)` plus `order`, the insertion order of `nodeSet`. The route queries iterate over `nodeSet` in that order.
- `HighwayTables` holds `ALLOWED_HIGHWAY_TYPES` and `DEFAULT_SPEED_LIMIT_MPH`. A `Config` carries both tables into the builder, and `Standard` is the source's own pair of tables.
- `Builder` holds two things:
  - the builder stated as a fold: `ProcessWays` over the ways, then `FilterNodes` over the node records;
  - the imperative builder, written as the source's nested loops over mutable dictionaries and proved equal to that fold.
- `BuilderProps` holds what the fold means: which nodes are kept, which edges exist and at what speed, when the builder raises, and that the result does not depend on the order of the ways.
- `SearchSpec` defines the following:
  - the cost a search charges per edge (`Step`) and along a path (`PathCost`);
  - the heuristic estimate (`H`);
  - `IsAnswer`, the meaning of a correct answer: None exactly when the goal is unreachable, and otherwise a loop-free path from start to goal that is cheapest among all paths.
- `SearchState` holds the agenda entries and the search's loop invariant, with the lemmas that preserve it. The invariant says the following:
  - each entry's cost is the cost of its path;
  - each expanded node was expanded at its optimal cost;
  - every unexpanded neighbour of an expanded node has an agenda entry no dearer than the edge into it.
- `Search` holds the shared search loop, proved to return a correct answer. `find_short_path_nodes`, `find_short_path_nodes_heuristics` and the search inside `find_fast_path` are this loop with a different `Strategy`.
- `Routes` holds the nearest-node scan, the reprojection and the three route queries.
- `ExampleGraph` is a worked example: two residential ways, one of them one-way, plus a footpath.

The distance function `great_circle_distance` is a parameter of type `(Coord, Coord) -> real`. What the proofs need from it is stated in `SearchSpec.Laws`:
- distances are non-negative;
- the heuristic search also needs the triangle inequality, which a great-circle distance satisfies.

Floating-point numbers are modelled as `real`.

## Model

| member | source | states |
|---|---|---|
| HighwayTables.StandardIsConsistent | lab.py:9-30 | Every allowed highway type has a default speed limit, and every default is positive. |
| Builder.WaySpeed | lab.py:66-70 | An edge's speed is the way's `maxspeed_mph` when that tag is present. Otherwise it is the default for the way's highway type, and it is undefined exactly when that type has no default. |
| Builder.SpeedLimit | lab.py:63-70 | The lookup the pair loop executes returns exactly `WaySpeed`: the way's `maxspeed_mph` if present, else `DEFAULT_SPEED_LIMIT_MPH[highway]`, and None (the `KeyError`) when the type has no default. |
| Builder.Merge | lab.py:74-86 | Only edge u -> v changes. It gets speed s if it was absent, else the larger of its old speed and s. Row u of the table exists afterwards. |
| Builder.MergeEdge | lab.py:74-86 | The source's nested membership tests compute exactly `Merge`. |
| Builder.AddPairEdges | lab.py:72-122 | A one-way pair touches only u -> v. Any other pair touches u -> v and then v -> u, both with the same speed. |
| Builder.AddAcceptedWay | lab.py:58-122 | The pair loop of one accepted way adds all its nodes, last node included, to `waySet`. It merges every consecutive pair left to right, or raises the speed-lookup failure when the way has a pair and no speed. |
| Builder.AddWay | lab.py:52-122 | A way without an allowed `highway` tag changes nothing. An accepted way with no nodes raises. Any other accepted way is processed as above. |
| Builder.KeepWayNodes | lab.py:124-131 | The node loop equals `FilterNodes`: it keeps the records of way nodes, and a later record with the same id replaces an earlier one but keeps its place. |
| Builder.BuildInternalRepresentation | lab.py:33-134 | The loops compute `Build`: ways in order, stopping at the first exception, then the node filter over the final `waySet`. |
| Builder.FailureStops | lab.py:52-122 | Once a prefix of the ways raises, the whole way loop raises with the same error. |
| BuilderProps.AddWayEdgesWeight | lab.py:60-122 | After one way's pair loop, u -> v has the larger of its old speed and the way's speed exactly when some pair of the way touches u -> v. Every other weight is unchanged. |
| BuilderProps.ProcessWaysOutcome | lab.py:52-122 | The way loop succeeds exactly when no way raises. When it raises, the error is that of the first way that raises. |
| BuilderProps.ProcessWaysNodes | lab.py:54-62 | After the way loop, `waySet` holds exactly the nodes of accepted ways. |
| BuilderProps.ProcessWaysWeight | lab.py:72-122 | Edge u -> v is absent exactly when no accepted way contributes it. Otherwise its weight is a contributed speed and is at least every contributed speed, i.e. the maximum. |
| BuilderProps.FilterNodesKeys | lab.py:128-131 | The node loop keeps exactly the records whose id is in `waySet`, each under its own id. `order` lists the kept ids once each. |
| BuilderProps.FilterNodesLastWins | lab.py:128-131 | A kept record is the last record carrying its id. |
| BuilderProps.BuildOutcome | lab.py:33-134 | The builder raises exactly when some way raises, and then with the first such error. |
| BuilderProps.StandardOnlyFailsOnEmptyWay | lab.py:58-70 | With the source's tables the default-speed lookup never fails. The builder fails exactly when an accepted way has no nodes. |
| BuilderProps.BuildWaySet | lab.py:54-62 | The returned `waySet` is exactly the set of nodes on accepted ways, the last node of each way included. |
| BuilderProps.BuildNodeSet | lab.py:124-131 | `nodeSet` holds exactly the records of nodes on accepted ways that have a record, each under its own id and taken from the last record with that id. Its keys are a subset of `waySet`, which is why the route queries' `node in waySet` test always holds. |
| BuilderProps.BuildEdge | lab.py:72-122 | Edge u -> v exists exactly when an accepted way has a consecutive pair (u, v), or has (v, u) and is not one-way. Its weight is the largest speed so contributed. No other edge is created. |
| BuilderProps.BuildOrderIndependent | lab.py:52-122 | Building from any permutation of the ways gives the same outcome. When it succeeds it gives the same graph, so the max-merge makes every weight independent of way order. |
| BuilderProps.SameWaysSameState | lab.py:52-122 | Two successful way loops over the same set of ways build the same `neighbors` and `waySet`. |
| BuilderProps.BuildWellFormed | lab.py:33-134 | When every way node has a node record, the built graph is well formed: `order` enumerates the node keys once each, records sit under their ids, node keys are way nodes, and every edge ends at a node with a record. |
| BuilderProps.BuildPositiveWeights | lab.py:66-70 | With a consistent configuration and positive `maxspeed_mph` tags, every edge speed is positive, so the fast search never divides by zero. |
| SearchSpec.PathCostNonNegative | lab.py:209-214 | No path has a negative cost under any of the three metrics. |
| SearchSpec.CostSplit | lab.py:205-214 | A path's cost is the cost up to any node plus the cost from that node. |
| SearchSpec.Consistent | lab.py:294-301 | The heuristic is consistent: the estimate at a node is at most the cost of any walk onward plus the estimate at the walk's end. |
| SearchSpec.AnswersAgree | lab.py:146-150 | Two correct answers to one query agree on whether a path exists and on its cost. |
| SearchSpec.AnswerFromStartToItself | lab.py:190-192 | When start equals goal, the only correct answer is `[start]`. |
| SearchSpec.HeuristicParity | lab.py:219-304 | The heuristic search and the plain search find a path in the same cases, and their paths have the same total distance. |
| SearchState.InitialInv | lab.py:155-159 | The initial agenda `[(node1, [node1], 0)]` and the empty expanded set satisfy the search invariant. |
| SearchState.PopIsOptimal | lab.py:180-192 | The popped entry, one with the smallest key whose node is not yet expanded, carries the cheapest cost of any path to its node. |
| SearchState.SkipPreserves | lab.py:186-188 | Discarding a popped entry whose node is already expanded keeps the invariant. |
| SearchState.ExpandPreserves | lab.py:194-214 | Expanding the popped node and pushing one entry per unexpanded neighbour keeps the invariant: entries are paths that cost their own cost, and expanded nodes are settled at their optimal cost. |
| SearchState.FoundIsAnswer | lab.py:189-192 | When the popped node is the goal, its path is a correct answer: a loop-free, cheapest path from start to goal. |
| SearchState.ExhaustedIsAnswer | lab.py:216-217 | When the agenda runs empty before the goal is popped, the goal is unreachable. |
| Search.SelectMin | lab.py:169-181 | The scan returns an index with the smallest key, and no earlier index has that key: the first minimum wins. |
| Search.ChildEntry | lab.py:204-214 | The entry pushed for a child has the parent's path plus the child, and the parent's cost plus the step cost. For the fast search the step cost is distance / speed (lab.py:549-564). For the heuristic search the key adds the child's distance to the goal (lab.py:289-301). |
| Search.PushChildren | lab.py:196-214 | The neighbour loop appends exactly one such entry for every neighbour of the popped node that is not expanded, in any order, and leaves the rest of the agenda as it was. |
| Search.BestFirstSearch | lab.py:155-217 | The shared search loop returns None exactly when the goal is unreachable. Otherwise it returns a path from start to goal along existing edges that repeats no node and costs no more than any other such path. |
| Search.FindShortPathNodes | lab.py:137-217 | Uniform-cost search returns a shortest path by distance, or None exactly when none exists. |
| Search.FindShortPathNodesHeuristics | lab.py:219-304 | The search keyed by cost plus distance to the goal also returns a shortest path by distance, or None exactly when none exists. |
| Routes.NearestNodes | lab.py:326-354 | The scan picks, for each coordinate, a node of `nodeSet` at least as close as every other. Ties go to the earliest node in iteration order, because only a strictly closer node replaces the saved one. |
| Routes.Reproject | lab.py:360-369 | None passes through. A node path becomes the list of its nodes' coordinates, with the same length and in the same order. |
| Routes.PathNodesHaveRecords | lab.py:366-367 | Every node on a returned path has a record, so reprojection never fails. |
| Routes.OrderedNodesHaveRecords | lab.py:344-346 | Every node the scan visits has a record and is a way node. |
| Routes.FindShortPath | lab.py:306-369 | The result is the reprojection of a correct shortest-distance answer between the nodes nearest to the two coordinates. |
| Routes.FindShortPathHeuristics | lab.py:371-434 | The same as `FindShortPath`, answered by the heuristic search. |
| Routes.FindFastPath | lab.py:436-566 | The result is the reprojection of a correct fastest answer between the nearest nodes, where each edge costs distance / speed. |
| Routes.EarliestNearestUnique | lab.py:343-354 | The earliest nearest node is unique, so the scan's choice is determined. |
| Routes.EarliestNearestIsNearest | lab.py:343-354 | The chosen node is no farther than any node with a record. |
| Routes.RouteEndpoints | lab.py:356-369 | A returned route is non-empty. Its first point is the location of the earliest node in `nodeSet` order nearest to the first coordinate, and its last point that of the earliest node nearest to the second, so no node is closer to either end. |
| Routes.NoRouteIffUnreachable | lab.py:358-362 | A route query returns None exactly when the node nearest to the second coordinate cannot be reached from the node nearest to the first. |
| ExampleGraph.ExampleBuild | lab.py:33-134 | Ways [1,2,3] (residential) and [3,4] (residential, one-way) plus a footway build edges 1<->2, 2<->3 and 3->4 at 25 mph. They do not build 4->3, and the record of the footway-only node is dropped. |
| ExampleGraph.ExampleRoute | lab.py:137-217 | On that graph the only correct answer from node 1 to node 4 is [1, 2, 3, 4], for every distance function and strategy. |

## Left out

- Reading the data files (`read_osm_data`, lab.py:52 and 128): the builder takes the way and node records as sequences.
- `great_circle_distance` is not part of this model. It is the parameter `dist`, and the properties the proofs use (non-negativity, and the triangle inequality for the heuristic search) are preconditions in `Laws`.
- Floating-point rounding: distances, costs and keys are `real`, and the time `getDistance/speed` is exact real division.
- The iteration order of a node's neighbour dictionary is not modelled. `PushChildren` visits the neighbours in an arbitrary order, so the models of the searches are nondeterministic where the source is deterministic. Their contracts hold for every order, and the answer is fixed up to ties between equally cheap paths (`SearchSpec.AnswersAgree`).
- The diagnostic `print` calls (lab.py:191 and 276), the unused `speed` dictionary (lab.py:49), `to_local_kml_url`, and the `__main__` demo block are not modelled.
- Routes.FindShortPath, Routes.FindShortPathHeuristics, Routes.FindFastPath: an empty node table, where the source fails on `''['lat']` (lab.py:327-337), is excluded by the precondition `|g.order| > 0`.
- Routes.FindShortPath, Routes.FindShortPathHeuristics, Routes.FindFastPath: they require a well-formed graph, which includes `Closed` (every edge ends at a node with a record). Without it the source may raise `KeyError` at lab.py:207, but only if the search expands a node with a child that has no record before it pops the goal; `BuilderProps.BuildWellFormed` gives well-formedness whenever every way node has a record.
- Search.BestFirstSearch, Search.PushChildren, Search.FindShortPathNodes, Search.FindShortPathNodesHeuristics: through `SearchSpec.Searchable` they require `Closed(g)`. The source reads a child's record only when it pushes that child (lab.py:207, 292, 551), so on a graph where some edge leads to a node without a record it may still return a path, or it may raise `KeyError`. The model does not cover such graphs, neither the answers the source still gives on them nor the `KeyError` path.
- Search.BestFirstSearch: it requires the start node to have a record (lab.py:162), and the goal node too for the heuristic search (lab.py:249); otherwise the source raises `KeyError`.
- Routes.FindFastPath: it requires every edge speed to be positive (lab.py:558), because a zero speed raises `ZeroDivisionError` and a negative one breaks the optimality argument. `BuilderProps.BuildPositiveWeights` gives this for the standard tables whenever every `maxspeed_mph` tag is positive.
- Routes.FindFastPath: the unreachable branch `if listNodes is None` (lab.py:526-527) is not modelled, because `currentList` is never None.
- Builder.BuildInternalRepresentation: speeds are `int` and tag values are typed (`Tags`). A `maxspeed_mph` of another type is outside the model.
- Builder.BuildInternalRepresentation: the way and node records are values, so Python's aliasing of the stored node dictionaries is not modelled.
