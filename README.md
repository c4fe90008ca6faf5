# Disaster routing simulator: a verified model of its core

The disaster routing simulator evacuates the people of a danger zone over a road
network. For every origin node it searches for escape routes out of the zone. It then
spreads each route's people over several departure times. The road network and the
routes are written out for the MATSim traffic simulator. Finally, a few Java analyses
summarise what MATSim reports.

The project models the logic of that pipeline and proves what each piece promises. It
has one Dafny module per piece.

- **Routing.**
  - `FastestPath` models `FastestPath.route_to_safety` (src/routes/fastest_path.py):
    - a lazy-deletion Dijkstra search per origin;
    - edges are relaxed only out of nodes inside the danger zone;
    - every safe node popped becomes one escape route, up to `diversifying_routes` of them;
    - with one route per origin, suffixes are shared with the origins further along the route;
    - each route is proved to reach a nearest safe node (the first) or the nearest not yet
      reached (each later one), against every walk out of the zone, and an origin gets
      fewer routes than asked only when no further safe node is reachable.
  - `ShortestPath` is the same search with distance costs (src/routes/shortest_path.py).
  - `LegacyShortestPath` (src/routes/shortestpath.py) and `LegacyFastestPath`
    (src/routes/fastestpath.py) are the two older single-route searches. `FirstEscape` is
    the per-origin search they share.
  - `RouteUtils` holds the priority queue, `update_priority`, the path reconstruction and
    the search invariant. The heap is a multiset, and a pop may return any entry of least
    priority.
  - `EdgeCosts` holds the two edge costs, `RoadNetwork` the graph and escape paths, and
    `Units` the km/h to m/s conversion (src/utils.py). `Walks` defines walks, their costs
    and what a nearest safe node is: the yardstick for the searches.
  - `FastestPathTests` pins down the results of the two travel-time cases of
    tests/routes/test_fastest_path.py from the search's contract alone.
- **Departures.** `Routes.Route` models `Route.introduce_departure_times`
  (src/routes/route.py). It uses Python's truncating `int(n / chunks)` and flooring `%`.
- **MATSim output.**
  - `Writers.NetworkWriter` is the scope state machine of src/matsim_io/writers.py.
  - `MatsimIo` is `write_network` and `parse_min_int` (src/matsim_io/__init__.py).
  - `CongestionScript` is the breakpoint-insertion pass (src/matsim_io/scripts.py).
  - `Dashboards` is the dataset-path rewrite and the dashboard counter
    (src/matsim_io/dashboards.py).
- **Input check.** `InputData` is `verify_input` and `_is_valid_geojson`
  (src/input_data.py). It accepts the nine GeoJSON types of section 1.4 of RFC 7946.
- **Analyses** (simulator/src/main/java/org/disaster/routing/analysis/):
  - `TimeBins`: the minute bins of TripPurposeBy10Min and PeopleInSafetyXY.
  - `TripStats`: `durationToSeconds`, in 32-bit Java `int` arithmetic, and the per-mode tallies of TripStatsDisaster.
  - `TrafficStats`: the day partition, the speed performance index and the link congestion index of TrafficStatsCalculatorDisaster.
  - `TrafficAnalysis`: column renaming, table transposition and the per-slice minimum of TrafficAnalysisDisaster.

## How the source is represented

- **Imperative code becomes methods with loops.** The searches, the writer, the departure
  loop, the insertion pass, the tallies and the Java loops are methods with `while`
  loops. Each is proved against a specification function or predicate.
- **The writer and the counter are classes.** `NetworkWriter` has the fields `scope`,
  `indent` and `lines`. `DashboardCounter` holds `dashboard_count`, and `Route` holds
  `departure_times`.
- **The search's tables are values.** The heap list and the `node_priority`,
  `predecessor` and `has_path_been_calculated` dicts are passed in and their new contents
  returned, as the Python functions thread them through.
- **Danger-zone membership is a set.** `zone` is the set of graph nodes the danger-zone
  polygons intersect.
- **Oracles are parameters.** JSON parsing and file existence are parameters. The
  per-time speed performance index of a link is also a parameter.

Where the repository's tests disagree with its code, the model follows the code:
- src/routes/fastestpath.py logs, and does not raise, when a route does not start at its origin;
- `introduce_departure_times` writes zero-count departures;
- `write_network` writes one link per edge;
- the default of `diversifying_routes` is 1.

## Model

| member | source | states |
|---|---|---|
| Units.KmhToMs | src/utils.py:1-3 | the conversion multiplies by exactly 5/18: 18 · m/s = 5 · km/h |
| Units.KmhToMsZero | src/utils.py:3 | 0 km/h is 0 m/s |
| Units.KmhToMsStrictlyIncreasing | src/utils.py:3 | a faster speed in km/h is faster in m/s |
| Units.KmhToMsPositive | src/utils.py:3 | a positive speed stays positive, so dividing by it is safe |
| Units.KmhToMsAdditive | src/utils.py:3 | the conversion of a sum is the sum of the conversions |
| EdgeCosts.EffectiveSpeedKmh | src/routes/fastest_path.py:91-107 | the speed limit used: 50 when absent, the first element of a list, 50 again when `float()` fails; always positive |
| EdgeCosts.ShortestPathWeight | src/routes/shortest_path.py:43-52 | the candidate is the priority plus the length; it is infinite exactly when the length is missing; it never undercuts the priority |
| EdgeCosts.TravelTimeWeight | src/routes/fastest_path.py:87-111 | (candidate − priority) · kmh_to_ms(speed) equals the length; the candidate is infinite exactly when the length is missing and never undercuts the priority |
| EdgeCosts.Weight | src/routes/shortest_path.py:33-39 | either cost function handed to the search gives candidates not below the popped priority |
| EdgeCosts.WeightAddsEdgeCost | src/routes/fastest_path.py:109-111 | the candidate is the popped priority plus the edge's own cost (its length, or its length over its speed in m/s) |
| Walks.WalkCost | src/routes/fastest_path.py:87-111 | a walk's cost, summed edge by edge as the search sums priorities, is never negative and is infinite exactly when some edge has no length |
| Walks.IsWalkAppend | src/routes/fastest_path.py:84-117 | a walk extended by an out-edge of its last node is a walk |
| Walks.WalkIsPriced | src/routes/fastest_path.py:87-109 | every walk of a graph the cost function accepts can be priced edge by edge |
| Walks.UseNoCheaperEscape | src/routes/fastest_path.py:121-123 | a route that no escape walk undercuts costs at most any particular escape walk |
| Walks.UseNoCheaperWalk | src/routes/fastest_path.py:70-83 | the same for any walk the search can take |
| Walks.EscapeFromSearch | src/routes/fastest_path.py:121-123 | once every settled safe node has been recorded, a bound on search walks to unsettled nodes bounds escape walks to safe nodes not yet reached |
| Walks.WalkCostAppend | src/routes/fastest_path.py:111 | one more edge adds its cost to the walk's |
| Walks.PlusCancels | src/routes/fastest_path.py:111-113 | a finite cost added to both sides of a comparison can be taken away |
| Walks.PlusMonotone | src/routes/fastest_path.py:111-113 | adding the same cost keeps a comparison |
| Walks.PlusAssociative | src/routes/fastest_path.py:111 | adding costs is associative, infinity included |
| Walks.WalkCostConcat | src/routes/fastest_path.py:111 | two walks one after the other cost the sum of their costs |
| Walks.WalkCostGrows | src/routes/fastest_path.py:111 | a walk costs at least as much as any of its beginnings, since no edge costs less than zero |
| Walks.ZoneWalkConcat | src/routes/fastest_path.py:112-117 | two search walks joined end to start make a search walk |
| Walks.ZoneWalkSplit | src/routes/fastest_path.py:112-117 | both parts of a search walk split at a node are search walks |
| Walks.NearestWitness | src/routes/fastest_path.py:121-129 | a route to a nearest safe node has edges giving it a finite cost that no escape walk undercuts |
| Walks.EscapeAfter | src/routes/fastest_path.py:136-147 | an escape walk put after a walk inside the zone is an escape walk from its start, costing the sum |
| Walks.SplitCost | src/routes/fastest_path.py:136-147 | splitting a costed route at a node splits its cost into the two parts' costs |
| Walks.SuffixNearest | src/routes/fastest_path.py:138-147 | every suffix of a route to a nearest safe node is a route to a nearest safe node from its own first node, so sharing suffixes keeps every shared path a cheapest one |
| RoadNetwork.EscapePathSuffix | src/routes/fastest_path.py:138-147 | every suffix of an escape path is an escape path from its own first node, with the same end |
| RoadNetwork.LessIsNotAtMost | src/routes/fastest_path.py:113 | the strict `<` of floats with infinity is the negation of `>=` |
| RouteUtils.MinimumExists | src/routes/fastest_path.py:70-73 | a non-empty heap has an entry of least priority, so `heappop` is always defined |
| RouteUtils.UpdatePriority | src/routes/route_utils.py:34-42 | pushes the entry and lowers the node's priority exactly when the new priority is strictly smaller; otherwise both are unchanged; no other node's priority changes; the node's priority never rises; heap entries stay at or above their node's recorded priority |
| RouteUtils.PopMin | src/routes/fastest_path.py:71-73 | the popped entry has least priority and exactly one copy of it leaves the heap |
| RouteUtils.ReconstructRoute | src/routes/route_utils.py:14-19 | the path ends at `end`, its first node has no predecessor, and each node is the predecessor of the next; the loop terminates because predecessors were settled earlier |
| RouteUtils.InitialHeap | src/routes/fastest_path.py:61-69 | after heapify and `update_priority(origin, 0)` every entry is at or above its recorded priority and the live entries are unique |
| RouteUtils.InitialState | src/routes/fastest_path.py:61-69 | the initial heap, priorities and predecessors satisfy the search invariant |
| RouteUtils.StartSearch | src/routes/fastest_path.py:61-69 | builds those initial tables; every predecessor is None |
| RouteUtils.LiveEntryIsUnsettled | src/routes/fastest_path.py:79-83 | an entry carrying its node's recorded priority is never of a settled node, so `sptSet` is always false for it |
| RouteUtils.StaleEntryIsSettled | src/routes/fastest_path.py:79-120 | a popped finite entry above the recorded priority belongs to a settled node |
| RouteUtils.RemoveKeepsLiveUnique | src/routes/fastest_path.py:71-73 | popping keeps live entries unique |
| RouteUtils.RemoveKeepsReachedLive | src/routes/fastest_path.py:71-83 | popping a stale entry, or one whose node is now settled, keeps every reached unsettled node live in the heap |
| RouteUtils.DiscardPreserves | src/routes/fastest_path.py:118-120 | skipping a stale entry keeps the search invariant |
| RouteUtils.SettleShape | src/routes/fastest_path.py:82-83 | settling a node extends the settle order by one |
| RouteUtils.SettleHeap | src/routes/fastest_path.py:71-83 | popped priorities never decrease, and all remaining entries are at or above the latest one |
| RouteUtils.SettleFinal | src/routes/fastest_path.py:79-83 | a settled node has a finite priority no later than the latest one and no live entry left |
| RouteUtils.SettleTree | src/routes/fastest_path.py:82-83 | settling keeps every predecessor settled before its node |
| RouteUtils.SettlePreserves | src/routes/fastest_path.py:79-83 | popping a least live entry settles a new graph node and keeps the search invariant |
| RouteUtils.RelaxHeap | src/routes/fastest_path.py:113-116 | pushing a strictly better candidate keeps heap bounds and unique live entries |
| RouteUtils.RelaxSettled | src/routes/fastest_path.py:113-116 | relaxing an unsettled node leaves settled nodes final and reached nodes live |
| RouteUtils.RelaxTree | src/routes/fastest_path.py:113-117 | recording a settled predecessor joined by an edge keeps the predecessor tree |
| RouteUtils.RelaxPreserves | src/routes/fastest_path.py:113-117 | a strictly better candidate never targets a settled node or the origin, and relaxing keeps the search invariant |
| RouteUtils.ChainIsEscapePath | src/routes/fastest_path.py:121-129 | a predecessor chain from a settled safe node, with earlier nodes in the zone, is an escape path from the origin |
| RouteUtils.ChainInZone | src/routes/fastest_path.py:112-117 | when predecessors are recorded only from zone nodes, every node of a chain but the last is in the zone |
| RouteUtils.SetPredecessorInZone | src/routes/fastest_path.py:112-117 | recording a predecessor inside the zone keeps that property |
| RouteUtils.TreeIsRanked | src/routes/route_utils.py:14-19 | the settle order ranks the predecessor chains, so reconstruction terminates |
| RouteUtils.SettlingShrinksUnsettled | src/routes/fastest_path.py:82-83 | settling a node shrinks the set of unsettled nodes, which bounds the loop |
| RouteUtils.FirstOutside | src/routes/fastest_path.py:79-83 | a path ending outside a set has a first node outside it |
| RouteUtils.SettledPrefix | src/routes/fastest_path.py:84-117 | along a search walk from the origin whose first nodes are settled, the next node's priority is at most what the walk costs up to it |
| RouteUtils.Frontier | src/routes/fastest_path.py:70-117 | a search walk from the origin to an unsettled node costs at least the last settled priority and every least heap entry, and is infinite once the heap is empty |
| RouteUtils.NoCheaperThanMin | src/routes/fastest_path.py:70-73 | no search walk to an unsettled node costs less than the entry `heappop` returns |
| RouteUtils.EmptyHeapUnreachable | src/routes/fastest_path.py:70 | with the heap empty no unsettled node is reachable at a finite cost |
| RouteUtils.ChainWalk | src/routes/route_utils.py:14-19 | a predecessor chain from the origin is a walk costing, up to each node, exactly that node's priority |
| RouteUtils.ChainCosts | src/routes/route_utils.py:14-19 | a reconstructed route costs its end's priority along its edges |
| RouteUtils.RelaxSkip | src/routes/fastest_path.py:112-113 | an edge not taken leaves the relaxation history of the loop intact |
| RouteUtils.RelaxUpdate | src/routes/fastest_path.py:113-117 | an edge taken keeps the search invariant and the relaxation history |
| RouteUtils.RelaxDone | src/routes/fastest_path.py:84-117 | after the last out-edge the node is relaxed and the full search invariant holds |
| RouteUtils.LowerKeepsRelaxed | src/routes/fastest_path.py:113-116 | lowering an unsettled node's priority keeps the settled nodes relaxed |
| RouteUtils.LowerKeepsPredecessorCosts | src/routes/fastest_path.py:113-117 | recording the popped node as predecessor along the edge that gave the new priority keeps every predecessor's edge costing exactly its node's priority |
| RouteUtils.LowerKeepsHistory | src/routes/fastest_path.py:113-117 | lowering a priority keeps the record of what the loop changed and why |
| RouteUtils.PushGrows | src/routes/route_utils.py:34-42 | a push only adds to the heap |
| RouteUtils.RelaxOutEdges | src/routes/fastest_path.py:84-117 | afterwards no out-edge of the node (inside the zone, when gated) offers a lower priority, priorities only go down, a node's predecessor changes exactly when its priority drops, to the popped node along an edge giving the new priority; the search invariant holds; when gated, predecessors stay inside the zone and a node outside the zone relaxes nothing |
| RouteUtils.GetFinalRoute | src/routes/fastest_path.py:124-129 | the route to the settled safe node is an escape path from the origin ending at that node that costs its priority along its edges, and the route count goes up by one |
| RouteUtils.PopAndSettle | src/routes/fastest_path.py:71-120 | one pop: a stale entry belongs to a settled node and only shrinks the heap; a live entry settles a new graph node at a priority no search walk to a node not settled before undercuts; an infinite one means no such node is reachable at a finite cost; the invariant holds after every pop but the infinite one |
| FastestPath.EndsInGrow | src/routes/fastest_path.py:121-134 | paths ending in a set end in every larger set |
| FastestPath.EndsAppend | src/routes/fastest_path.py:131-134 | appending a path adds its end to the ends reached |
| FastestPath.NearestAppend | src/routes/fastest_path.py:121-134 | a path nearest among the safe nodes the earlier paths did not reach keeps the list nearest-in-turn |
| FastestPath.AppendFound | src/routes/fastest_path.py:131-134 | appending an escape path with a new end keeps the found routes escape paths with distinct ends |
| FastestPath.MaxRoutes | src/routes/fastest_path.py:148-149 | the number of routes an origin can get is `diversifying_routes`, and at least one |
| FastestPath.RecordRoute | src/routes/fastest_path.py:121-134 | the safe-node branch: the count and the list grow by one, the routes stay escape paths with distinct ends, and the new one reaches a nearest safe node the earlier ones did not reach |
| FastestPath.SearchExhausted | src/routes/fastest_path.py:70 | when the heap runs dry the routes found are all the search can give: fewer than the cap only because no other safe node is reachable |
| FastestPath.SearchStep | src/routes/fastest_path.py:70-149 | a pass that breaks (infinite priority or the k-th route) leaves the search's full result; otherwise the invariant holds, routes come out nearest first, and a node is settled or the heap shrinks |
| FastestPath.EscapeSearch | src/routes/fastest_path.py:61-149 | at most `diversifying_routes` escape paths from the origin, to distinct safe nodes: the first a nearest safe node, each later one the nearest of those not yet reached; fewer only when no further safe node is reachable at a finite cost |
| FastestPath.ShareSuffixes | src/routes/fastest_path.py:136-147 | each origin on the inside part of the route without a path gets the route's suffix as its only path and is marked computed; origins already computed keep their paths |
| FastestPath.SharedSuffixClosed | src/routes/fastest_path.py:136-147 | after storing and sharing, every origin on the inside part of a stored path has paths of its own |
| FastestPath.StoreRoute | src/routes/fastest_path.py:131-147 | the route is appended to the origin's list and other keys keep their paths; without reuse nothing is marked |
| FastestPath.MarkAndShare | src/routes/fastest_path.py:136-147 | with reuse, the origin is marked computed, its suffixes are shared, and stored keys keep their paths |
| FastestPath.SharedNearest | src/routes/fastest_path.py:136-147 | shared suffixes of a route to a nearest safe node are routes to nearest safe nodes from their keys |
| FastestPath.SharedRoutesFromKeys | src/routes/fastest_path.py:145 | suffixes shared under new keys are escape paths from those keys |
| FastestPath.RoutesFromKeysAdd | src/routes/fastest_path.py:131-134 | adding an escape path under its origin keeps every key's paths escape paths |
| FastestPath.StoreRoutes | src/routes/fastest_path.py:124-147 | the origin's list becomes its old list followed by the routes found, in order; other keys are unchanged |
| FastestPath.AppendRoutes | src/routes/fastest_path.py:131-134 | without reuse every route found is appended to the origin's list, in order |
| FastestPath.SingleResult | src/routes/fastest_path.py:148-149 | one path to a nearest safe node is the complete result of a one-route search |
| FastestPath.EmptyResult | src/routes/fastest_path.py:74-78 | a search that returns nothing means no safe node is reachable at a finite cost |
| FastestPath.FirstOfResult | src/routes/fastest_path.py:121-129 | the first path a search returns reaches a nearest safe node |
| FastestPath.BoundedSkip | src/routes/fastest_path.py:48-59 | skipping an origin keeps every key among the origins seen, with at most k routes |
| FastestPath.BoundedStore | src/routes/fastest_path.py:148-149 | storing a new origin's routes keeps every key holding exactly its search's result |
| FastestPath.RouteToSafetyWithWeightFunc | src/routes/fastest_path.py:42-150 | keys are origins and every stored path is an escape path from its key; with k = 1 each key has one path, to a nearest safe node, and suffix-sharing is closed; with k = 1 or distinct origins each key holds its search's full nearest-first result; every origin with a neighbour that can reach a safe node has a key |
| FastestPath.RouteToSafety | src/routes/fastest_path.py:26-150 | the same promise with travel-time costs: nearest means fastest |
| ShortestPath.RouteToSafety | src/routes/shortest_path.py:17-40 | passes everything to the weighted search with distance costs and returns its dict, with the same promise: nearest means shortest; speed limits are never read, so none is required valid |
| FastestPathTests.FasterRoadWins | tests/routes/test_fastest_path.py:74-89 | on G1 with one route, any result the contract allows is exactly {A: [[A, B, C]]}: the faster detour, not the shorter direct road |
| FastestPathTests.FasterExitWins | tests/routes/test_fastest_path.py:93-107 | on G2 with one route, any result the contract allows is exactly {A: [[A, B]]}: the exit at 100 km/h, not the one at 99 km/h |
| FastestPathTests.BeatenIsNotNearest | tests/routes/test_fastest_path.py:87-89 | a path every walk of which costs more than some escape walk is not a nearest escape |
| FastestPathTests.EscapeShowsCanEscape | tests/routes/test_fastest_path.py:87-89 | an escape walk of finite cost shows its origin can escape, so the origin must get a route |
| FastestPathTests.G1Costs | tests/routes/test_fastest_path.py:82-84 | in G1 the detour takes 7.2/110 s and the direct road 7.2/50 s |
| FastestPathTests.G2Costs | tests/routes/test_fastest_path.py:101-102 | in G2 the road to B takes 18/100 s and every walk to C 18/99 s |
| FirstEscape.EarlierSettledInZone | src/routes/shortestpath.py:69-78 | when every node settled before the popped one is in the zone, so is every node of its chain but the last |
| FirstEscape.FirstEscapeStep | src/routes/shortestpath.py:44-78 | one pass: a route found is a route to a nearest safe node and ends the search; a search that ends without one has shown no safe node reachable at a finite cost; otherwise every settled node is still in the zone and progress is made |
| FirstEscape.FirstEscape | src/routes/shortestpath.py:35-78 | the route to the first safe node popped is an escape path from the origin to a nearest safe node, so the "first node is not the origin" check never fires; no route only when no safe node is reachable at a finite cost |
| LegacyShortestPath.RouteToSafety | src/routes/shortestpath.py:17-79 | fails exactly when an origin is missing from the graph, with the first such origin; otherwise at most one path per origin, in origin order, each a shortest escape path, and every origin with a neighbour that can reach a safe node has one |
| LegacyFastestPath.StartsGrow | src/routes/fastestpath.py:105-120 | a list that only grows keeps every path start |
| LegacyFastestPath.ListedAppend | src/routes/fastestpath.py:108-109 | appending a route to a nearest safe node for an origin not yet computed, and marking it, keeps the list against `has_path_been_calculated` |
| LegacyFastestPath.StartsAppend | src/routes/fastestpath.py:108 | appending a path adds its first node to the set of path starts |
| LegacyFastestPath.SuffixStep | src/routes/fastestpath.py:113-120 | one appended suffix keeps every listed path a route to a nearest safe node and the earlier list a prefix |
| LegacyFastestPath.SuffixesKept | src/routes/fastestpath.py:117-119 | every path added by the suffix loop is a suffix of the route with at least two nodes |
| LegacyFastestPath.AppendSuffixes | src/routes/fastestpath.py:110-120 | the list only grows; each added path is a suffix of the route with at least two nodes, to a nearest safe node; every origin on the inside part ends up computed |
| LegacyFastestPath.StoreWithSuffixes | src/routes/fastestpath.py:105-120 | the route follows the earlier list, then its suffixes; the list keeps paths to nearest safe nodes starting at distinct origins and the suffix-sharing closed |
| LegacyFastestPath.StoredSuffixes | src/routes/fastestpath.py:108-120 | after the suffix loop the earlier list is a prefix, the route follows it, and the list is suffix-closed |
| LegacyFastestPath.SuffixesKeepClosed | src/routes/fastestpath.py:108-120 | after the suffixes are appended, every origin on a listed path's inside part starts a path |
| LegacyFastestPath.FastestPath | src/routes/fastestpath.py:18-123 | a flat list of fastest escape paths, each to a nearest safe node from its first node, starting at distinct origins; every origin on the inside part of a listed path has a path of its own, and so has every origin with a neighbour that can reach a safe node |
| Routes.TruncDiv | src/routes/route.py:16 | `int(a / b)` truncates toward zero |
| Routes.PyMod | src/routes/route.py:17 | Python's `%` takes the sign of the divisor |
| Routes.Route.constructor | src/routes/route.py:2-5 | everybody departs at second 0 |
| Routes.Route.IntroduceDepartureTimes | src/routes/route.py:7-27 | `departure_times` becomes the loop's schedule; path and head-count unchanged |
| Routes.MultiplesDistinct | src/routes/route.py:19-25 | distinct departures get distinct times when the interval is not 0 |
| Routes.ScheduleSlots | src/routes/route.py:19-25 | with a non-zero interval the keys are exactly 0, interval, …, (m−1)·interval, each with its share |
| Routes.ZeroIntervalLastWins | src/routes/route.py:24-25 | with interval 0 every departure overwrites second 0 and the last one wins |
| Routes.TotalOfFirst | src/routes/route.py:16-24 | the first m departures carry m shares plus one for each below the remainder |
| Routes.SharesAddUp | src/routes/route.py:16-24 | the shares add up to the head-count |
| Routes.SumAtSchedule | src/routes/route.py:19-25 | the values at the first m times add up to the first m shares |
| Routes.ScheduleAddsUp | src/routes/route.py:15-27 | the schedule has `chunks` keys whose values add up to the head-count |
| Routes.ScheduleKeyCount | src/routes/route.py:19-25 | m departures at a non-zero interval give m distinct times |
| Routes.EvenShares | src/routes/route.py:16-24 | counts never increase, differ by at most one, and exactly the first `n % chunks` get `n // chunks + 1` |
| Routes.TenPeopleThreeChunks | tests/routes/test_introduce_departure_times.py:16-18 | 10 people in 3 chunks 5 s apart give {0: 4, 5: 3, 10: 3} |
| Routes.HundredNineteenPeopleTwoChunks | tests/routes/test_introduce_departure_times.py:21-23 | 119 people in 2 chunks give {0: 60, 35000: 59} |
| Writers.NameAttribute | src/matsim_io/writers.py:23 | the name attribute is written exactly when the name is non-empty |
| Writers.LinkArgumentError | src/matsim_io/writers.py:88-115 | no error exactly when all seven values are positive; the link id is checked first, then the from node; every message is non-empty |
| Writers.StepContract | src/matsim_io/writers.py:17-117 | a call succeeds exactly when its arguments pass and the scope matches; argument errors win over scope errors; a failed call changes nothing; a successful one moves scope, shifts indent and only appends |
| Writers.LinkFreespeed | src/matsim_io/writers.py:88-131 | a link's freespeed is kmh_to_ms of its speed limit (130 by default) and positive; capacity defaults to 1000 and lanes to 1 |
| Writers.IndentTracksDepth | src/matsim_io/writers.py:17-66 | over any call sequence the indent minus the scope's depth is constant |
| Writers.CompleteDocumentRestoresIndent | src/matsim_io/writers.py:17-31 | a complete document ends at the indent it began with |
| Writers.FinishedIsFinal | src/matsim_io/writers.py:27-31 | after `end_network` every call raises and changes nothing |
| Writers.NetworkWriter.constructor | src/matsim_io/writers.py:14-15 | a fresh writer has no scope, indent 0 and no lines |
| Writers.NetworkWriter.RequireScope | src/matsim_io/writers.py:18 | passes exactly in the required scope and otherwise reports both scopes |
| Writers.NetworkWriter.WriteLine | src/matsim_io/writers.py:19-23 | appends one line at the current indent |
| Writers.NetworkWriter.StartNetwork | src/matsim_io/writers.py:17-25 | performs exactly `Step` for `start_network`: NO_SCOPE to NETWORK |
| Writers.NetworkWriter.EndNetwork | src/matsim_io/writers.py:27-31 | performs exactly `Step` for `end_network`: NETWORK to FINISHED |
| Writers.NetworkWriter.StartNodes | src/matsim_io/writers.py:33-37 | performs exactly `Step` for `start_nodes`: NETWORK to NODES |
| Writers.NetworkWriter.EndNodes | src/matsim_io/writers.py:39-43 | performs exactly `Step` for `end_nodes`: NODES to NETWORK |
| Writers.NetworkWriter.AddNode | src/matsim_io/writers.py:45-54 | performs exactly `Step` for `add_node`: positive id first, then NODES scope |
| Writers.NetworkWriter.StartLinks | src/matsim_io/writers.py:56-60 | performs exactly `Step` for `start_links`: NETWORK to LINKS |
| Writers.NetworkWriter.EndLinks | src/matsim_io/writers.py:62-66 | performs exactly `Step` for `end_links`: LINKS to NETWORK |
| Writers.NetworkWriter.AddLink | src/matsim_io/writers.py:68-126 | performs exactly `Step` for `add_link`: defaults, the seven checks, then LINKS scope |
| MatsimIo.MinOfTexts | src/matsim_io/__init__.py:43 | the minimum of a list of ints: a member, at most every member; fails exactly when some string is not an int |
| MatsimIo.ParseMinInt | src/matsim_io/__init__.py:35-43 | None for an absent attribute, `int(value)` for a string, the minimum for a list; an empty list or a bad string fails |
| MatsimIo.OutputFileName | src/matsim_io/__init__.py:26-31 | rejected exactly unless the name ends in ".xml" and not ".xml.gz"; otherwise the name, with ".gz" appended exactly when compressing |
| MatsimIo.CompressedNamesRejected | src/matsim_io/__init__.py:26-29 | a ".xml.gz" name is always rejected |
| MatsimIo.NodeLoopStep | src/matsim_io/__init__.py:51-52 | one more node appends its line in order |
| MatsimIo.WriteNodes | src/matsim_io/__init__.py:51-52 | writes the nodes in graph order; succeeds exactly when every id is positive |
| MatsimIo.LinkLoopStep | src/matsim_io/__init__.py:56-66 | one more edge appends its link line, numbered one past the last |
| MatsimIo.WriteLink | src/matsim_io/__init__.py:59-66 | an edge is written exactly when its attributes parse and `add_link` accepts it |
| MatsimIo.WriteLinks | src/matsim_io/__init__.py:56-66 | one link per edge, numbered 1..|E| in edge order; succeeds exactly when every edge is writable |
| MatsimIo.WriteNodesSection | src/matsim_io/__init__.py:50-53 | `<nodes>`, every node, `</nodes>`; succeeds exactly when every node id is positive |
| MatsimIo.WriteLinksSection | src/matsim_io/__init__.py:55-67 | `<links>`, every link, `</links>`; succeeds exactly when every edge is writable |
| MatsimIo.WriteSections | src/matsim_io/__init__.py:50-67 | the nodes block then the links block; succeeds exactly when the graph is writable |
| MatsimIo.WriteNetwork | src/matsim_io/__init__.py:13-69 | a bad name fails before anything is written; otherwise succeeds exactly when the graph is writable, and writes the whole document in protocol order |
| CongestionScript.TrimStartRemovesLeadingSpace | src/matsim_io/scripts.py:22 | stripping the start removes exactly the leading white space |
| CongestionScript.TrimEndRemovesTrailingSpace | src/matsim_io/scripts.py:22 | stripping the end removes exactly the trailing white space |
| CongestionScript.Kinds | src/matsim_io/scripts.py:22-28 | one kind per line, each line classified on its own without regard to its neighbours |
| CongestionScript.InsideStep | src/matsim_io/scripts.py:22-33 | being inside an item after a line follows from the line's kind and the state before it |
| CongestionScript.InBlockIsInside | src/matsim_io/scripts.py:16-33 | the pass's flag is set exactly when a marker was seen and no closing line since |
| CongestionScript.AppendBreakpoints | src/matsim_io/scripts.py:14-39 | the pass produces exactly `Woven`: each line, with a breakpoints line before each closing line of an item and one at the end when still inside |
| CongestionScript.InsertionsMonotone | src/matsim_io/scripts.py:30-32 | the number of insertions grows with the prefix by at most one per line |
| CongestionScript.WovenPrefixLayout | src/matsim_io/scripts.py:18-34 | every input line keeps its order, shifted by the insertions before it; every inserted line is the breakpoints line |
| CongestionScript.WovenLength | src/matsim_io/scripts.py:18-37 | output length is input length plus one per insertion, counting the final one |
| CongestionScript.MarkerNeverTriggers | src/matsim_io/scripts.py:22-26 | a marker line never gets a breakpoints line before it |
| CongestionScript.OneInsertionPerMarker | src/matsim_io/scripts.py:26-34 | between two insertions lies a marker: at most one insertion per item |
| CongestionScript.ClosedItem | src/matsim_io/scripts.py:26-33 | marker, nested key, next key: the breakpoints line goes before the next key |
| Dashboards.FindFrom | src/matsim_io/dashboards.py:51 | the first occurrence of a pattern at or after a position, or none anywhere after it |
| Dashboards.ReplaceFirst | src/matsim_io/dashboards.py:51 | the first occurrence is replaced; a string without one is unchanged |
| Dashboards.RewriteLineFirstOnly | src/matsim_io/dashboards.py:51 | only the first "analysis/" gains the directory prefix; the text before and after is unchanged |
| Dashboards.RewriteDatasetPaths | src/matsim_io/dashboards.py:50-53 | line count and order are kept and every line is rewritten on its own |
| Dashboards.RewrittenLength | src/matsim_io/dashboards.py:50-53 | the file grows by the directory name plus one for each line with a dataset path |
| Dashboards.NoPathsUnchanged | src/matsim_io/dashboards.py:50-53 | a file without dataset paths is unchanged |
| Dashboards.NatToString | src/matsim_io/dashboards.py:34 | the decimal text of the count is non-empty |
| Dashboards.ParseNatToString | src/matsim_io/dashboards.py:34 | reading the decimal text back gives the number |
| Dashboards.DashboardNamesDistinct | src/matsim_io/dashboards.py:34-36 | different counts give different file names, so no dashboard overwrites another |
| Dashboards.DashboardCounter.constructor | src/matsim_io/dashboards.py:12-13 | the counter starts at 2 |
| Dashboards.DashboardCounter.MoveDashboard | src/matsim_io/dashboards.py:16-40 | early returns change nothing; otherwise the dashboard goes to `dashboard-{count}.yaml` with the old count, the count rises by one, and a title is set only when non-empty |
| Dashboards.FirstRunDashboard | src/matsim_io/dashboards.py:12-34 | the first run's dashboard is `dashboard-2.yaml` |
| InputData.NineGeoJsonTypes | src/input_data.py:94-104 | exactly nine GeoJSON types are accepted |
| InputData.CityProblem | src/input_data.py:62-76 | every reported city problem has a non-empty message |
| InputData.VerifyInput | src/input_data.py:61-87 | the result is True exactly when the message is empty |
| InputData.AcceptedExactly | src/input_data.py:61-87 | accepted exactly when the city checks pass and, for a tiff the file exists, for a number it is positive |
| InputData.NoCityCheckOrder | src/input_data.py:63-71 | without a city the four checks run in order, each with its own message |
| InputData.CopenhagenDangerZone | src/input_data.py:72-76 | for Copenhagen an empty danger zone passes and a given one must be valid |
| InputData.PopulationMessages | src/input_data.py:78-86 | after the city checks, a GeoJSON population is accepted, and a bad number or a missing tiff gets its own message |
| TimeBins.MinuteOfDay | simulator/src/main/java/org/disaster/routing/analysis/PeopleInSafetyXY.java:90 | max(hour · 60 + minute, 1) is in 1..1439 and is the whole minutes, at least 1 |
| TimeBins.RoundUpTo10 | simulator/src/main/java/org/disaster/routing/analysis/TripPurposeBy10Min.java:105-108 | a positive multiple of 10, the smallest at or above the minute of the day |
| TimeBins.RoundUpTo1 | simulator/src/main/java/org/disaster/routing/analysis/PeopleInSafetyXY.java:89-92 | the minute of the day, at least 1, in 1..1439 |
| TimeBins.Arrival | simulator/src/main/java/org/disaster/routing/analysis/TripPurposeBy10Min.java:57-59 | departure plus travel seconds, wrapping at midnight |
| TimeBins.SameMinuteSameBin | simulator/src/main/java/org/disaster/routing/analysis/TripPurposeBy10Min.java:106 | seconds are ignored: times in the same minute share both bins |
| TimeBins.BinsMonotone | simulator/src/main/java/org/disaster/routing/analysis/PeopleInSafetyXY.java:90-91 | a later time never falls in an earlier bin |
| TimeBins.MidnightBins | simulator/src/main/java/org/disaster/routing/analysis/TripPurposeBy10Min.java:106-107 | 00:00 goes to bin 10 and minute 1 |
| TimeBins.TenMinuteBinCoversMinute | simulator/src/main/java/org/disaster/routing/analysis/TripPurposeBy10Min.java:105-108 | the ten-minute bin is the one-minute bin rounded up to a multiple of ten |
| TripStats.Wrap32 | simulator/src/main/java/org/disaster/routing/analysis/TripStatsDisaster.java:40 | Java `int` wrap-around: in range, congruent modulo 2^32, identity on values in range |
| TripStats.Fields | simulator/src/main/java/org/disaster/routing/analysis/TripStatsDisaster.java:39 | the colon-separated fields of a string, at least one |
| TripStats.TrailingEmptyDropped | simulator/src/main/java/org/disaster/routing/analysis/TripStatsDisaster.java:39 | `split` drops exactly the trailing empty fields |
| TripStats.ParseInt | simulator/src/main/java/org/disaster/routing/analysis/TripStatsDisaster.java:40 | a parsed value fits in an `int` |
| TripStats.Combine32 | simulator/src/main/java/org/disaster/routing/analysis/TripStatsDisaster.java:40 | `h*60*60 + m*60 + s` in `int` arithmetic stays in range |
| TripStats.DurationToSeconds | simulator/src/main/java/org/disaster/routing/analysis/TripStatsDisaster.java:38-41 | a result always fits in an `int` |
| TripStats.DurationOutcomes | simulator/src/main/java/org/disaster/routing/analysis/TripStatsDisaster.java:38-41 | succeeds exactly when the first three fields parse, with their combination; index error exactly when fewer than three fields all parse |
| TripStats.NoWrapForRealisticDurations | simulator/src/main/java/org/disaster/routing/analysis/TripStatsDisaster.java:40 | for up to 596522 hours the result is exactly 3600 h + 60 m + s |
| TripStats.HoursOverflow | simulator/src/main/java/org/disaster/routing/analysis/TripStatsDisaster.java:40 | at 596524 hours the `int` arithmetic wraps to a negative number |
| TripStats.DecimalDigits | simulator/src/main/java/org/disaster/routing/analysis/TripStatsDisaster.java:40 | a number's decimal text is digits only, without a colon |
| TripStats.ParseDecimal | simulator/src/main/java/org/disaster/routing/analysis/TripStatsDisaster.java:40 | `parseInt` reads back a number's decimal text, with or without a minus sign |
| TripStats.FieldsOfColonFree | simulator/src/main/java/org/disaster/routing/analysis/TripStatsDisaster.java:39 | colon-free text before a string joins its first field |
| TripStats.FieldsAtColon | simulator/src/main/java/org/disaster/routing/analysis/TripStatsDisaster.java:39 | colon-free text and a colon make a field of their own |
| TripStats.FieldOfColonFree | simulator/src/main/java/org/disaster/routing/analysis/TripStatsDisaster.java:39 | colon-free text is a single field |
| TripStats.SplitKeepsThree | simulator/src/main/java/org/disaster/routing/analysis/TripStatsDisaster.java:39 | `split` keeps the first three fields when the third is not empty |
| TripStats.ThreeFields | simulator/src/main/java/org/disaster/routing/analysis/TripStatsDisaster.java:39 | "H:M:S" splits into H, M and S |
| TripStats.MoreFields | simulator/src/main/java/org/disaster/routing/analysis/TripStatsDisaster.java:39 | "H:M:S:rest" gives H, M, S followed by the fields of rest |
| TripStats.SplitMoreFields | simulator/src/main/java/org/disaster/routing/analysis/TripStatsDisaster.java:39 | `split` of "H:M:S:rest" starts with H, M and S |
| TripStats.ReadsSplit | simulator/src/main/java/org/disaster/routing/analysis/TripStatsDisaster.java:38-41 | three parsed fields give their `int` combination |
| TripStats.ReadsCombination | simulator/src/main/java/org/disaster/routing/analysis/TripStatsDisaster.java:38-41 | "h:m:s" written in decimal reads as the `int` combination |
| TripStats.ReadsHoursMinutesSeconds | simulator/src/main/java/org/disaster/routing/analysis/TripStatsDisaster.java:38-41 | "h:m:s" reads as 3600 h + 60 m + s for realistic durations |
| TripStats.ExtraFieldsIgnored | simulator/src/main/java/org/disaster/routing/analysis/TripStatsDisaster.java:39-40 | fields after the third are never read |
| TripStats.SplitTwo | simulator/src/main/java/org/disaster/routing/analysis/TripStatsDisaster.java:39 | "H:M" splits into two fields |
| TripStats.TwoFieldsAreTooFew | simulator/src/main/java/org/disaster/routing/analysis/TripStatsDisaster.java:40 | two fields give an index error |
| TripStats.EmptyIsNotANumber | simulator/src/main/java/org/disaster/routing/analysis/TripStatsDisaster.java:40 | the empty string is a number-format error |
| TripStats.Merge | simulator/src/main/java/org/disaster/routing/analysis/TripStatsDisaster.java:71-74 | `merge` adds to the key's value, starting from 0, and changes no other key |
| TripStats.ModeSumStep | simulator/src/main/java/org/disaster/routing/analysis/TripStatsDisaster.java:68-75 | one more trip adds its value to its own mode's sum only |
| TripStats.ModeSumAbsent | simulator/src/main/java/org/disaster/routing/analysis/TripStatsDisaster.java:68-75 | a mode without trips sums to 0 |
| TripStats.MergeTracks | simulator/src/main/java/org/disaster/routing/analysis/TripStatsDisaster.java:71-74 | merging a trip keeps every key equal to its mode's sum |
| TripStats.AddTripWellKeyed | simulator/src/main/java/org/disaster/routing/analysis/TripStatsDisaster.java:71-74 | the four maps keep the same keys and each mode is listed once |
| TripStats.AddTripCovers | simulator/src/main/java/org/disaster/routing/analysis/TripStatsDisaster.java:71 | every trip's mode is a key |
| TripStats.AddTripPositive | simulator/src/main/java/org/disaster/routing/analysis/TripStatsDisaster.java:71 | every count stays positive |
| TripStats.TallyStep | simulator/src/main/java/org/disaster/routing/analysis/TripStatsDisaster.java:68-75 | one loop pass keeps the maps the tallies of the trips so far |
| TripStats.DurationsParseStep | simulator/src/main/java/org/disaster/routing/analysis/TripStatsDisaster.java:72 | all durations parse for one more trip when its own does |
| TripStats.TallyByMode | simulator/src/main/java/org/disaster/routing/analysis/TripStatsDisaster.java:68-75 | succeeds exactly when every duration parses, else fails with the error of the first trip whose duration does not parse; the count, travel-time, travelled-distance and beeline-distance maps hold the per-mode sums, every trip's mode is a key and every count is positive |
| TripStats.ListedOnce | simulator/src/main/java/org/disaster/routing/analysis/TripStatsDisaster.java:63 | a mode listed once occurs once |
| TripStats.CountTotalStep | simulator/src/main/java/org/disaster/routing/analysis/TripStatsDisaster.java:71 | one more trip adds its mode's occurrences to the total count |
| TripStats.CountsOfNoTrips | simulator/src/main/java/org/disaster/routing/analysis/TripStatsDisaster.java:63 | without trips the counts total 0 |
| TripStats.CountsAddUp | simulator/src/main/java/org/disaster/routing/analysis/TripStatsDisaster.java:68-71 | counts over distinct modes covering the trips total the number of trips |
| TripStats.TalliesCountEveryTrip | simulator/src/main/java/org/disaster/routing/analysis/TripStatsDisaster.java:68-71 | the per-mode counts sum to the number of trips |
| TrafficStats.SpeedPerformanceIndex | simulator/src/main/java/org/disaster/routing/analysis/TrafficStatsCalculatorDisaster.java:40-53 | the speed ratio capped at 1, never above 1 |
| TrafficStats.SpeedPerformanceIndexRange | simulator/src/main/java/org/disaster/routing/analysis/TrafficStatsCalculatorDisaster.java:48-52 | with positive quantities the index is in (0, 1], and 1 exactly at or above the allowed speed |
| TrafficStats.GenerateTimes | simulator/src/main/java/org/disaster/routing/analysis/TrafficStatsCalculatorDisaster.java:80-92 | the loop builds exactly the day partition |
| TrafficStats.PartitionTiles | simulator/src/main/java/org/disaster/routing/analysis/TrafficStatsCalculatorDisaster.java:86-88 | the intervals tile [start, 86400): contiguous, each `interval` long but the last, which is no longer |
| TrafficStats.PartitionCount | simulator/src/main/java/org/disaster/routing/analysis/TrafficStatsCalculatorDisaster.java:86 | the number of intervals is the remaining time over the interval, rounded up |
| TrafficStats.DayPartitionTiles | simulator/src/main/java/org/disaster/routing/analysis/TrafficStatsCalculatorDisaster.java:80-92 | the partition starts at 0, ends at 86400, has no gaps, and has ceil(86400 / interval) intervals |
| TrafficStats.TenMinuteIntervals | simulator/src/main/java/org/disaster/routing/analysis/TrafficStatsCalculatorDisaster.java:97 | ten-minute intervals give 144 |
| TrafficStats.SampleCount | simulator/src/main/java/org/disaster/routing/analysis/TrafficStatsCalculatorDisaster.java:127 | the number of samples is the span over the slice, rounded up, and 0 for an empty span |
| TrafficStats.SampleTimeAt | simulator/src/main/java/org/disaster/routing/analysis/TrafficStatsCalculatorDisaster.java:127 | sample k is taken k slices after the start and before the end |
| TrafficStats.Samples | simulator/src/main/java/org/disaster/routing/analysis/TrafficStatsCalculatorDisaster.java:127-130 | one index per sampling time, in order |
| TrafficStats.SampleLink | simulator/src/main/java/org/disaster/routing/analysis/TrafficStatsCalculatorDisaster.java:122-136 | the loop collects the samples, counts them all as observed, and counts those at or below 0.5 as congested |
| TrafficStats.LinkCongestionIndex | simulator/src/main/java/org/disaster/routing/analysis/TrafficStatsCalculatorDisaster.java:120-141 | the average sample times the uncongested share; no index (NaN in the source) exactly when there is no sample |
| TrafficStats.CongestedAtMostObserved | simulator/src/main/java/org/disaster/routing/analysis/TrafficStatsCalculatorDisaster.java:132-135 | the congested count is between 0 and the observed count; all or none exactly as the samples say |
| TrafficStats.SumBounds | simulator/src/main/java/org/disaster/routing/analysis/TrafficStatsCalculatorDisaster.java:138 | a sum of values in [0, 1] lies between 0 and their number |
| TrafficStats.CongestionIndexRange | simulator/src/main/java/org/disaster/routing/analysis/TrafficStatsCalculatorDisaster.java:138-140 | for capped samples the index is in [0, 1]: 0 when all are congested, the average when none is |
| TrafficStats.AverageInUnit | simulator/src/main/java/org/disaster/routing/analysis/TrafficStatsCalculatorDisaster.java:138 | the average of values in [0, 1] is in [0, 1] |
| TrafficStats.ShareInUnit | simulator/src/main/java/org/disaster/routing/analysis/TrafficStatsCalculatorDisaster.java:140 | the uncongested share is in [0, 1]: 1 with no congestion, 0 with all |
| TrafficStats.ProductInUnit | simulator/src/main/java/org/disaster/routing/analysis/TrafficStatsCalculatorDisaster.java:140 | a product of values in [0, 1] is in [0, 1] |
| TrafficStats.NoSamplesForEmptySpan | simulator/src/main/java/org/disaster/routing/analysis/TrafficStatsCalculatorDisaster.java:127 | an end not after the start gives no sample |
| TrafficAnalysis.IndexOf | simulator/src/main/java/org/disaster/routing/analysis/TrafficAnalysisDisaster.java:65-66 | the first position of the character, or −1 exactly when it is absent |
| TrafficAnalysis.Normalized | simulator/src/main/java/org/disaster/routing/analysis/TrafficAnalysisDisaster.java:65-70 | a name without both brackets is unchanged; one with both becomes shorter and holds no ']' |
| TrafficAnalysis.NormalizedBetweenBrackets | simulator/src/main/java/org/disaster/routing/analysis/TrafficAnalysisDisaster.java:65-70 | a name whose first '[' precedes its first ']' becomes the text strictly between them |
| TrafficAnalysis.FirstIndex | simulator/src/main/java/org/disaster/routing/analysis/TrafficAnalysisDisaster.java:65-66 | `indexOf` finds the first occurrence |
| TrafficAnalysis.ClosingFirstThrows | simulator/src/main/java/org/disaster/routing/analysis/TrafficAnalysisDisaster.java:68-69 | a name whose first ']' comes before its first '[' makes `substring` throw |
| TrafficAnalysis.NormalizedIdempotent | simulator/src/main/java/org/disaster/routing/analysis/TrafficAnalysisDisaster.java:63-74 | renaming a renamed name changes nothing and does not throw |
| TrafficAnalysis.NormalizeColumns | simulator/src/main/java/org/disaster/routing/analysis/TrafficAnalysisDisaster.java:63-74 | every column renamed in place; on a throw, earlier columns renamed, the rest unchanged, and the throwing position reported |
| TrafficAnalysis.Names | simulator/src/main/java/org/disaster/routing/analysis/TrafficAnalysisDisaster.java:77 | the column names, in order |
| TrafficAnalysis.Row | simulator/src/main/java/org/disaster/routing/analysis/TrafficAnalysisDisaster.java:88-91 | row i holds each column's i-th value |
| TrafficAnalysis.Transposed | simulator/src/main/java/org/disaster/routing/analysis/TrafficAnalysisDisaster.java:76-97 | rowCount + 1 columns: the names first, then one column per original row |
| TrafficAnalysis.TransposeTable | simulator/src/main/java/org/disaster/routing/analysis/TrafficAnalysisDisaster.java:76-97 | the nested loops build exactly `Transposed` |
| TrafficAnalysis.TransposeTwice | simulator/src/main/java/org/disaster/routing/analysis/TrafficAnalysisDisaster.java:76-97 | transposing twice gives each original column back, its name as its first cell |
| TrafficAnalysis.SummarizeSlice | simulator/src/main/java/org/disaster/routing/analysis/TrafficAnalysisDisaster.java:243-265 | the slice loop gives the last row's time and coordinates and the minimum from 1 |
| TrafficAnalysis.FilterCongestion | simulator/src/main/java/org/disaster/routing/analysis/TrafficAnalysisDisaster.java:243-266 | one filtered row per slice, in order |
| TrafficAnalysis.MinFromOneIsCappedMinimum | simulator/src/main/java/org/disaster/routing/analysis/TrafficAnalysisDisaster.java:244-259 | the value is min(1.0, the slice's minimum): at most 1 and every value, and equal to 1 or to one of them |
| TrafficAnalysis.CappedAtOne | simulator/src/main/java/org/disaster/routing/analysis/TrafficAnalysisDisaster.java:244-259 | a slice whose values are all at least 1 gives 1 |

## Left out

- Geometry: `is_in_dangerzone` becomes membership of the zone set. The model does not capture that `intersects(point)[0]` tests only the first polygon row, nor that it includes the boundary.
- networkx, geopandas, OSM loading, the population pipeline, the GUI, orchestration, logging, tqdm, and file, pickle, YAML and CSV I/O are not modelled. The log messages for "no neighbors" and "cannot reach" are not modelled; those origins simply get no route.
- get_final_route and route_to_safety_with_weight_func are imported but not defined in src/routes/route_utils.py. They are modelled from their call sites: reconstruction plus a route count, and the fastest-path loop with the cost as a parameter.
- RoadNetwork.WellFormed: every search requires edge targets to be graph nodes and present lengths to be non-negative. A missing target raises KeyError in the source. A negative length would break the cheapest-first order the proofs rest on, so it is not modelled.
- RoadNetwork.ValidSpeeds: only the travel-time searches require positive parsed speed limits and non-empty speed-limit lists (`EdgeCosts.Routable`). Otherwise the source raises ZeroDivisionError or IndexError, and a negative speed would give negative costs. Neither is modelled. The distance searches never read the speed limit and do not require it.
- Floating point: priorities, lengths, coordinates, speeds and indices are exact reals. A present `length` is a real, and an absent one is float('inf'). Costs are non-negative, with float('inf') as its own value. Float rounding and NaN are not modelled, so the cheapest route is exact rather than float-summed.
- FastestPath.RouteToSafetyWithWeightFunc: the bound of k routes per key is stated only for distinct origins. When k != 1, the lists of a repeated origin accumulate.
- FirstEscape.FirstEscape: the "first node is not the origin" raise of src/routes/shortestpath.py:73-76 and the log of src/routes/fastestpath.py:106-107 are shown unreachable, so they are not modelled.
- Routing: of several safe nodes at the same least cost, or several cheapest routes to one node, the model allows any. Which one the source returns depends on heapq's tie order on node names and on edge order.
- LegacyShortestPath.RouteToSafety: the failure carries the missing origin rather than networkx's exception.
- Routes.Route.IntroduceDepartureTimes: requires chunks != 0, which raises ZeroDivisionError in the source.
- Writers: NO_SCOPE comes from the unseen base class `XmlWriter`; the model keeps it distinct from FINISHED_SCOPE. `_require_scope` is modelled as raising on a scope mismatch.
- Writers: the XML text is modelled as structured lines, with the attribute values as numbers. The `:.2f` formatting of freespeed is not modelled; the exact real is kept.
- Writers.NetworkWriter.AddLink: the `isinstance` checks are modelled by the parameter types.
- MatsimIo.ParseMinInt: Python's `int()` on a string is abstracted as an already-parsed value, or a rejection.
- MatsimIo.WriteNetwork: the gzip and file output is the returned file name and document. The constant output directory is not modelled.
- MatsimIo.WriteNetwork: an edge's `length` is always present in `EdgeData`. The KeyError that `link_data["length"]` raises at src/matsim_io/__init__.py:63 for an edge without one is therefore not expressible.
- CongestionScript: `splitlines(keepends=True)` is taken as given. `strip()` is restricted to ASCII white space.
- Dashboards.DashboardCounter.MoveDashboard: the directory checks, the file move and the YAML title rewrite are parameters or the returned record. The rewrite and title steps are their own functions.
- Dashboards: `append_breakpoints_to_congestion_map`, `change_population_visuals_map`, `create_comparison_dashboard` and `combine_csv_datasets` of src/matsim_io/dashboards.py are YAML and pandas I/O, so they are not modelled.
- Dashboards: the encoding name at src/matsim_io/dashboards.py:49 is an I/O defect, so it is not modelled.
- Dashboards.ReplaceFirst: the pattern is non-empty, which holds for "analysis/".
- InputData: `json.loads` and `os.path.exists` are parameters (oracles).
- TimeBins: the tablesaw summarise, join and CSV pipeline of TripPurposeBy10Min and PeopleInSafetyXY is not modelled.
- TripStats: the CSV output, with its BigDecimal rounding and double divisions (TripStatsDisaster.java:76-116), is not modelled.
- TripStats.TallyByMode: per-mode counts and sums are unbounded. The source's 32-bit `int` count and 64-bit `long` sums are not wrapped.
- TripStats.ParseInt: ASCII digits only. `String.split` is modelled for the literal ":" pattern only.
- TrafficStats: these members of TrafficStatsCalculatorDisaster are averages of doubles and coordinate interpolation, so they are not modelled:
  - the averaging `getSpeedPerformanceIndex(link, start, end)`;
  - `getLinkCoordinates`;
  - `calculateCongestionAcrossTimeAndLinks`;
  - `getNetworkCongestionIndex`;
  - `getAvgSpeed`.
- TrafficStats.SpeedPerformanceIndex: requires non-zero speeds and travel time. IEEE division by zero is not modelled.
- TrafficStats.GenerateTimes: requires a positive interval. An interval of 0 never terminates in the source.
- TrafficStats.LinkCongestionIndex: requires a positive time slice for the same reason. The travel-time lookup is a function of the time.
- TrafficStats.SampleLink: `time += timeSlice` on a 32-bit `int` (TrafficStatsCalculatorDisaster.java:127) is unbounded here. A time within one slice of 2^31 would wrap negative in the source and keep the loop running; that overflow is not modelled.
- TrafficStats.Samples: the same 32-bit wrap-around of the sample times is not modelled.
- TrafficAnalysis: a table is its columns' names and text cells. `getString` formatting, the CSV output and the tablesaw behaviour for duplicate column names are not modelled.
- TrafficAnalysis: the string columns and splitting that build the slices are taken as given. The sort of the filtered table is not modelled.
