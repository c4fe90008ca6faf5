/**
 * `ShortestPath.route_to_safety` (src/routes/shortest_path.py): the escape search
 * of `route_to_safety_with_weight_func` with distance edge costs
 * (`_shortest_path_weight_func`, `EdgeCosts.ShortestPathWeight`).
 */
module ShortestPath {
  import opened RoadNetwork
  import EdgeCosts
  import FastestPath

  /** The default of `diversifying_routes`: one path per origin. */
  const DefaultDiversifyingRoutes: int := 1

  /** Passes its arguments unchanged to the weighted search and returns its dict. */
  method RouteToSafety(origins: seq<Node>, zone: set<Node>, g: Graph, k: int) returns (routes: map<Node, seq<Path>>)
    requires WellFormed(g)
    ensures FastestPath.RoutesToSafety(g, zone, EdgeCosts.Distance, origins, k, routes)
  {
    routes := FastestPath.RouteToSafetyWithWeightFunc(origins, zone, g, EdgeCosts.Distance, k);
  }
}
