/**
 * The single-route distance search of src/routes/shortestpath.py: one search per
 * origin with distance edge costs, relaxing out of every settled node, and the
 * route to the first node outside the zone appended to a flat list.
 */
module LegacyShortestPath {
  import opened Wrappers
  import opened RoadNetwork
  import EdgeCosts
  import FirstEscape
  import opened Walks

  /**
   * `route_to_safety`: origins are taken in order; one without neighbours is
   * skipped, and the first one missing from the graph makes `G.neighbors` raise,
   * which nothing catches, so the call fails with that origin. Otherwise each
   * route is a shortest escape path from the origin it was searched for, at most
   * one per origin, in origin order (`sources` records which origin each route
   * belongs to), and every origin that can reach a safe node has its route.
   */
  method RouteToSafety(origins: seq<Node>, zone: set<Node>, g: Graph)
    returns (r: Result<seq<Path>, Node>, ghost sources: seq<nat>)
    requires WellFormed(g)
    ensures r.Failure? <==> exists i | 0 <= i < |origins| :: origins[i] !in g
    ensures r.Failure? ==> exists i | 0 <= i < |origins| ::
              r.error == origins[i] && origins[i] !in g && forall j | 0 <= j < i :: origins[j] in g
    ensures r.Success? ==> |sources| == |r.value|
    ensures r.Success? ==> forall j | 0 <= j < |sources| ::
              sources[j] < |origins| && |g[origins[sources[j]]]| > 0
              && Nearest(g, zone, EdgeCosts.Distance, origins[sources[j]], r.value[j], {})
    ensures r.Success? ==> forall i, j | 0 <= i < j < |sources| :: sources[i] < sources[j]
    ensures r.Success? ==> forall i | 0 <= i < |origins| && CanEscape(g, zone, EdgeCosts.Distance, origins[i]) ::
              i in sources
  {
    var routes: seq<Path> := [];
    sources := [];
    for idx := 0 to |origins|
      invariant forall i | 0 <= i < idx :: origins[i] in g
      invariant |sources| == |routes|
      invariant forall j | 0 <= j < |sources| ::
                  sources[j] < idx && |g[origins[sources[j]]]| > 0
                  && Nearest(g, zone, EdgeCosts.Distance, origins[sources[j]], routes[j], {})
      invariant forall i, j | 0 <= i < j < |sources| :: sources[i] < sources[j]
      invariant forall i | 0 <= i < idx && CanEscape(g, zone, EdgeCosts.Distance, origins[i]) :: i in sources
    {
      var origin := origins[idx];
      if origin !in g {
        return Failure(origin), sources;  // NetworkXError from `G.neighbors`
      }
      if |g[origin]| == 0 {
        continue;  // the origin has no neighbours
      }
      var route := FirstEscape.FirstEscape(g, zone, EdgeCosts.Distance, origin);
      if route.Some? {
        routes := routes + [route.value];
        sources := sources + [idx];
      }
    }
    r := Success(routes);
  }
}
