/**
 * The search loop shared by the two single-route searches, `route_to_safety` in
 * src/routes/shortestpath.py and `fastest_path` in src/routes/fastestpath.py:
 * lazy-deletion Dijkstra from the origin that relaxes the out-edges of every
 * settled node, inside the zone or not, checks every popped node for safety
 * (stale pops included), and stops at the first node outside the zone.
 */
module FirstEscape {
  import opened Wrappers
  import opened RoadNetwork
  import EdgeCosts
  import opened RouteUtils
  import opened Walks

  /**
   * Every node a chain of predecessors passes through before its end was settled
   * before the end; with all those settled nodes inside the zone, so is the chain.
   */
  lemma EarlierSettledInZone(zone: set<Node>, settled: set<Node>, x: Node, order: map<Node, nat>, path: Path)
    requires settled <= zone && order.Keys == settled + {x}
    requires |path| >= 1 && Last(path) == x && x in order
    requires forall i | 0 <= i < |path| - 1 :: path[i] in order && order[path[i]] < order[x]
    ensures forall i | 0 <= i < |path| - 1 :: path[i] in zone
  {
    forall i | 0 <= i < |path| - 1
      ensures path[i] in zone
    {
      assert path[i] != x;
    }
  }

  /**
   * One pass of the loop: pop, and for a live entry settle the node and relax all
   * its out-edges; then, if the popped node is outside the zone, reconstruct its
   * route and stop. Until then every settled node is inside the zone, so the first
   * node settled outside it is a nearest safe node, and a search that stops
   * without one has none within reach.
   */
  method FirstEscapeStep(g: Graph, zone: set<Node>, w: EdgeCosts.WeightFunc, origin: Node,
                         heap: multiset<Entry>, priority: map<Node, Cost>, settled: set<Node>,
                         pred: map<Node, Option<Node>>, ghost order: map<Node, nat>, ghost last: real)
    returns (done: bool, route: Option<Path>, heap': multiset<Entry>, priority': map<Node, Cost>, settled': set<Node>,
             pred': map<Node, Option<Node>>, ghost order': map<Node, nat>, ghost last': real)
    requires EdgeCosts.Routable(g, w) && heap != multiset{}
    requires DijkstraState(g, zone, false, w, origin, heap, priority, settled, pred, order, last) && settled <= zone
    ensures route.Some? ==> done && Nearest(g, zone, w, origin, route.value, {})
    ensures done && route.None? ==> NoCheaperEscape(g, zone, w, origin, Inf, {})
    ensures !done ==> route == None
    ensures !done ==> DijkstraState(g, zone, false, w, origin, heap', priority', settled', pred', order', last') && settled' <= zone
    ensures !done ==> |g.Keys - settled'| < |g.Keys - settled| || (settled' == settled && |heap'| < |heap|)
  {
    var pop;
    pop, heap', priority', settled', pred', order', last' :=
      PopAndSettle(g, zone, false, w, heap, priority, settled, pred, origin, order, last);
    if pop.Unreachable? {
      EscapeFromSearch(g, zone, false, w, origin, Inf, settled, {});
      return true, None, heap', priority', settled', pred', order', last';
    }
    var smallest := pop.node;
    if smallest !in zone {
      // only a newly settled node can be outside: every earlier one was inside
      TreeIsRanked(g, origin, priority', settled', pred', order');
      var finalRoute := ReconstructRoute(pred', smallest, order');
      EarlierSettledInZone(zone, settled, smallest, order', finalRoute);
      ChainIsEscapePath(g, zone, origin, heap', priority', settled', pred', order', last', finalRoute);
      ChainCosts(g, w, origin, priority', pred', finalRoute);
      EscapeFromSearch(g, zone, false, w, origin, Fin(last'), settled, {});
      assert RouteCosts(g, w, finalRoute, Fin(last')) && NoCheaperEscape(g, zone, w, origin, Fin(last'), {});
      return true, Some(finalRoute), heap', priority', settled', pred', order', last';
    }
    if pop.Settled? {
      SettlingShrinksUnsettled(g.Keys, settled, smallest);
    }
    return false, None, heap', priority', settled', pred', order', last';
  }

  /**
   * The search for one origin: the route to the first node outside the zone that
   * is popped, which is a nearest safe node, or None when the heap runs out or the
   * least priority is infinite, which happens only when no safe node can be
   * reached at a finite cost. The route starts at the origin, so the source's
   * "first node is not the origin" branch never runs.
   */
  method FirstEscape(g: Graph, zone: set<Node>, w: EdgeCosts.WeightFunc, origin: Node) returns (route: Option<Path>)
    requires EdgeCosts.Routable(g, w) && origin in g
    ensures route.Some? ==> Nearest(g, zone, w, origin, route.value, {})
    ensures route.None? ==> NoCheaperEscape(g, zone, w, origin, Inf, {})
  {
    var heap, priority, predecessor := StartSearch(g, zone, false, w, origin);
    var settled: set<Node> := {};
    ghost var order: map<Node, nat> := map[];
    ghost var last := 0.0;
    route := None;
    while heap != multiset{}
      invariant DijkstraState(g, zone, false, w, origin, heap, priority, settled, predecessor, order, last) && settled <= zone
      invariant route == None
      decreases |g.Keys - settled|, |heap|
    {
      var done;
      done, route, heap, priority, settled, predecessor, order, last :=
        FirstEscapeStep(g, zone, w, origin, heap, priority, settled, predecessor, order, last);
      if done {
        return;
      }
    }
    EmptyHeapUnreachable(g, zone, false, w, origin, heap, priority, settled, predecessor, order, last);
    EscapeFromSearch(g, zone, false, w, origin, Inf, settled, {});
  }
}
