/**
 * The single-route travel-time search of src/routes/fastestpath.py: one search per
 * origin not yet given a path, and after each found route the suffixes of that
 * route for the origins on it that have no path yet, all in one flat list.
 */
module LegacyFastestPath {
  import opened Wrappers
  import opened RoadNetwork
  import EdgeCosts
  import FirstEscape
  import opened Walks

  /** The first nodes of the listed paths. */
  ghost function Starts(routes: seq<Path>): set<Node> {
    set j | 0 <= j < |routes| && |routes[j]| >= 1 :: routes[j][0]
  }

  /**
   * The flat list against `has_path_been_calculated`: every path is an escape
   * path from its first node to a nearest safe node, no two paths start at the
   * same node, and an origin is computed exactly when a path starts at it.
   */
  ghost predicate Listed(g: Graph, zone: set<Node>, routes: seq<Path>, computed: map<Node, bool>)
    requires EdgeCosts.Routable(g, EdgeCosts.TravelTime)
  {
    && (forall j | 0 <= j < |routes| :: |routes[j]| >= 1 && Nearest(g, zone, EdgeCosts.TravelTime, routes[j][0], routes[j], {}))
    && (forall i, j | 0 <= i < j < |routes| :: routes[i][0] != routes[j][0])
    && Starts(routes) <= computed.Keys
    && (forall o | o in computed :: computed[o] <==> o in Starts(routes))
  }

  /** Every origin on the inside part of a listed path has a path of its own. */
  ghost predicate SuffixClosed(routes: seq<Path>, origins: set<Node>) {
    forall j, i | 0 <= j < |routes| && 0 <= i < |routes[j]| - 1 && routes[j][i] in origins :: routes[j][i] in Starts(routes)
  }

  lemma StartsGrow(routes: seq<Path>, routes': seq<Path>)
    requires |routes| <= |routes'| && routes'[..|routes|] == routes
    ensures Starts(routes) <= Starts(routes')
  {
    forall o | o in Starts(routes)
      ensures o in Starts(routes')
    {
      var j :| 0 <= j < |routes| && |routes[j]| >= 1 && routes[j][0] == o;
      assert routes'[j] == routes[j];
    }
  }

  lemma StartsAppend(routes: seq<Path>, p: Path)
    requires |p| >= 1
    ensures Starts(routes + [p]) == Starts(routes) + {p[0]}
  {
    var r := routes + [p];
    assert forall j | 0 <= j < |routes| :: r[j] == routes[j];
    assert r[|routes|] == p;
  }

  /** Listing a path to a nearest safe node for an origin not yet computed, and marking it computed. */
  lemma ListedAppend(g: Graph, zone: set<Node>, routes: seq<Path>, computed: map<Node, bool>, p: Path)
    requires EdgeCosts.Routable(g, EdgeCosts.TravelTime) && Listed(g, zone, routes, computed)
    requires |p| >= 1 && p[0] in computed && !computed[p[0]] && Nearest(g, zone, EdgeCosts.TravelTime, p[0], p, {})
    ensures Listed(g, zone, routes + [p], computed[p[0] := true])
  {
    StartsAppend(routes, p);
    var r := routes + [p];
    assert forall j | 0 <= j < |routes| :: r[j] == routes[j];
  }

  /** One step of the suffix loop keeps what the loop promises. */
  lemma SuffixStep(g: Graph, zone: set<Node>, route: Path, i: int, routes: seq<Path>, routes': seq<Path>,
                   computed: map<Node, bool>, computed': map<Node, bool>)
    requires EdgeCosts.Routable(g, EdgeCosts.TravelTime)
    requires 0 <= i < |route| - 1 && Nearest(g, zone, EdgeCosts.TravelTime, route[0], route, {})
    requires Listed(g, zone, routes', computed') && computed'.Keys == computed.Keys
    requires |routes| <= |routes'| && routes'[..|routes|] == routes
    requires forall j | |routes| <= j < |routes'| :: |routes'[j]| >= 2 && IsSuffix(routes'[j], route)
    requires route[i] in computed' && !computed'[route[i]]
    ensures Listed(g, zone, routes' + [route[i..]], computed'[route[i] := true])
    ensures (routes' + [route[i..]])[..|routes|] == routes
    ensures forall j | |routes| <= j < |routes' + [route[i..]]| ::
      |(routes' + [route[i..]])[j]| >= 2 && IsSuffix((routes' + [route[i..]])[j], route)
  {
    SuffixNearest(g, zone, EdgeCosts.TravelTime, route[0], route, i);
    ListedAppend(g, zone, routes', computed', route[i..]);
    PrefixKept(routes', route[i..], |routes|);
    SuffixesKept(route, i, routes, routes');
  }

  lemma PrefixKept(a: seq<Path>, x: Path, n: int)
    requires 0 <= n <= |a|
    ensures (a + [x])[..n] == a[..n]
  {
  }

  lemma SuffixesKept(route: Path, i: int, routes: seq<Path>, routes': seq<Path>)
    requires 0 <= i < |route| - 1 && |routes| <= |routes'|
    requires forall j | |routes| <= j < |routes'| :: |routes'[j]| >= 2 && IsSuffix(routes'[j], route)
    ensures forall j | |routes| <= j < |routes' + [route[i..]]| ::
      |(routes' + [route[i..]])[j]| >= 2 && IsSuffix((routes' + [route[i..]])[j], route)
  {
    var r := routes' + [route[i..]];
    forall j | |routes| <= j < |r|
      ensures |r[j]| >= 2 && IsSuffix(r[j], route)
    {
      if j == |routes'| {
        assert r[j] == route[i..];
        assert route[|route| - |r[j]|..] == r[j];
      } else {
        assert r[j] == routes'[j];
      }
    }
  }

  /**
   * The suffix loop after a found route: every origin on its inside part that is
   * not yet computed gets the rest of the route appended and is marked computed;
   * each such suffix leads to a nearest safe node from its own start.
   */
  method AppendSuffixes(g: Graph, zone: set<Node>, route: Path, routes: seq<Path>, computed: map<Node, bool>)
    returns (routes': seq<Path>, computed': map<Node, bool>)
    requires EdgeCosts.Routable(g, EdgeCosts.TravelTime)
    requires |route| >= 1 && Nearest(g, zone, EdgeCosts.TravelTime, route[0], route, {})
    requires Listed(g, zone, routes, computed)
    ensures Listed(g, zone, routes', computed') && computed'.Keys == computed.Keys
    ensures |routes| <= |routes'| && routes'[..|routes|] == routes
    ensures forall j | |routes| <= j < |routes'| :: |routes'[j]| >= 2 && IsSuffix(routes'[j], route)
    ensures forall i | 0 <= i < |route| - 1 && route[i] in computed :: computed'[route[i]]
  {
    routes', computed' := routes, computed;
    for i := 0 to |route| - 1
      invariant Listed(g, zone, routes', computed') && computed'.Keys == computed.Keys
      invariant |routes| <= |routes'| && routes'[..|routes|] == routes
      invariant forall j | |routes| <= j < |routes'| :: |routes'[j]| >= 2 && IsSuffix(routes'[j], route)
      invariant forall l | 0 <= l < i && route[l] in computed :: computed'[route[l]]
    {
      if route[i] in computed' && !computed'[route[i]] {
        SuffixStep(g, zone, route, i, routes, routes', computed, computed');
        routes' := routes' + [route[i..]];
        computed' := computed'[route[i] := true];
      }
    }
  }

  /**
   * `fastest_path`: origins are taken in order; one already computed, missing
   * from the graph, or without neighbours is skipped. The result lists paths to
   * nearest safe nodes that start at distinct origins; every origin on the inside
   * part of a listed path has a path of its own, and so has every origin that can
   * reach a safe node.
   */
  method FastestPath(origins: seq<Node>, zone: set<Node>, g: Graph) returns (routes: seq<Path>)
    requires EdgeCosts.Routable(g, EdgeCosts.TravelTime)
    ensures forall j | 0 <= j < |routes| :: |routes[j]| >= 1 && routes[j][0] in origins
    ensures forall j | 0 <= j < |routes| :: Nearest(g, zone, EdgeCosts.TravelTime, routes[j][0], routes[j], {})
    ensures forall i, j | 0 <= i < j < |routes| :: routes[i][0] != routes[j][0]
    ensures SuffixClosed(routes, set o | o in origins)
    ensures forall o | o in origins && CanEscape(g, zone, EdgeCosts.TravelTime, o) :: o in Starts(routes)
  {
    var computed := map o | o in origins :: false;
    routes := [];
    for idx := 0 to |origins|
      invariant Listed(g, zone, routes, computed) && computed.Keys == set o | o in origins
      invariant SuffixClosed(routes, computed.Keys)
      invariant forall i | 0 <= i < idx && CanEscape(g, zone, EdgeCosts.TravelTime, origins[i]) :: origins[i] in Starts(routes)
    {
      var origin := origins[idx];
      if computed[origin] {
        continue;  // the path has already been computed in another iteration
      }
      if origin !in g {
        continue;  // NetworkXError: the origin is not in the graph
      }
      if |g[origin]| == 0 {
        continue;  // the origin has no neighbours
      }
      var route := FirstEscape.FirstEscape(g, zone, EdgeCosts.TravelTime, origin);
      if route.Some? {
        ghost var routes0 := routes;
        routes, computed := StoreWithSuffixes(g, zone, origin, route.value, routes, computed);
        StartsGrow(routes0, routes);
      }
    }
    forall o | o in origins && CanEscape(g, zone, EdgeCosts.TravelTime, o)
      ensures o in Starts(routes)
    {
      var i :| 0 <= i < |origins| && origins[i] == o;
    }
  }

  /** A found route, then its suffixes, appended; the origin is marked computed. */
  method StoreWithSuffixes(g: Graph, zone: set<Node>, origin: Node, route: Path,
                           routes: seq<Path>, computed: map<Node, bool>)
    returns (routes': seq<Path>, computed': map<Node, bool>)
    requires EdgeCosts.Routable(g, EdgeCosts.TravelTime)
    requires Nearest(g, zone, EdgeCosts.TravelTime, origin, route, {}) && origin in computed && !computed[origin]
    requires Listed(g, zone, routes, computed) && SuffixClosed(routes, computed.Keys)
    ensures Listed(g, zone, routes', computed') && SuffixClosed(routes', computed'.Keys)
    ensures computed'.Keys == computed.Keys
    ensures |routes| < |routes'| && routes'[..|routes|] == routes && routes'[|routes|] == route
  {
    ListedAppend(g, zone, routes, computed, route);
    StartsAppend(routes, route);
    var routes1 := routes + [route];
    var computed1 := computed[origin := true];
    routes', computed' := AppendSuffixes(g, zone, route, routes1, computed1);
    StoredSuffixes(g, zone, route, routes, routes', computed1, computed');
  }

  /** After the suffix loop: the earlier list is a prefix, the route follows it, and the list is suffix-closed. */
  lemma StoredSuffixes(g: Graph, zone: set<Node>, route: Path, routes: seq<Path>, routes': seq<Path>,
                       computed1: map<Node, bool>, computed': map<Node, bool>)
    requires EdgeCosts.Routable(g, EdgeCosts.TravelTime) && |route| >= 1
    requires SuffixClosed(routes, computed1.Keys)
    requires Listed(g, zone, routes', computed') && computed'.Keys == computed1.Keys
    requires |routes + [route]| <= |routes'| && routes'[..|routes + [route]|] == routes + [route]
    requires forall j | |routes + [route]| <= j < |routes'| :: |routes'[j]| >= 2 && IsSuffix(routes'[j], route)
    requires forall i | 0 <= i < |route| - 1 && route[i] in computed1 :: computed'[route[i]]
    ensures SuffixClosed(routes', computed'.Keys)
    ensures |routes| < |routes'| && routes'[..|routes|] == routes && routes'[|routes|] == route
  {
    var routes1 := routes + [route];
    assert routes'[..|routes|] == routes1[..|routes|];
    assert routes'[|routes|] == routes1[|routes|];
    assert forall j | 0 <= j < |routes'| :: |routes'[j]| >= 1;
    SuffixesKeepClosed(routes, routes1, routes', computed1.Keys, route);
  }

  lemma SuffixesKeepClosed(routes0: seq<Path>, routes1: seq<Path>, routes2: seq<Path>, origins: set<Node>, route: Path)
    requires SuffixClosed(routes0, origins) && routes1 == routes0 + [route]
    requires |routes1| <= |routes2| && routes2[..|routes1|] == routes1
    requires forall j | |routes1| <= j < |routes2| :: IsSuffix(routes2[j], route)
    requires forall j | 0 <= j < |routes2| :: |routes2[j]| >= 1
    requires forall i | 0 <= i < |route| - 1 && route[i] in origins :: route[i] in Starts(routes2)
    ensures SuffixClosed(routes2, origins)
  {
    forall j, i | 0 <= j < |routes2| && 0 <= i < |routes2[j]| - 1 && routes2[j][i] in origins
      ensures routes2[j][i] in Starts(routes2)
    {
      var p := routes2[j];
      if j < |routes0| {
        assert p == routes0[j] && p[i] in Starts(routes0);
        var m :| 0 <= m < |routes0| && |routes0[m]| >= 1 && routes0[m][0] == p[i];
        assert routes2[m] == routes0[m];
      } else if j == |routes0| {
        assert p == route;
      } else {
        assert p[i] == route[|route| - |p| + i];
      }
    }
  }
}
