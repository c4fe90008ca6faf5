/**
 * `FastestPath.route_to_safety` (src/routes/fastest_path.py), also the model of
 * `route_to_safety_with_weight_func`: one lazy-deletion Dijkstra search per
 * origin that relaxes edges only out of nodes inside the danger zone, collects up
 * to `diversifying_routes` escape paths, and with a single route per origin shares
 * the suffixes of each path with the origins on it.
 */
module FastestPath {
  import opened Wrappers
  import opened RoadNetwork
  import EdgeCosts
  import opened RouteUtils
  import opened Walks

  /** Every path is an escape path from `origin`. */
  ghost predicate AllEscape(g: Graph, zone: set<Node>, origin: Node, paths: seq<Path>) {
    forall i | 0 <= i < |paths| :: EscapePath(g, zone, origin, paths[i])
  }

  /** No two paths end at the same node. */
  predicate DistinctEnds(paths: seq<Path>) {
    forall i, j | 0 <= i < j < |paths| && |paths[i]| >= 1 && |paths[j]| >= 1 :: Last(paths[i]) != Last(paths[j])
  }

  /** Every path is non-empty and ends in `ends`. */
  ghost predicate EndsIn(paths: seq<Path>, ends: set<Node>) {
    forall i | 0 <= i < |paths| :: |paths[i]| >= 1 && Last(paths[i]) in ends
  }

  /** Recording one more escape path that ends at a fresh node. */
  lemma AppendFound(g: Graph, zone: set<Node>, origin: Node, found: seq<Path>, ends: set<Node>, p: Path)
    requires AllEscape(g, zone, origin, found) && DistinctEnds(found) && EndsIn(found, ends)
    requires EscapePath(g, zone, origin, p) && Last(p) !in ends
    ensures AllEscape(g, zone, origin, found + [p]) && DistinctEnds(found + [p]) && EndsIn(found + [p], ends + {Last(p)})
  {
    var found' := found + [p];
    assert forall i | 0 <= i < |found| :: found'[i] == found[i];
  }

  lemma EndsInGrow(paths: seq<Path>, ends: set<Node>, ends': set<Node>)
    requires EndsIn(paths, ends) && ends <= ends'
    ensures EndsIn(paths, ends')
  {
  }

  /** The most escape paths one origin can receive: `diversifying_routes`, but always at least the first. */
  function MaxRoutes(k: int): (n: nat)
    ensures n >= 1 && (k >= 1 ==> n == k)
  {
    if k >= 1 then k else 1
  }

  /** The safe nodes the paths end at. */
  ghost function Ends(paths: seq<Path>): set<Node> {
    set i | 0 <= i < |paths| && |paths[i]| >= 1 :: Last(paths[i])
  }

  lemma EndsAppend(paths: seq<Path>, p: Path)
    requires |p| >= 1
    ensures Ends(paths + [p]) == Ends(paths) + {Last(p)}
    ensures Ends([]) == {}
  {
    var q := paths + [p];
    assert forall i | 0 <= i < |paths| :: q[i] == paths[i];
    assert Last(p) == Last(q[|paths|]);
  }

  /**
   * Each path is an escape path to a nearest safe node not already reached by
   * the paths before it: the first is a nearest escape of all, the second the
   * nearest of the rest, and so on.
   */
  ghost predicate NearestInTurn(g: Graph, zone: set<Node>, w: EdgeCosts.WeightFunc, origin: Node, found: seq<Path>)
    requires EdgeCosts.Routable(g, w)
  {
    forall i | 0 <= i < |found| :: Nearest(g, zone, w, origin, found[i], Ends(found[..i]))
  }

  /**
   * What the per-origin search returns: at most `diversifying_routes` escape
   * paths (always room for one) to distinct safe nodes, found nearest first;
   * fewer than that only when no further safe node can be reached at a finite cost.
   */
  ghost predicate SearchResult(g: Graph, zone: set<Node>, w: EdgeCosts.WeightFunc, origin: Node, k: int, found: seq<Path>)
    requires EdgeCosts.Routable(g, w)
  {
    && |found| <= MaxRoutes(k)
    && AllEscape(g, zone, origin, found) && DistinctEnds(found)
    && NearestInTurn(g, zone, w, origin, found)
    && (|found| < MaxRoutes(k) ==> NoCheaperEscape(g, zone, w, origin, Inf, Ends(found)))
  }

  /** The invariant of the per-origin loop of `route_to_safety`. */
  ghost predicate Searching(g: Graph, zone: set<Node>, w: EdgeCosts.WeightFunc, origin: Node, k: int,
                            heap: multiset<Entry>, priority: map<Node, Cost>, settled: set<Node>,
                            pred: map<Node, Option<Node>>, order: map<Node, nat>, last: real, found: seq<Path>)
    requires EdgeCosts.Routable(g, w)
  {
    && DijkstraState(g, zone, true, w, origin, heap, priority, settled, pred, order, last)
    && PredecessorsInZone(pred, zone)
    && (|found| == 0 || |found| < k)
    && AllEscape(g, zone, origin, found) && DistinctEnds(found) && EndsIn(found, settled)
    && settled - zone <= Ends(found)
    && NearestInTurn(g, zone, w, origin, found)
  }

  /** One more path, nearest among the safe nodes the earlier ones did not reach. */
  lemma NearestAppend(g: Graph, zone: set<Node>, w: EdgeCosts.WeightFunc, origin: Node, found: seq<Path>, p: Path)
    requires EdgeCosts.Routable(g, w) && NearestInTurn(g, zone, w, origin, found)
    requires Nearest(g, zone, w, origin, p, Ends(found))
    ensures NearestInTurn(g, zone, w, origin, found + [p])
  {
    var found' := found + [p];
    forall i | 0 <= i < |found'|
      ensures Nearest(g, zone, w, origin, found'[i], Ends(found'[..i]))
    {
      if i < |found| {
        assert found'[i] == found[i] && found'[..i] == found[..i];
      } else {
        assert found'[..i] == found;
      }
    }
  }

  /**
   * The safe-node branch of the loop: `get_final_route` for the settled node
   * `smallest`, appended to the origin's routes. Its end is new, and since the
   * search settles nodes cheapest first, it is a nearest safe node the earlier
   * routes did not reach.
   */
  method RecordRoute(g: Graph, zone: set<Node>, ghost w: EdgeCosts.WeightFunc, origin: Node, amountOfRoutes: int,
                     found: seq<Path>, pred: map<Node, Option<Node>>, smallest: Node,
                     ghost heap: multiset<Entry>, ghost priority: map<Node, Cost>, ghost settled: set<Node>,
                     ghost settled': set<Node>, ghost order: map<Node, nat>, ghost last: real)
    returns (amountOfRoutes': int, found': seq<Path>)
    requires EdgeCosts.Routable(g, w) && amountOfRoutes == |found|
    requires SearchState(g, origin, heap, priority, settled', pred, order, last) && PredecessorsInZone(pred, zone)
    requires PredecessorCosts(g, w, priority, pred)
    requires AllEscape(g, zone, origin, found) && DistinctEnds(found) && EndsIn(found, settled)
    requires NearestInTurn(g, zone, w, origin, found) && settled - zone <= Ends(found)
    requires settled' == settled + {smallest} && smallest !in settled && smallest !in zone
    requires smallest in priority && priority[smallest] == Fin(last)
    requires NoCheaperWalk(g, zone, true, w, origin, Fin(last), settled)
    ensures amountOfRoutes' == |found'| == |found| + 1
    ensures AllEscape(g, zone, origin, found') && DistinctEnds(found') && EndsIn(found', settled')
    ensures NearestInTurn(g, zone, w, origin, found') && Ends(found') == Ends(found) + {smallest}
  {
    var finalRoute;
    finalRoute, amountOfRoutes' := GetFinalRoute(g, zone, origin, amountOfRoutes, pred, smallest, w,
                                                 heap, priority, settled', order, last);
    EscapeFromSearch(g, zone, true, w, origin, Fin(last), settled, Ends(found));
    assert RouteCosts(g, w, finalRoute, Fin(last)) && NoCheaperEscape(g, zone, w, origin, Fin(last), Ends(found));
    assert Nearest(g, zone, w, origin, finalRoute, Ends(found));
    AppendFound(g, zone, origin, found, settled, finalRoute);
    NearestAppend(g, zone, w, origin, found, finalRoute);
    EndsAppend(found, finalRoute);
    found' := found + [finalRoute];
  }

  /** A search whose heap ran dry has found every safe node it can reach. */
  lemma SearchExhausted(g: Graph, zone: set<Node>, w: EdgeCosts.WeightFunc, origin: Node, k: int,
                        heap: multiset<Entry>, priority: map<Node, Cost>, settled: set<Node>,
                        pred: map<Node, Option<Node>>, order: map<Node, nat>, last: real, found: seq<Path>)
    requires EdgeCosts.Routable(g, w) && heap == multiset{}
    requires Searching(g, zone, w, origin, k, heap, priority, settled, pred, order, last, found)
    ensures SearchResult(g, zone, w, origin, k, found)
  {
    EmptyHeapUnreachable(g, zone, true, w, origin, heap, priority, settled, pred, order, last);
    EscapeFromSearch(g, zone, true, w, origin, Inf, settled, Ends(found));
  }

  /**
   * One pass of the per-origin loop: pop, settle and relax, and turn a settled
   * node outside the zone into a route. `done` is the loop's `break`: an infinite
   * priority, or the `k`-th route; either way the routes found are the search's result.
   */
  method SearchStep(g: Graph, zone: set<Node>, w: EdgeCosts.WeightFunc, origin: Node, k: int,
                    heap: multiset<Entry>, priority: map<Node, Cost>, settled: set<Node>,
                    pred: map<Node, Option<Node>>, amountOfRoutes: int, found: seq<Path>,
                    ghost order: map<Node, nat>, ghost last: real)
    returns (done: bool, heap': multiset<Entry>, priority': map<Node, Cost>, settled': set<Node>,
             pred': map<Node, Option<Node>>, amountOfRoutes': int, found': seq<Path>,
             ghost order': map<Node, nat>, ghost last': real)
    requires EdgeCosts.Routable(g, w) && heap != multiset{} && amountOfRoutes == |found|
    requires Searching(g, zone, w, origin, k, heap, priority, settled, pred, order, last, found)
    ensures amountOfRoutes' == |found'|
    ensures done ==> SearchResult(g, zone, w, origin, k, found')
    ensures !done ==> Searching(g, zone, w, origin, k, heap', priority', settled', pred', order', last', found')
    ensures !done ==> |g.Keys - settled'| < |g.Keys - settled| || (settled' == settled && |heap'| < |heap|)
  {
    var pop;
    pop, heap', priority', settled', pred', order', last' :=
      PopAndSettle(g, zone, true, w, heap, priority, settled, pred, origin, order, last);
    amountOfRoutes', found' := amountOfRoutes, found;
    if pop.Unreachable? {
      EscapeFromSearch(g, zone, true, w, origin, Inf, settled, Ends(found));
      return true, heap', priority', settled', pred', amountOfRoutes', found', order', last';
    } else if pop.Stale? {
      return false, heap', priority', settled', pred', amountOfRoutes', found', order', last';
    }
    var smallest := pop.node;
    SettlingShrinksUnsettled(g.Keys, settled, smallest);
    EndsInGrow(found, settled, settled');
    done := false;
    if smallest !in zone {
      amountOfRoutes', found' := RecordRoute(g, zone, w, origin, amountOfRoutes, found, pred', smallest,
                                             heap', priority', settled, settled', order', last');
      done := amountOfRoutes' >= k;
    }
  }

  /**
   * The per-origin loop of `route_to_safety`: lazy-deletion Dijkstra from `origin`
   * that relaxes edges only out of nodes in the danger zone, turns each settled
   * node outside the zone into an escape path (`get_final_route`), and stops after
   * `k` of them, at an infinite priority, or when the heap empties. The paths come
   * out nearest first, and fewer than `k` only when no other safe node is reachable.
   */
  method EscapeSearch(g: Graph, zone: set<Node>, w: EdgeCosts.WeightFunc, origin: Node, k: int)
    returns (found: seq<Path>)
    requires EdgeCosts.Routable(g, w) && origin in g
    ensures SearchResult(g, zone, w, origin, k, found)
  {
    var heap, priority, predecessor := StartSearch(g, zone, true, w, origin);
    var settled: set<Node> := {};
    ghost var order: map<Node, nat> := map[];
    ghost var last := 0.0;
    found := [];
    EndsAppend([], [origin]);
    assert Entry(priority[origin], origin) in heap;
    var amountOfRoutes := 0;
    while heap != multiset{}
      invariant amountOfRoutes == |found|
      invariant Searching(g, zone, w, origin, k, heap, priority, settled, predecessor, order, last, found)
      decreases |g.Keys - settled|, |heap|
    {
      var done;
      done, heap, priority, settled, predecessor, amountOfRoutes, found, order, last :=
        SearchStep(g, zone, w, origin, k, heap, priority, settled, predecessor, amountOfRoutes, found, order, last);
      if done {
        return;
      }
    }
    SearchExhausted(g, zone, w, origin, k, heap, priority, settled, predecessor, order, last, found);
  }

  /**
   * The `routes` dict against `has_path_been_calculated` when paths are reused:
   * every key is an origin, and an origin counts as computed exactly when it has routes.
   */
  ghost predicate ReuseTable(routes: map<Node, seq<Path>>, computed: map<Node, bool>) {
    && routes.Keys <= computed.Keys
    && (forall o | o in computed :: computed[o] <==> o in routes)
  }

  /**
   * `has_path_been_calculated[i]`-guarded suffix sharing: every origin on the
   * inside part of `route` that has no path yet gets the rest of `route` as its
   * only path and is marked computed; origins already computed keep their paths.
   */
  method ShareSuffixes(g: Graph, zone: set<Node>, route: Path,
                       routes: map<Node, seq<Path>>, computed: map<Node, bool>)
    returns (routes': map<Node, seq<Path>>, computed': map<Node, bool>)
    requires |route| >= 1 && EscapePath(g, zone, route[0], route)
    requires ReuseTable(routes, computed)
    ensures ReuseTable(routes', computed') && computed'.Keys == computed.Keys
    ensures forall o | o in routes :: o in routes' && routes'[o] == routes[o]
    ensures forall o | o in routes' && o !in routes ::
              && |routes'[o]| == 1 && |routes'[o][0]| >= 2 && IsSuffix(routes'[o][0], route)
              && EscapePath(g, zone, o, routes'[o][0])
    ensures forall i | 0 <= i < |route| - 1 && route[i] in computed :: route[i] in routes'
  {
    routes', computed' := routes, computed;
    for i := 0 to |route| - 1
      invariant ReuseTable(routes', computed') && computed'.Keys == computed.Keys
      invariant forall o | o in routes :: o in routes' && routes'[o] == routes[o]
      invariant forall o | o in routes' && o !in routes ::
                  && |routes'[o]| == 1 && |routes'[o][0]| >= 2 && IsSuffix(routes'[o][0], route)
                  && EscapePath(g, zone, o, routes'[o][0])
      invariant forall j | 0 <= j < i && route[j] in computed :: route[j] in routes'
    {
      if route[i] in computed' && !computed'[route[i]] {
        EscapePathSuffix(g, zone, route[0], route, i);
        routes' := routes'[route[i] := [route[i..]]];
        computed' := computed'[route[i] := true];
      }
    }
  }

  /** Every key is a graph node with an out-edge, and its paths are escape paths from it. */
  ghost predicate RoutesFromKeys(g: Graph, zone: set<Node>, routes: map<Node, seq<Path>>) {
    forall o | o in routes :: o in g && |g[o]| > 0 && |routes[o]| >= 1 && AllEscape(g, zone, o, routes[o])
  }

  /** Every origin on the inside part of a stored path has paths of its own. */
  ghost predicate SuffixClosed(routes: map<Node, seq<Path>>, origins: set<Node>) {
    forall o, j, i | o in routes && 0 <= j < |routes[o]| && 0 <= i < |routes[o][j]| - 1 && routes[o][j][i] in origins ::
      routes[o][j][i] in routes
  }

  /** What the `routes` and `has_path_been_calculated` dicts keep between stores. */
  ghost predicate Stored(g: Graph, zone: set<Node>, w: EdgeCosts.WeightFunc, reuse: bool,
                         routes: map<Node, seq<Path>>, computed: map<Node, bool>)
    requires EdgeCosts.Routable(g, w)
  {
    && routes.Keys <= computed.Keys
    && RoutesFromKeys(g, zone, routes)
    && (reuse ==> ReuseTable(routes, computed) && SuffixClosed(routes, computed.Keys))
    && (reuse ==> forall o | o in routes :: |routes[o]| == 1 && Nearest(g, zone, w, o, routes[o][0], {}))
  }

  /** Storing `route` under `origin` and sharing its suffixes keeps the stored paths suffix-closed. */
  lemma SharedSuffixClosed(routes0: map<Node, seq<Path>>, routes1: map<Node, seq<Path>>, routes2: map<Node, seq<Path>>,
                           origins: set<Node>, origin: Node, route: Path)
    requires SuffixClosed(routes0, origins) && routes1 == routes0[origin := [route]]
    requires forall o | o in routes1 :: o in routes2 && routes2[o] == routes1[o]
    requires forall o | o in routes2 && o !in routes1 :: |routes2[o]| == 1 && IsSuffix(routes2[o][0], route)
    requires forall i | 0 <= i < |route| - 1 && route[i] in origins :: route[i] in routes2
    ensures SuffixClosed(routes2, origins)
  {
    forall o, j, i | o in routes2 && 0 <= j < |routes2[o]| && 0 <= i < |routes2[o][j]| - 1 && routes2[o][j][i] in origins
      ensures routes2[o][j][i] in routes2
    {
      var p := routes2[o][j];
      if o in routes1 && o != origin {
        assert p == routes0[o][j] && p[i] in routes0;
      } else if o == origin {
        assert p == route;
      } else {
        assert p[i] == route[|route| - |p| + i];
      }
    }
  }

  /**
   * The suffixes of a path to a nearest safe node lead to nearest safe nodes too,
   * so sharing them keeps every stored path a nearest escape.
   */
  lemma SharedNearest(g: Graph, zone: set<Node>, w: EdgeCosts.WeightFunc,
                      routes1: map<Node, seq<Path>>, routes2: map<Node, seq<Path>>, route: Path)
    requires EdgeCosts.Routable(g, w) && |route| >= 1 && Nearest(g, zone, w, route[0], route, {})
    requires forall o | o in routes1 :: |routes1[o]| == 1 && Nearest(g, zone, w, o, routes1[o][0], {})
    requires forall o | o in routes1 :: o in routes2 && routes2[o] == routes1[o]
    requires forall o | o in routes2 && o !in routes1 ::
               |routes2[o]| == 1 && |routes2[o][0]| >= 1 && IsSuffix(routes2[o][0], route) && routes2[o][0][0] == o
    ensures forall o | o in routes2 :: |routes2[o]| == 1 && Nearest(g, zone, w, o, routes2[o][0], {})
  {
    forall o | o in routes2 && o !in routes1
      ensures Nearest(g, zone, w, o, routes2[o][0], {})
    {
      var p := routes2[o][0];
      var j := |route| - |p|;
      SuffixNearest(g, zone, w, route[0], route, j);
      assert p == route[j..] && route[j] == p[0];
    }
  }

  /**
   * One found route of the per-origin loop: appended to `routes[final_route[0]]`;
   * with reuse, the origin is marked computed and the suffixes are shared.
   */
  method StoreRoute(g: Graph, zone: set<Node>, ghost w: EdgeCosts.WeightFunc, origin: Node, reuse: bool, route: Path,
                    routes: map<Node, seq<Path>>, computed: map<Node, bool>)
    returns (routes': map<Node, seq<Path>>, computed': map<Node, bool>)
    requires EdgeCosts.Routable(g, w)
    requires origin in computed && origin in g && |g[origin]| > 0
    requires EscapePath(g, zone, origin, route)
    requires Stored(g, zone, w, reuse, routes, computed)
    requires reuse ==> origin !in routes && Nearest(g, zone, w, origin, route, {})
    ensures Stored(g, zone, w, reuse, routes', computed') && computed'.Keys == computed.Keys
    ensures origin in routes' && routes'[origin] == (if origin in routes then routes[origin] else []) + [route]
    ensures forall o | o in routes && o != origin :: o in routes' && routes'[o] == routes[o]
    ensures !reuse ==> computed' == computed && routes'.Keys == routes.Keys + {origin}
  {
    var start := route[0];  // `final_route[0]`, which is `origin`
    if start in routes {
      routes' := routes[start := routes[start] + [route]];
    } else {
      routes' := routes[start := [route]];
    }
    assert start == origin;
    RoutesFromKeysAdd(g, zone, routes, origin, route);
    computed' := computed;
    if reuse {
      routes', computed' := MarkAndShare(g, zone, w, origin, route, routes, routes', computed);
    }
  }

  /** With reuse: the origin is marked computed and the route's suffixes are shared. */
  method MarkAndShare(g: Graph, zone: set<Node>, ghost w: EdgeCosts.WeightFunc, origin: Node, route: Path,
                      routes: map<Node, seq<Path>>, routes1: map<Node, seq<Path>>, computed: map<Node, bool>)
    returns (routes': map<Node, seq<Path>>, computed': map<Node, bool>)
    requires EdgeCosts.Routable(g, w)
    requires origin in computed && EscapePath(g, zone, origin, route) && Nearest(g, zone, w, origin, route, {})
    requires Stored(g, zone, w, true, routes, computed) && origin !in routes
    requires routes1 == routes[origin := [route]] && RoutesFromKeys(g, zone, routes1)
    ensures Stored(g, zone, w, true, routes', computed') && computed'.Keys == computed.Keys
    ensures forall o | o in routes1 :: o in routes' && routes'[o] == routes1[o]
  {
    computed' := computed[origin := true];
    routes', computed' := ShareSuffixes(g, zone, route, routes1, computed');
    SharedSuffixClosed(routes, routes1, routes', computed.Keys, origin, route);
    SharedRoutesFromKeys(g, zone, routes1, routes');
    SharedNearest(g, zone, w, routes1, routes', route);
  }

  /** The suffixes shared under new keys are escape paths from those keys. */
  lemma SharedRoutesFromKeys(g: Graph, zone: set<Node>, routes1: map<Node, seq<Path>>, routes2: map<Node, seq<Path>>)
    requires RoutesFromKeys(g, zone, routes1)
    requires forall o | o in routes1 :: o in routes2 && routes2[o] == routes1[o]
    requires forall o | o in routes2 && o !in routes1 ::
               |routes2[o]| == 1 && |routes2[o][0]| >= 2 && EscapePath(g, zone, o, routes2[o][0])
    ensures RoutesFromKeys(g, zone, routes2)
  {
    forall o | o in routes2
      ensures o in g && |g[o]| > 0 && |routes2[o]| >= 1 && AllEscape(g, zone, o, routes2[o])
    {
      if o !in routes1 {
        assert HasEdge(g, routes2[o][0][0], routes2[o][0][1]);
      }
    }
  }

  /** Adding an escape path under its origin keeps every key's paths escape paths. */
  lemma RoutesFromKeysAdd(g: Graph, zone: set<Node>, routes: map<Node, seq<Path>>, origin: Node, route: Path)
    requires RoutesFromKeys(g, zone, routes) && origin in g && |g[origin]| > 0
    requires EscapePath(g, zone, origin, route)
    ensures RoutesFromKeys(g, zone, routes[origin := (if origin in routes then routes[origin] else []) + [route]])
  {
    var prior := if origin in routes then routes[origin] else [];
    var paths := prior + [route];
    forall i | 0 <= i < |paths|
      ensures EscapePath(g, zone, origin, paths[i])
    {
      if i < |prior| {
        assert paths[i] == prior[i];
      }
    }
  }

  lemma PrefixGrows(s: seq<Path>, j: nat)
    requires j <= |s|
    ensures j < |s| ==> s[..j + 1] == s[..j] + [s[j]]
    ensures j == |s| ==> s[..j] == s
  {
  }

  /** Storing the routes one search found, in the order it found them. */
  method StoreRoutes(g: Graph, zone: set<Node>, ghost w: EdgeCosts.WeightFunc, origin: Node, reuse: bool, found: seq<Path>,
                     routes: map<Node, seq<Path>>, computed: map<Node, bool>)
    returns (routes': map<Node, seq<Path>>, computed': map<Node, bool>)
    requires EdgeCosts.Routable(g, w)
    requires origin in computed && origin in g && |g[origin]| > 0
    requires AllEscape(g, zone, origin, found)
    requires Stored(g, zone, w, reuse, routes, computed)
    requires reuse ==> origin !in routes && |found| <= 1 && (found != [] ==> Nearest(g, zone, w, origin, found[0], {}))
    ensures Stored(g, zone, w, reuse, routes', computed') && computed'.Keys == computed.Keys
    ensures origin in routes' <==> origin in routes || found != []
    ensures origin in routes' ==> routes'[origin] == (if origin in routes then routes[origin] else []) + found
    ensures forall o | o in routes && o != origin :: o in routes' && routes'[o] == routes[o]
    ensures !reuse ==> computed' == computed && routes'.Keys <= routes.Keys + {origin}
  {
    routes', computed' := routes, computed;
    if reuse {
      // with a single route per origin the search stops at its first route
      if found != [] {
        routes', computed' := StoreRoute(g, zone, w, origin, true, found[0], routes, computed);
        assert found == [found[0]];
      }
      return;
    }
    routes' := AppendRoutes(g, zone, w, origin, found, routes, computed);
  }

  /** Without reuse every route found is appended to the origin's list, in order. */
  method AppendRoutes(g: Graph, zone: set<Node>, ghost w: EdgeCosts.WeightFunc, origin: Node, found: seq<Path>,
                      routes: map<Node, seq<Path>>, computed: map<Node, bool>)
    returns (routes': map<Node, seq<Path>>)
    requires EdgeCosts.Routable(g, w)
    requires origin in computed && origin in g && |g[origin]| > 0
    requires AllEscape(g, zone, origin, found)
    requires Stored(g, zone, w, false, routes, computed)
    ensures Stored(g, zone, w, false, routes', computed)
    ensures origin in routes' <==> origin in routes || found != []
    ensures origin in routes' ==> routes'[origin] == (if origin in routes then routes[origin] else []) + found
    ensures forall o | o in routes && o != origin :: o in routes' && routes'[o] == routes[o]
    ensures routes'.Keys <= routes.Keys + {origin}
  {
    routes' := routes;
    var computed' := computed;
    ghost var prior := if origin in routes then routes[origin] else [];
    for j := 0 to |found|
      invariant Stored(g, zone, w, false, routes', computed') && computed' == computed
      invariant origin in routes' <==> origin in routes || j > 0
      invariant origin in routes' ==> routes'[origin] == prior + found[..j]
      invariant forall o | o in routes && o != origin :: o in routes' && routes'[o] == routes[o]
      invariant routes'.Keys <= routes.Keys + {origin}
    {
      assert (if origin in routes' then routes'[origin] else []) == prior + found[..j];
      routes', computed' := StoreRoute(g, zone, w, origin, false, found[j], routes', computed');
      AppendNext(prior, found, j);
    }
    PrefixGrows(found, |found|);
  }

  lemma AppendNext(prior: seq<Path>, s: seq<Path>, j: nat)
    requires j < |s|
    ensures prior + s[..j] + [s[j]] == prior + s[..j + 1]
  {
    assert s[..j + 1] == s[..j] + [s[j]];
  }

  /** No origin is listed twice. */
  predicate NoDuplicates(origins: seq<Node>) {
    forall i, j | 0 <= i < j < |origins| :: origins[i] != origins[j]
  }

  /**
   * What `route_to_safety` promises: every key is an origin and every stored path
   * an escape path from its key; with `diversifying_routes == 1` every key has
   * exactly one path, to a nearest safe node, and every origin on the inside part
   * of a stored path has a path of its own; with a single route per origin or
   * distinct origins each key holds what its search returns; and every origin
   * that can reach a safe node has a key.
   */
  ghost predicate RoutesToSafety(g: Graph, zone: set<Node>, w: EdgeCosts.WeightFunc, origins: seq<Node>, k: int,
                                 routes: map<Node, seq<Path>>)
    requires EdgeCosts.Routable(g, w)
  {
    && (forall o | o in routes :: o in origins)
    && RoutesFromKeys(g, zone, routes)
    && (k == 1 ==> (forall o | o in routes :: |routes[o]| == 1 && Nearest(g, zone, w, o, routes[o][0], {}))
                   && SuffixClosed(routes, set o | o in origins))
    && (k == 1 || NoDuplicates(origins) ==> forall o | o in routes :: SearchResult(g, zone, w, o, k, routes[o]))
    && (forall o | o in origins && CanEscape(g, zone, w, o) :: o in routes)
  }

  /** A single path to a nearest safe node is all a search for one route returns. */
  lemma SingleResult(g: Graph, zone: set<Node>, w: EdgeCosts.WeightFunc, o: Node, paths: seq<Path>)
    requires EdgeCosts.Routable(g, w) && |paths| == 1 && Nearest(g, zone, w, o, paths[0], {})
    ensures SearchResult(g, zone, w, o, 1, paths)
  {
    EndsAppend([], paths[0]);
    assert paths[..0] == [];
  }

  /** A search that returns nothing means no safe node is reachable. */
  lemma EmptyResult(g: Graph, zone: set<Node>, w: EdgeCosts.WeightFunc, o: Node, k: int)
    requires EdgeCosts.Routable(g, w) && SearchResult(g, zone, w, o, k, [])
    ensures NoCheaperEscape(g, zone, w, o, Inf, {})
  {
    EndsAppend([], [o]);
  }

  /** The first path of a search result is a nearest escape of all. */
  lemma FirstOfResult(g: Graph, zone: set<Node>, w: EdgeCosts.WeightFunc, o: Node, k: int, found: seq<Path>)
    requires EdgeCosts.Routable(g, w) && SearchResult(g, zone, w, o, k, found) && found != []
    ensures Nearest(g, zone, w, o, found[0], {})
  {
    EndsAppend([], [o]);
    assert found[..0] == [];
  }

  /**
   * `route_to_safety` with the edge cost `w` (`route_to_safety_with_weight_func`):
   * for every origin not yet given a path (when paths are reused), present in the
   * graph and with a neighbour, run the search and store what it finds under the origin.
   */
  method RouteToSafetyWithWeightFunc(origins: seq<Node>, zone: set<Node>, g: Graph, w: EdgeCosts.WeightFunc, k: int)
    returns (routes: map<Node, seq<Path>>)
    requires EdgeCosts.Routable(g, w)
    ensures RoutesToSafety(g, zone, w, origins, k, routes)
  {
    var reuse := k == 1;
    var computed := map o | o in origins :: false;
    routes := map[];
    for idx := 0 to |origins|
      invariant Stored(g, zone, w, reuse, routes, computed) && computed.Keys == set o | o in origins
      invariant NoDuplicates(origins) && !reuse ==> RoutesBounded(g, zone, w, origins, idx, k, routes)
      invariant forall j | 0 <= j < idx && CanEscape(g, zone, w, origins[j]) :: origins[j] in routes
    {
      var origin := origins[idx];
      if NoDuplicates(origins) && !reuse {
        BoundedSkip(g, zone, w, origins, idx, k, routes);
      }
      if computed[origin] && reuse {
        continue;  // the path has already been computed in another iteration
      }
      if origin !in g {
        continue;  // NetworkXError: the origin is not in the graph
      }
      if |g[origin]| == 0 {
        continue;  // the origin has no neighbours
      }
      var found := EscapeSearch(g, zone, w, origin, k);
      if found == [] {
        EmptyResult(g, zone, w, origin, k);
      } else if reuse {
        FirstOfResult(g, zone, w, origin, k, found);
      }
      ghost var routes0 := routes;
      routes, computed := StoreRoutes(g, zone, w, origin, reuse, found, routes, computed);
      if NoDuplicates(origins) && !reuse {
        BoundedStore(g, zone, w, origins, idx, k, routes0, routes, found);
      }
    }
    assert origins[..|origins|] == origins;
    if reuse {
      forall o | o in routes
        ensures SearchResult(g, zone, w, o, k, routes[o])
      {
        SingleResult(g, zone, w, o, routes[o]);
      }
    }
  }

  /** Before origin `n`, every key is among the first `n` origins and holds what its search returned. */
  ghost predicate RoutesBounded(g: Graph, zone: set<Node>, w: EdgeCosts.WeightFunc, origins: seq<Node>, n: nat, k: int,
                                routes: map<Node, seq<Path>>)
    requires EdgeCosts.Routable(g, w) && n <= |origins|
  {
    forall o | o in routes :: o in origins[..n] && SearchResult(g, zone, w, o, k, routes[o])
  }

  lemma BoundedSkip(g: Graph, zone: set<Node>, w: EdgeCosts.WeightFunc, origins: seq<Node>, n: nat, k: int,
                    routes: map<Node, seq<Path>>)
    requires EdgeCosts.Routable(g, w) && n < |origins| && RoutesBounded(g, zone, w, origins, n, k, routes)
    ensures RoutesBounded(g, zone, w, origins, n + 1, k, routes)
  {
    assert origins[..n + 1] == origins[..n] + [origins[n]];
  }

  /** Storing the paths found for a new origin `n` keeps every key holding its search's result. */
  lemma BoundedStore(g: Graph, zone: set<Node>, w: EdgeCosts.WeightFunc, origins: seq<Node>, n: nat, k: int,
                     routes0: map<Node, seq<Path>>, routes: map<Node, seq<Path>>, found: seq<Path>)
    requires EdgeCosts.Routable(g, w)
    requires n < |origins| && NoDuplicates(origins) && RoutesBounded(g, zone, w, origins, n, k, routes0)
    requires SearchResult(g, zone, w, origins[n], k, found)
    requires routes.Keys <= routes0.Keys + {origins[n]}
    requires forall o | o in routes0 && o != origins[n] :: o in routes && routes[o] == routes0[o]
    requires origins[n] in routes ==> routes[origins[n]] == (if origins[n] in routes0 then routes0[origins[n]] else []) + found
    ensures RoutesBounded(g, zone, w, origins, n + 1, k, routes)
  {
    var origin := origins[n];
    assert origin !in routes0 by {
      assert forall i | 0 <= i < n :: origins[..n][i] == origins[i];
    }
    assert [] + found == found;
    BoundedSkip(g, zone, w, origins, n, k, routes0);
  }

  /** `FastestPath.route_to_safety`: the search with travel-time edge costs. */
  method RouteToSafety(origins: seq<Node>, zone: set<Node>, g: Graph, k: int) returns (routes: map<Node, seq<Path>>)
    requires EdgeCosts.Routable(g, EdgeCosts.TravelTime)
    ensures RoutesToSafety(g, zone, EdgeCosts.TravelTime, origins, k, routes)
  {
    routes := RouteToSafetyWithWeightFunc(origins, zone, g, EdgeCosts.TravelTime, k);
  }
}
