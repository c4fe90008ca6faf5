/**
 * The graphs G1 and G2 of tests/routes/test_fastest_path.py, with the danger zone
 * of that file (the square from (1, 1) to (4, 4), which holds A at (2, 2) and, in
 * G1, B at (3, 3)): whatever `route_to_safety` returns on them is pinned down by
 * its contract alone.
 */
module FastestPathTests {
  import opened Wrappers
  import opened RoadNetwork
  import opened EdgeCosts
  import opened Walks
  import opened FastestPath

  /** An edge with a numeric length and a numeric speed limit. */
  function Road(target: Node, length: real, kmh: real): Edge {
    Edge(target, Some(length), Single(Numeric(kmh)))
  }

  /** G1: a detour A-B-C at 110 km/h beside a direct road A-C twice as long at 50 km/h. */
  function G1(): Graph {
    map["A" := [Road("B", 1.0, 110.0), Road("C", 2.0, 50.0)],
        "B" := [Road("C", 1.0, 110.0)],
        "C" := []]
  }

  /** G2: two one-edge exits from A of the same length, at 100 and at 99 km/h. */
  function G2(): Graph {
    map["A" := [Road("B", 5.0, 100.0), Road("C", 5.0, 99.0)],
        "B" := [],
        "C" := []]
  }

  lemma G1Routable()
    ensures Routable(G1(), TravelTime)
  {
    var g: Graph := G1();
    forall v: Node, i: int | v in g && 0 <= i < |g[v]|
      ensures g[v][i].target in g && NonNegativeLength(g[v][i]) && ValidMaxSpeed(g[v][i].maxspeed)
    {
      assert v == "A" || v == "B";
    }
  }

  lemma G2Routable()
    ensures Routable(G2(), TravelTime)
  {
    var g: Graph := G2();
    forall v: Node, i: int | v in g && 0 <= i < |g[v]|
      ensures g[v][i].target in g && NonNegativeLength(g[v][i]) && ValidMaxSpeed(g[v][i].maxspeed)
    {
      assert v == "A";
    }
  }

  /** The only walk along a two-node path is one of the edges between them. */
  lemma OneEdgeWalk(g: Graph, p: Path, es: seq<Edge>)
    requires IsWalk(g, p, es) && |p| == 2
    ensures es == [es[0]] && es[0] in g[p[0]] && es[0].target == p[1]
  {
  }

  lemma SingleKey(m: map<Node, seq<Path>>, k: Node, v: seq<Path>)
    requires m.Keys == {k} && m[k] == v
    ensures m == map[k := v]
  {
  }

  /** With one origin that can escape and one route per origin, the origin gets one nearest escape. */
  lemma SingleOrigin(g: Graph, zone: set<Node>, w: WeightFunc, o: Node, routes: map<Node, seq<Path>>)
    requires Routable(g, w) && RoutesToSafety(g, zone, w, [o], 1, routes) && CanEscape(g, zone, w, o)
    ensures routes.Keys == {o} && |routes[o]| == 1 && Nearest(g, zone, w, o, routes[o][0], {})
  {
  }

  /** An escape walk of finite cost shows its origin can escape. */
  lemma EscapeShowsCanEscape(g: Graph, zone: set<Node>, w: WeightFunc, p: Path, es: seq<Edge>)
    requires Routable(g, w) && EscapeWalk(g, zone, p, es) && |es| >= 1
    requires AllPriced(w, es) && WalkCost(w, es).Fin?
    ensures CanEscape(g, zone, w, p[0])
  {
    assert es[0] in g[p[0]];
    if NoCheaperEscape(g, zone, w, p[0], Inf, {}) {
      UseNoCheaperEscape(g, zone, w, p[0], Inf, {}, p, es);
    }
  }

  /** A path every walk of which costs more than some escape walk is not a nearest escape. */
  lemma BeatenIsNotNearest(g: Graph, zone: set<Node>, w: WeightFunc, p: Path, q: Path, qs: seq<Edge>)
    requires Routable(g, w) && EscapeWalk(g, zone, q, qs) && AllPriced(w, qs) && |p| >= 1 && q[0] == p[0]
    requires forall es | IsWalk(g, p, es) :: AllPriced(w, es) && Less(WalkCost(w, qs), WalkCost(w, es))
    ensures !Nearest(g, zone, w, p[0], p, {})
  {
    if Nearest(g, zone, w, p[0], p, {}) {
      var es, c := NearestWitness(g, zone, w, p[0], p, {});
      UseNoCheaperEscape(g, zone, w, p[0], Fin(c), {}, q, qs);
    }
  }

  /** A walk of one edge costs that edge. */
  lemma OneEdgeCost(w: WeightFunc, e: Edge)
    requires PricedEdge(w, e)
    ensures AllPriced(w, [e]) && WalkCost(w, [e]) == EdgeCost(w, e)
  {
    assert [e][..0] == [];
  }

  /** A walk of two edges costs the sum of both. */
  lemma TwoEdgeCost(w: WeightFunc, e: Edge, f: Edge)
    requires PricedEdge(w, e) && PricedEdge(w, f)
    ensures AllPriced(w, [e, f]) && WalkCost(w, [e, f]) == Plus(EdgeCost(w, e), EdgeCost(w, f))
  {
    OneEdgeCost(w, e);
    assert [e, f][..1] == [e];
  }

  /** In G1 an escape path from A is the direct road or the detour. */
  lemma G1Escapes(p: Path)
    requires EscapePath(G1(), {"A", "B"}, "A", p)
    ensures p == ["A", "C"] || p == ["A", "B", "C"]
  {
    var g := G1();
    assert HasEdge(g, p[0], p[1]);
    if p[1] == "B" {
      assert HasEdge(g, p[1], p[2]);
    }
  }

  /** In G1 the detour costs 2 / (110 / 3.6) seconds, the direct road 2 / (50 / 3.6). */
  lemma G1Costs(es: seq<Edge>)
    requires IsWalk(G1(), ["A", "C"], es)
    ensures EscapeWalk(G1(), {"A", "B"}, ["A", "B", "C"], [Road("B", 1.0, 110.0), Road("C", 1.0, 110.0)])
    ensures AllPriced(TravelTime, [Road("B", 1.0, 110.0), Road("C", 1.0, 110.0)])
    ensures WalkCost(TravelTime, [Road("B", 1.0, 110.0), Road("C", 1.0, 110.0)]) == Fin(7.2 / 110.0)
    ensures AllPriced(TravelTime, es) && WalkCost(TravelTime, es) == Fin(7.2 / 50.0)
  {
    var g := G1();
    var ab, bc, ac := Road("B", 1.0, 110.0), Road("C", 1.0, 110.0), Road("C", 2.0, 50.0);
    assert g["A"] == [ab, ac] && g["B"] == [bc];
    var detour := ["A", "B", "C"];
    assert IsWalk(g, detour, [ab, bc]) by {
      assert forall i | 0 <= i < 3 :: detour[i] in g;
    }
    TwoEdgeCost(TravelTime, ab, bc);
    OneEdgeWalk(g, ["A", "C"], es);
    assert es[0] == ac;
    OneEdgeCost(TravelTime, ac);
  }

  /**
   * `test_fastest_path_takes_fastest_route`: with one route per origin, A gets
   * exactly the faster detour through B, not the shorter direct road.
   */
  lemma FasterRoadWins(routes: map<Node, seq<Path>>)
    requires Routable(G1(), TravelTime)
    requires RoutesToSafety(G1(), {"A", "B"}, TravelTime, ["A"], 1, routes)
    ensures routes == map["A" := [["A", "B", "C"]]]
  {
    var g, zone := G1(), {"A", "B"};
    var detour, detourEdges := ["A", "B", "C"], [Road("B", 1.0, 110.0), Road("C", 1.0, 110.0)];
    var ac := Road("C", 2.0, 50.0);
    G1Costs([ac]);
    EscapeShowsCanEscape(g, zone, TravelTime, detour, detourEdges);
    SingleOrigin(g, zone, TravelTime, "A", routes);
    var p := routes["A"][0];
    G1Escapes(p);
    if p == ["A", "C"] {
      forall es | IsWalk(g, p, es)
        ensures AllPriced(TravelTime, es) && Less(WalkCost(TravelTime, detourEdges), WalkCost(TravelTime, es))
      {
        G1Costs(es);
      }
      BeatenIsNotNearest(g, zone, TravelTime, p, detour, detourEdges);
    }
    assert routes["A"] == [["A", "B", "C"]];
    SingleKey(routes, "A", [["A", "B", "C"]]);
  }

  /** In G2 an escape path from A is one of its two roads. */
  lemma G2Escapes(p: Path)
    requires EscapePath(G2(), {"A"}, "A", p)
    ensures p == ["A", "B"] || p == ["A", "C"]
  {
    assert HasEdge(G2(), p[0], p[1]);
  }

  /** In G2 the road to B takes 5 / (100 / 3.6) seconds, every walk to C 5 / (99 / 3.6). */
  lemma G2Costs(es: seq<Edge>)
    requires IsWalk(G2(), ["A", "C"], es)
    ensures EscapeWalk(G2(), {"A"}, ["A", "B"], [Road("B", 5.0, 100.0)])
    ensures AllPriced(TravelTime, [Road("B", 5.0, 100.0)])
    ensures WalkCost(TravelTime, [Road("B", 5.0, 100.0)]) == Fin(18.0 / 100.0)
    ensures AllPriced(TravelTime, es) && WalkCost(TravelTime, es) == Fin(18.0 / 99.0)
  {
    var g := G2();
    var ab, ac := Road("B", 5.0, 100.0), Road("C", 5.0, 99.0);
    assert g["A"] == [ab, ac];
    OneEdgeCost(TravelTime, ab);
    OneEdgeWalk(g, ["A", "C"], es);
    assert es[0] == ac;
    OneEdgeCost(TravelTime, ac);
  }

  /**
   * `test_fastest_path_takes_fastest_route2`: of two exits at the same distance,
   * A gets the one with the higher speed limit.
   */
  lemma FasterExitWins(routes: map<Node, seq<Path>>)
    requires Routable(G2(), TravelTime)
    requires RoutesToSafety(G2(), {"A"}, TravelTime, ["A"], 1, routes)
    ensures routes == map["A" := [["A", "B"]]]
  {
    var g, zone := G2(), {"A"};
    var fast, fastEdges := ["A", "B"], [Road("B", 5.0, 100.0)];
    var ac := Road("C", 5.0, 99.0);
    G2Costs([ac]);
    EscapeShowsCanEscape(g, zone, TravelTime, fast, fastEdges);
    SingleOrigin(g, zone, TravelTime, "A", routes);
    var p := routes["A"][0];
    G2Escapes(p);
    if p == ["A", "C"] {
      forall es | IsWalk(g, p, es)
        ensures AllPriced(TravelTime, es) && Less(WalkCost(TravelTime, fastEdges), WalkCost(TravelTime, es))
      {
        G2Costs(es);
      }
      BeatenIsNotNearest(g, zone, TravelTime, p, fast, fastEdges);
    }
    assert routes["A"] == [["A", "B"]];
    SingleKey(routes, "A", [["A", "B"]]);
  }
}
