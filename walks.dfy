/**
 * Walks through the road network and what they cost under a weight function:
 * the yardstick against which the escape searches are shown to reach the
 * nearest safe nodes. A walk is a sequence of edges, so the parallel edges of
 * the multigraph are told apart.
 */
module Walks {
  import opened RoadNetwork
  import opened EdgeCosts

  /**
   * `es` is a walk of `g` through the nodes `p`: edge `i` leaves `p[i]` and
   * leads to `p[i + 1]`.
   */
  ghost predicate IsWalk(g: Graph, p: Path, es: seq<Edge>) {
    && |p| == |es| + 1
    && (forall i | 0 <= i < |p| :: p[i] in g)
    && (forall i | 0 <= i < |es| :: p[i] in g && es[i] in g[p[i]] && es[i].target == p[i + 1])
  }

  /** A walk the search can take: when `gated`, every edge leaves a node inside the zone. */
  ghost predicate ZoneWalk(g: Graph, zone: set<Node>, gated: bool, p: Path, es: seq<Edge>) {
    IsWalk(g, p, es) && (gated ==> forall i | 0 <= i < |es| :: p[i] in zone)
  }

  /** A walk out of the zone: every edge leaves a node inside it, and the walk ends outside. */
  ghost predicate EscapeWalk(g: Graph, zone: set<Node>, p: Path, es: seq<Edge>) {
    ZoneWalk(g, zone, true, p, es) && Last(p) !in zone
  }

  predicate AllPriced(w: WeightFunc, es: seq<Edge>) {
    forall i | 0 <= i < |es| :: PricedEdge(w, es[i])
  }

  /**
   * The sum of the edge costs of a walk, added up in walking order as the search
   * adds them to its priorities; infinite exactly when some edge has no length.
   */
  function WalkCost(w: WeightFunc, es: seq<Edge>): (c: Cost)
    requires AllPriced(w, es)
    ensures c.Fin? ==> 0.0 <= c.value
    ensures c.Inf? <==> exists i | 0 <= i < |es| :: es[i].length.None?
    decreases |es|
  {
    if es == [] then Fin(0.0)
    else
      var init := es[..|es| - 1];
      assert forall i | 0 <= i < |init| :: init[i] == es[i];
      Plus(WalkCost(w, init), EdgeCost(w, es[|es| - 1]))
  }

  /** A walk extended by one more edge out of its last node. */
  lemma IsWalkAppend(g: Graph, p: Path, es: seq<Edge>, e: Edge)
    requires IsWalk(g, p, es) && e in g[Last(p)] && e.target in g
    ensures IsWalk(g, p + [e.target], es + [e])
  {
    var q, fs := p + [e.target], es + [e];
    assert forall i | 0 <= i < |p| :: q[i] == p[i];
    assert forall i | 0 <= i < |es| :: fs[i] == es[i];
  }

  /** Every walk of a graph that `w` can price is priced edge by edge. */
  lemma WalkIsPriced(g: Graph, w: WeightFunc, p: Path, es: seq<Edge>)
    requires Routable(g, w) && IsWalk(g, p, es)
    ensures AllPriced(w, es)
  {
    forall i | 0 <= i < |es|
      ensures PricedEdge(w, es[i])
    {
      assert es[i] in g[p[i]];
      var j :| 0 <= j < |g[p[i]]| && g[p[i]][j] == es[i];
    }
  }

  /** `c` is what the route `p` costs along some choice of its edges. */
  ghost predicate RouteCosts(g: Graph, w: WeightFunc, p: Path, c: Cost)
    requires Routable(g, w)
  {
    exists es | IsWalk(g, p, es) :: WalkIsPriced(g, w, p, es); WalkCost(w, es) == c
  }

  /** No search walk from `from` to a node outside `reached` costs less than `c`. */
  ghost predicate NoCheaperWalk(g: Graph, zone: set<Node>, gated: bool, w: WeightFunc, from: Node,
                                c: Cost, reached: set<Node>)
    requires Routable(g, w)
  {
    forall p, es | ZoneWalk(g, zone, gated, p, es) && p[0] == from && Last(p) !in reached ::
      WalkIsPriced(g, w, p, es); AtMost(c, WalkCost(w, es))
  }

  /**
   * No escape walk from `from` to a node outside `reached` costs less than `c`;
   * with `c` infinite, no such node can be reached at a finite cost.
   */
  ghost predicate NoCheaperEscape(g: Graph, zone: set<Node>, w: WeightFunc, from: Node, c: Cost, reached: set<Node>)
    requires Routable(g, w)
  {
    forall p, es | EscapeWalk(g, zone, p, es) && p[0] == from && Last(p) !in reached ::
      WalkIsPriced(g, w, p, es); AtMost(c, WalkCost(w, es))
  }

  /**
   * `p` is an escape path from `from` to a nearest safe node outside `reached`: it
   * has a finite cost along its edges and no escape walk to a node outside
   * `reached` costs less.
   */
  ghost predicate Nearest(g: Graph, zone: set<Node>, w: WeightFunc, from: Node, p: Path, reached: set<Node>)
    requires Routable(g, w)
  {
    EscapePath(g, zone, from, p) &&
    exists c: real :: RouteCosts(g, w, p, Fin(c)) && NoCheaperEscape(g, zone, w, from, Fin(c), reached)
  }

  /**
   * A search from `o` has something to find: `o` is a graph node with a
   * neighbour, and some safe node can be reached from it at a finite cost.
   */
  ghost predicate CanEscape(g: Graph, zone: set<Node>, w: WeightFunc, o: Node)
    requires Routable(g, w)
  {
    o in g && |g[o]| > 0 && !NoCheaperEscape(g, zone, w, o, Inf, {})
  }

  /** One escape walk against NoCheaperEscape. */
  lemma UseNoCheaperEscape(g: Graph, zone: set<Node>, w: WeightFunc, from: Node, c: Cost, reached: set<Node>,
                           p: Path, es: seq<Edge>)
    requires Routable(g, w) && NoCheaperEscape(g, zone, w, from, c, reached)
    requires EscapeWalk(g, zone, p, es) && p[0] == from && Last(p) !in reached
    ensures AllPriced(w, es) && AtMost(c, WalkCost(w, es))
  {
    WalkIsPriced(g, w, p, es);
  }

  /** One search walk against NoCheaperWalk. */
  lemma UseNoCheaperWalk(g: Graph, zone: set<Node>, gated: bool, w: WeightFunc, from: Node, c: Cost,
                         reached: set<Node>, p: Path, es: seq<Edge>)
    requires Routable(g, w) && NoCheaperWalk(g, zone, gated, w, from, c, reached)
    requires ZoneWalk(g, zone, gated, p, es) && p[0] == from && Last(p) !in reached
    ensures AllPriced(w, es) && AtMost(c, WalkCost(w, es))
  {
    WalkIsPriced(g, w, p, es);
  }

  /**
   * The search's view gives the escape view: when every settled node outside the
   * zone is in `reached`, escape walks to nodes outside `reached` end at
   * unsettled nodes.
   */
  lemma EscapeFromSearch(g: Graph, zone: set<Node>, gated: bool, w: WeightFunc, from: Node, c: Cost,
                         settled: set<Node>, reached: set<Node>)
    requires Routable(g, w) && NoCheaperWalk(g, zone, gated, w, from, c, settled)
    requires settled - zone <= reached
    ensures NoCheaperEscape(g, zone, w, from, c, reached)
  {
    forall p, es | EscapeWalk(g, zone, p, es) && p[0] == from && Last(p) !in reached
      ensures AtMost(c, WalkCost(w, es))
    {
      WalkIsPriced(g, w, p, es);
      assert ZoneWalk(g, zone, gated, p, es);
    }
  }

  lemma WalkCostAppend(w: WeightFunc, es: seq<Edge>, e: Edge)
    requires AllPriced(w, es) && PricedEdge(w, e)
    ensures AllPriced(w, es + [e])
    ensures WalkCost(w, es + [e]) == Plus(WalkCost(w, es), EdgeCost(w, e))
  {
    assert (es + [e])[..|es|] == es;
  }

  /** A finite cost added to both sides of a comparison can be taken away. */
  lemma PlusCancels(a: Cost, b: Cost, c: Cost)
    requires Plus(a, b).Fin? && AtMost(Plus(a, b), Plus(a, c))
    ensures AtMost(b, c)
  {
  }

  /** Adding the same cost keeps a comparison. */
  lemma PlusMonotone(a: Cost, b: Cost, c: Cost)
    requires AtMost(a, b)
    ensures AtMost(Plus(a, c), Plus(b, c))
  {
  }

  /** Plus is associative. */
  lemma PlusAssociative(a: Cost, b: Cost, c: Cost)
    ensures Plus(Plus(a, b), c) == Plus(a, Plus(b, c))
  {
  }

  /** The cost of two walks one after the other is the sum of their costs. */
  lemma {:induction false} WalkCostConcat(w: WeightFunc, a: seq<Edge>, b: seq<Edge>)
    requires AllPriced(w, a) && AllPriced(w, b)
    ensures AllPriced(w, a + b)
    ensures WalkCost(w, a + b) == Plus(WalkCost(w, a), WalkCost(w, b))
    decreases |b|
  {
    assert forall i | 0 <= i < |a + b| :: (a + b)[i] == if i < |a| then a[i] else b[i - |a|];
    if b == [] {
      assert a + b == a;
    } else {
      var init := b[..|b| - 1];
      var e := b[|b| - 1];
      assert AllPriced(w, init);
      WalkCostConcat(w, a, init);
      assert a + b == (a + init) + [e];
      WalkCostAppend(w, a + init, e);
      WalkCostAppend(w, init, e);
      assert init + [e] == b;
      PlusAssociative(WalkCost(w, a), WalkCost(w, init), EdgeCost(w, e));
    }
  }

  /** A walk costs at least as much as any of its beginnings. */
  lemma WalkCostGrows(w: WeightFunc, es: seq<Edge>, j: nat)
    requires AllPriced(w, es) && j <= |es|
    ensures AllPriced(w, es[..j])
    ensures AtMost(WalkCost(w, es[..j]), WalkCost(w, es))
  {
    assert AllPriced(w, es[j..]);
    WalkCostConcat(w, es[..j], es[j..]);
    assert es[..j] + es[j..] == es;
  }

  /** Two search walks joined where the first ends make a search walk. */
  lemma ZoneWalkConcat(g: Graph, zone: set<Node>, gated: bool, pa: Path, a: seq<Edge>, pb: Path, b: seq<Edge>)
    requires ZoneWalk(g, zone, gated, pa, a) && ZoneWalk(g, zone, gated, pb, b) && Last(pa) == pb[0]
    ensures ZoneWalk(g, zone, gated, pa + pb[1..], a + b)
  {
    var p := pa + pb[1..];
    assert forall i | 0 <= i < |p| :: p[i] == if i < |pa| then pa[i] else pb[i - |pa| + 1];
    assert forall i | 0 <= i < |a + b| :: (a + b)[i] == if i < |a| then a[i] else b[i - |a|];
    forall i | 0 <= i < |a + b|
      ensures p[i] in g && (a + b)[i] in g[p[i]] && (a + b)[i].target == p[i + 1]
      ensures gated ==> p[i] in zone
    {
      if i >= |a| {
        assert p[i] == pb[i - |a|];
      }
    }
  }

  /** The part of a walk from step `i` on, and the part up to it, are walks. */
  lemma ZoneWalkSplit(g: Graph, zone: set<Node>, gated: bool, p: Path, es: seq<Edge>, i: nat)
    requires ZoneWalk(g, zone, gated, p, es) && i <= |es|
    ensures ZoneWalk(g, zone, gated, p[i..], es[i..])
    ensures ZoneWalk(g, zone, gated, p[..i + 1], es[..i])
  {
    var q, fs := p[i..], es[i..];
    assert forall j | 0 <= j < |q| :: q[j] == p[i + j];
    assert forall j | 0 <= j < |fs| :: fs[j] == es[i + j];
  }

  /** A cost of a route that no escape walk undercuts, with the edges that give it. */
  lemma NearestWitness(g: Graph, zone: set<Node>, w: WeightFunc, from: Node, p: Path, reached: set<Node>)
    returns (es: seq<Edge>, c: real)
    requires Routable(g, w) && Nearest(g, zone, w, from, p, reached)
    ensures IsWalk(g, p, es) && AllPriced(w, es) && WalkCost(w, es) == Fin(c)
    ensures NoCheaperEscape(g, zone, w, from, Fin(c), reached)
  {
    c :| RouteCosts(g, w, p, Fin(c)) && NoCheaperEscape(g, zone, w, from, Fin(c), reached);
    es :| IsWalk(g, p, es) && (WalkIsPriced(g, w, p, es); WalkCost(w, es) == Fin(c));
    WalkIsPriced(g, w, p, es);
  }

  /**
   * An escape walk from where a walk inside the zone ends, put after that walk,
   * is an escape walk from its start, and costs the sum of the two.
   */
  lemma EscapeAfter(g: Graph, zone: set<Node>, w: WeightFunc, pa: Path, a: seq<Edge>, q: Path, f: seq<Edge>)
    requires Routable(g, w) && ZoneWalk(g, zone, true, pa, a) && Last(pa) in zone
    requires EscapeWalk(g, zone, q, f) && q[0] == Last(pa)
    ensures EscapeWalk(g, zone, pa + q[1..], a + f) && (pa + q[1..])[0] == pa[0]
    ensures AllPriced(w, a + f) && AllPriced(w, a) && AllPriced(w, f)
    ensures WalkCost(w, a + f) == Plus(WalkCost(w, a), WalkCost(w, f))
  {
    ZoneWalkConcat(g, zone, true, pa, a, q, f);
    var r := pa + q[1..];
    assert Last(r) == Last(q);
    WalkIsPriced(g, w, pa, a);
    WalkIsPriced(g, w, q, f);
    WalkCostConcat(w, a, f);
  }

  /** Splitting a costed route at node `i`: both parts are walks, and their costs add up. */
  lemma SplitCost(g: Graph, zone: set<Node>, w: WeightFunc, p: Path, es: seq<Edge>, i: nat)
    requires Routable(g, w) && ZoneWalk(g, zone, true, p, es) && i < |p|
    ensures ZoneWalk(g, zone, true, p[i..], es[i..]) && ZoneWalk(g, zone, true, p[..i + 1], es[..i])
    ensures AllPriced(w, es) && AllPriced(w, es[..i]) && AllPriced(w, es[i..])
    ensures WalkCost(w, es) == Plus(WalkCost(w, es[..i]), WalkCost(w, es[i..]))
  {
    ZoneWalkSplit(g, zone, true, p, es, i);
    WalkIsPriced(g, w, p, es);
    WalkIsPriced(g, w, p[i..], es[i..]);
    WalkIsPriced(g, w, p[..i + 1], es[..i]);
    WalkCostConcat(w, es[..i], es[i..]);
    assert es[..i] + es[i..] == es;
  }

  /**
   * Every suffix of a path to a nearest safe node leads to a nearest safe node
   * from its own first node: a cheaper escape from there, put after the first
   * part of the path, would be a cheaper escape from the start.
   */
  lemma SuffixNearest(g: Graph, zone: set<Node>, w: WeightFunc, from: Node, p: Path, i: nat)
    requires Routable(g, w) && Nearest(g, zone, w, from, p, {}) && i < |p|
    ensures Nearest(g, zone, w, p[i], p[i..], {})
  {
    EscapePathSuffix(g, zone, from, p, i);
    var es, c := NearestWitness(g, zone, w, from, p, {});
    assert ZoneWalk(g, zone, true, p, es) by {
      assert |es| == |p| - 1;
    }
    SplitCost(g, zone, w, p, es, i);
    var a, b := es[..i], es[i..];
    var cb := WalkCost(w, b).value;
    assert RouteCosts(g, w, p[i..], Fin(cb));
    forall q, f | EscapeWalk(g, zone, q, f) && q[0] == p[i] && Last(q) !in {}
      ensures AtMost(Fin(cb), WalkCost(w, f))
    {
      WalkIsPriced(g, w, q, f);
      if i < |p| - 1 {
        EscapeAfter(g, zone, w, p[..i + 1], a, q, f);
        var r := p[..i + 1] + q[1..];
        UseNoCheaperEscape(g, zone, w, from, Fin(c), {}, r, a + f);
        PlusCancels(WalkCost(w, a), WalkCost(w, b), WalkCost(w, f));
      } else {
        assert b == [];
      }
    }
  }
}
