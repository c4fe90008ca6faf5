/**
 * Shared pieces of the Dijkstra-style escape searches (src/routes/route_utils.py):
 * the lazy-deletion priority queue with its side table of recorded priorities
 * (`heap` list + `node_priority` dict, updated by `update_priority`), predecessor
 * path reconstruction, and the invariant every search keeps.
 */
module RouteUtils {
  import opened Wrappers
  import opened RoadNetwork
  import EdgeCosts
  import opened Walks

  /** One heap item `(priority, node)`. */
  datatype Entry = Entry(priority: Cost, node: Node)

  /** `e` has the least priority in `heap`. */
  predicate IsMin(e: Entry, heap: multiset<Entry>) {
    e in heap && forall e' | e' in heap :: AtMost(e.priority, e'.priority)
  }

  /**
   * Every heap entry is at least the priority currently recorded for its node:
   * recorded priorities only go down, so older entries can only be stale-high.
   */
  ghost predicate HeapAboveRecorded(heap: multiset<Entry>, priority: map<Node, Cost>) {
    forall e | e in heap :: e.node in priority && AtMost(priority[e.node], e.priority)
  }

  /** A non-empty heap has a least element (any of them may be popped). */
  lemma {:induction false} MinimumExists(heap: multiset<Entry>)
    requires heap != multiset{}
    ensures exists e :: IsMin(e, heap)
    decreases |heap|
  {
    var x :| x in heap;
    var rest := heap - multiset{x};
    if rest == multiset{} {
      assert heap == multiset{x};
      assert IsMin(x, heap);
    } else {
      MinimumExists(rest);
      var m :| IsMin(m, rest);
      if AtMost(m.priority, x.priority) {
        assert forall e' | e' in heap :: e' == x || e' in rest;
        assert IsMin(m, heap);
      } else {
        assert forall e' | e' in heap :: e' == x || e' in rest;
        assert IsMin(x, heap);
      }
    }
  }

  /**
   * `update_priority`: push `(newPriority, node)` and record it, but only when it
   * is strictly below the recorded priority; otherwise change nothing. The
   * caller's heap list and priority dict go in and their new contents come out.
   */
  method UpdatePriority(heap: multiset<Entry>, priority: map<Node, Cost>, node: Node, newPriority: Cost)
    returns (heap': multiset<Entry>, priority': map<Node, Cost>)
    requires node in priority
    ensures Less(newPriority, priority[node]) ==>
              heap' == heap + multiset{Entry(newPriority, node)} && priority' == priority[node := newPriority]
    ensures !Less(newPriority, priority[node]) ==> heap' == heap && priority' == priority
    ensures priority'.Keys == priority.Keys
    ensures forall v | v in priority && v != node :: priority'[v] == priority[v]
    ensures AtMost(priority'[node], priority[node])
    ensures HeapAboveRecorded(heap, priority) ==> HeapAboveRecorded(heap', priority')
  {
    heap', priority' := heap, priority;
    if Less(newPriority, priority[node]) {
      heap' := heap + multiset{Entry(newPriority, node)};
      priority' := priority[node := newPriority];
    }
  }

  /** `heappop`: remove and return an entry of least priority (any of them, on a tie). */
  method PopMin(heap: multiset<Entry>) returns (e: Entry, heap': multiset<Entry>)
    requires heap != multiset{}
    ensures IsMin(e, heap)
    ensures heap' == heap - multiset{e} && |heap'| == |heap| - 1
  {
    MinimumExists(heap);
    e :| e in heap && IsMin(e, heap);
    heap' := heap - multiset{e};
  }

  /** Predecessors strictly decrease a rank, so following them terminates. */
  ghost predicate RankedChain(pred: map<Node, Option<Node>>, rank: map<Node, nat>) {
    forall v | v in rank && v in pred && pred[v].Some? ::
      pred[v].value in pred && pred[v].value in rank && rank[pred[v].value] < rank[v]
  }

  /**
   * `reconstruct_route`: follow predecessors back from `end` until a node whose
   * predecessor is None, and return the nodes in forward order. The source appends
   * and reverses at the end; prepending builds the same list.
   */
  method ReconstructRoute(pred: map<Node, Option<Node>>, end: Node, ghost rank: map<Node, nat>) returns (path: Path)
    requires end in pred && end in rank
    requires RankedChain(pred, rank)
    ensures |path| >= 1 && Last(path) == end
    ensures forall i | 0 <= i < |path| :: path[i] in pred && path[i] in rank
    ensures pred[path[0]] == None
    ensures forall i | 0 <= i < |path| - 1 :: pred[path[i + 1]] == Some(path[i]) && rank[path[i]] < rank[end]
  {
    var cur: Option<Node> := Some(end);
    path := [];
    while cur.Some?
      invariant cur.Some? ==> cur.value in pred && cur.value in rank
      invariant path == [] ==> cur == Some(end)
      invariant forall i | 0 <= i < |path| :: path[i] in pred && path[i] in rank
      invariant path != [] ==> Last(path) == end && pred[path[0]] == cur
      invariant path != [] && cur.Some? ==> rank[cur.value] < rank[end]
      invariant forall i | 0 <= i < |path| - 1 :: pred[path[i + 1]] == Some(path[i]) && rank[path[i]] < rank[end]
      decreases if cur.Some? then rank[cur.value] + 1 else 0
    {
      path := [cur.value] + path;
      cur := pred[cur.value];
    }
  }

  /*
   * The invariant of the searches, in parts. `settled` is `sptSet`, `order` the
   * (ghost) position at which each node was settled, `last` the (ghost) priority
   * of the latest settled node.
   */

  /** Domains of the search's tables, and the origin's fixed start. */
  ghost predicate Shape(g: Graph, origin: Node, priority: map<Node, Cost>, settled: set<Node>,
                        pred: map<Node, Option<Node>>, order: map<Node, nat>)
  {
    && priority.Keys == g.Keys && pred.Keys == g.Keys && settled <= g.Keys && order.Keys == settled
    && (forall v | v in order :: order[v] < |settled|)
    && origin in g && priority[origin] == Fin(0.0) && pred[origin] == None
  }

  /** Heap entries never undercut the recorded priority, nor the latest settled one. */
  ghost predicate HeapBounds(heap: multiset<Entry>, priority: map<Node, Cost>, last: real) {
    && 0.0 <= last
    && HeapAboveRecorded(heap, priority)
    && (forall e | e in heap :: AtMost(Fin(last), e.priority))
  }

  /** The live entry of a node (the one carrying its recorded priority) is unique. */
  ghost predicate LiveUnique(heap: multiset<Entry>, priority: map<Node, Cost>) {
    forall e | e in heap && e.node in priority && e.priority == priority[e.node] :: heap[e] == 1
  }

  /** Settled nodes are final: finite, not above `last`, and no longer live. */
  ghost predicate SettledFinal(heap: multiset<Entry>, priority: map<Node, Cost>, settled: set<Node>, last: real) {
    forall v | v in settled ::
      v in priority && priority[v].Fin? && priority[v].value <= last && Entry(priority[v], v) !in heap
  }

  /** An unsettled node reached so far still has its live entry. */
  ghost predicate ReachedLive(heap: multiset<Entry>, priority: map<Node, Cost>, settled: set<Node>) {
    forall v | v in priority && v !in settled && priority[v].Fin? :: Entry(priority[v], v) in heap
  }

  /** Reached nodes have non-negative priority and, but for the origin, a predecessor. */
  ghost predicate Reached(origin: Node, priority: map<Node, Cost>, pred: map<Node, Option<Node>>) {
    forall v | v in priority && priority[v].Fin? ::
      0.0 <= priority[v].value && (v != origin ==> v in pred && pred[v].Some?)
  }

  /** A predecessor is settled, has an edge to its node, and was settled earlier. */
  ghost predicate PredecessorTree(g: Graph, pred: map<Node, Option<Node>>, settled: set<Node>, order: map<Node, nat>) {
    forall v | v in pred && pred[v].Some? ::
      && pred[v].value in settled && HasEdge(g, pred[v].value, v)
      && (v in settled ==> v in order && pred[v].value in order && order[pred[v].value] < order[v])
  }

  ghost predicate SearchState(g: Graph, origin: Node, heap: multiset<Entry>, priority: map<Node, Cost>,
                              settled: set<Node>, pred: map<Node, Option<Node>>, order: map<Node, nat>, last: real)
  {
    && Shape(g, origin, priority, settled, pred, order)
    && HeapBounds(heap, priority, last)
    && LiveUnique(heap, priority)
    && SettledFinal(heap, priority, settled, last)
    && ReachedLive(heap, priority, settled)
    && Reached(origin, priority, pred)
    && PredecessorTree(g, pred, settled, order)
  }

  /**
   * The out-edges of every settled node (inside the zone, when `gated`) have been
   * relaxed at its final priority: no such edge offers its head a lower priority.
   */
  ghost predicate Relaxed(g: Graph, zone: set<Node>, gated: bool, w: EdgeCosts.WeightFunc,
                          priority: map<Node, Cost>, settled: set<Node>)
    requires EdgeCosts.Routable(g, w)
  {
    forall x, i | x in settled && x in g && (!gated || x in zone) && 0 <= i < |g[x]| ::
      && x in priority && priority[x].Fin? && g[x][i].target in priority
      && AtMost(priority[g[x][i].target], EdgeCosts.Weight(w, priority[x].value, g[x][i]))
  }

  /** A recorded predecessor offered its node exactly the node's priority, along one of its edges. */
  ghost predicate PredecessorCosts(g: Graph, w: EdgeCosts.WeightFunc, priority: map<Node, Cost>,
                                   pred: map<Node, Option<Node>>)
    requires EdgeCosts.Routable(g, w)
  {
    forall v | v in pred && pred[v].Some? ::
      && v in priority && pred[v].value in g && pred[v].value in priority && priority[pred[v].value].Fin?
      && exists i | 0 <= i < |g[pred[v].value]| ::
           g[pred[v].value][i].target == v &&
           EdgeCosts.Weight(w, priority[pred[v].value].value, g[pred[v].value][i]) == priority[v]
  }

  /** The search state of Dijkstra's algorithm with the cost function `w`. */
  ghost predicate DijkstraState(g: Graph, zone: set<Node>, gated: bool, w: EdgeCosts.WeightFunc, origin: Node,
                                heap: multiset<Entry>, priority: map<Node, Cost>, settled: set<Node>,
                                pred: map<Node, Option<Node>>, order: map<Node, nat>, last: real)
    requires EdgeCosts.Routable(g, w)
  {
    && SearchState(g, origin, heap, priority, settled, pred, order, last)
    && Relaxed(g, zone, gated, w, priority, settled)
    && PredecessorCosts(g, w, priority, pred)
  }

  /** The first node of `p` outside `s`. */
  lemma FirstOutside(p: Path, s: set<Node>) returns (j: nat)
    requires |p| >= 1 && Last(p) !in s
    ensures j < |p| && p[j] !in s && forall i | 0 <= i < j :: p[i] in s
  {
    j := 0;
    while p[j] in s
      invariant j < |p| && forall i | 0 <= i < j :: p[i] in s
      decreases |p| - j
    {
      j := j + 1;
    }
  }

  /**
   * Along a search walk from the origin whose first `j` nodes are settled, the
   * priority of node `j` is at most what the walk costs up to it.
   */
  lemma {:induction false} SettledPrefix(g: Graph, zone: set<Node>, gated: bool, w: EdgeCosts.WeightFunc,
                                         origin: Node, priority: map<Node, Cost>, settled: set<Node>,
                                         p: Path, es: seq<Edge>, j: nat)
    requires EdgeCosts.Routable(g, w) && ZoneWalk(g, zone, gated, p, es) && p[0] == origin
    requires origin in priority && priority[origin] == Fin(0.0)
    requires Relaxed(g, zone, gated, w, priority, settled)
    requires j < |p| && forall i | 0 <= i < j :: p[i] in settled
    ensures AllPriced(w, es[..j])
    ensures p[j] in priority && AtMost(priority[p[j]], WalkCost(w, es[..j]))
    decreases j
  {
    WalkIsPriced(g, w, p, es);
    assert AllPriced(w, es[..j]);
    if j == 0 {
      assert es[..0] == [];
    } else {
      SettledPrefix(g, zone, gated, w, origin, priority, settled, p, es, j - 1);
      var x, e := p[j - 1], es[j - 1];
      assert e in g[x] && e.target == p[j];
      var m :| 0 <= m < |g[x]| && g[x][m] == e;
      assert AtMost(priority[p[j]], EdgeCosts.Weight(w, priority[x].value, e));
      EdgeCosts.WeightAddsEdgeCost(w, priority[x].value, e);
      assert es[..j] == es[..j - 1] + [e];
      WalkCostAppend(w, es[..j - 1], e);
      PlusMonotone(priority[x], WalkCost(w, es[..j - 1]), EdgeCosts.EdgeCost(w, e));
    }
  }

  /**
   * The frontier argument of Dijkstra's algorithm: a search walk from the origin
   * to an unsettled node passes a first unsettled node, whose priority the walk
   * cannot undercut and whose live entry is in the heap. So the walk costs at
   * least every least entry and `last`, and it is infinite once the heap is empty.
   */
  lemma Frontier(g: Graph, zone: set<Node>, gated: bool, w: EdgeCosts.WeightFunc, origin: Node,
                 heap: multiset<Entry>, priority: map<Node, Cost>, settled: set<Node>,
                 pred: map<Node, Option<Node>>, order: map<Node, nat>, last: real, p: Path, es: seq<Edge>)
    requires EdgeCosts.Routable(g, w) && SearchState(g, origin, heap, priority, settled, pred, order, last)
    requires Relaxed(g, zone, gated, w, priority, settled)
    requires ZoneWalk(g, zone, gated, p, es) && p[0] == origin && Last(p) !in settled
    ensures AllPriced(w, es)
    ensures AtMost(Fin(last), WalkCost(w, es))
    ensures heap == multiset{} ==> WalkCost(w, es).Inf?
    ensures forall m | IsMin(m, heap) :: AtMost(m.priority, WalkCost(w, es))
  {
    WalkIsPriced(g, w, p, es);
    var j := FirstOutside(p, settled);
    SettledPrefix(g, zone, gated, w, origin, priority, settled, p, es, j);
    WalkCostGrows(w, es, j);
    var u := p[j];
    if priority[u].Fin? {
      assert Entry(priority[u], u) in heap;
    }
  }

  /** Hence, once the least entry is popped, no search walk to an unsettled node costs less. */
  lemma NoCheaperThanMin(g: Graph, zone: set<Node>, gated: bool, w: EdgeCosts.WeightFunc, origin: Node,
                         heap: multiset<Entry>, priority: map<Node, Cost>, settled: set<Node>,
                         pred: map<Node, Option<Node>>, order: map<Node, nat>, last: real, m: Entry)
    requires EdgeCosts.Routable(g, w) && DijkstraState(g, zone, gated, w, origin, heap, priority, settled, pred, order, last)
    requires IsMin(m, heap)
    ensures NoCheaperWalk(g, zone, gated, w, origin, m.priority, settled)
  {
    forall p, es | ZoneWalk(g, zone, gated, p, es) && p[0] == origin && Last(p) !in settled
      ensures AllPriced(w, es) && AtMost(m.priority, WalkCost(w, es))
    {
      Frontier(g, zone, gated, w, origin, heap, priority, settled, pred, order, last, p, es);
    }
  }

  /** And with the heap empty, no unsettled node can be reached at a finite cost. */
  lemma EmptyHeapUnreachable(g: Graph, zone: set<Node>, gated: bool, w: EdgeCosts.WeightFunc, origin: Node,
                             heap: multiset<Entry>, priority: map<Node, Cost>, settled: set<Node>,
                             pred: map<Node, Option<Node>>, order: map<Node, nat>, last: real)
    requires EdgeCosts.Routable(g, w) && DijkstraState(g, zone, gated, w, origin, heap, priority, settled, pred, order, last)
    requires heap == multiset{}
    ensures NoCheaperWalk(g, zone, gated, w, origin, Inf, settled)
  {
    forall p, es | ZoneWalk(g, zone, gated, p, es) && p[0] == origin && Last(p) !in settled
      ensures AllPriced(w, es) && AtMost(Inf, WalkCost(w, es))
    {
      Frontier(g, zone, gated, w, origin, heap, priority, settled, pred, order, last, p, es);
    }
  }

  /**
   * A chain of recorded predecessors from the origin is a walk that costs, up to
   * each of its nodes, exactly that node's priority.
   */
  lemma {:induction false} ChainWalk(g: Graph, w: EdgeCosts.WeightFunc, origin: Node, priority: map<Node, Cost>,
                                     pred: map<Node, Option<Node>>, path: Path, n: nat) returns (es: seq<Edge>)
    requires EdgeCosts.Routable(g, w) && PredecessorCosts(g, w, priority, pred)
    requires 1 <= n <= |path| && path[0] == origin && origin in g && origin in priority && priority[origin] == Fin(0.0)
    requires forall i | 0 <= i < |path| :: path[i] in pred
    requires forall i | 0 <= i < |path| - 1 :: pred[path[i + 1]] == Some(path[i])
    ensures IsWalk(g, path[..n], es) && AllPriced(w, es)
    ensures path[n - 1] in priority && WalkCost(w, es) == priority[path[n - 1]]
    decreases n
  {
    if n == 1 {
      es := [];
      assert path[..1] == [origin];
    } else {
      var es0 := ChainWalk(g, w, origin, priority, pred, path, n - 1);
      var x, v := path[n - 2], path[n - 1];
      assert pred[v] == Some(x);
      var m :| 0 <= m < |g[x]| && g[x][m].target == v && EdgeCosts.Weight(w, priority[x].value, g[x][m]) == priority[v];
      var e := g[x][m];
      assert path[..n] == path[..n - 1] + [v];
      IsWalkAppend(g, path[..n - 1], es0, e);
      es := es0 + [e];
      WalkCostAppend(w, es0, e);
      EdgeCosts.WeightAddsEdgeCost(w, priority[x].value, e);
    }
  }

  /** The heap and priorities right after `update_priority(dist, node_priority, origin, 0)`. */
  lemma InitialHeap(g: Graph, origin: Node)
    requires origin in g
    ensures var heap := multiset(set v | v in g.Keys :: Entry(Inf, v)) + multiset{Entry(Fin(0.0), origin)};
            var prio := (map v | v in g.Keys :: Inf)[origin := Fin(0.0)];
            HeapBounds(heap, prio, 0.0) && LiveUnique(heap, prio) && ReachedLive(heap, prio, {})
  {
    var inf := set v | v in g.Keys :: Entry(Inf, v);
    var heap := multiset(inf) + multiset{Entry(Fin(0.0), origin)};
    var prio := (map v | v in g.Keys :: Inf)[origin := Fin(0.0)];
    assert forall e | e in heap :: e == Entry(Fin(0.0), origin) || (e in inf && e.priority == Inf && e.node in g);
    assert LiveUnique(heap, prio) by {
      forall e | e in heap && e.node in prio && e.priority == prio[e.node]
        ensures heap[e] == 1
      {
        if e.node == origin {
          assert e == Entry(Fin(0.0), origin) && e !in inf;
        } else {
          assert e in inf && e != Entry(Fin(0.0), origin);
        }
      }
    }
    assert ReachedLive(heap, prio, {}) by {
      forall v | v in prio && prio[v].Fin?
        ensures Entry(prio[v], v) in heap
      {
        assert v == origin;
      }
    }
  }

  /** The whole search state right after `update_priority(dist, node_priority, origin, 0)`. */
  lemma InitialState(g: Graph, origin: Node)
    requires origin in g
    ensures var heap := multiset(set v | v in g.Keys :: Entry(Inf, v)) + multiset{Entry(Fin(0.0), origin)};
            var prio := (map v | v in g.Keys :: Inf)[origin := Fin(0.0)];
            SearchState(g, origin, heap, prio, {}, map v | v in g :: None, map[], 0.0)
  {
    InitialHeap(g, origin);
  }

  /** A live entry in the heap is never of a settled node. */
  lemma LiveEntryIsUnsettled(heap: multiset<Entry>, priority: map<Node, Cost>, settled: set<Node>, last: real, e: Entry)
    requires SettledFinal(heap, priority, settled, last)
    requires e in heap && e.node in priority && e.priority == priority[e.node]
    ensures e.node !in settled
  {
  }

  /** A popped stale entry (finite, above the recorded priority) is of a settled node. */
  lemma StaleEntryIsSettled(heap: multiset<Entry>, priority: map<Node, Cost>, settled: set<Node>, last: real, e: Entry)
    requires HeapBounds(heap, priority, last) && ReachedLive(heap, priority, settled)
    requires IsMin(e, heap) && e.priority.Fin? && e.priority != priority[e.node]
    ensures e.node in settled
  {
  }

  /** Removing one entry keeps the live entries unique. */
  lemma RemoveKeepsLiveUnique(heap: multiset<Entry>, priority: map<Node, Cost>, e: Entry)
    requires LiveUnique(heap, priority)
    ensures LiveUnique(heap - multiset{e}, priority)
  {
    var heap' := heap - multiset{e};
    assert forall e' | e' in heap' :: e' in heap && heap'[e'] <= heap[e'];
  }

  /** Removing an entry that is stale, or whose node is now settled, keeps reached nodes live. */
  lemma RemoveKeepsReachedLive(heap: multiset<Entry>, priority: map<Node, Cost>, settled: set<Node>,
                               settled': set<Node>, e: Entry)
    requires ReachedLive(heap, priority, settled) && settled <= settled'
    requires e.node in priority && e.priority == priority[e.node] ==> e.node in settled'
    ensures ReachedLive(heap - multiset{e}, priority, settled')
  {
    var heap' := heap - multiset{e};
    forall v | v in priority && v !in settled' && priority[v].Fin?
      ensures Entry(priority[v], v) in heap'
    {
      assert Entry(priority[v], v) in heap && Entry(priority[v], v) != e;
    }
  }

  /** Popping and discarding an entry that is not live keeps the state. */
  lemma DiscardPreserves(g: Graph, origin: Node, heap: multiset<Entry>, priority: map<Node, Cost>,
                         settled: set<Node>, pred: map<Node, Option<Node>>, order: map<Node, nat>, last: real, e: Entry)
    requires SearchState(g, origin, heap, priority, settled, pred, order, last)
    requires e in heap && e.priority != priority[e.node]
    ensures SearchState(g, origin, heap - multiset{e}, priority, settled, pred, order, last)
  {
    RemoveKeepsLiveUnique(heap, priority, e);
    RemoveKeepsReachedLive(heap, priority, settled, settled, e);
  }

  lemma SettleShape(g: Graph, origin: Node, priority: map<Node, Cost>, settled: set<Node>,
                    pred: map<Node, Option<Node>>, order: map<Node, nat>, x: Node)
    requires Shape(g, origin, priority, settled, pred, order)
    requires x in g && x !in settled
    ensures Shape(g, origin, priority, settled + {x}, pred, order[x := |settled|])
  {
    assert |settled + {x}| == |settled| + 1;
  }

  lemma SettleHeap(heap: multiset<Entry>, priority: map<Node, Cost>, last: real, e: Entry)
    requires HeapBounds(heap, priority, last)
    requires IsMin(e, heap) && e.priority.Fin?
    ensures last <= e.priority.value
    ensures HeapBounds(heap - multiset{e}, priority, e.priority.value)
  {
    assert forall e' | e' in heap - multiset{e} :: e' in heap;
  }

  lemma SettleFinal(heap: multiset<Entry>, priority: map<Node, Cost>, settled: set<Node>, last: real, e: Entry)
    requires SettledFinal(heap, priority, settled, last) && LiveUnique(heap, priority)
    requires e in heap && e.node in priority && e.priority == priority[e.node] && e.priority.Fin?
    requires last <= e.priority.value
    ensures SettledFinal(heap - multiset{e}, priority, settled + {e.node}, e.priority.value)
  {
    var heap' := heap - multiset{e};
    assert heap'[e] == 0 by { assert heap[e] == 1; }
    forall v | v in settled + {e.node}
      ensures v in priority && priority[v].Fin? && priority[v].value <= e.priority.value && Entry(priority[v], v) !in heap'
    {
      if v != e.node {
        assert Entry(priority[v], v) !in heap;
      }
    }
  }

  lemma SettleTree(g: Graph, pred: map<Node, Option<Node>>, settled: set<Node>, order: map<Node, nat>, x: Node)
    requires PredecessorTree(g, pred, settled, order)
    requires order.Keys == settled && (forall v | v in order :: order[v] < |settled|)
    requires x !in settled
    ensures PredecessorTree(g, pred, settled + {x}, order[x := |settled|])
  {
    var order' := order[x := |settled|];
    forall v | v in pred && pred[v].Some?
      ensures pred[v].value in settled + {x} && HasEdge(g, pred[v].value, v)
      ensures v in settled + {x} ==> v in order' && pred[v].value in order' && order'[pred[v].value] < order'[v]
    {
      var u := pred[v].value;
      assert u in settled && u != x;
    }
  }

  /** Popping a least live entry settles its node, which becomes the latest settled. */
  lemma SettlePreserves(g: Graph, origin: Node, heap: multiset<Entry>, priority: map<Node, Cost>,
                        settled: set<Node>, pred: map<Node, Option<Node>>, order: map<Node, nat>, last: real, e: Entry)
    requires SearchState(g, origin, heap, priority, settled, pred, order, last)
    requires IsMin(e, heap) && e.priority.Fin? && e.priority == priority[e.node]
    ensures e.node !in settled && e.node in g
    ensures last <= e.priority.value
    ensures SearchState(g, origin, heap - multiset{e}, priority, settled + {e.node},
                        pred, order[e.node := |settled|], e.priority.value)
  {
    LiveEntryIsUnsettled(heap, priority, settled, last, e);
    SettleShape(g, origin, priority, settled, pred, order, e.node);
    SettleHeap(heap, priority, last, e);
    RemoveKeepsLiveUnique(heap, priority, e);
    SettleFinal(heap, priority, settled, last, e);
    RemoveKeepsReachedLive(heap, priority, settled, settled + {e.node}, e);
    SettleTree(g, pred, settled, order, e.node);
  }

  lemma RelaxHeap(heap: multiset<Entry>, priority: map<Node, Cost>, last: real, v: Node, c: Cost)
    requires HeapBounds(heap, priority, last) && LiveUnique(heap, priority)
    requires v in priority && AtMost(Fin(last), c) && Less(c, priority[v])
    ensures HeapBounds(heap + multiset{Entry(c, v)}, priority[v := c], last)
    ensures LiveUnique(heap + multiset{Entry(c, v)}, priority[v := c])
  {
    var n := Entry(c, v);
    var heap' := heap + multiset{n};
    var priority' := priority[v := c];
    assert n in heap ==> AtMost(priority[v], c);
    assert forall e | e in heap' :: e == n || e in heap;
    forall e | e in heap' && e.node in priority' && e.priority == priority'[e.node]
      ensures heap'[e] == 1
    {
      if e.node == v {
        assert e == n;
      } else {
        assert e in heap;
      }
    }
  }

  lemma RelaxSettled(heap: multiset<Entry>, priority: map<Node, Cost>, settled: set<Node>, last: real, v: Node, c: Cost)
    requires SettledFinal(heap, priority, settled, last) && ReachedLive(heap, priority, settled)
    requires v !in settled && c.Fin?
    ensures SettledFinal(heap + multiset{Entry(c, v)}, priority[v := c], settled, last)
    ensures ReachedLive(heap + multiset{Entry(c, v)}, priority[v := c], settled)
  {
    forall w | w in settled
      ensures Entry(priority[v := c][w], w) !in heap + multiset{Entry(c, v)}
    {
      assert w != v && Entry(priority[w], w) !in heap;
    }
  }

  lemma RelaxTree(g: Graph, origin: Node, priority: map<Node, Cost>, settled: set<Node>,
                  pred: map<Node, Option<Node>>, order: map<Node, nat>, x: Node, v: Node, c: Cost)
    requires Shape(g, origin, priority, settled, pred, order)
    requires Reached(origin, priority, pred) && PredecessorTree(g, pred, settled, order)
    requires x in settled && HasEdge(g, x, v) && v in g && v != origin && v !in settled
    requires c.Fin? && 0.0 <= c.value
    ensures Shape(g, origin, priority[v := c], settled, pred[v := Some(x)], order)
    ensures Reached(origin, priority[v := c], pred[v := Some(x)])
    ensures PredecessorTree(g, pred[v := Some(x)], settled, order)
  {
  }

  /**
   * Relaxing an edge `x -> v` from a settled node `x` with a strictly better
   * candidate `c` not below `last` keeps the state; `v` is neither settled nor
   * the origin.
   */
  lemma RelaxPreserves(g: Graph, origin: Node, heap: multiset<Entry>, priority: map<Node, Cost>,
                       settled: set<Node>, pred: map<Node, Option<Node>>, order: map<Node, nat>, last: real,
                       x: Node, v: Node, c: Cost)
    requires SearchState(g, origin, heap, priority, settled, pred, order, last)
    requires x in settled && HasEdge(g, x, v) && v in g
    requires AtMost(Fin(last), c) && Less(c, priority[v])
    ensures v !in settled && v != origin
    ensures SearchState(g, origin, heap + multiset{Entry(c, v)}, priority[v := c], settled, pred[v := Some(x)], order, last)
  {
    RelaxHeap(heap, priority, last, v, c);
    RelaxSettled(heap, priority, settled, last, v, c);
    RelaxTree(g, origin, priority, settled, pred, order, x, v, c);
  }

  /**
   * A reconstructed chain of predecessors from a settled node outside the zone is
   * an escape path from the origin, once its earlier nodes are known to be inside.
   */
  lemma ChainIsEscapePath(g: Graph, zone: set<Node>, origin: Node, heap: multiset<Entry>, priority: map<Node, Cost>,
                          settled: set<Node>, pred: map<Node, Option<Node>>, order: map<Node, nat>, last: real, path: Path)
    requires SearchState(g, origin, heap, priority, settled, pred, order, last)
    requires |path| >= 1 && Last(path) !in zone
    requires forall i | 0 <= i < |path| :: path[i] in pred && path[i] in order
    requires pred[path[0]] == None
    requires forall i | 0 <= i < |path| - 1 :: pred[path[i + 1]] == Some(path[i])
    requires forall i | 0 <= i < |path| - 1 :: path[i] in zone
    ensures EscapePath(g, zone, origin, path)
  {
    assert path[0] in settled;
    forall i | 0 <= i < |path| - 1
      ensures HasEdge(g, path[i], path[i + 1])
    {
      assert pred[path[i + 1]] == Some(path[i]);
    }
  }

  /** Predecessors are recorded only from nodes inside the zone (relaxation is gated by zone membership). */
  ghost predicate PredecessorsInZone(pred: map<Node, Option<Node>>, zone: set<Node>) {
    forall v | v in pred && pred[v].Some? :: pred[v].value in zone
  }

  /** Hence every node of a chain of predecessors but the last is inside the zone. */
  lemma ChainInZone(pred: map<Node, Option<Node>>, zone: set<Node>, path: Path)
    requires PredecessorsInZone(pred, zone)
    requires forall i | 0 <= i < |path| :: path[i] in pred
    requires forall i | 0 <= i < |path| - 1 :: pred[path[i + 1]] == Some(path[i])
    ensures forall i | 0 <= i < |path| - 1 :: path[i] in zone
  {
    forall i | 0 <= i < |path| - 1
      ensures path[i] in zone
    {
      var v := path[i + 1];
      assert v in pred && pred[v] == Some(path[i]);
    }
  }

  /** Recording `x` as the predecessor of `v` keeps the zone gate when `x` is inside. */
  lemma SetPredecessorInZone(pred: map<Node, Option<Node>>, zone: set<Node>, v: Node, x: Node)
    requires PredecessorsInZone(pred, zone) && x in zone
    ensures PredecessorsInZone(pred[v := Some(x)], zone)
  {
  }

  /** The settle order ranks the predecessor chains: each predecessor was settled first. */
  lemma TreeIsRanked(g: Graph, origin: Node, priority: map<Node, Cost>, settled: set<Node>,
                     pred: map<Node, Option<Node>>, order: map<Node, nat>)
    requires Shape(g, origin, priority, settled, pred, order) && PredecessorTree(g, pred, settled, order)
    ensures RankedChain(pred, order)
  {
  }

  lemma SettlingShrinksUnsettled(nodes: set<Node>, settled: set<Node>, x: Node)
    requires x in nodes && x !in settled
    ensures |nodes - (settled + {x})| < |nodes - settled|
  {
    assert nodes - settled == (nodes - (settled + {x})) + {x};
  }

  /**
   * What the loop over the out-edges of `node` has done, after `i` of them, to the
   * tables `heap0`, `priority0`, `pred0` it started from.
   */
  ghost predicate RelaxHistory(g: Graph, zone: set<Node>, gated: bool, w: EdgeCosts.WeightFunc,
                               node: Node, nodePriority: real,
                               heap0: multiset<Entry>, priority0: map<Node, Cost>, pred0: map<Node, Option<Node>>,
                               heap: multiset<Entry>, priority: map<Node, Cost>, pred: map<Node, Option<Node>>, i: nat)
    requires EdgeCosts.Routable(g, w) && node in g && i <= |g[node]|
  {
    && priority.Keys == g.Keys && priority.Keys == priority0.Keys
    && (gated && PredecessorsInZone(pred0, zone) ==> PredecessorsInZone(pred, zone))
    && (gated && node !in zone ==> heap == heap0 && priority == priority0 && pred == pred0)
    && heap0 <= heap
    && (forall v | v in priority0 :: AtMost(priority[v], priority0[v]))
    && (forall v | v in priority0 && priority[v] != priority0[v] ::
          v in pred && pred[v] == Some(node) &&
          exists j | 0 <= j < i :: g[node][j].target == v && priority[v] == EdgeCosts.Weight(w, nodePriority, g[node][j]))
    && (forall v | v in pred0 && v in priority0 && priority[v] == priority0[v] :: v in pred && pred[v] == pred0[v])
    && ((!gated || node in zone) ==>
          forall j | 0 <= j < i :: AtMost(priority[g[node][j].target], EdgeCosts.Weight(w, nodePriority, g[node][j])))
  }

  /** The search state while the out-edges of the just settled `node` are relaxed. */
  ghost predicate RelaxedSoFar(g: Graph, zone: set<Node>, gated: bool, w: EdgeCosts.WeightFunc, origin: Node,
                               settled: set<Node>, order: map<Node, nat>, node: Node, nodePriority: real,
                               heap0: multiset<Entry>, priority0: map<Node, Cost>, pred0: map<Node, Option<Node>>,
                               heap: multiset<Entry>, priority: map<Node, Cost>, pred: map<Node, Option<Node>>, i: nat)
    requires EdgeCosts.Routable(g, w) && node in g && i <= |g[node]|
  {
    && SearchState(g, origin, heap, priority, settled, pred, order, nodePriority)
    && Relaxed(g, zone, gated, w, priority, settled - {node})
    && PredecessorCosts(g, w, priority, pred)
    && node in settled && priority[node] == Fin(nodePriority)
    && RelaxHistory(g, zone, gated, w, node, nodePriority, heap0, priority0, pred0, heap, priority, pred, i)
  }

  /** An edge whose candidate does not beat the recorded priority (or that the gate skips) changes nothing. */
  lemma RelaxSkip(g: Graph, zone: set<Node>, gated: bool, w: EdgeCosts.WeightFunc, origin: Node,
                  settled: set<Node>, order: map<Node, nat>, node: Node, nodePriority: real,
                  heap0: multiset<Entry>, priority0: map<Node, Cost>, pred0: map<Node, Option<Node>>,
                  heap: multiset<Entry>, priority: map<Node, Cost>, pred: map<Node, Option<Node>>, i: nat)
    requires EdgeCosts.Routable(g, w) && node in g && i < |g[node]|
    requires RelaxedSoFar(g, zone, gated, w, origin, settled, order, node, nodePriority,
                          heap0, priority0, pred0, heap, priority, pred, i)
    requires (!gated || node in zone) ==>
               !Less(EdgeCosts.Weight(w, nodePriority, g[node][i]), priority[g[node][i].target])
    ensures RelaxedSoFar(g, zone, gated, w, origin, settled, order, node, nodePriority,
                         heap0, priority0, pred0, heap, priority, pred, i + 1)
  {
    LessIsNotAtMost(EdgeCosts.Weight(w, nodePriority, g[node][i]), priority[g[node][i].target]);
  }

  /** Lowering the priority of a node not in `s` keeps the edges out of `s` relaxed. */
  lemma LowerKeepsRelaxed(g: Graph, zone: set<Node>, gated: bool, w: EdgeCosts.WeightFunc,
                          priority: map<Node, Cost>, s: set<Node>, v: Node, c: Cost)
    requires EdgeCosts.Routable(g, w) && Relaxed(g, zone, gated, w, priority, s) && priority.Keys == g.Keys
    requires v !in s && v in priority && Less(c, priority[v])
    requires forall x | x in s :: x in priority && priority[x].Fin?
    ensures Relaxed(g, zone, gated, w, priority[v := c], s)
  {
    forall x, i | x in s && x in g && (!gated || x in zone) && 0 <= i < |g[x]|
      ensures x in priority[v := c] && priority[v := c][x].Fin? && g[x][i].target in priority[v := c]
      ensures AtMost(priority[v := c][g[x][i].target], EdgeCosts.Weight(w, priority[v := c][x].value, g[x][i]))
    {
      assert x != v;
      assert AtMost(priority[g[x][i].target], EdgeCosts.Weight(w, priority[x].value, g[x][i]));
    }
  }

  /** Recording `node` as the predecessor of its `i`-th edge's head, at the priority it offers. */
  lemma LowerKeepsPredecessorCosts(g: Graph, w: EdgeCosts.WeightFunc, priority: map<Node, Cost>,
                                   pred: map<Node, Option<Node>>, settled: set<Node>, node: Node, i: nat)
    requires EdgeCosts.Routable(g, w) && PredecessorCosts(g, w, priority, pred)
    requires node in g && i < |g[node]| && node in priority && priority[node].Fin?
    requires g[node][i].target in priority && g[node][i].target !in settled && node in settled
    requires forall u | u in pred && pred[u].Some? :: pred[u].value in settled
    ensures var v := g[node][i].target;
            PredecessorCosts(g, w, priority[v := EdgeCosts.Weight(w, priority[node].value, g[node][i])],
                             pred[v := Some(node)])
  {
    var v := g[node][i].target;
    var priority', pred' := priority[v := EdgeCosts.Weight(w, priority[node].value, g[node][i])], pred[v := Some(node)];
    forall u | u in pred' && pred'[u].Some?
      ensures u in priority' && pred'[u].value in g && pred'[u].value in priority' && priority'[pred'[u].value].Fin?
      ensures exists j | 0 <= j < |g[pred'[u].value]| ::
                g[pred'[u].value][j].target == u &&
                EdgeCosts.Weight(w, priority'[pred'[u].value].value, g[pred'[u].value][j]) == priority'[u]
    {
      if u == v {
        assert g[node][i].target == u && EdgeCosts.Weight(w, priority'[node].value, g[node][i]) == priority'[u];
      } else {
        var x := pred[u].value;
        assert x != v;
        var j :| 0 <= j < |g[x]| && g[x][j].target == u && EdgeCosts.Weight(w, priority[x].value, g[x][j]) == priority[u];
        assert g[x][j].target == u && EdgeCosts.Weight(w, priority'[x].value, g[x][j]) == priority'[u];
      }
    }
  }

  /** The bookkeeping of `RelaxHistory`, one updated edge further. */
  lemma LowerKeepsHistory(g: Graph, zone: set<Node>, gated: bool, w: EdgeCosts.WeightFunc, node: Node, nodePriority: real,
                          heap0: multiset<Entry>, priority0: map<Node, Cost>, pred0: map<Node, Option<Node>>,
                          heap: multiset<Entry>, priority: map<Node, Cost>, pred: map<Node, Option<Node>>, i: nat)
    requires EdgeCosts.Routable(g, w) && node in g && i < |g[node]|
    requires RelaxHistory(g, zone, gated, w, node, nodePriority, heap0, priority0, pred0, heap, priority, pred, i)
    requires !gated || node in zone
    requires Less(EdgeCosts.Weight(w, nodePriority, g[node][i]), priority[g[node][i].target])
    ensures var v, c := g[node][i].target, EdgeCosts.Weight(w, nodePriority, g[node][i]);
            RelaxHistory(g, zone, gated, w, node, nodePriority, heap0, priority0, pred0,
                         heap + multiset{Entry(c, v)}, priority[v := c], pred[v := Some(node)], i + 1)
  {
    var v, c := g[node][i].target, EdgeCosts.Weight(w, nodePriority, g[node][i]);
    var priority', pred' := priority[v := c], pred[v := Some(node)];
    PushGrows(heap0, heap, Entry(c, v));
    if gated && PredecessorsInZone(pred0, zone) {
      SetPredecessorInZone(pred, zone, v, node);
    }
    forall u | u in priority0 && priority'[u] != priority0[u]
      ensures u in pred' && pred'[u] == Some(node)
      ensures exists j | 0 <= j < i + 1 :: g[node][j].target == u && priority'[u] == EdgeCosts.Weight(w, nodePriority, g[node][j])
    {
      if u == v {
        assert g[node][i].target == u;
      } else {
        var j :| 0 <= j < i && g[node][j].target == u && priority[u] == EdgeCosts.Weight(w, nodePriority, g[node][j]);
      }
    }
    forall u | u in pred0 && u in priority0 && priority'[u] == priority0[u]
      ensures u in pred' && pred'[u] == pred0[u]
    {
      if u == v {
        assert false;
      }
    }
    forall j | 0 <= j < i + 1
      ensures AtMost(priority'[g[node][j].target], EdgeCosts.Weight(w, nodePriority, g[node][j]))
    {
      if j < i {
        assert AtMost(priority[g[node][j].target], EdgeCosts.Weight(w, nodePriority, g[node][j]));
      }
    }
  }

  lemma PushGrows(a: multiset<Entry>, b: multiset<Entry>, e: Entry)
    requires a <= b
    ensures a <= b + multiset{e}
  {
  }

  /** An edge whose candidate beats the recorded priority lowers it, pushes it, and records `node`. */
  lemma RelaxUpdate(g: Graph, zone: set<Node>, gated: bool, w: EdgeCosts.WeightFunc, origin: Node,
                    settled: set<Node>, order: map<Node, nat>, node: Node, nodePriority: real,
                    heap0: multiset<Entry>, priority0: map<Node, Cost>, pred0: map<Node, Option<Node>>,
                    heap: multiset<Entry>, priority: map<Node, Cost>, pred: map<Node, Option<Node>>, i: nat)
    requires EdgeCosts.Routable(g, w) && node in g && i < |g[node]|
    requires RelaxedSoFar(g, zone, gated, w, origin, settled, order, node, nodePriority,
                          heap0, priority0, pred0, heap, priority, pred, i)
    requires !gated || node in zone
    requires Less(EdgeCosts.Weight(w, nodePriority, g[node][i]), priority[g[node][i].target])
    ensures var v, c := g[node][i].target, EdgeCosts.Weight(w, nodePriority, g[node][i]);
            RelaxedSoFar(g, zone, gated, w, origin, settled, order, node, nodePriority,
                         heap0, priority0, pred0, heap + multiset{Entry(c, v)}, priority[v := c], pred[v := Some(node)], i + 1)
  {
    var v, c := g[node][i].target, EdgeCosts.Weight(w, nodePriority, g[node][i]);
    assert HasEdge(g, node, v) by { assert g[node][i].target == v; }
    RelaxPreserves(g, origin, heap, priority, settled, pred, order, nodePriority, node, v, c);
    LowerKeepsRelaxed(g, zone, gated, w, priority, settled - {node}, v, c);
    LowerKeepsPredecessorCosts(g, w, priority, pred, settled, node, i);
    LowerKeepsHistory(g, zone, gated, w, node, nodePriority, heap0, priority0, pred0, heap, priority, pred, i);
    assert v != node;
  }

  /** After the last out-edge: `node`'s edges are relaxed too. */
  lemma RelaxDone(g: Graph, zone: set<Node>, gated: bool, w: EdgeCosts.WeightFunc, origin: Node,
                  settled: set<Node>, order: map<Node, nat>, node: Node, nodePriority: real,
                  heap0: multiset<Entry>, priority0: map<Node, Cost>, pred0: map<Node, Option<Node>>,
                  heap: multiset<Entry>, priority: map<Node, Cost>, pred: map<Node, Option<Node>>)
    requires EdgeCosts.Routable(g, w) && node in g
    requires RelaxedSoFar(g, zone, gated, w, origin, settled, order, node, nodePriority,
                          heap0, priority0, pred0, heap, priority, pred, |g[node]|)
    ensures Relaxed(g, zone, gated, w, priority, settled)
  {
  }

  /**
   * The loop over the out-edges of the newly settled `node`, whose priority is
   * `nodePriority`: every neighbour whose candidate priority is strictly below its
   * recorded one is updated (`update_priority`) and gets `node` as predecessor.
   * With `gated`, as in `route_to_safety`, this happens only for a `node` inside the
   * zone. Afterwards no out-edge of `node` offers a lower priority, priorities have
   * only gone down, and a node's predecessor changed exactly when its priority
   * dropped, to `node`, along an edge that gives the new priority.
   */
  method RelaxOutEdges(g: Graph, zone: set<Node>, gated: bool, w: EdgeCosts.WeightFunc,
                       heap: multiset<Entry>, priority: map<Node, Cost>, pred: map<Node, Option<Node>>,
                       node: Node, nodePriority: real,
                       ghost origin: Node, ghost settled: set<Node>, ghost order: map<Node, nat>)
    returns (heap': multiset<Entry>, priority': map<Node, Cost>, pred': map<Node, Option<Node>>)
    requires EdgeCosts.Routable(g, w) && node in g && node in settled && node in priority
    requires priority[node] == Fin(nodePriority)
    requires SearchState(g, origin, heap, priority, settled, pred, order, nodePriority)
    requires Relaxed(g, zone, gated, w, priority, settled - {node}) && PredecessorCosts(g, w, priority, pred)
    ensures DijkstraState(g, zone, gated, w, origin, heap', priority', settled, pred', order, nodePriority)
    ensures (!gated || node in zone) ==> forall i | 0 <= i < |g[node]| ::
              AtMost(priority'[g[node][i].target], EdgeCosts.Weight(w, nodePriority, g[node][i]))
    ensures priority'.Keys == priority.Keys && forall v | v in priority :: AtMost(priority'[v], priority[v])
    ensures forall v | v in priority && priority'[v] != priority[v] ::
              v in pred' && pred'[v] == Some(node) &&
              exists i | 0 <= i < |g[node]| :: g[node][i].target == v && priority'[v] == EdgeCosts.Weight(w, nodePriority, g[node][i])
    ensures forall v | v in pred && v in priority && priority'[v] == priority[v] :: v in pred' && pred'[v] == pred[v]
    ensures heap <= heap'
    ensures gated && PredecessorsInZone(pred, zone) ==> PredecessorsInZone(pred', zone)
    ensures gated && node !in zone ==> heap' == heap && priority' == priority && pred' == pred
  {
    heap', priority', pred' := heap, priority, pred;
    var i := 0;
    while i < |g[node]|
      invariant i <= |g[node]|
      invariant RelaxedSoFar(g, zone, gated, w, origin, settled, order, node, nodePriority,
                             heap, priority, pred, heap', priority', pred', i)
    {
      var edge := g[node][i];
      var newDistance := EdgeCosts.Weight(w, nodePriority, edge);
      if (!gated || node in zone) && Less(newDistance, priority'[edge.target]) {
        RelaxUpdate(g, zone, gated, w, origin, settled, order, node, nodePriority,
                    heap, priority, pred, heap', priority', pred', i);
        heap', priority' := UpdatePriority(heap', priority', edge.target, newDistance);
        pred' := pred'[edge.target := Some(node)];
      } else {
        RelaxSkip(g, zone, gated, w, origin, settled, order, node, nodePriority,
                  heap, priority, pred, heap', priority', pred', i);
      }
      i := i + 1;
    }
    RelaxDone(g, zone, gated, w, origin, settled, order, node, nodePriority,
              heap, priority, pred, heap', priority', pred');
  }

  /**
   * `get_final_route`: reconstruct the route to the settled node `smallest`, which
   * is outside the zone, and count it. The route is an escape path from `origin`
   * that costs, along its edges, the priority of `smallest`.
   */
  method GetFinalRoute(g: Graph, zone: set<Node>, origin: Node, amountOfRoutes: int,
                       predecessor: map<Node, Option<Node>>, smallest: Node, ghost w: EdgeCosts.WeightFunc,
                       ghost heap: multiset<Entry>, ghost priority: map<Node, Cost>, ghost settled: set<Node>,
                       ghost order: map<Node, nat>, ghost last: real)
    returns (finalRoute: Path, amountOfRoutes': int)
    requires EdgeCosts.Routable(g, w)
    requires SearchState(g, origin, heap, priority, settled, predecessor, order, last)
    requires PredecessorCosts(g, w, priority, predecessor)
    requires PredecessorsInZone(predecessor, zone)
    requires smallest in settled && smallest !in zone
    ensures amountOfRoutes' == amountOfRoutes + 1
    ensures EscapePath(g, zone, origin, finalRoute) && Last(finalRoute) == smallest
    ensures RouteCosts(g, w, finalRoute, priority[smallest])
  {
    TreeIsRanked(g, origin, priority, settled, predecessor, order);
    finalRoute := ReconstructRoute(predecessor, smallest, order);
    ChainInZone(predecessor, zone, finalRoute);
    ChainIsEscapePath(g, zone, origin, heap, priority, settled, predecessor, order, last, finalRoute);
    ChainCosts(g, w, origin, priority, predecessor, finalRoute);
    amountOfRoutes' := amountOfRoutes + 1;
  }

  /** A reconstructed route from the origin costs its end's priority. */
  lemma ChainCosts(g: Graph, w: EdgeCosts.WeightFunc, origin: Node, priority: map<Node, Cost>,
                   pred: map<Node, Option<Node>>, path: Path)
    requires EdgeCosts.Routable(g, w) && PredecessorCosts(g, w, priority, pred)
    requires |path| >= 1 && path[0] == origin && origin in g && origin in priority && priority[origin] == Fin(0.0)
    requires forall i | 0 <= i < |path| :: path[i] in pred
    requires forall i | 0 <= i < |path| - 1 :: pred[path[i + 1]] == Some(path[i])
    ensures Last(path) in priority && RouteCosts(g, w, path, priority[Last(path)])
  {
    var es := ChainWalk(g, w, origin, priority, pred, path, |path|);
    assert path[..|path|] == path;
  }

  /** What one pop of the search loop did. */
  datatype Pop =
    | Unreachable          // the least priority is float('inf')
    | Stale(node: Node)    // an outdated entry: the node was reached more cheaply since
    | Settled(node: Node)  // a live entry: the node is settled and its out-edges relaxed

  /**
   * One pass of the search loop up to the safety check: pop a least entry; at
   * infinity report it; for a live entry settle the node and relax its out-edges;
   * a stale entry changes nothing else. The node settled has the least priority
   * any search walk from the origin to a node not settled before can cost; at
   * infinity no such node can be reached at a finite cost.
   */
  method PopAndSettle(g: Graph, zone: set<Node>, gated: bool, w: EdgeCosts.WeightFunc,
                      heap: multiset<Entry>, priority: map<Node, Cost>, settled: set<Node>, pred: map<Node, Option<Node>>,
                      ghost origin: Node, ghost order: map<Node, nat>, ghost last: real)
    returns (pop: Pop, heap': multiset<Entry>, priority': map<Node, Cost>, settled': set<Node>,
             pred': map<Node, Option<Node>>, ghost order': map<Node, nat>, ghost last': real)
    requires EdgeCosts.Routable(g, w) && heap != multiset{}
    requires DijkstraState(g, zone, gated, w, origin, heap, priority, settled, pred, order, last)
    ensures !pop.Unreachable? ==> DijkstraState(g, zone, gated, w, origin, heap', priority', settled', pred', order', last')
    ensures pop.Unreachable? ==> NoCheaperWalk(g, zone, gated, w, origin, Inf, settled)
    ensures pop.Stale? ==>
              priority' == priority && settled' == settled && pred' == pred && order' == order && |heap'| < |heap|
    ensures pop.Stale? ==> pop.node in settled
    ensures pop.Settled? ==>
              pop.node in g && pop.node !in settled && settled' == settled + {pop.node} &&
              order' == order[pop.node := |settled|]
    ensures pop.Settled? ==>
              pop.node in priority' && priority'[pop.node] == Fin(last') &&
              NoCheaperWalk(g, zone, gated, w, origin, Fin(last'), settled)
    ensures gated && PredecessorsInZone(pred, zone) ==> PredecessorsInZone(pred', zone)
  {
    var entry;
    entry, heap' := PopMin(heap);
    priority', settled', pred', order', last' := priority, settled, pred, order, last;
    NoCheaperThanMin(g, zone, gated, w, origin, heap, priority, settled, pred, order, last, entry);
    if entry.priority.Inf? {
      return Unreachable, heap', priority', settled', pred', order', last';
    }
    var nodePriority := entry.priority.value;
    var smallest := entry.node;
    if entry.priority == priority[smallest] {
      SettlePreserves(g, origin, heap, priority, settled, pred, order, last, entry);
      // `not sptSet[smallest_node]` always holds for a live entry
      order' := order[smallest := |settled|];
      settled' := settled + {smallest};
      last' := nodePriority;
      assert settled' - {smallest} == settled;
      heap', priority', pred' := RelaxOutEdges(g, zone, gated, w, heap', priority, pred, smallest, nodePriority,
                                               origin, settled', order');
      pop := Settled(smallest);
    } else {
      StaleEntryIsSettled(heap, priority, settled, last, entry);
      DiscardPreserves(g, origin, heap, priority, settled, pred, order, last, entry);
      pop := Stale(smallest);
    }
  }

  /** The search tables right after `update_priority(dist, node_priority, origin, 0)`. */
  method StartSearch(g: Graph, zone: set<Node>, gated: bool, w: EdgeCosts.WeightFunc, origin: Node)
    returns (heap: multiset<Entry>, priority: map<Node, Cost>, predecessor: map<Node, Option<Node>>)
    requires EdgeCosts.Routable(g, w) && origin in g
    ensures DijkstraState(g, zone, gated, w, origin, heap, priority, {}, predecessor, map[], 0.0)
    ensures forall v | v in predecessor :: predecessor[v] == None
  {
    heap := multiset(set v | v in g.Keys :: Entry(Inf, v));
    priority := map v | v in g.Keys :: Inf;
    predecessor := map v | v in g :: None;
    InitialState(g, origin);
    heap, priority := UpdatePriority(heap, priority, origin, Fin(0.0));
  }
}
