/**
 * The road network as the routing code sees it: a directed multigraph from node
 * identifiers to their outgoing edges, each edge carrying the `length` and
 * `maxspeed` attributes the cost functions read, and the extended-real priorities
 * (float('inf') included) of the shortest-path searches.
 */
module RoadNetwork {
  import opened Wrappers

  type Node = string

  /** A route: node identifiers from an origin to a node outside the danger zone. */
  type Path = seq<Node>

  /** The result of `float(maxspeed)` on one attribute value: a number, or a ValueError. */
  datatype SpeedValue = Numeric(kmh: real) | Unparsable

  /** The `maxspeed` edge attribute: absent, a single value, or a list of values. */
  datatype MaxSpeed = NoMaxSpeed | Single(value: SpeedValue) | Several(values: seq<SpeedValue>)

  /** An outgoing edge: its head node and the attributes the cost functions read. */
  datatype Edge = Edge(target: Node, length: Option<real>, maxspeed: MaxSpeed)

  /** Node identifier to its outgoing edges; the keys are the graph's nodes. */
  type Graph = map<Node, seq<Edge>>

  predicate ValidSpeedValue(s: SpeedValue) {
    s.Numeric? ==> 0.0 < s.kmh
  }

  /**
   * The source divides by the converted speed and indexes `maxspeed[0]`: a zero
   * speed raises ZeroDivisionError and an empty list IndexError, so callers pass
   * positive speeds and non-empty lists.
   */
  predicate ValidMaxSpeed(m: MaxSpeed) {
    match m
    case NoMaxSpeed => true
    case Single(v) => ValidSpeedValue(v)
    case Several(vs) => |vs| > 0 && ValidSpeedValue(vs[0])
  }

  /** A present `length` attribute is a distance in metres, never negative. */
  predicate NonNegativeLength(e: Edge) {
    e.length.Some? ==> 0.0 <= e.length.value
  }

  /** Every edge leads to a node of the graph and has no negative length. */
  predicate WellFormed(g: Graph) {
    forall v, i | v in g && 0 <= i < |g[v]| :: g[v][i].target in g && NonNegativeLength(g[v][i])
  }

  /** Every speed limit of the graph can be divided by (see ValidMaxSpeed). */
  predicate ValidSpeeds(g: Graph) {
    forall v, i | v in g && 0 <= i < |g[v]| :: ValidMaxSpeed(g[v][i].maxspeed)
  }

  predicate HasEdge(g: Graph, u: Node, v: Node) {
    u in g && exists i :: 0 <= i < |g[u]| && g[u][i].target == v
  }

  /**
   * An escape path from `origin`: it starts at `origin`, ends at a node outside the
   * zone, every earlier node is inside the zone, and consecutive nodes are joined
   * by an edge of the graph.
   */
  predicate EscapePath(g: Graph, zone: set<Node>, origin: Node, p: Path) {
    && |p| >= 1
    && p[0] == origin
    && p[|p| - 1] !in zone
    && (forall i | 0 <= i < |p| :: p[i] in g)
    && (forall i | 0 <= i < |p| - 1 :: p[i] in zone && HasEdge(g, p[i], p[i + 1]))
  }

  function Last(p: Path): Node
    requires |p| >= 1
  {
    p[|p| - 1]
  }

  /** `p` is a suffix of `q`. */
  predicate IsSuffix(p: Path, q: Path) {
    |p| <= |q| && p == q[|q| - |p|..]
  }

  /** Every suffix of an escape path is an escape path from its own first node. */
  lemma {:induction false} EscapePathSuffix(g: Graph, zone: set<Node>, origin: Node, p: Path, i: nat)
    requires EscapePath(g, zone, origin, p)
    requires i < |p|
    ensures EscapePath(g, zone, p[i], p[i..])
    ensures Last(p[i..]) == Last(p)
  {
    var s := p[i..];
    forall j | 0 <= j < |s| - 1
      ensures s[j] in zone && HasEdge(g, s[j], s[j + 1])
    {
      assert s[j] == p[i + j] && s[j + 1] == p[i + j + 1];
    }
  }

  /** Extended non-negative costs: a finite real or float('inf'). */
  datatype Cost = Fin(value: real) | Inf

  /** Strict comparison `a < b` on floats with infinity. */
  predicate Less(a: Cost, b: Cost) {
    a.Fin? && (b.Inf? || a.value < b.value)
  }

  /** `a <= b` on floats with infinity. */
  predicate AtMost(a: Cost, b: Cost) {
    b.Inf? || (a.Fin? && a.value <= b.value)
  }

  lemma LessIsNotAtMost(a: Cost, b: Cost)
    ensures Less(a, b) <==> !AtMost(b, a)
  {
  }

  /** `a + b` on floats with infinity. */
  function Plus(a: Cost, b: Cost): Cost {
    if a.Fin? && b.Fin? then Fin(a.value + b.value) else Inf
  }
}
