/**
 * The two edge-cost functions of the searches: distance (the `_shortest_path_weight_func`
 * of src/routes/shortest_path.py) and travel time (the inline computation of
 * src/routes/fastest_path.py and src/routes/fastestpath.py). Both map the popped node's
 * priority and an edge to the neighbour's candidate priority.
 */
module EdgeCosts {
  import opened Wrappers
  import opened RoadNetwork
  import Units

  /** Speed limit used when `maxspeed` is absent or cannot be parsed (km/h). */
  const DefaultMaxSpeedKmh: real := 50.0

  /** Selects the weight function handed to the search. */
  datatype WeightFunc = Distance | TravelTime

  /**
   * The speed (km/h) the travel-time cost divides by: 50 when the attribute is
   * absent, the first element of a list, and 50 again when `float()` fails.
   */
  function EffectiveSpeedKmh(m: MaxSpeed): (kmh: real)
    requires ValidMaxSpeed(m)
    ensures 0.0 < kmh
    ensures m.NoMaxSpeed? ==> kmh == DefaultMaxSpeedKmh
    ensures m.Single? && m.value.Numeric? ==> kmh == m.value.kmh
    ensures m.Several? && m.values[0].Numeric? ==> kmh == m.values[0].kmh
    ensures (m.Single? && m.value.Unparsable?) || (m.Several? && m.values[0].Unparsable?) ==> kmh == DefaultMaxSpeedKmh
  {
    var first := match m
      case NoMaxSpeed => Numeric(DefaultMaxSpeedKmh)
      case Single(v) => v
      case Several(vs) => vs[0];
    match first
    case Numeric(v) => v
    case Unparsable => DefaultMaxSpeedKmh
  }

  /**
   * Distance cost: the priority plus the edge length; a missing length weighs
   * float('inf'), so the sum is infinite. The speed limit is never read.
   */
  function ShortestPathWeight(priority: real, e: Edge): (r: Cost)
    ensures r.Inf? <==> e.length.None?
    ensures NonNegativeLength(e) ==> AtMost(Fin(priority), r)
    ensures e.length == Some(0.0) ==> r == Fin(priority)
  {
    match e.length
    case None => Inf
    case Some(len) => Fin(priority + len)
  }

  /**
   * Travel-time cost: the priority plus length / kmh_to_ms(maxspeed); a missing
   * length weighs float('inf').
   */
  function TravelTimeWeight(priority: real, e: Edge): (r: Cost)
    requires ValidMaxSpeed(e.maxspeed)
    ensures r.Inf? <==> e.length.None?
    ensures NonNegativeLength(e) ==> AtMost(Fin(priority), r)
    ensures r.Fin? ==> (r.value - priority) * Units.KmhToMs(EffectiveSpeedKmh(e.maxspeed)) == e.length.value
  {
    var speed := EffectiveSpeedKmh(e.maxspeed);
    Units.KmhToMsPositive(speed);
    match e.length
    case None => Inf
    case Some(len) => Fin(priority + len / Units.KmhToMs(speed))
  }

  /** What `w` needs of an edge: a non-negative length and, for travel time, a usable speed limit. */
  predicate PricedEdge(w: WeightFunc, e: Edge) {
    NonNegativeLength(e) && (w.TravelTime? ==> ValidMaxSpeed(e.maxspeed))
  }

  /** Every edge of `g` can be priced by `w`: the distance search never reads the speed limit. */
  predicate Routable(g: Graph, w: WeightFunc) {
    WellFormed(g) && (w.TravelTime? ==> ValidSpeeds(g))
  }

  /** The cost function handed to the search: the candidate priority of the edge's head. */
  function Weight(w: WeightFunc, priority: real, e: Edge): (r: Cost)
    requires w.TravelTime? ==> ValidMaxSpeed(e.maxspeed)
    ensures r.Inf? <==> e.length.None?
    ensures NonNegativeLength(e) ==> AtMost(Fin(priority), r)
  {
    match w
    case Distance => ShortestPathWeight(priority, e)
    case TravelTime => TravelTimeWeight(priority, e)
  }

  /** What one edge adds to a priority under `w`: its length, or its length over the speed. */
  function EdgeCost(w: WeightFunc, e: Edge): (c: Cost)
    requires w.TravelTime? ==> ValidMaxSpeed(e.maxspeed)
    ensures c.Inf? <==> e.length.None?
    ensures NonNegativeLength(e) && c.Fin? ==> 0.0 <= c.value
  {
    match e.length
    case None => Inf
    case Some(len) =>
      if w.Distance? then Fin(len)
      else
        var speed := EffectiveSpeedKmh(e.maxspeed);
        Units.KmhToMsPositive(speed);
        Fin(len / Units.KmhToMs(speed))
  }

  /** Either weight function adds the edge's own cost to the priority it is given. */
  lemma WeightAddsEdgeCost(w: WeightFunc, priority: real, e: Edge)
    requires w.TravelTime? ==> ValidMaxSpeed(e.maxspeed)
    ensures Weight(w, priority, e) == Plus(Fin(priority), EdgeCost(w, e))
  {
  }
}
