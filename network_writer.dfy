/**
 * `NetworkWriter` (src/matsim_io/writers.py): writes a MATSim network document
 * element by element. Its state is the current scope, the indentation level and
 * the lines written so far; every operation first checks its arguments, then that
 * the writer is in the scope it needs, and only then writes and moves on.
 *
 * `Step` is the specification of one operation on the writer's state; the
 * methods of the class are proved to perform exactly that step.
 */
module Writers {
  import opened Wrappers
  import Units

  /** Speed limit used for a link without one (km/h). */
  const DanishSpeedLimit: int := 130
  /** Capacity used for a link without one (vehicles per hour). */
  const DefaultCapacity: int := 1000
  /** Number of lanes used for a link without one. */
  const DefaultLanes: int := 1

  /** The writer's scopes; the base writer starts in `NoScope`. */
  datatype Scope = NoScope | FinishedScope | NetworkScope | NodesScope | LinksScope

  /** One element of the network document, with the values it carries. */
  datatype Element =
    | XmlDeclaration
    | Doctype
    | NetworkStart(name: Option<string>)
    | NetworkEnd
    | NodesStart
    | NodesEnd
    | NodeElement(id: int, x: real, y: real)
    | LinksStart
    | LinksEnd
    | LinkElement(id: int, from: int, to: int, length: real, freespeed: real, capacity: int, permlanes: int)

  /** A written line: the indentation level it was written at and its element. */
  datatype Line = Line(indent: int, element: Element)

  /** A failed `assert` (with its message) or a call made in the wrong scope. */
  datatype WriterError = AssertionFailed(message: string) | ScopeMismatch(required: Scope, actual: Scope)

  datatype Status = Done | Raised(error: WriterError)

  datatype WriterState = WriterState(scope: Scope, indent: int, lines: seq<Line>)

  /** One call on the writer, with its arguments (`None` for an omitted optional one). */
  datatype Call =
    | StartNetwork(name: Option<string>)
    | EndNetwork
    | StartNodes
    | EndNodes
    | AddNode(id: int, x: real, y: real)
    | StartLinks
    | EndLinks
    | AddLink(id: int, from: int, to: int, length: real, speed: Option<int>, capacity: Option<int>, lanes: Option<int>)

  /** The state after a call, and whether it returned or raised. */
  datatype Outcome = Outcome(state: WriterState, status: Status)

  /** The `name` attribute is written only for a non-empty name. */
  function NameAttribute(name: Option<string>): (a: Option<string>)
    ensures a.Some? <==> name.Some? && name.value != []
    ensures a.Some? ==> a.value == name.value
  {
    if name.Some? && name.value != [] then name else None
  }

  function OrDefault(v: Option<int>, default: int): int {
    if v.Some? then v.value else default
  }

  /**
   * The first argument check of `add_link` that fails, once the defaults are in
   * place; the checks run in the order of the parameters.
   */
  function LinkArgumentError(id: int, from: int, to: int, length: real, speed: int, capacity: int, lanes: int): (e: Option<string>)
    ensures e.None? <==> id > 0 && from > 0 && to > 0 && length > 0.0 && speed > 0 && capacity > 0 && lanes > 0
    ensures id <= 0 ==> e == Some("link_id must be a positive integer")
    ensures id > 0 && from <= 0 ==> e == Some("from_node must be a positive integer")
    ensures e.Some? ==> e.value != []
  {
    if id <= 0 then Some("link_id must be a positive integer")
    else if from <= 0 then Some("from_node must be a positive integer")
    else if to <= 0 then Some("to_node must be a positive integer")
    else if length <= 0.0 then Some("length must be a positive number")
    else if speed <= 0 then Some("speed_limit must be a positive integer")
    else if capacity <= 0 then Some("capacity must be a positive integer")
    else if lanes <= 0 then Some("perm_lanes must be a positive integer")
    else None
  }

  /** The argument check of a call: only `add_node` and `add_link` have one. */
  function ArgumentError(c: Call): Option<WriterError> {
    match c
    case AddNode(id, _, _) => if 0 < id then None else Some(AssertionFailed([]))
    case AddLink(id, from, to, length, speed, capacity, lanes) =>
      var e := LinkArgumentError(id, from, to, length, OrDefault(speed, DanishSpeedLimit),
                                 OrDefault(capacity, DefaultCapacity), OrDefault(lanes, DefaultLanes));
      if e.Some? then Some(AssertionFailed(e.value)) else None
    case _ => None
  }

  /** The scope a call must be made in. */
  function RequiredScope(c: Call): Scope {
    match c
    case StartNetwork(_) => NoScope
    case EndNetwork => NetworkScope
    case StartNodes => NetworkScope
    case EndNodes => NodesScope
    case AddNode(_, _, _) => NodesScope
    case StartLinks => NetworkScope
    case EndLinks => LinksScope
    case AddLink(_, _, _, _, _, _, _) => LinksScope
  }

  /** The scope a successful call leaves the writer in. */
  function TargetScope(c: Call): Scope {
    match c
    case StartNetwork(_) => NetworkScope
    case EndNetwork => FinishedScope
    case StartNodes => NodesScope
    case EndNodes => NetworkScope
    case AddNode(_, _, _) => NodesScope
    case StartLinks => LinksScope
    case EndLinks => NetworkScope
    case AddLink(_, _, _, _, _, _, _) => LinksScope
  }

  /** How a successful call moves the indentation: in on a start, out on an end. */
  function IndentChange(c: Call): int {
    match c
    case StartNetwork(_) => 1
    case StartNodes => 1
    case StartLinks => 1
    case EndNetwork => -1
    case EndNodes => -1
    case EndLinks => -1
    case _ => 0
  }

  /**
   * The specification of one call. A check that fails raises and leaves the state
   * as it was. A start writes at the outer level and then indents; an end
   * unindents and then writes, so an element's start and end line up.
   */
  function Step(s: WriterState, c: Call): Outcome {
    var argumentError := ArgumentError(c);
    if argumentError.Some? then Outcome(s, Raised(argumentError.value))
    else if s.scope != RequiredScope(c) then Outcome(s, Raised(ScopeMismatch(RequiredScope(c), s.scope)))
    else
      var written := match c
        case StartNetwork(name) =>
          [Line(s.indent, XmlDeclaration), Line(s.indent, Doctype), Line(s.indent, NetworkStart(NameAttribute(name)))]
        case EndNetwork => [Line(s.indent - 1, NetworkEnd)]
        case StartNodes => [Line(s.indent, NodesStart)]
        case EndNodes => [Line(s.indent - 1, NodesEnd)]
        case AddNode(id, x, y) => [Line(s.indent, NodeElement(id, x, y))]
        case StartLinks => [Line(s.indent, LinksStart)]
        case EndLinks => [Line(s.indent - 1, LinksEnd)]
        case AddLink(id, from, to, length, speed, capacity, lanes) =>
          [Line(s.indent, LinkElement(id, from, to, length, Units.KmhToMs(OrDefault(speed, DanishSpeedLimit) as real),
                                      OrDefault(capacity, DefaultCapacity), OrDefault(lanes, DefaultLanes)))];
      Outcome(WriterState(TargetScope(c), s.indent + IndentChange(c), s.lines + written), Done)
  }

  /**
   * A call succeeds exactly when its arguments pass and the writer is in the
   * required scope; the argument checks come first, so bad arguments raise an
   * assertion error whatever the scope. A failed call changes nothing; a
   * successful one moves to the target scope, shifts the indentation, and only
   * appends lines.
   */
  lemma StepContract(s: WriterState, c: Call)
    ensures Step(s, c).status.Done? <==> ArgumentError(c).None? && s.scope == RequiredScope(c)
    ensures ArgumentError(c).Some? ==> Step(s, c).status == Raised(ArgumentError(c).value)
    ensures ArgumentError(c).None? && s.scope != RequiredScope(c) ==>
      Step(s, c).status == Raised(ScopeMismatch(RequiredScope(c), s.scope))
    ensures Step(s, c).status.Raised? ==> Step(s, c).state == s
    ensures Step(s, c).status.Done? ==>
      && Step(s, c).state.scope == TargetScope(c)
      && Step(s, c).state.indent == s.indent + IndentChange(c)
      && |Step(s, c).state.lines| > |s.lines|
      && Step(s, c).state.lines[..|s.lines|] == s.lines
  {
    if Step(s, c).status.Done? {
      assert ArgumentError(c).None? && s.scope == RequiredScope(c);
      var written := Step(s, c).state.lines[|s.lines|..];
      assert Step(s, c).state.lines == s.lines + written;
    }
  }

  /** Each link gets the free speed in metres per second of its speed limit, 130 km/h by default. */
  lemma LinkFreespeed(s: WriterState, id: int, from: int, to: int, length: real, speed: Option<int>, capacity: Option<int>, lanes: Option<int>)
    requires Step(s, AddLink(id, from, to, length, speed, capacity, lanes)).status.Done?
    ensures var line := Step(s, AddLink(id, from, to, length, speed, capacity, lanes)).state.lines[|s.lines|];
      && line.element.LinkElement?
      && line.element.id == id && line.element.from == from && line.element.to == to
      && 18.0 * line.element.freespeed == 5.0 * (if speed.Some? then speed.value else 130) as real
      && line.element.capacity == (if capacity.Some? then capacity.value else 1000)
      && line.element.permlanes == (if lanes.Some? then lanes.value else 1)
      && 0.0 < line.element.freespeed
  {
    var sp := OrDefault(speed, DanishSpeedLimit);
    Units.KmhToMsPositive(sp as real);
  }

  /** The outcome of a sequence of calls: the first call that raises ends it. */
  function Run(s: WriterState, calls: seq<Call>): Outcome
    decreases |calls|
  {
    if calls == [] then Outcome(s, Done)
    else
      var o := Step(s, calls[0]);
      if o.status.Raised? then o else Run(o.state, calls[1..])
  }

  /** The nesting depth of a scope: the indentation it adds over the document's. */
  function Depth(scope: Scope): int {
    match scope
    case NoScope => 0
    case FinishedScope => 0
    case NetworkScope => 1
    case NodesScope => 2
    case LinksScope => 2
  }

  /**
   * Over any sequence of calls the indentation tracks the scope's depth; in
   * particular a document taken from `NoScope` to `FinishedScope` ends at the
   * indentation it began with.
   */
  lemma {:induction false} IndentTracksDepth(s: WriterState, calls: seq<Call>)
    ensures Run(s, calls).state.indent - Depth(Run(s, calls).state.scope) == s.indent - Depth(s.scope)
    decreases |calls|
  {
    if calls != [] {
      var o := Step(s, calls[0]);
      StepContract(s, calls[0]);
      if o.status.Done? {
        IndentTracksDepth(o.state, calls[1..]);
      }
    }
  }

  lemma CompleteDocumentRestoresIndent(s: WriterState, calls: seq<Call>)
    requires s.scope == NoScope && Run(s, calls).state.scope == FinishedScope
    ensures Run(s, calls).state.indent == s.indent
  {
    IndentTracksDepth(s, calls);
  }

  /** A writer that has finished its document accepts no further call. */
  lemma FinishedIsFinal(s: WriterState, c: Call)
    requires s.scope == FinishedScope
    ensures Step(s, c).status.Raised? && Step(s, c).state == s
  {
  }

  class NetworkWriter {
    var scope: Scope
    var indent: int
    var lines: seq<Line>

    function State(): WriterState
      reads this
    {
      WriterState(scope, indent, lines)
    }

    /** A fresh writer: no scope, no indentation, nothing written. */
    constructor ()
      ensures State() == WriterState(NoScope, 0, [])
    {
      scope := NoScope;
      indent := 0;
      lines := [];
    }

    method RequireScope(required: Scope) returns (status: Status)
      ensures status.Done? <==> scope == required
      ensures status.Raised? ==> status.error == ScopeMismatch(required, scope)
    {
      status := if scope == required then Done else Raised(ScopeMismatch(required, scope));
    }

    method WriteLine(e: Element)
      modifies this
      ensures scope == old(scope) && indent == old(indent)
      ensures lines == old(lines) + [Line(indent, e)]
    {
      lines := lines + [Line(indent, e)];
    }

    method StartNetwork(name: Option<string>) returns (status: Status)
      modifies this
      ensures Outcome(State(), status) == Step(old(State()), Call.StartNetwork(name))
    {
      status := RequireScope(NoScope);
      if status.Raised? {
        return;
      }
      WriteLine(XmlDeclaration);
      WriteLine(Doctype);
      WriteLine(NetworkStart(if name.Some? && name.value != [] then name else None));
      indent := indent + 1;
      scope := NetworkScope;
    }

    method EndNetwork() returns (status: Status)
      modifies this
      ensures Outcome(State(), status) == Step(old(State()), Call.EndNetwork)
    {
      status := RequireScope(NetworkScope);
      if status.Raised? {
        return;
      }
      indent := indent - 1;
      WriteLine(NetworkEnd);
      scope := FinishedScope;
    }

    method StartNodes() returns (status: Status)
      modifies this
      ensures Outcome(State(), status) == Step(old(State()), Call.StartNodes)
    {
      status := RequireScope(NetworkScope);
      if status.Raised? {
        return;
      }
      WriteLine(NodesStart);
      indent := indent + 1;
      scope := NodesScope;
    }

    method EndNodes() returns (status: Status)
      modifies this
      ensures Outcome(State(), status) == Step(old(State()), Call.EndNodes)
    {
      status := RequireScope(NodesScope);
      if status.Raised? {
        return;
      }
      indent := indent - 1;
      WriteLine(NodesEnd);
      scope := NetworkScope;
    }

    method AddNode(id: int, x: real, y: real) returns (status: Status)
      modifies this
      ensures Outcome(State(), status) == Step(old(State()), Call.AddNode(id, x, y))
    {
      if !(0 < id) {
        return Raised(AssertionFailed([]));
      }
      status := RequireScope(NodesScope);
      if status.Raised? {
        return;
      }
      WriteLine(NodeElement(id, x, y));
    }

    method StartLinks() returns (status: Status)
      modifies this
      ensures Outcome(State(), status) == Step(old(State()), Call.StartLinks)
    {
      status := RequireScope(NetworkScope);
      if status.Raised? {
        return;
      }
      WriteLine(LinksStart);
      indent := indent + 1;
      scope := LinksScope;
    }

    method EndLinks() returns (status: Status)
      modifies this
      ensures Outcome(State(), status) == Step(old(State()), Call.EndLinks)
    {
      status := RequireScope(LinksScope);
      if status.Raised? {
        return;
      }
      indent := indent - 1;
      WriteLine(LinksEnd);
      scope := NetworkScope;
    }

    method AddLink(id: int, from: int, to: int, length: real, speed: Option<int>, capacity: Option<int>, lanes: Option<int>)
      returns (status: Status)
      modifies this
      ensures Outcome(State(), status) == Step(old(State()), Call.AddLink(id, from, to, length, speed, capacity, lanes))
    {
      var speedLimit := OrDefault(speed, DanishSpeedLimit);
      var cap := OrDefault(capacity, DefaultCapacity);
      var permLanes := OrDefault(lanes, DefaultLanes);
      var failed := LinkArgumentError(id, from, to, length, speedLimit, cap, permLanes);
      if failed.Some? {
        return Raised(AssertionFailed(failed.value));
      }
      status := RequireScope(LinksScope);
      if status.Raised? {
        return;
      }
      WriteLine(LinkElement(id, from, to, length, Units.KmhToMs(speedLimit as real), cap, permLanes));
    }
  }
}
