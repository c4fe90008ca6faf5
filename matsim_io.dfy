/**
 * `write_network` (src/matsim_io/__init__.py): checks the file name, then drives a
 * `NetworkWriter` through the network, its nodes in graph order and its edges in
 * graph order as links numbered from 1. `parse_min_int` reads the `maxspeed` and
 * `lanes` attributes, which are a string, a list of strings, or absent.
 */
module MatsimIo {
  import opened Wrappers
  import opened Writers

  /** One attribute string as Python's `int()` sees it: a whole number, or text it rejects. */
  datatype IntText = IntText(value: int) | NotAnInt

  /** An edge attribute: absent, one string, or a list of strings. */
  datatype Attribute = Absent | Scalar(text: IntText) | Listed(texts: seq<IntText>)

  /** Why `parse_min_int` raises: `int()` rejected a string, or `min` got an empty list. */
  datatype ParseError = NotAnInteger | EmptyList

  datatype NodeData = NodeData(id: int, x: real, y: real)

  /** An edge of the multigraph: its ends, its length and its raw attributes. */
  datatype EdgeData = EdgeData(from: int, to: int, length: real, maxspeed: Attribute, lanes: Attribute)

  /** The nodes and edges of the graph, in the order the graph yields them. */
  datatype NetworkGraph = NetworkGraph(nodes: seq<NodeData>, edges: seq<EdgeData>)

  datatype WriteError = InvalidFileName(name: string) | ParseFailed(parseError: ParseError) | WriterFailed(writerError: WriterError)

  predicate EndsWith(s: string, suffix: string) {
    |suffix| <= |s| && s[|s| - |suffix|..] == suffix
  }

  /** The smallest value of a list of parsed strings, or the first error met on the way. */
  function MinOfTexts(texts: seq<IntText>): (r: Result<int, ParseError>)
    requires |texts| > 0
    ensures r.Success? <==> forall i | 0 <= i < |texts| :: texts[i].IntText?
    ensures r.Success? ==> exists i | 0 <= i < |texts| :: texts[i].value == r.value
    ensures r.Success? ==> forall i | 0 <= i < |texts| :: r.value <= texts[i].value
    ensures r.Failure? ==> r.error == NotAnInteger
  {
    if texts[0].NotAnInt? then Failure(NotAnInteger)
    else if |texts| == 1 then Success(texts[0].value)
    else
      var rest := MinOfTexts(texts[1..]);
      if rest.Failure? then rest
      else
        assert forall i | 1 <= i < |texts| :: texts[i] == texts[1..][i - 1];
        Success(if texts[0].value <= rest.value then texts[0].value else rest.value)
  }

  /**
   * `parse_min_int`: nothing for an absent attribute, the minimum of a list, the
   * value of a single string; `int()` on a bad string and `min` on an empty list raise.
   */
  function ParseMinInt(a: Attribute): (r: Result<Option<int>, ParseError>)
    ensures a.Absent? <==> r == Success(None)
    ensures a.Scalar? ==> (r.Success? <==> a.text.IntText?) && (r.Success? ==> r.value == Some(a.text.value))
    ensures a.Listed? && a.texts == [] ==> r == Failure(EmptyList)
    ensures a.Listed? && r.Success? ==>
      && r.value.Some?
      && (exists i | 0 <= i < |a.texts| :: a.texts[i].IntText? && a.texts[i].value == r.value.value)
      && (forall i | 0 <= i < |a.texts| :: a.texts[i].IntText? && r.value.value <= a.texts[i].value)
    ensures a.Listed? && a.texts != [] ==> (r.Success? <==> forall i | 0 <= i < |a.texts| :: a.texts[i].IntText?)
  {
    match a
    case Absent => Success(None)
    case Scalar(t) => if t.IntText? then Success(Some(t.value)) else Failure(NotAnInteger)
    case Listed(ts) =>
      if ts == [] then Failure(EmptyList)
      else
        var m := MinOfTexts(ts);
        if m.Success? then Success(Some(m.value)) else Failure(m.error)
  }

  /** Only names ending in ".xml", and not in ".xml.gz", are accepted. */
  predicate ValidFileName(name: string) {
    EndsWith(name, ".xml") && !EndsWith(name, ".xml.gz")
  }

  /**
   * The name check and the ".gz" suffix: compression appends ".gz", so the file
   * written ends in ".xml.gz" exactly when compression is on.
   */
  function OutputFileName(name: string, gzipCompress: bool): (r: Result<string, WriteError>)
    ensures r.Failure? <==> !ValidFileName(name)
    ensures r.Failure? ==> r.error == InvalidFileName(name)
    ensures r.Success? ==> EndsWith(r.value, ".xml")  || EndsWith(r.value, ".xml.gz")
    ensures r.Success? ==> (EndsWith(r.value, ".xml.gz") <==> gzipCompress)
    ensures r.Success? ==> r.value == name + (if gzipCompress then ".gz" else "")
  {
    if !EndsWith(name, ".xml") || EndsWith(name, ".xml.gz") then Failure(InvalidFileName(name))
    else
      assert name[|name| - 3..] == "xml";
      assert !EndsWith(name, ".gz") by { assert name[|name| - 1] == 'l'; }
      var file := if gzipCompress && !EndsWith(name, ".gz") then name + ".gz" else name;
      assert gzipCompress ==> file[|file| - 7..] == name[|name| - 4..] + ".gz";
      Success(file)
  }

  /** A name ending in ".xml.gz" is always refused, although the message offers it. */
  lemma CompressedNamesRejected(name: string, gzipCompress: bool)
    requires EndsWith(name, ".xml.gz")
    ensures OutputFileName(name, gzipCompress) == Failure(InvalidFileName(name))
  {
  }

  /** The line a node is written as. */
  function NodeLine(n: NodeData): Line {
    Line(2, NodeElement(n.id, n.x, n.y))
  }

  /** The arguments `add_link` receives for the edge numbered `id`, once its attributes are parsed. */
  predicate EdgeParses(e: EdgeData) {
    ParseMinInt(e.maxspeed).Success? && ParseMinInt(e.lanes).Success?
  }

  function LinkCall(id: int, e: EdgeData): Call
    requires EdgeParses(e)
  {
    AddLink(id, e.from, e.to, e.length, ParseMinInt(e.maxspeed).value, None, ParseMinInt(e.lanes).value)
  }

  /** The edge numbered `id` is written as a link: it parses and passes `add_link`'s checks. */
  predicate EdgeWritable(id: int, e: EdgeData) {
    EdgeParses(e) && ArgumentError(LinkCall(id, e)).None?
  }

  function LinkLine(id: int, e: EdgeData): Line
    requires EdgeParses(e)
  {
    var c := LinkCall(id, e);
    Line(2, LinkElement(id, e.from, e.to, e.length, Units.KmhToMs(OrDefault(c.speed, DanishSpeedLimit) as real),
                        DefaultCapacity, OrDefault(c.lanes, DefaultLanes)))
  }

  /** Every node has a positive id and every edge, numbered from 1, can be written. */
  predicate GraphWritable(g: NetworkGraph) {
    && (forall i | 0 <= i < |g.nodes| :: g.nodes[i].id > 0)
    && (forall i | 0 <= i < |g.edges| :: EdgeWritable(i + 1, g.edges[i]))
  }

  /** The document opening: declaration, doctype and the network element. */
  function Header(name: Option<string>): seq<Line> {
    [Line(0, XmlDeclaration), Line(0, Doctype), Line(0, NetworkStart(NameAttribute(name)))]
  }

  lemma NodeLoopStep(lines: seq<Line>, nodes: seq<NodeData>, i: int)
    requires 0 <= i < |nodes|
    ensures lines + seq(i, j requires 0 <= j < i => NodeLine(nodes[j])) + [NodeLine(nodes[i])]
         == lines + seq(i + 1, j requires 0 <= j < i + 1 => NodeLine(nodes[j]))
  {
    assert seq(i, j requires 0 <= j < i => NodeLine(nodes[j])) + [NodeLine(nodes[i])]
        == seq(i + 1, j requires 0 <= j < i + 1 => NodeLine(nodes[j]));
  }

  /**
   * Writes the nodes, in order, into a writer in the nodes scope. It stops at the
   * first node the writer rejects, which is the first one with an id that is not
   * positive.
   */
  method WriteNodes(writer: Writers.NetworkWriter, nodes: seq<NodeData>) returns (status: Status)
    requires writer.scope == NodesScope && writer.indent == 2
    modifies writer
    ensures status.Done? <==> forall i | 0 <= i < |nodes| :: nodes[i].id > 0
    ensures status.Raised? ==> status.error == AssertionFailed([])
    ensures status.Done? ==> writer.scope == NodesScope && writer.indent == 2
    ensures status.Done? ==> writer.lines == old(writer.lines) + NodeLines(nodes)
  {
    var i := 0;
    status := Done;
    while i < |nodes|
      invariant 0 <= i <= |nodes|
      invariant writer.scope == NodesScope && writer.indent == 2 && status.Done?
      invariant forall j | 0 <= j < i :: nodes[j].id > 0
      invariant writer.lines == old(writer.lines) + seq(i, j requires 0 <= j < i => NodeLine(nodes[j]))
    {
      NodeLoopStep(old(writer.lines), nodes, i);
      status := writer.AddNode(nodes[i].id, nodes[i].x, nodes[i].y);
      if status.Raised? {
        assert nodes[i].id <= 0;
        return;
      }
      i := i + 1;
    }
  }

  lemma LinkLoopStep(lines: seq<Line>, edges: seq<EdgeData>, i: int)
    requires 0 <= i < |edges|
    requires forall j | 0 <= j <= i :: EdgeParses(edges[j])
    ensures lines + seq(i, j requires 0 <= j < i && EdgeParses(edges[j]) => LinkLine(j + 1, edges[j])) + [LinkLine(i + 1, edges[i])]
         == lines + seq(i + 1, j requires 0 <= j < i + 1 && EdgeParses(edges[j]) => LinkLine(j + 1, edges[j]))
  {
    assert seq(i, j requires 0 <= j < i && EdgeParses(edges[j]) => LinkLine(j + 1, edges[j])) + [LinkLine(i + 1, edges[i])]
        == seq(i + 1, j requires 0 <= j < i + 1 && EdgeParses(edges[j]) => LinkLine(j + 1, edges[j]));
  }

  /** Writes one edge as the link numbered `id`: its attributes are parsed first. */
  method WriteLink(writer: Writers.NetworkWriter, id: int, e: EdgeData) returns (r: Option<WriteError>)
    requires writer.scope == LinksScope && writer.indent == 2
    modifies writer
    ensures r.None? <==> EdgeWritable(id, e)
    ensures r.None? ==> writer.scope == LinksScope && writer.indent == 2
    ensures r.None? ==> writer.lines == old(writer.lines) + [LinkLine(id, e)]
  {
    var speed := ParseMinInt(e.maxspeed);
    if speed.Failure? {
      return Some(ParseFailed(speed.error));
    }
    var lanes := ParseMinInt(e.lanes);
    if lanes.Failure? {
      return Some(ParseFailed(lanes.error));
    }
    var status := writer.AddLink(id, e.from, e.to, e.length, speed.value, None, lanes.value);
    if status.Raised? {
      return Some(WriterFailed(status.error));
    }
    return None;
  }

  /** Writes the edges, in order, as links numbered 1, 2, ... into a writer in the links scope. */
  method WriteLinks(writer: Writers.NetworkWriter, edges: seq<EdgeData>) returns (r: Option<WriteError>)
    requires writer.scope == LinksScope && writer.indent == 2
    modifies writer
    ensures r.None? <==> forall i | 0 <= i < |edges| :: EdgeWritable(i + 1, edges[i])
    ensures r.None? ==> writer.scope == LinksScope && writer.indent == 2
    ensures r.None? ==> writer.lines == old(writer.lines) + LinkLines(edges)
  {
    var i := 0;
    while i < |edges|
      invariant 0 <= i <= |edges|
      invariant writer.scope == LinksScope && writer.indent == 2
      invariant forall j | 0 <= j < i :: EdgeWritable(j + 1, edges[j])
      invariant writer.lines == old(writer.lines) + seq(i, j requires 0 <= j < i && EdgeParses(edges[j]) => LinkLine(j + 1, edges[j]))
    {
      r := WriteLink(writer, i + 1, edges[i]);
      if r.Some? {
        return;
      }
      LinkLoopStep(old(writer.lines), edges, i);
      i := i + 1;
    }
    r := None;
  }

  /** The node lines, in graph order. */
  function NodeLines(nodes: seq<NodeData>): seq<Line> {
    seq(|nodes|, j requires 0 <= j < |nodes| => NodeLine(nodes[j]))
  }

  /** The link lines, numbered from 1 in graph order. */
  function LinkLines(edges: seq<EdgeData>): seq<Line>
    requires forall i | 0 <= i < |edges| :: EdgeParses(edges[i])
  {
    seq(|edges|, j requires 0 <= j < |edges| && EdgeParses(edges[j]) => LinkLine(j + 1, edges[j]))
  }

  /** The `<nodes>` block: `start_nodes`, every node, `end_nodes`. */
  method WriteNodesSection(writer: Writers.NetworkWriter, nodes: seq<NodeData>) returns (status: Status)
    requires writer.scope == NetworkScope && writer.indent == 1
    modifies writer
    ensures status.Done? <==> forall i | 0 <= i < |nodes| :: nodes[i].id > 0
    ensures status.Done? ==> writer.scope == NetworkScope && writer.indent == 1
    ensures status.Done? ==> writer.lines == old(writer.lines) + [Line(1, NodesStart)] + NodeLines(nodes) + [Line(1, NodesEnd)]
  {
    status := writer.StartNodes();
    assert status.Done?;
    status := WriteNodes(writer, nodes);
    if status.Raised? {
      return;
    }
    status := writer.EndNodes();
    assert status.Done?;
  }

  /** The `<links>` block: `start_links`, every edge as a link, `end_links`. */
  method WriteLinksSection(writer: Writers.NetworkWriter, edges: seq<EdgeData>) returns (r: Option<WriteError>)
    requires writer.scope == NetworkScope && writer.indent == 1
    modifies writer
    ensures r.None? <==> forall i | 0 <= i < |edges| :: EdgeWritable(i + 1, edges[i])
    ensures r.None? ==> writer.scope == NetworkScope && writer.indent == 1
    ensures r.None? ==> writer.lines == old(writer.lines) + [Line(1, LinksStart)] + LinkLines(edges) + [Line(1, LinksEnd)]
  {
    var status := writer.StartLinks();
    assert status.Done?;
    r := WriteLinks(writer, edges);
    if r.Some? {
      return;
    }
    status := writer.EndLinks();
    assert status.Done?;
  }

  /** The nodes block followed by the links block. */
  function Sections(g: NetworkGraph): seq<Line>
    requires forall i | 0 <= i < |g.edges| :: EdgeParses(g.edges[i])
  {
    ([Line(1, NodesStart)] + NodeLines(g.nodes) + [Line(1, NodesEnd)])
    + ([Line(1, LinksStart)] + LinkLines(g.edges) + [Line(1, LinksEnd)])
  }

  /** Both blocks, nodes first, into a writer inside `<network>`; the links are not started when a node fails. */
  method WriteSections(writer: Writers.NetworkWriter, g: NetworkGraph) returns (r: Option<WriteError>)
    requires writer.scope == NetworkScope && writer.indent == 1
    modifies writer
    ensures r.None? <==> GraphWritable(g)
    ensures r.None? ==> writer.scope == NetworkScope && writer.indent == 1
    ensures r.None? ==> writer.lines == old(writer.lines) + Sections(g)
  {
    var status := WriteNodesSection(writer, g.nodes);
    if status.Raised? {
      return Some(WriterFailed(status.error));
    }
    r := WriteLinksSection(writer, g.edges);
  }

  /**
   * The whole document `write_network` produces for a graph: header, the nodes
   * block, the links block numbered from 1, and the closing tag.
   */
  function Document(name: Option<string>, g: NetworkGraph): seq<Line>
    requires forall i | 0 <= i < |g.edges| :: EdgeParses(g.edges[i])
  {
    Header(name) + Sections(g) + [Line(0, NetworkEnd)]
  }

  /**
   * `write_network`: rejects a bad file name before writing anything, and
   * otherwise succeeds exactly when every node and every link passes the
   * writer's checks, producing `Document` in the output file.
   */
  method WriteNetwork(g: NetworkGraph, name: Option<string>, networkFile: string, gzipCompress: bool)
    returns (r: Result<(string, seq<Line>), WriteError>)
    ensures !ValidFileName(networkFile) ==> r == Failure(InvalidFileName(networkFile))
    ensures r.Success? <==> ValidFileName(networkFile) && GraphWritable(g)
    ensures r.Success? ==> r.value.0 == OutputFileName(networkFile, gzipCompress).value
    ensures r.Success? ==> r.value.1 == Document(name, g)
  {
    var file := OutputFileName(networkFile, gzipCompress);
    if file.Failure? {
      return Failure(file.error);
    }
    var writer := new Writers.NetworkWriter();
    var status := writer.StartNetwork(name);
    assert status.Done? && writer.lines == Header(name);
    var failed := WriteSections(writer, g);
    if failed.Some? {
      return Failure(failed.value);
    }
    status := writer.EndNetwork();
    assert status.Done?;
    return Success((file.value, writer.lines));
  }
}
