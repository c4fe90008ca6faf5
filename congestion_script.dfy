/**
 * `append_breakpoints_to_congestion_map` (src/matsim_io/scripts.py): a pass over
 * the lines of a dashboard file that adds a `breakpoints` line to every
 * `- type: xytime` item, just before the first later line that starts the next
 * key of the enclosing list item (two spaces of indentation, not four), or at the
 * end of the file when no such line follows.
 *
 * `InBlock` is the pass's flag and `Inside` says declaratively when the pass is
 * inside such an item; the two are proved to agree. `Woven` is the output, and
 * the method's loop is proved to build it.
 */
module CongestionScript {

  /** The line inserted into each congestion-map item. */
  const BreakpointsLine: string := "    breakpoints: [0.1,0.2,0.3,0.4,0.5,0.6,0.7,0.8,0.9]\n"

  /** The white space `str.strip` removes, restricted to ASCII: space, tab to carriage return, and the separators 28 to 31. */
  predicate IsSpace(c: char) {
    c == ' ' || 9 <= c as int <= 13 || 28 <= c as int <= 31
  }

  function TrimStart(s: string): string {
    if s != [] && IsSpace(s[0]) then TrimStart(s[1..]) else s
  }

  function TrimEnd(s: string): string {
    if s != [] && IsSpace(s[|s| - 1]) then TrimEnd(s[..|s| - 1]) else s
  }

  /** `TrimStart` removes exactly the leading white space: what is left is a suffix that starts with something else. */
  lemma {:induction false} TrimStartRemovesLeadingSpace(s: string)
    ensures var r := TrimStart(s);
      && |r| <= |s| && r == s[|s| - |r|..]
      && (r == [] || !IsSpace(r[0]))
      && forall i | 0 <= i < |s| - |r| :: IsSpace(s[i])
  {
    if s != [] && IsSpace(s[0]) {
      TrimStartRemovesLeadingSpace(s[1..]);
    }
  }

  /** `TrimEnd` removes exactly the trailing white space: what is left is a prefix that ends with something else. */
  lemma {:induction false} TrimEndRemovesTrailingSpace(s: string)
    ensures var r := TrimEnd(s);
      && |r| <= |s| && r == s[..|r|]
      && (r == [] || !IsSpace(r[|r| - 1]))
      && forall i | |r| <= i < |s| :: IsSpace(s[i])
  {
    if s != [] && IsSpace(s[|s| - 1]) {
      TrimEndRemovesTrailingSpace(s[..|s| - 1]);
    }
  }

  /** `str.strip()`: the line without its leading and trailing white space. */
  function Strip(s: string): string {
    TrimEnd(TrimStart(s))
  }

  predicate StartsWith(s: string, prefix: string) {
    |prefix| <= |s| && s[..|prefix|] == prefix
  }

  /** A `- type: xytime` line, whatever its indentation and line end. */
  predicate IsMarker(line: string) {
    Strip(line) == "- type: xytime"
  }

  /** How the pass sees a line: a marker, a line that closes an item, or any other line. */
  datatype Kind = Marker | Closing | Plain

  /** The marker test runs first, so a marker indented by two spaces is a marker. */
  function Classify(line: string): Kind {
    if IsMarker(line) then Marker
    else if StartsWith(line, "  ") && !StartsWith(line, "    ") then Closing
    else Plain
  }

  /**
   * Before line `i` the pass is inside a congestion-map item: some earlier line
   * is a marker and no line after it and before `i` closes an item.
   */
  predicate Inside(kinds: seq<Kind>, i: int)
    requires 0 <= i <= |kinds|
  {
    exists j | 0 <= j < i :: kinds[j] == Marker && forall k | j < k < i :: kinds[k] != Closing
  }

  /** The flag before line `i`: set by a marker, cleared by a closing line met while set. */
  function InBlock(kinds: seq<Kind>, i: nat): bool
    requires i <= |kinds|
  {
    if i == 0 then false
    else if kinds[i - 1] == Marker then true
    else if InBlock(kinds, i - 1) && kinds[i - 1] == Closing then false
    else InBlock(kinds, i - 1)
  }

  /** A breakpoints line goes right before line `i`. */
  predicate InsertsBefore(kinds: seq<Kind>, i: nat)
    requires i < |kinds|
  {
    InBlock(kinds, i) && kinds[i] == Closing
  }

  /** The output for the first `m` lines: each line, preceded by a breakpoints line where one is inserted. */
  function WovenPrefix(lines: seq<string>, kinds: seq<Kind>, m: nat): seq<string>
    requires |kinds| == |lines| && m <= |lines|
  {
    if m == 0 then []
    else WovenPrefix(lines, kinds, m - 1) + (if InsertsBefore(kinds, m - 1) then [BreakpointsLine, lines[m - 1]] else [lines[m - 1]])
  }

  function Kinds(lines: seq<string>): (kinds: seq<Kind>)
    ensures |kinds| == |lines|
    ensures forall i | 0 <= i < |lines| :: kinds[i] == Classify(lines[i])
  {
    seq(|lines|, i requires 0 <= i < |lines| => Classify(lines[i]))
  }

  /** The whole output: a breakpoints line is also added at the end when the input ends inside an item. */
  function Woven(lines: seq<string>): seq<string> {
    var kinds := Kinds(lines);
    WovenPrefix(lines, kinds, |lines|) + (if InBlock(kinds, |lines|) then [BreakpointsLine] else [])
  }

  lemma InsideStep(kinds: seq<Kind>, i: int)
    requires 0 <= i < |kinds|
    ensures Inside(kinds, i + 1) <==> kinds[i] == Marker || (Inside(kinds, i) && kinds[i] != Closing)
  {
    if Inside(kinds, i + 1) && kinds[i] != Marker {
      var j :| 0 <= j < i + 1 && kinds[j] == Marker && forall k | j < k < i + 1 :: kinds[k] != Closing;
      assert j < i;
      assert Inside(kinds, i);
    }
    if Inside(kinds, i) && kinds[i] != Closing {
      var j :| 0 <= j < i && kinds[j] == Marker && forall k | j < k < i :: kinds[k] != Closing;
      assert forall k | j < k < i + 1 :: kinds[k] != Closing;
    }
  }

  /** The flag means what it is for: the pass is inside an item that has not been closed yet. */
  lemma {:induction false} InBlockIsInside(kinds: seq<Kind>, i: nat)
    requires i <= |kinds|
    ensures InBlock(kinds, i) <==> Inside(kinds, i)
  {
    if i > 0 {
      InBlockIsInside(kinds, i - 1);
      InsideStep(kinds, i - 1);
    }
  }

  /**
   * The pass over the lines: append each line; a marker sets the flag, and a
   * closing line met while the flag is set gets a breakpoints line inserted just
   * before it and clears the flag.
   */
  method AppendBreakpoints(lines: seq<string>) returns (updated: seq<string>)
    ensures updated == Woven(lines)
  {
    ghost var kinds := Kinds(lines);
    updated := [];
    var insideBlock := false;
    var i := 0;
    while i < |lines|
      invariant 0 <= i <= |lines|
      invariant insideBlock == InBlock(kinds, i)
      invariant updated == WovenPrefix(lines, kinds, i)
    {
      var line := lines[i];
      var kind := Classify(line);
      updated := updated + [line];
      if kind == Marker {
        insideBlock := true;
      } else if insideBlock && kind == Closing {
        updated := updated[..|updated| - 1] + [BreakpointsLine] + [line];
        insideBlock := false;
      }
      i := i + 1;
    }
    if insideBlock {
      updated := updated + [BreakpointsLine];
    }
  }

  /** The number of breakpoints lines inserted before the first `m` lines. */
  function Insertions(kinds: seq<Kind>, m: nat): nat
    requires m <= |kinds|
  {
    if m == 0 then 0 else Insertions(kinds, m - 1) + (if InsertsBefore(kinds, m - 1) then 1 else 0)
  }

  lemma {:induction false} InsertionsMonotone(kinds: seq<Kind>, a: nat, b: nat)
    requires a <= b <= |kinds|
    ensures Insertions(kinds, a) <= Insertions(kinds, b) <= Insertions(kinds, a) + (b - a)
    decreases b - a
  {
    if a < b {
      InsertionsMonotone(kinds, a, b - 1);
    }
  }

  /**
   * Nothing is lost, reordered or changed: input line `i` sits at position `i`
   * plus the insertions up to and including it, every inserted line is the
   * breakpoints line, and the output is one line longer per insertion.
   */
  lemma {:induction false} WovenPrefixLayout(lines: seq<string>, kinds: seq<Kind>, m: nat)
    requires |kinds| == |lines| && m <= |lines|
    ensures |WovenPrefix(lines, kinds, m)| == m + Insertions(kinds, m)
    ensures forall i | 0 <= i <= m :: Insertions(kinds, i) <= Insertions(kinds, m)
    ensures forall i | 0 <= i < m :: WovenPrefix(lines, kinds, m)[i + Insertions(kinds, i + 1)] == lines[i]
    ensures forall i | 0 <= i < m && InsertsBefore(kinds, i) :: WovenPrefix(lines, kinds, m)[i + Insertions(kinds, i)] == BreakpointsLine
  {
    forall i | 0 <= i <= m
      ensures Insertions(kinds, i) <= Insertions(kinds, m)
    {
      InsertionsMonotone(kinds, i, m);
    }
    if m > 0 {
      WovenPrefixLayout(lines, kinds, m - 1);
      var prev := WovenPrefix(lines, kinds, m - 1);
      var w := WovenPrefix(lines, kinds, m);
      assert w[..|prev|] == prev;
    }
  }

  /** The output's length is the input's plus one per insertion, counting the one at the end. */
  lemma WovenLength(lines: seq<string>)
    ensures |Woven(lines)| == |lines| + Insertions(Kinds(lines), |lines|) + (if InBlock(Kinds(lines), |lines|) then 1 else 0)
  {
    WovenPrefixLayout(lines, Kinds(lines), |lines|);
  }

  /** A marker line never gets a breakpoints line in front of it, even one indented by two spaces. */
  lemma MarkerNeverTriggers(lines: seq<string>, i: int)
    requires 0 <= i < |lines| && IsMarker(lines[i])
    ensures !InsertsBefore(Kinds(lines), i)
  {
  }

  /**
   * At most one insertion per item: between two insertions there is a marker
   * that opened the second item.
   */
  lemma OneInsertionPerMarker(kinds: seq<Kind>, i: int, j: int)
    requires 0 <= i < j < |kinds|
    requires InsertsBefore(kinds, i) && InsertsBefore(kinds, j)
    ensures exists k | i < k < j :: kinds[k] == Marker
  {
    InBlockIsInside(kinds, j);
    InBlockIsInside(kinds, i);
    var k :| 0 <= k < j && kinds[k] == Marker && forall l | k < l < j :: kinds[l] != Closing;
    assert k != i;
    assert i < k;
  }

  /** A marker, a nested key and the next item's key: the breakpoints line goes before the latter. */
  lemma ClosedItem()
    ensures WovenPrefix(["a", "b", "c"], [Marker, Plain, Closing], 3) == ["a", "b", BreakpointsLine, "c"]
  {
    var kinds := [Marker, Plain, Closing];
    assert InBlock(kinds, 2);
  }
}
