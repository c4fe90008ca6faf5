/**
 * Dashboard bookkeeping (src/matsim_io/dashboards.py): each simulation run's
 * `dashboard-2.yaml` is moved up to the data directory under the next free
 * number, and the dataset paths inside it are pointed back at the run's own
 * output directory. Dashboard 1 is reserved for the comparison dashboard, so the
 * numbering starts at 2.
 */
module Dashboards {
  import opened Wrappers

  /** The text every dataset path starts with. */
  const AnalysisPrefix: string := "analysis/"

  /** Whether `pattern` occurs in `s` starting at position `i`. */
  predicate OccursAt(s: string, pattern: string, i: int) {
    0 <= i && i + |pattern| <= |s| && s[i..i + |pattern|] == pattern
  }

  /** The first position from `from` on where `pattern` occurs, as `str.find` reports it. */
  function FindFrom(s: string, pattern: string, from: nat): (r: Option<nat>)
    requires from <= |s|
    ensures r.Some? ==> from <= r.value && OccursAt(s, pattern, r.value)
    ensures r.Some? ==> forall i | from <= i < r.value :: !OccursAt(s, pattern, i)
    ensures r.None? ==> forall i | from <= i <= |s| :: !OccursAt(s, pattern, i)
    decreases |s| - from
  {
    if OccursAt(s, pattern, from) then Some(from)
    else if from == |s| then None
    else FindFrom(s, pattern, from + 1)
  }

  /**
   * `str.replace(pattern, replacement, 1)` for a non-empty pattern: the first
   * occurrence is replaced, and a string without one is returned unchanged.
   */
  function ReplaceFirst(s: string, pattern: string, replacement: string): (r: string)
    requires pattern != []
    ensures FindFrom(s, pattern, 0).None? ==> r == s
    ensures FindFrom(s, pattern, 0).Some? ==>
      var i := FindFrom(s, pattern, 0).value;
      r == s[..i] + replacement + s[i + |pattern|..]
  {
    var found := FindFrom(s, pattern, 0);
    if found.None? then s else s[..found.value] + replacement + s[found.value + |pattern|..]
  }

  /** The rewritten line: its first dataset path now lies under the run's output directory. */
  function RewriteLine(line: string, outputDir: string): string {
    ReplaceFirst(line, AnalysisPrefix, outputDir + "/" + AnalysisPrefix)
  }

  /**
   * Only the first occurrence moves: the text before it has none, the line grows
   * by the directory name and a slash, and the rest of the line is kept as it was.
   */
  lemma RewriteLineFirstOnly(line: string, outputDir: string)
    ensures FindFrom(line, AnalysisPrefix, 0).None? ==> RewriteLine(line, outputDir) == line
    ensures FindFrom(line, AnalysisPrefix, 0).Some? ==>
      var i := FindFrom(line, AnalysisPrefix, 0).value;
      && |RewriteLine(line, outputDir)| == |line| + |outputDir| + 1
      && RewriteLine(line, outputDir)[..i] == line[..i]
      && (forall j | 0 <= j < i :: !OccursAt(line, AnalysisPrefix, j))
      && RewriteLine(line, outputDir)[i..i + |outputDir| + 1 + |AnalysisPrefix|] == outputDir + "/" + AnalysisPrefix
      && RewriteLine(line, outputDir)[i + |outputDir| + 1 + |AnalysisPrefix|..] == line[i + |AnalysisPrefix|..]
  {
    if FindFrom(line, AnalysisPrefix, 0).Some? {
      var i := FindFrom(line, AnalysisPrefix, 0).value;
      var r := RewriteLine(line, outputDir);
      assert r == line[..i] + (outputDir + "/" + AnalysisPrefix) + line[i + |AnalysisPrefix|..];
    }
  }

  /** `"".join(...)`: the lines put back together. */
  function Join(lines: seq<string>): string {
    if lines == [] then [] else Join(lines[..|lines| - 1]) + lines[|lines| - 1]
  }

  /**
   * `_rewrite_dashboard_dataset_paths` on a file given as its lines, each with
   * its line end: every line is rewritten on its own and the file is joined again.
   */
  function RewriteDatasetPaths(lines: seq<string>, outputDir: string): (r: seq<string>)
    ensures |r| == |lines|
    ensures forall i | 0 <= i < |lines| :: r[i] == RewriteLine(lines[i], outputDir)
  {
    seq(|lines|, i requires 0 <= i < |lines| => RewriteLine(lines[i], outputDir))
  }

  /** The number of lines that carry a dataset path. */
  function LinesWithPath(lines: seq<string>): nat {
    if lines == [] then 0
    else LinesWithPath(lines[..|lines| - 1]) + (if FindFrom(lines[|lines| - 1], AnalysisPrefix, 0).Some? then 1 else 0)
  }

  /**
   * The rewritten file is longer by the directory name and a slash for each line
   * with a dataset path, and by nothing else.
   */
  lemma {:induction false} RewrittenLength(lines: seq<string>, outputDir: string)
    ensures |Join(RewriteDatasetPaths(lines, outputDir))| == |Join(lines)| + LinesWithPath(lines) * (|outputDir| + 1)
  {
    if lines != [] {
      var init := lines[..|lines| - 1];
      var last := lines[|lines| - 1];
      var k := |outputDir| + 1;
      var r := RewriteDatasetPaths(lines, outputDir);
      RewrittenLength(init, outputDir);
      RewriteLineFirstOnly(last, outputDir);
      assert r[..|r| - 1] == RewriteDatasetPaths(init, outputDir);
      assert |Join(r)| == |Join(RewriteDatasetPaths(init, outputDir))| + |RewriteLine(last, outputDir)|;
      var extra := if FindFrom(last, AnalysisPrefix, 0).Some? then 1 else 0;
      assert |RewriteLine(last, outputDir)| == |last| + extra * k;
      assert LinesWithPath(lines) == LinesWithPath(init) + extra;
      assert |Join(lines)| == |Join(init)| + |last|;
      Distribute(LinesWithPath(init), extra, k);
    }
  }

  lemma Distribute(a: int, e: int, k: int)
    ensures (a + e) * k == a * k + e * k
  {
  }

  /** A file without dataset paths is written back unchanged. */
  lemma {:induction false} NoPathsUnchanged(lines: seq<string>, outputDir: string)
    requires forall i | 0 <= i < |lines| :: FindFrom(lines[i], AnalysisPrefix, 0).None?
    ensures RewriteDatasetPaths(lines, outputDir) == lines
  {
    forall i | 0 <= i < |lines|
      ensures RewriteDatasetPaths(lines, outputDir)[i] == lines[i]
    {
      RewriteLineFirstOnly(lines[i], outputDir);
    }
  }

  /** The decimal digit of `d`. */
  function Digit(d: nat): char
    requires d < 10
  {
    ['0', '1', '2', '3', '4', '5', '6', '7', '8', '9'][d]
  }

  /** Python's `str()` of a non-negative integer. */
  function NatToString(n: nat): (s: string)
    ensures |s| > 0
  {
    if n < 10 then [Digit(n)] else NatToString(n / 10) + [Digit(n % 10)]
  }

  function DigitValue(c: char): int {
    if '0' <= c <= '9' then c as int - '0' as int else -1
  }

  /** Reads a string of decimal digits back as a number. */
  function ParseNat(s: string): int {
    if s == [] then 0 else ParseNat(s[..|s| - 1]) * 10 + DigitValue(s[|s| - 1])
  }

  /** Writing a number in decimal and reading it back gives the number. */
  lemma {:induction false} ParseNatToString(n: nat)
    ensures ParseNat(NatToString(n)) == n
  {
    var s := NatToString(n);
    if n < 10 {
      assert s[..0] == [];
    } else {
      ParseNatToString(n / 10);
      assert s[..|s| - 1] == NatToString(n / 10);
    }
  }

  /** Different numbers give different file names. */
  lemma DashboardNamesDistinct(a: nat, b: nat)
    requires a != b
    ensures DashboardFile(a) != DashboardFile(b)
  {
    ParseNatToString(a);
    ParseNatToString(b);
    var sa := NatToString(a);
    var sb := NatToString(b);
    assert sa == DashboardFile(a)[10..10 + |sa|];
    assert sb == DashboardFile(b)[10..10 + |sb|];
    assert |DashboardFile(a)| == |sa| + 15 && |DashboardFile(b)| == |sb| + 15;
    assert sa != sb;
  }

  /** The destination name of the dashboard moved with number `n`. */
  function DashboardFile(n: nat): string {
    "dashboard-" + NatToString(n) + ".yaml"
  }

  /** What a successful move did: the file it wrote, the directory it rewrote paths to, and the title it set. */
  datatype Moved = Moved(destination: string, outputDir: string, title: Option<string>)

  /**
   * The module-level `dashboard_count`, as the one object that holds it. The
   * checks for the run's directory and its dashboard are parameters.
   */
  class DashboardCounter {
    var dashboardCount: nat

    /** Dashboard 1 is the comparison dashboard: runs start at 2. */
    constructor ()
      ensures dashboardCount == 2
    {
      dashboardCount := 2;
    }

    /**
     * `move_dashboard`: when the run's directory or its dashboard is missing,
     * nothing happens. Otherwise the dashboard is moved to the file of the
     * current number, the counter goes up by exactly one, the paths are
     * rewritten, and the title is set when a non-empty one is given.
     */
    method MoveDashboard(outputDir: string, title: Option<string>, directoryExists: bool, dashboardExists: bool)
      returns (moved: Option<Moved>)
      modifies this
      ensures !directoryExists || !dashboardExists ==> moved == None && dashboardCount == old(dashboardCount)
      ensures directoryExists && dashboardExists ==>
        && dashboardCount == old(dashboardCount) + 1
        && moved == Some(Moved(DashboardFile(old(dashboardCount)), outputDir,
                               if title.Some? && title.value != [] then title else None))
    {
      if !directoryExists {
        return None;
      }
      if !dashboardExists {
        return None;
      }
      var destination := DashboardFile(dashboardCount);
      dashboardCount := dashboardCount + 1;
      var newTitle := None;
      if title.Some? && title.value != [] {
        newTitle := title;
      }
      return Some(Moved(destination, outputDir, newTitle));
    }
  }

  /** Number 2 is the first dashboard a run gets. */
  lemma FirstRunDashboard()
    ensures DashboardFile(2) == "dashboard-2.yaml"
  {
  }
}
