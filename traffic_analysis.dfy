/**
 * Table helpers of TrafficAnalysisDisaster (under
 * simulator/src/main/java/org/disaster/routing/analysis/): `normalizeColumns`
 * renames each column "f[x]" to "x" in place, `transposeTable` turns rows into
 * columns under a header column of the original names, and the congestion
 * filter keeps, per slice of rows, the smallest value capped at 1.
 *
 * A table is its columns, each a name and its cells as text; a congestion row
 * holds its doubles as reals.
 */
module TrafficAnalysis {
  import opened Wrappers

  /** `String.indexOf`: the first position of `c` in `s`, or -1. */
  function IndexOf(s: string, c: char): (i: int)
    ensures -1 <= i < |s|
    ensures i == -1 <==> c !in s
    ensures i >= 0 ==> s[i] == c && c !in s[..i]
  {
    if s == [] then -1
    else if s[0] == c then 0
    else
      var rest := IndexOf(s[1..], c);
      assert rest >= 0 ==> s[..rest + 1] == [s[0]] + s[1..][..rest];
      if rest == -1 then -1 else rest + 1
  }

  /** `substring(start + 1, end)` throws when the first ']' comes before the first '['. */
  predicate RenameThrows(name: string) {
    var start := IndexOf(name, '[');
    var end := IndexOf(name, ']');
    start > -1 && end > -1 && end < start + 1
  }

  /**
   * The new name of a column: the text strictly between the first '[' and the
   * first ']' when the name has both, and the name itself otherwise.
   */
  function Normalized(name: string): (r: string)
    requires !RenameThrows(name)
    ensures '[' !in name || ']' !in name ==> r == name
    ensures '[' in name && ']' in name ==> |r| < |name| && ']' !in r
  {
    var start := IndexOf(name, '[');
    var end := IndexOf(name, ']');
    if start > -1 && end > -1 then name[start + 1..end] else name
  }

  /** A name with both brackets is renamed to the text between them and throws in no other case than ']' before '['. */
  lemma NormalizedBetweenBrackets(name: string, start: int, end: int)
    requires 0 <= start < end < |name| && name[start] == '[' && name[end] == ']'
    requires '[' !in name[..start] && ']' !in name[..end]
    ensures !RenameThrows(name) && Normalized(name) == name[start + 1..end]
  {
    FirstIndex(name, '[', start);
    FirstIndex(name, ']', end);
  }

  lemma FirstIndex(s: string, c: char, i: int)
    requires 0 <= i < |s| && s[i] == c && c !in s[..i]
    ensures IndexOf(s, c) == i
  {
    var j := IndexOf(s, c);
    assert forall m | 0 <= m < i :: s[m] == s[..i][m];
    assert forall m | 0 <= m < j :: s[m] == s[..j][m];
  }

  /** ']' before the first '[' makes the rename throw. */
  lemma ClosingFirstThrows(name: string, end: int)
    requires 0 <= end < |name| && name[end] == ']' && '[' !in name[..end + 1] && '[' in name
    ensures RenameThrows(name)
  {
    var start := IndexOf(name, '[');
    assert forall m | 0 <= m <= end :: name[m] == name[..end + 1][m];
  }

  /** Renaming twice renames nothing more: a new name has no ']' left. */
  lemma NormalizedIdempotent(name: string)
    requires !RenameThrows(name)
    ensures !RenameThrows(Normalized(name))
    ensures Normalized(Normalized(name)) == Normalized(name)
  {
  }

  /**
   * `normalizeColumns`: renames the columns one by one, in place. A name whose
   * ']' precedes its '[' makes `substring` throw: the columns before it keep
   * their new names, it and the later ones keep their old ones, and its
   * position is returned.
   */
  method NormalizeColumns(names: array<string>) returns (thrownAt: Option<nat>)
    modifies names
    ensures thrownAt.None? ==> forall k | 0 <= k < names.Length :: !RenameThrows(old(names[k]))
    ensures thrownAt.None? ==> forall k | 0 <= k < names.Length :: names[k] == Normalized(old(names[k]))
    ensures thrownAt.Some? ==>
      && thrownAt.value < names.Length
      && RenameThrows(old(names[thrownAt.value]))
      && (forall k | 0 <= k < thrownAt.value :: !RenameThrows(old(names[k])) && names[k] == Normalized(old(names[k])))
      && (forall k | thrownAt.value <= k < names.Length :: names[k] == old(names[k]))
  {
    var i := 0;
    while i < names.Length
      invariant 0 <= i <= names.Length
      invariant forall k | 0 <= k < i :: !RenameThrows(old(names[k])) && names[k] == Normalized(old(names[k]))
      invariant forall k | i <= k < names.Length :: names[k] == old(names[k])
    {
      var name := names[i];
      var start := IndexOf(name, '[');
      var end := IndexOf(name, ']');
      if start > -1 && end > -1 {
        if end < start + 1 {
          return Some(i);
        }
        names[i] := name[start + 1..end];
      }
      i := i + 1;
    }
    return None;
  }

  /** A column of a table: its name and its cells as text, row by row. */
  datatype Column = Column(name: string, values: seq<string>)

  /** Every column of the table has `rowCount` cells. */
  predicate Rectangular(table: seq<Column>, rowCount: nat) {
    forall j | 0 <= j < |table| :: |table[j].values| == rowCount
  }

  function Names(table: seq<Column>): (names: seq<string>)
    ensures |names| == |table|
    ensures forall j | 0 <= j < |table| :: names[j] == table[j].name
  {
    seq(|table|, j requires 0 <= j < |table| => table[j].name)
  }

  /** Row `i` of the table: the cell of each column, in column order. */
  function Row(table: seq<Column>, i: nat): (row: seq<string>)
    requires forall j | 0 <= j < |table| :: i < |table[j].values|
    ensures |row| == |table|
    ensures forall j | 0 <= j < |table| :: row[j] == table[j].values[i]
  {
    seq(|table|, j requires 0 <= j < |table| => table[j].values[i])
  }

  /** The transposed table: the header column of names, then one column per row of the original. */
  function Transposed(table: seq<Column>, rowCount: nat): (t: seq<Column>)
    requires Rectangular(table, rowCount)
    ensures |t| == rowCount + 1
    ensures t[0] == Column("Information", Names(table))
    ensures forall i | 0 <= i < rowCount :: t[i + 1] == Column("Value ", Row(table, i))
  {
    [Column("Information", Names(table))] + seq(rowCount, i requires 0 <= i < rowCount => Column("Value ", Row(table, i)))
  }

  /**
   * `transposeTable`: the header column "Information" lists the column names;
   * then, row by row, a column "Value " of that row's cells, read column by
   * column.
   */
  method TransposeTable(original: seq<Column>, rowCount: nat) returns (transposed: seq<Column>)
    requires Rectangular(original, rowCount)
    ensures transposed == Transposed(original, rowCount)
  {
    transposed := [Column("Information", Names(original))];
    var i := 0;
    while i < rowCount
      invariant 0 <= i <= rowCount
      invariant |transposed| == i + 1
      invariant transposed[0] == Column("Information", Names(original))
      invariant forall r | 0 <= r < i :: transposed[r + 1] == Column("Value ", Row(original, r))
    {
      var values: seq<string> := [];
      var j := 0;
      while j < |original|
        invariant 0 <= j <= |original|
        invariant |values| == j
        invariant forall c | 0 <= c < j :: values[c] == original[c].values[i]
      {
        values := values + [original[j].values[i]];
        j := j + 1;
      }
      transposed := transposed + [Column("Value ", values)];
      i := i + 1;
    }
  }

  /**
   * Transposing is reversible: the transposed table is rectangular with one
   * cell per original column, and transposing it again gives back each original
   * column as a row, headed by its name.
   */
  lemma TransposeTwice(table: seq<Column>, rowCount: nat)
    requires Rectangular(table, rowCount)
    ensures Rectangular(Transposed(table, rowCount), |table|)
    ensures var back := Transposed(Transposed(table, rowCount), |table|);
      forall j | 0 <= j < |table| :: back[j + 1].values == [table[j].name] + table[j].values
  {
    var t := Transposed(table, rowCount);
    assert Rectangular(t, |table|) by {
      forall c | 0 <= c < |t|
        ensures |t[c].values| == |table|
      {
        if c > 0 {
          assert t[(c - 1) + 1] == Column("Value ", Row(table, c - 1));
        }
      }
    }
    var back := Transposed(t, |table|);
    forall j | 0 <= j < |table|
      ensures back[j + 1].values == [table[j].name] + table[j].values
    {
      var row := Row(t, j);
      assert back[j + 1].values == row;
      forall c | 0 <= c < |row|
        ensures row[c] == ([table[j].name] + table[j].values)[c]
      {
        if c > 0 {
          assert t[(c - 1) + 1] == Column("Value ", Row(table, c - 1));
        }
      }
    }
  }

  /** A congestion row: time, coordinates and index value. */
  datatype CongestionRow = CongestionRow(time: real, x: real, y: real, value: real)

  /** The smallest value of the rows, starting from 1. */
  function MinFromOne(rows: seq<CongestionRow>): real {
    if rows == [] then 1.0
    else
      var m := MinFromOne(rows[..|rows| - 1]);
      if rows[|rows| - 1].value < m then rows[|rows| - 1].value else m
  }

  /**
   * The slice's row of the filtered table: time and coordinates of its last row
   * (all 0 for an empty slice) and the capped minimum value.
   */
  function SliceSummary(rows: seq<CongestionRow>): CongestionRow {
    if rows == [] then CongestionRow(0.0, 0.0, 0.0, MinFromOne(rows))
    else
      var last := rows[|rows| - 1];
      CongestionRow(last.time, last.x, last.y, MinFromOne(rows))
  }

  /** The slice loop: each row overwrites time and coordinates and lowers the minimum when its value is smaller. */
  method SummarizeSlice(slice: seq<CongestionRow>) returns (filtered: CongestionRow)
    ensures filtered == SliceSummary(slice)
  {
    var minValue := 1.0;
    var time, x, y := 0.0, 0.0, 0.0;
    var i := 0;
    while i < |slice|
      invariant 0 <= i <= |slice|
      invariant minValue == MinFromOne(slice[..i])
      invariant i == 0 ==> time == 0.0 && x == 0.0 && y == 0.0
      invariant i > 0 ==> time == slice[i - 1].time && x == slice[i - 1].x && y == slice[i - 1].y
    {
      var row := slice[i];
      time := row.time;
      x := row.x;
      y := row.y;
      var value := row.value;
      assert slice[..i + 1][..i] == slice[..i];
      if value < minValue {
        minValue := value;
      }
      i := i + 1;
    }
    assert slice[..i] == slice;
    filtered := CongestionRow(time, x, y, minValue);
  }

  /** The congestion filter: one summary row per slice, in slice order. */
  method FilterCongestion(slices: seq<seq<CongestionRow>>) returns (filtered: seq<CongestionRow>)
    ensures |filtered| == |slices|
    ensures forall k | 0 <= k < |slices| :: filtered[k] == SliceSummary(slices[k])
  {
    filtered := [];
    var k := 0;
    while k < |slices|
      invariant 0 <= k <= |slices|
      invariant |filtered| == k
      invariant forall s | 0 <= s < k :: filtered[s] == SliceSummary(slices[s])
    {
      var row := SummarizeSlice(slices[k]);
      filtered := filtered + [row];
      k := k + 1;
    }
  }

  /**
   * The kept value is min(1, smallest value of the slice): it is at most 1 and
   * at most every value, and it is 1 or one of the values.
   */
  lemma {:induction false} MinFromOneIsCappedMinimum(rows: seq<CongestionRow>)
    ensures MinFromOne(rows) <= 1.0
    ensures forall k | 0 <= k < |rows| :: MinFromOne(rows) <= rows[k].value
    ensures MinFromOne(rows) == 1.0 || exists k | 0 <= k < |rows| :: MinFromOne(rows) == rows[k].value
  {
    if rows != [] {
      var init := rows[..|rows| - 1];
      MinFromOneIsCappedMinimum(init);
      assert forall k | 0 <= k < |init| :: init[k] == rows[k];
      if MinFromOne(rows) != 1.0 && MinFromOne(rows) == MinFromOne(init) {
        var k :| 0 <= k < |init| && MinFromOne(init) == init[k].value;
        assert MinFromOne(rows) == rows[k].value;
      }
    }
  }

  /** A slice whose values are all at least 1 is kept at exactly 1. */
  lemma CappedAtOne(rows: seq<CongestionRow>)
    requires forall k | 0 <= k < |rows| :: rows[k].value >= 1.0
    ensures MinFromOne(rows) == 1.0
  {
    MinFromOneIsCappedMinimum(rows);
  }
}
