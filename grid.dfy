/** The grid parser: pasted text becomes rows of optional numbers, padded on the
    right with empty cells to a common width, and the non-empty cells are listed
    for selection (pick3_analyzer_app.py.py lines 22-30 and 41). */
module Grid {
  import opened Wrappers
  import opened Text
  import opened Decimal

  /** A cell holds the integer its token parsed to, or nothing. */
  type Cell = Option<nat>

  /** A selectable cell: its row, its column and `str` of its value. */
  datatype Choice = Choice(row: nat, col: nat, text: string)

  /** `int(x.strip()) if x.strip().isdigit() else None`. */
  function ParseToken(tok: string): (c: Cell)
    ensures c.Some? <==> |Strip(tok)| > 0 && forall k :: 0 <= k < |Strip(tok)| ==> IsDigit(Strip(tok)[k])
  {
    var t := Strip(tok);
    if IsDigits(t) then Some(Value(t)) else None
  }

  /** A parsed cell renders as its trimmed token without leading zeros. */
  lemma ParseTokenShow(tok: string)
    requires ParseToken(tok).Some?
    ensures Show(ParseToken(tok).value) == StripZeros(Strip(tok))
  {
    ShowValue(Strip(tok));
  }

  /** One row: the parsed comma-separated tokens of a line. */
  function ParseLine(line: string): (row: seq<Cell>)
    ensures |row| == |Split(line, ',')| >= 1
  {
    var toks := Split(line, ',');
    seq(|toks|, k requires 0 <= k < |toks| => ParseToken(toks[k]))
  }

  /** A line of whitespace only is one empty cell before padding. */
  lemma BlankLine(line: string)
    requires AllSpace(line)
    ensures ParseLine(line) == [None]
  {
    forall k | 0 <= k < |line|
      ensures line[k] != ','
    {
      assert IsSpace(line[k]);
    }
    SplitWithoutSeparator(line, ',');
    StripAllSpace(line);
    assert ParseToken(line) == None;
  }

  /** `user_grid_input.strip().split("\n")`. */
  function Lines(text: string): (ls: seq<string>)
    ensures |ls| >= 1
  {
    Split(Strip(text), '\n')
  }

  /** The rows before padding: one per line. */
  function RawGrid(text: string): (rows: seq<seq<Cell>>)
    ensures |rows| >= 1
  {
    var ls := Lines(text);
    seq(|ls|, i requires 0 <= i < |ls| => ParseLine(ls[i]))
  }

  /** The rows of `RawGrid`: one parsed line each. */
  lemma RawGridRows(text: string)
    ensures |RawGrid(text)| == |Lines(text)|
    ensures forall i :: 0 <= i < |Lines(text)| ==> RawGrid(text)[i] == ParseLine(Lines(text)[i])
  {
  }

  lemma PrefixExtend(s: seq<seq<Cell>>, i: nat)
    requires i < |s|
    ensures s[..i + 1] == s[..i] + [s[i]]
  {
  }

  /** The loop that appends one parsed row per line (lines 22-25). */
  method BuildRows(text: string) returns (rows: seq<seq<Cell>>)
    ensures rows == RawGrid(text)
  {
    var lines := Lines(text);
    ghost var spec := RawGrid(text);
    RawGridRows(text);
    rows := [];
    for i := 0 to |lines|
      invariant rows == spec[..i]
    {
      var row := ParseLine(lines[i]);
      PrefixExtend(spec, i);
      rows := rows + [row];
    }
    assert spec[..|lines|] == spec;
  }

  /** `max(len(row) for row in grid_data)`; the source never calls it on an
      empty grid, where Python's `max` would raise. */
  function MaxWidth(rows: seq<seq<Cell>>): (w: nat)
    requires |rows| >= 1
    ensures forall i :: 0 <= i < |rows| ==> |rows[i]| <= w
    ensures exists i :: 0 <= i < |rows| && |rows[i]| == w
  {
    if |rows| == 1 then |rows[0]|
    else
      var w := MaxWidth(rows[1..]);
      assert forall i :: 1 <= i < |rows| ==> rows[i] == rows[1..][i - 1];
      if |rows[0]| > w then |rows[0]| else w
  }

  /** A row padded on the right with empty cells. */
  function PadRow(row: seq<Cell>, width: nat): seq<Cell>
    requires |row| <= width
  {
    row + seq(width - |row|, _ => None)
  }

  predicate Rectangular(grid: seq<seq<Cell>>, width: nat) {
    forall i :: 0 <= i < |grid| ==> |grid[i]| == width
  }

  /** Every row padded to the maximum width: the grid becomes rectangular, each
      row keeps its own cells as a prefix and gains only empty cells. */
  function PadGrid(rows: seq<seq<Cell>>): (grid: seq<seq<Cell>>)
    requires |rows| >= 1
    ensures |grid| == |rows|
    ensures Rectangular(grid, MaxWidth(rows))
    ensures forall i :: 0 <= i < |rows| ==> grid[i][..|rows[i]|] == rows[i]
    ensures forall i, j :: 0 <= i < |rows| && |rows[i]| <= j < |grid[i]| ==> grid[i][j] == None
  {
    var w := MaxWidth(rows);
    seq(|rows|, i requires 0 <= i < |rows| => PadRow(rows[i], w))
  }

  /** Padding keeps the maximum width. */
  lemma PadGridWidth(rows: seq<seq<Cell>>)
    requires |rows| >= 1
    ensures MaxWidth(PadGrid(rows)) == MaxWidth(rows)
  {
    var g := PadGrid(rows);
    var i :| 0 <= i < |g| && |g[i]| == MaxWidth(g);
  }

  /** Padding an already padded grid changes nothing. */
  lemma PadGridIdempotent(rows: seq<seq<Cell>>)
    requires |rows| >= 1
    ensures PadGrid(PadGrid(rows)) == PadGrid(rows)
  {
    var g := PadGrid(rows);
    var w := MaxWidth(rows);
    PadGridWidth(rows);
    var gg := PadGrid(g);
    forall k | 0 <= k < |g|
      ensures gg[k] == g[k]
    {
      assert gg[k] == PadRow(g[k], w);
    }
  }

  /** The in-place padding loop (lines 27-30). */
  method PadRows(rows: seq<seq<Cell>>) returns (grid: seq<seq<Cell>>, maxCols: nat)
    requires |rows| >= 1
    ensures maxCols == MaxWidth(rows)
    ensures grid == PadGrid(rows)
  {
    maxCols := MaxWidth(rows);
    grid := rows;
    for i := 0 to |grid|
      invariant |grid| == |rows|
      invariant forall k :: 0 <= k < i ==> grid[k] == PadRow(rows[k], maxCols)
      invariant forall k :: i <= k < |grid| ==> grid[k] == rows[k]
    {
      while |grid[i]| < maxCols
        invariant |grid| == |rows|
        invariant |rows[i]| <= |grid[i]| <= maxCols
        invariant grid[i] == rows[i] + seq(|grid[i]| - |rows[i]|, _ => None)
        invariant forall k :: 0 <= k < i ==> grid[k] == PadRow(rows[k], maxCols)
        invariant forall k :: i < k < |grid| ==> grid[k] == rows[k]
        decreases maxCols - |grid[i]|
      {
        grid := grid[i := grid[i] + [None]];
      }
    }
  }

  /** The grid the rest of the program works on. */
  function ParsedGrid(text: string): (grid: seq<seq<Cell>>)
    ensures |grid| >= 1
    ensures Rectangular(grid, MaxWidth(RawGrid(text)))
  {
    PadGrid(RawGrid(text))
  }

  /** `a` comes before `b` in row-major order. */
  predicate RowMajorBefore(a: Choice, b: Choice) {
    a.row < b.row || (a.row == b.row && a.col < b.col)
  }

  /** `c` names a non-empty cell of `grid` and carries `str` of its value. */
  predicate Names(grid: seq<seq<Cell>>, c: Choice) {
    && c.row < |grid| && c.col < |grid[c.row]|
    && grid[c.row][c.col].Some?
    && c.text == Show(grid[c.row][c.col].value)
  }

  /** `c` names a non-empty cell of row `i`, whose cells are `row`. */
  predicate InRow(i: nat, row: seq<Cell>, c: Choice) {
    c.row == i && c.col < |row| && row[c.col].Some? && c.text == Show(row[c.col].value)
  }

  /** The selectable cells of one row, left to right. */
  function RowChoices(i: nat, row: seq<Cell>): (r: seq<Choice>)
    ensures forall m :: 0 <= m < |r| ==> InRow(i, row, r[m])
    ensures forall j :: 0 <= j < |row| && row[j].Some? ==> Choice(i, j, Show(row[j].value)) in r
    ensures forall m, n :: 0 <= m < n < |r| ==> r[m].col < r[n].col
  {
    if row == [] then []
    else
      var j := |row| - 1;
      var front := RowChoices(i, row[..j]);
      assert forall k :: 0 <= k < j ==> row[..j][k] == row[k];
      front + (if row[j].Some? then [Choice(i, j, Show(row[j].value))] else [])
  }

  /** `valid_numbers` (line 41): exactly the non-empty cells, each with its
      coordinates and rendered value, in row-major order. */
  function ValidNumbers(grid: seq<seq<Cell>>): (r: seq<Choice>)
    ensures forall m :: 0 <= m < |r| ==> Names(grid, r[m])
    ensures forall i, j :: 0 <= i < |grid| && 0 <= j < |grid[i]| && grid[i][j].Some? ==>
              Choice(i, j, Show(grid[i][j].value)) in r
    ensures forall m, n :: 0 <= m < n < |r| ==> RowMajorBefore(r[m], r[n])
  {
    if grid == [] then []
    else
      var i := |grid| - 1;
      var front := ValidNumbers(grid[..i]);
      assert forall m :: 0 <= m < |front| ==> Names(grid[..i], front[m]);
      front + RowChoices(i, grid[i])
  }
}
