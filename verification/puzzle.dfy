/** The puzzle of src/puzzle/puzzle.cpp: one clue sequence per row and per
    column over a grid of cells, with the solved checks exactly as the code
    has them (see README for the quirks this keeps), and the corrected checks
    of the LineCheck module beside them. */
module PuzzleModel {
  import opened Basics
  import opened Grids
  import LineCheck

  /** Outcome of a solved check. `OutOfRange` stands for a read of
      `Grid::at(a, b)` outside the grid, which the source performs without a
      guard; the grid class itself is not part of this model. */
  datatype Verdict = Pass | Fail | OutOfRange

  /** The cells `is_row_solved(row)` can read: it reads `at(row, i)`, that is
      column `row`, and such a read is inside the grid only when
      `row < width` and `i < height`. */
  function ReadView(g: Grid, row: nat): (view: seq<Cell>)
    requires WellFormed(g)
  {
    if row < g.width then ColumnOf(g, row) else []
  }

  // ---------------------------------------------------------------------
  // `is_row_solved` as written, over the cells it reads (`view`; index k is
  // the read `at(row, k)`, and k >= |view| is a read outside the grid) and
  // the line length it assumes (`width`).

  /** The zero-clue branch: cells 0 .. width-1 must not be filled. */
  function EmptyScan(view: seq<Cell>, width: nat, i: nat): Verdict
    decreases width - i
  {
    if i >= width then Pass
    else if i >= |view| then OutOfRange
    else if view[i].state == Filled then Fail
    else EmptyScan(view, width, i + 1)
  }

  /** The skip loop: the first filled position at or after `pos` (or `width`);
      None when a read on the way is outside the grid. */
  function SkipUnfilled(view: seq<Cell>, width: nat, pos: nat): Option<nat>
    decreases width - pos
  {
    if pos >= width then Some(pos)
    else if pos >= |view| then None
    else if view[pos].state == Filled then Some(pos)
    else SkipUnfilled(view, width, pos + 1)
  }

  /** The inner loop for one clue, from offset `i`: cells pos+i .. must be
      filled with the clue's colour; the guard is `pos + i > width`. */
  function RunScan(view: seq<Cell>, width: nat, pos: nat, clue: Clue, i: nat): Verdict
    decreases clue.value - i
  {
    if i >= clue.value then Pass
    else if pos + i > width then Fail
    else if pos + i >= |view| then OutOfRange
    else if view[pos + i].state != Filled || clue.color != view[pos + i].color then Fail
    else RunScan(view, width, pos, clue, i + 1)
  }

  /** The loop over the clues. The position reached by the skip loop is
      kept as it is for the next clue: it is never moved past a run. */
  function ClueScan(view: seq<Cell>, width: nat, pos: nat, clues: seq<Clue>): Verdict
    decreases |clues|
  {
    if clues == [] then Pass
    else match SkipUnfilled(view, width, pos)
      case None => OutOfRange
      case Some(p) =>
        var v := RunScan(view, width, p, clues[0], 0);
        if v != Pass then v else ClueScan(view, width, p, clues[1..])
  }

  function RowVerdict(view: seq<Cell>, width: nat, clues: seq<Clue>): Verdict {
    if IsZeroClue(clues) then EmptyScan(view, width, 0) else ClueScan(view, width, 0, clues)
  }

  /** What `is_row_solved(row)` returns for grid `g` and that row's clues. */
  function RowCheck(g: Grid, clues: seq<Clue>, row: nat): Verdict
    requires WellFormed(g)
  {
    RowVerdict(ReadView(g, row), g.width, clues)
  }

  // ---------------------------------------------------------------------
  // What the row check decides.

  lemma {:induction false} EmptyScanMeans(view: seq<Cell>, width: nat, i: nat)
    requires i <= width
    ensures EmptyScan(view, width, i) == Pass <==>
      (i < width ==> width <= |view|) && forall k :: i <= k < width ==> view[k].state != Filled
    ensures EmptyScan(view, width, i) == Fail <==>
      exists k :: i <= k < width && k < |view| && view[k].state == Filled
    decreases width - i
  {
    if i < width && i < |view| {
      if view[i].state == Filled {
        assert i <= i < width && i < |view| && view[i].state == Filled;
      } else {
        EmptyScanMeans(view, width, i + 1);
        if exists k :: i <= k < width && k < |view| && view[k].state == Filled {
          var k :| i <= k < width && k < |view| && view[k].state == Filled;
          assert i + 1 <= k;
        }
      }
    }
  }

  /** With a lone zero clue the row passes exactly when every cell it reads
      is inside the grid and unfilled, and fails exactly when it meets a
      filled cell before leaving the grid. */
  lemma ZeroClueRow(view: seq<Cell>, width: nat, clues: seq<Clue>)
    requires IsZeroClue(clues)
    ensures RowVerdict(view, width, clues) == Pass <==>
      (0 < width ==> width <= |view|) && forall k :: 0 <= k < width ==> view[k].state != Filled
    ensures RowVerdict(view, width, clues) == Fail <==>
      exists k :: 0 <= k < width && k < |view| && view[k].state == Filled
  {
    EmptyScanMeans(view, width, 0);
  }

  /** The cell at offset `i` of the run for `clue` from `p` is one the inner
      loop accepts. */
  predicate RunCellGood(view: seq<Cell>, width: nat, p: nat, clue: Clue, i: nat) {
    p + i <= width && p + i < |view| && view[p + i].state == Filled && view[p + i].color == clue.color
  }

  lemma {:induction false} RunScanMeans(view: seq<Cell>, width: nat, p: nat, clue: Clue, i: nat)
    requires i <= clue.value
    ensures RunScan(view, width, p, clue, i) == Pass <==>
      forall j :: i <= j < clue.value ==> RunCellGood(view, width, p, clue, j)
    ensures width < |view| ==> RunScan(view, width, p, clue, i) != OutOfRange
    decreases clue.value - i
  {
    if i < clue.value {
      if RunCellGood(view, width, p, clue, i) {
        RunScanMeans(view, width, p, clue, i + 1);
      }
    }
  }

  /** Every cell the inner loop compares for `clue`, starting at `p`, is inside
      the line bound (`p + i <= width`), inside the grid and filled with the
      clue's colour. */
  predicate RunGood(view: seq<Cell>, width: nat, p: nat, clue: Clue) {
    forall i :: 0 <= i < clue.value ==> RunCellGood(view, width, p, clue, i)
  }

  lemma {:induction false} SkipStops(view: seq<Cell>, width: nat, pos: nat, p: nat)
    requires SkipUnfilled(view, width, pos) == Some(p)
    ensures SkipUnfilled(view, width, p) == Some(p)
    decreases width - pos
  {
    if pos < width && pos < |view| && view[pos].state != Filled {
      SkipStops(view, width, pos + 1, p);
    }
  }

  lemma {:induction false} SkipInRange(view: seq<Cell>, width: nat, pos: nat)
    requires width < |view|
    ensures SkipUnfilled(view, width, pos).Some?
    decreases width - pos
  {
    if pos < width && view[pos].state != Filled {
      SkipInRange(view, width, pos + 1);
    }
  }

  lemma {:induction false} ClueScanFrom(view: seq<Cell>, width: nat, p: nat, clues: seq<Clue>)
    requires SkipUnfilled(view, width, p) == Some(p)
    ensures ClueScan(view, width, p, clues) == Pass <==>
      forall k :: 0 <= k < |clues| ==> RunGood(view, width, p, clues[k])
    ensures width < |view| ==> ClueScan(view, width, p, clues) != OutOfRange
    decreases |clues|
  {
    if clues != [] {
      RunScanMeans(view, width, p, clues[0], 0);
      ClueScanFrom(view, width, p, clues[1..]);
      AllRunsGoodSplit(view, width, p, clues);
    }
  }

  lemma AllRunsGoodSplit(view: seq<Cell>, width: nat, p: nat, clues: seq<Clue>)
    requires clues != []
    ensures (forall k :: 0 <= k < |clues| ==> RunGood(view, width, p, clues[k])) <==>
      RunGood(view, width, p, clues[0]) && forall k :: 0 <= k < |clues| - 1 ==> RunGood(view, width, p, clues[1..][k])
  {
    if RunGood(view, width, p, clues[0]) && forall k :: 0 <= k < |clues| - 1 ==> RunGood(view, width, p, clues[1..][k]) {
      forall k | 0 <= k < |clues| ensures RunGood(view, width, p, clues[k]) {
        if k > 0 {
          assert clues[k] == clues[1..][k - 1];
        }
      }
    }
  }

  /** Outside the zero-clue case the row check is a check of every clue
      against the SAME run: the one starting at the first filled cell. It
      passes exactly when, for every clue, the `value` cells from there are
      within `width`, inside the grid and filled with the clue's colour. An
      empty clue sequence passes without reading anything, and when every
      read is inside the grid the check never reports `OutOfRange`. */
  lemma RowVerdictClosedForm(view: seq<Cell>, width: nat, clues: seq<Clue>)
    requires !IsZeroClue(clues)
    ensures clues == [] ==> RowVerdict(view, width, clues) == Pass
    ensures clues != [] && SkipUnfilled(view, width, 0).None? ==>
      RowVerdict(view, width, clues) == OutOfRange
    ensures SkipUnfilled(view, width, 0).Some? ==>
      (RowVerdict(view, width, clues) == Pass <==>
       forall k :: 0 <= k < |clues| ==> RunGood(view, width, SkipUnfilled(view, width, 0).value, clues[k]))
    ensures width < |view| ==> RowVerdict(view, width, clues) != OutOfRange
  {
    if width < |view| {
      SkipInRange(view, width, 0);
    }
    if SkipUnfilled(view, width, 0).Some? {
      var p := SkipUnfilled(view, width, 0).value;
      SkipStops(view, width, 0, p);
      if clues != [] {
        ClueScanFrom(view, width, p, clues);
        assert ClueScan(view, width, 0, clues) == ClueScan(view, width, p, clues);
      }
    }
  }

  /** `is_solved` as written: the first row (after all columns, which always
      pass) whose check does not pass decides; otherwise the puzzle passes. */
  function SolvedVerdict(g: Grid, rowClues: seq<seq<Clue>>, j: nat): Verdict
    requires WellFormed(g) && |rowClues| == g.height && j <= g.height
    decreases g.height - j
  {
    if j == g.height then Pass
    else var v := RowCheck(g, rowClues[j], j);
      if v != Pass then v else SolvedVerdict(g, rowClues, j + 1)
  }

  /** `is_solved` as written passes exactly when every row check from `j`
      on passes, and otherwise reports the verdict of one of those rows. */
  lemma {:induction false} SolvedVerdictMeans(g: Grid, rowClues: seq<seq<Clue>>, j: nat)
    requires WellFormed(g) && |rowClues| == g.height && j <= g.height
    ensures var v := SolvedVerdict(g, rowClues, j);
      (v == Pass <==> forall j' :: j <= j' < g.height ==> RowCheck(g, rowClues[j'], j') == Pass)
      && (v != Pass ==> exists j' :: j <= j' < g.height && RowCheck(g, rowClues[j'], j') == v)
    decreases g.height - j
  {
    if j < g.height && RowCheck(g, rowClues[j], j) == Pass {
      SolvedVerdictMeans(g, rowClues, j + 1);
    }
  }

  /** A puzzle is solved when every row and every column is, in the sense
      of the LineCheck module. */
  predicate Solved(g: Grid, rowClues: seq<seq<Clue>>, colClues: seq<seq<Clue>>)
    requires WellFormed(g) && |rowClues| == g.height && |colClues| == g.width
  {
    (forall i :: 0 <= i < g.width ==> LineCheck.LineSolved(ColumnOf(g, i), colClues[i]))
    && forall j :: 0 <= j < g.height ==> LineCheck.LineSolved(RowOf(g, j), rowClues[j])
  }

  // ---------------------------------------------------------------------

  class Puzzle {
    const width: nat
    const height: nat
    /** The grid's owned buffer, row by row. */
    const cells: array<Cell>
    var rowClues: seq<seq<Clue>>
    var colClues: seq<seq<Clue>>

    ghost predicate Valid()
      reads this
    {
      cells.Length == width * height && |rowClues| == height && |colClues| == width
    }

    function GridValue(): (g: Grid)
      reads this, cells
      requires Valid()
      ensures WellFormed(g) && g.width == width && g.height == height
    {
      Grid(width, height, cells[..])
    }

    /** `Grid::at(a, b)` on the owned buffer. */
    function CellAt(a: nat, b: nat): (c: Cell)
      reads this, cells
      requires Valid() && a < width && b < height
      ensures c == At(GridValue(), a, b)
    {
      IndexInRange(width, height, a, b);
      cells[b * width + a]
    }

    /** The `push_back` loop of the constructor: `n` lines, each with the
        single zero clue. */
    static method ZeroClues(n: nat) returns (clues: seq<seq<Clue>>)
      ensures |clues| == n && forall j :: 0 <= j < n ==> clues[j] == [ZeroClue]
    {
      clues := [];
      var k := 0;
      while k < n
        invariant k <= n && |clues| == k
        invariant forall j :: 0 <= j < k ==> clues[j] == [ZeroClue]
      {
        clues := clues + [[ZeroClue]];
        k := k + 1;
      }
    }

    /** `Puzzle(width, height)`: an all-blank grid and one zero clue per row
        and per column. */
    constructor (width: nat, height: nat)
      ensures Valid() && fresh(cells)
      ensures this.width == width && this.height == height
      ensures forall a, b :: 0 <= a < width && 0 <= b < height ==> At(GridValue(), a, b) == BlankCell
      ensures |rowClues| == height && forall j :: 0 <= j < height ==> rowClues[j] == [ZeroClue]
      ensures |colClues| == width && forall i :: 0 <= i < width ==> colClues[i] == [ZeroClue]
    {
      this.width := width;
      this.height := height;
      cells := new Cell[width * height](_ => BlankCell);
      var rows := ZeroClues(height);
      var cols := ZeroClues(width);
      rowClues := rows;
      colClues := cols;
      new;
      assert forall i :: 0 <= i < cells.Length ==> cells[..][i] == BlankCell;
      forall a, b | 0 <= a < width && 0 <= b < height
        ensures At(GridValue(), a, b) == BlankCell
      {
        IndexInRange(width, height, a, b);
      }
    }

    /** `mark_cell(col, row, color)`: fills one cell; nothing else changes. */
    method MarkCell(col: nat, row: nat, color: Color)
      requires Valid() && col < width && row < height
      modifies cells
      ensures Valid()
      ensures At(GridValue(), col, row) == Cell(Filled, color)
      ensures forall a, b :: 0 <= a < width && 0 <= b < height && (a != col || b != row) ==>
        At(GridValue(), a, b) == At(old(GridValue()), a, b)
      ensures rowClues == old(rowClues) && colClues == old(colClues)
    {
      IndexInRange(width, height, col, row);
      cells[row * width + col] := Cell(Filled, color);
      forall a, b | 0 <= a < width && 0 <= b < height && (a != col || b != row)
        ensures At(GridValue(), a, b) == At(old(GridValue()), a, b)
      {
        IndexInRange(width, height, a, b);
        IndexInjective(width, a, b, col, row);
      }
    }

    /** `is_row_solved(row)`, reading `at(row, i)` as the source does. */
    method IsRowSolved(row: nat) returns (v: Verdict)
      requires Valid() && row < height
      ensures v == RowCheck(GridValue(), rowClues[row], row)
    {
      var clues := rowClues[row];
      ghost var view := ReadView(GridValue(), row);
      if |clues| == 1 && clues[0].value == 0 {
        var i := 0;
        while i < width
          invariant i <= width
          invariant EmptyScan(view, width, i) == EmptyScan(view, width, 0)
        {
          if !(row < width && i < height) {
            return OutOfRange;
          }
          if CellAt(row, i).state == Filled {
            return Fail;
          }
          i := i + 1;
        }
        return Pass;
      }

      var pos := 0;
      var k := 0;
      while k < |clues|
        invariant k <= |clues| && pos <= width
        invariant ClueScan(view, width, pos, clues[k..]) == ClueScan(view, width, 0, clues)
      {
        var clue := clues[k];
        ghost var start := pos;
        while pos < width
          invariant start <= pos <= width
          invariant SkipUnfilled(view, width, pos) == SkipUnfilled(view, width, start)
        {
          if !(row < width && pos < height) {
            return OutOfRange;
          }
          if CellAt(row, pos).state == Filled {
            break;
          }
          pos := pos + 1;
        }
        assert SkipUnfilled(view, width, start) == Some(pos);
        var i := 0;
        while i < clue.value
          invariant i <= clue.value
          invariant RunScan(view, width, pos, clue, i) == RunScan(view, width, pos, clue, 0)
        {
          if pos + i > width {
            return Fail;
          }
          if !(row < width && pos + i < height) {
            return OutOfRange;
          }
          var cell := CellAt(row, pos + i);
          if cell.state != Filled || clue.color != cell.color {
            return Fail;
          }
          i := i + 1;
        }
        assert clues[k..][1..] == clues[k + 1..];
        k := k + 1;
      }
      return Pass;
    }

    /** `is_col_solved(col)`: a stub that accepts every column. */
    function IsColSolved(col: nat): (solved: bool)
      ensures solved
    {
      true
    }

    /** `is_solved()`: columns first (all pass), then rows; the first row
        that does not pass decides. */
    method IsSolved() returns (v: Verdict)
      requires Valid()
      ensures v == SolvedVerdict(GridValue(), rowClues, 0)
      ensures v == Pass <==> forall j :: 0 <= j < height ==> RowCheck(GridValue(), rowClues[j], j) == Pass
      ensures v != Pass ==> exists j :: 0 <= j < height && RowCheck(GridValue(), rowClues[j], j) == v
    {
      SolvedVerdictMeans(GridValue(), rowClues, 0);
      var i := 0;
      while i < width
        invariant i <= width
      {
        if !IsColSolved(i) {
          return Fail;
        }
        i := i + 1;
      }
      var j := 0;
      while j < height
        invariant j <= height
        invariant SolvedVerdict(GridValue(), rowClues, j) == SolvedVerdict(GridValue(), rowClues, 0)
      {
        var r := IsRowSolved(j);
        if r != Pass {
          return r;
        }
        j := j + 1;
      }
      return Pass;
    }

    // -------------------------------------------------------------------
    // The corrected checks: lines are read in the right orientation and
    // decided by LineCheck.CheckLine.

    /** Row `row` as the code means it: cells `at(i, row)`. */
    method CheckRow(row: nat) returns (solved: bool)
      requires Valid() && row < height
      ensures solved <==> LineCheck.LineSolved(RowOf(GridValue(), row), rowClues[row])
    {
      solved := LineCheck.CheckLine(RowOf(GridValue(), row), rowClues[row]);
    }

    /** Column `col`: cells `at(col, j)`. */
    method CheckColumn(col: nat) returns (solved: bool)
      requires Valid() && col < width
      ensures solved <==> LineCheck.LineSolved(ColumnOf(GridValue(), col), colClues[col])
    {
      solved := LineCheck.CheckLine(ColumnOf(GridValue(), col), colClues[col]);
    }

    /** `is_solved()` over the corrected checks: columns first, then rows. */
    method CheckSolved() returns (solved: bool)
      requires Valid()
      ensures solved <==> Solved(GridValue(), rowClues, colClues)
    {
      var i := 0;
      while i < width
        invariant i <= width
        invariant forall i' :: 0 <= i' < i ==> LineCheck.LineSolved(ColumnOf(GridValue(), i'), colClues[i'])
      {
        var ok := CheckColumn(i);
        if !ok {
          return false;
        }
        i := i + 1;
      }
      var j := 0;
      while j < height
        invariant j <= height
        invariant forall j' :: 0 <= j' < j ==> LineCheck.LineSolved(RowOf(GridValue(), j'), rowClues[j'])
      {
        var ok := CheckRow(j);
        if !ok {
          return false;
        }
        j := j + 1;
      }
      return true;
    }
  }
}
