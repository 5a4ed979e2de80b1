/** Concrete inputs on which `Puzzle::is_row_solved` and `Puzzle::is_solved`
    as written (PuzzleModel.RowVerdict, RowCheck, SolvedVerdict) disagree
    with a solved line or puzzle (LineCheck.LineSolved, PuzzleModel.Solved).
    `c` is any colour. */
module Findings {
  import opened Basics
  import opened Grids
  import opened LineCheck
  import opened PuzzleModel

  /** The run guard is `pos + i > width`, so with `pos + i == width` the
      check reads one cell past the line: in a 1 by 1 blank puzzle whose row
      asks for one cell that read is outside the grid, where the corrected
      check simply rejects the row. */
  lemma GuardReadsPastGrid(c: Color)
    ensures var g := Grid(1, 1, [BlankCell]);
      RowCheck(g, [Clue(1, c)], 0) == OutOfRange
      && !LineSolved(RowOf(g, 0), [Clue(1, c)])
  {
    var g := Grid(1, 1, [BlankCell]);
    var view := ReadView(g, 0);
    assert view == [BlankCell];
    assert SkipUnfilled(view, 1, 0) == SkipUnfilled(view, 1, 1) == Some(1);
    assert RunScan(view, 1, 1, Clue(1, c), 0) == OutOfRange;
    assert RowOf(g, 0) == [BlankCell];
    assert RunsFrom([BlankCell], 0) == RunsFrom([BlankCell], 1) == [];
  }

  /** The same guard counts a cell past the end of the line towards the
      last run: a line of width 2 holding one filled cell at its end, with a
      filled cell after it, passes the clue 2. */
  lemma GuardCountsCellPastLine(c: Color)
    ensures var f := Cell(Filled, c);
      RowVerdict([BlankCell, f, f], 2, [Clue(2, c)]) == Pass
      && !LineSolved([BlankCell, f], [Clue(2, c)])
  {
    var f := Cell(Filled, c);
    var view := [BlankCell, f, f];
    assert SkipUnfilled(view, 2, 0) == SkipUnfilled(view, 2, 1) == Some(1);
    assert RunScan(view, 2, 1, Clue(2, c), 2) == Pass;
    assert RunScan(view, 2, 1, Clue(2, c), 1) == Pass;
    assert RunScan(view, 2, 1, Clue(2, c), 0) == Pass;
    assert ClueScan(view, 2, 1, []) == Pass;
    assert [Clue(2, c)][1..] == [];
    assert ClueScan(view, 2, 0, [Clue(2, c)]) == Pass;
    var line := [BlankCell, f];
    assert RunEnd(line, 2, c) == 2;
    assert RunEnd(line, 1, c) == 2;
    assert RunsFrom(line, 2) == [];
    assert RunsFrom(line, 1) == [Clue(1, c)];
    assert RunsFrom(line, 0) == [Clue(1, c)];
  }

  /** The scan position is never moved past a run, so every clue is matched
      against the first run: one filled cell passes the clues 1 1. */
  lemma SecondClueRereadsFirstRun(c: Color)
    ensures var f := Cell(Filled, c);
      RowVerdict([f, BlankCell, BlankCell], 3, [Clue(1, c), Clue(1, c)]) == Pass
      && !LineSolved([f, BlankCell, BlankCell], [Clue(1, c), Clue(1, c)])
  {
    var f := Cell(Filled, c);
    var line := [f, BlankCell, BlankCell];
    assert SkipUnfilled(line, 3, 0) == Some(0);
    assert RunScan(line, 3, 0, Clue(1, c), 1) == Pass;
    assert RunScan(line, 3, 0, Clue(1, c), 0) == Pass;
    assert ClueScan(line, 3, 0, []) == Pass;
    assert ClueScan(line, 3, 0, [Clue(1, c)]) == Pass;
    assert RunEnd(line, 1, c) == 1;
    assert RunEnd(line, 0, c) == 1;
    assert RunsFrom(line, 3) == [];
    assert RunsFrom(line, 2) == [];
    assert RunsFrom(line, 1) == [];
    assert RunsFrom(line, 0) == [Clue(1, c)];
  }

  /** Neither the end of a run nor the cells after the last run are looked
      at: a run of two passes the clue 1. */
  lemma RunEndUnchecked(c: Color)
    ensures var f := Cell(Filled, c);
      RowVerdict([f, f, BlankCell], 3, [Clue(1, c)]) == Pass
      && !LineSolved([f, f, BlankCell], [Clue(1, c)])
  {
    var f := Cell(Filled, c);
    var line := [f, f, BlankCell];
    assert SkipUnfilled(line, 3, 0) == Some(0);
    assert RunScan(line, 3, 0, Clue(1, c), 1) == Pass;
    assert RunScan(line, 3, 0, Clue(1, c), 0) == Pass;
    assert ClueScan(line, 3, 0, []) == Pass;
    assert [Clue(1, c)][1..] == [];
    assert ClueScan(line, 3, 0, [Clue(1, c)]) == Pass;
    assert RunEnd(line, 2, c) == 2;
    assert RunEnd(line, 1, c) == 2;
    assert RunEnd(line, 0, c) == 2;
    assert RunsFrom(line, 0) == [Clue(2, c)] + RunsFrom(line, 2);
  }

  /** `is_row_solved(row)` reads `at(row, i)`, which is column `row`: in a
      2 by 2 puzzle whose top row is filled, that row is solved for the clue
      2 but the check fails it. */
  lemma RowReadsColumn(c: Color)
    ensures var f := Cell(Filled, c);
      var g := Grid(2, 2, [f, f, BlankCell, BlankCell]);
      WellFormed(g)
      && RowCheck(g, [Clue(2, c)], 0) == Fail
      && LineSolved(RowOf(g, 0), [Clue(2, c)])
  {
    var f := Cell(Filled, c);
    var g := Grid(2, 2, [f, f, BlankCell, BlankCell]);
    var view := ReadView(g, 0);
    assert view == [f, BlankCell];
    assert SkipUnfilled(view, 2, 0) == Some(0);
    assert RunScan(view, 2, 0, Clue(2, c), 1) == Fail;
    assert RunScan(view, 2, 0, Clue(2, c), 0) == Fail;
    var line := RowOf(g, 0);
    assert line == [f, f];
    assert RunEnd(line, 2, c) == 2;
    assert RunEnd(line, 1, c) == 2;
    assert RunEnd(line, 0, c) == 2;
    assert RunsFrom(line, 2) == [];
    assert RunsFrom(line, 0) == [Clue(2, c)];
  }

  /** `is_col_solved` accepts every column, so a blank 1 by 1 puzzle whose
      column asks for one cell is reported solved. */
  lemma ColumnsNeverChecked(c: Color)
    ensures var g := Grid(1, 1, [BlankCell]);
      SolvedVerdict(g, [[ZeroClue]], 0) == Pass
      && !Solved(g, [[ZeroClue]], [[Clue(1, c)]])
  {
    var g := Grid(1, 1, [BlankCell]);
    var view := ReadView(g, 0);
    assert view == [BlankCell];
    assert EmptyScan(view, 1, 1) == Pass;
    assert EmptyScan(view, 1, 0) == Pass;
    assert RowCheck(g, [ZeroClue], 0) == Pass;
    assert SolvedVerdict(g, [[ZeroClue]], 1) == Pass;
    var col := ColumnOf(g, 0);
    assert col == [BlankCell];
    assert RunsFrom(col, 1) == [];
    assert RunsFrom(col, 0) == [];
    assert !LineSolved(col, [Clue(1, c)]);
  }
}
