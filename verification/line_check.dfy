/** What it means for one line of the puzzle (a row or a column) to be
    solved, and a line check that decides it. A line is solved when its
    maximal runs of filled cells of one colour, read in order, are exactly
    its clues, the lone zero clue standing for a line with no runs. This is
    the behaviour `Puzzle::is_row_solved` and `Puzzle::is_col_solved` in
    src/puzzle/puzzle.cpp are meant to have; the code as written differs
    (see the PuzzleModel module and the findings in README). */
module LineCheck {
  import opened Basics
  import opened Grids

  predicate FilledWith(c: Cell, color: Color) {
    c.state == Filled && c.color == color
  }

  /** The end of the run of cells filled with `color` that starts at `i`. */
  function RunEnd(line: seq<Cell>, i: nat, color: Color): (e: nat)
    requires i <= |line|
    ensures i <= e <= |line|
    ensures forall k :: i <= k < e ==> FilledWith(line[k], color)
    ensures e == |line| || !FilledWith(line[e], color)
    decreases |line| - i
  {
    if i == |line| || !FilledWith(line[i], color) then i else RunEnd(line, i + 1, color)
  }

  /** The runs of the line from `pos` on, as clues: each maximal block of
      cells filled with one colour gives its length and colour. */
  function RunsFrom(line: seq<Cell>, pos: nat): (runs: seq<Clue>)
    requires pos <= |line|
    ensures forall k :: 0 <= k < |runs| ==> runs[k].value > 0
    decreases |line| - pos
  {
    if pos == |line| then []
    else if line[pos].state != Filled then RunsFrom(line, pos + 1)
    else
      var e := RunEnd(line, pos, line[pos].color);
      [Clue(e - pos, line[pos].color)] + RunsFrom(line, e)
  }

  /** The runs a clue sequence asks for. */
  function Expected(clues: seq<Clue>): seq<Clue> {
    if IsZeroClue(clues) then [] else clues
  }

  predicate LineSolved(line: seq<Cell>, clues: seq<Clue>) {
    RunsFrom(line, 0) == Expected(clues)
  }

  /** The first filled cell at or after `pos`, or the end of the line. */
  function NextFilled(line: seq<Cell>, pos: nat): (p: nat)
    requires pos <= |line|
    ensures pos <= p <= |line|
    ensures p < |line| ==> line[p].state == Filled
    ensures forall k :: pos <= k < p ==> line[k].state != Filled
    decreases |line| - pos
  {
    if pos == |line| || line[pos].state == Filled then pos else NextFilled(line, pos + 1)
  }

  /** Clue `c` matches at `p`: `value` cells of its colour there, and no
      further cell of that colour right after them. */
  predicate ClueFits(line: seq<Cell>, p: nat, c: Clue) {
    c.value > 0 && p + c.value <= |line|
    && (forall j :: p <= j < p + c.value ==> FilledWith(line[j], c.color))
    && (p + c.value == |line| || !FilledWith(line[p + c.value], c.color))
  }

  /** The clue-by-clue scan the check performs: skip to the next filled
      cell, match the clue there, continue after the run; once the clues
      are used up no filled cell may remain. */
  predicate Scan(line: seq<Cell>, pos: nat, clues: seq<Clue>)
    requires pos <= |line|
    decreases |clues|
  {
    var p := NextFilled(line, pos);
    if clues == [] then p == |line|
    else ClueFits(line, p, clues[0]) && Scan(line, p + clues[0].value, clues[1..])
  }

  lemma {:induction false} RunsSkipUnfilled(line: seq<Cell>, pos: nat)
    requires pos <= |line|
    ensures RunsFrom(line, pos) == RunsFrom(line, NextFilled(line, pos))
    decreases |line| - pos
  {
    if pos < |line| && line[pos].state != Filled {
      RunsSkipUnfilled(line, pos + 1);
    }
  }

  /** A run of `v` cells of `color` at `p` that is not followed by another
      cell of `color` is exactly the maximal run there. */
  lemma RunEndUnique(line: seq<Cell>, p: nat, v: nat, color: Color)
    requires p + v <= |line|
    requires forall j :: p <= j < p + v ==> FilledWith(line[j], color)
    requires p + v == |line| || !FilledWith(line[p + v], color)
    ensures RunEnd(line, p, color) == p + v
  {
  }

  /** A clue sequence the scan accepts is the runs of the line. */
  lemma {:induction false} ScanGivesRuns(line: seq<Cell>, pos: nat, clues: seq<Clue>)
    requires pos <= |line| && Scan(line, pos, clues)
    ensures RunsFrom(line, pos) == clues
    decreases |clues|
  {
    var p := NextFilled(line, pos);
    RunsSkipUnfilled(line, pos);
    if clues != [] {
      var c := clues[0];
      assert FilledWith(line[p], c.color);
      RunEndUnique(line, p, c.value, c.color);
      ScanGivesRuns(line, p + c.value, clues[1..]);
      assert clues == [c] + clues[1..];
    }
  }

  /** The runs of the line pass the scan. */
  lemma {:induction false} RunsPassScan(line: seq<Cell>, pos: nat)
    requires pos <= |line|
    ensures Scan(line, pos, RunsFrom(line, pos))
    decreases |line| - pos
  {
    var p := NextFilled(line, pos);
    RunsSkipUnfilled(line, pos);
    if p < |line| {
      var e := RunEnd(line, p, line[p].color);
      var runs := RunsFrom(line, p);
      assert runs == [Clue(e - p, line[p].color)] + RunsFrom(line, e);
      RunsPassScan(line, e);
      assert runs[1..] == RunsFrom(line, e);
    }
  }

  /** The scan accepts exactly the clue sequences that are the runs of the
      line from `pos` on. */
  lemma ScanMatchesRuns(line: seq<Cell>, pos: nat, clues: seq<Clue>)
    requires pos <= |line|
    ensures Scan(line, pos, clues) <==> RunsFrom(line, pos) == clues
  {
    if Scan(line, pos, clues) {
      ScanGivesRuns(line, pos, clues);
    } else {
      RunsPassScan(line, pos);
    }
  }

  /** The skip loop: advance past unfilled cells. */
  method SkipToFilled(line: seq<Cell>, pos: nat) returns (p: nat)
    requires pos <= |line|
    ensures p == NextFilled(line, pos)
  {
    p := pos;
    while p < |line| && line[p].state != Filled
      invariant pos <= p <= |line|
      invariant NextFilled(line, p) == NextFilled(line, pos)
    {
      p := p + 1;
    }
  }

  /** The run loop: are the `len` cells from `p` all filled with `color`? */
  method RunFilled(line: seq<Cell>, p: nat, len: nat, color: Color) returns (ok: bool)
    requires p + len <= |line|
    ensures ok <==> forall j :: p <= j < p + len ==> FilledWith(line[j], color)
  {
    var i := 0;
    while i < len
      invariant i <= len
      invariant forall j :: p <= j < p + i ==> FilledWith(line[j], color)
    {
      if line[p + i].state != Filled || line[p + i].color != color {
        return false;
      }
      i := i + 1;
    }
    return true;
  }

  /** One clue of the line check: skip unfilled cells, check the run and
      the cell after it; on success `next` is just past the run. */
  method MatchClue(line: seq<Cell>, pos: nat, clue: Clue) returns (ok: bool, next: nat)
    requires pos <= |line|
    ensures ok <==> ClueFits(line, NextFilled(line, pos), clue)
    ensures ok ==> next == NextFilled(line, pos) + clue.value
  {
    var p := SkipToFilled(line, pos);
    next := p;
    if clue.value == 0 || p + clue.value > |line| {
      return false, next;
    }
    ok := RunFilled(line, p, clue.value, clue.color);
    if !ok {
      return;
    }
    if p + clue.value < |line| && line[p + clue.value].state == Filled
      && line[p + clue.value].color == clue.color
    {
      return false, next;
    }
    next := p + clue.value;
  }

  /** The line check, loop by loop: for each clue skip unfilled cells,
      check the run and the cell after it, move past the run; then make sure
      no filled cell is left. It decides exactly whether the line is solved. */
  method CheckLine(line: seq<Cell>, clues: seq<Clue>) returns (solved: bool)
    ensures solved <==> LineSolved(line, clues)
  {
    ScanMatchesRuns(line, 0, Expected(clues));
    var expected := if |clues| == 1 && clues[0].value == 0 then [] else clues;
    var pos: nat := 0;
    var k := 0;
    while k < |expected|
      invariant k <= |expected| && pos <= |line|
      invariant Scan(line, pos, expected[k..]) == Scan(line, 0, expected)
    {
      var ok, next := MatchClue(line, pos, expected[k]);
      if !ok {
        return false;
      }
      assert expected[k..][1..] == expected[k + 1..];
      pos := next;
      k := k + 1;
    }
    var p := SkipToFilled(line, pos);
    return p == |line|;
  }
}
