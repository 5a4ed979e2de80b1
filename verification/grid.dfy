/** Cells, clues and the puzzle grid as values: `width` columns by `height`
    rows, stored row by row, with `Grid::at(a, b)` the cell in column `a` of
    row `b`. */
module Grids {
  import opened Basics

  datatype State = Blank | Filled | Crossed

  datatype Cell = Cell(state: State, color: Color)

  const BlankCell: Cell := Cell(Blank, DefaultColor)

  /** A run of `value` cells of one colour. */
  datatype Clue = Clue(value: nat, color: Color)

  /** The default-constructed clue that the constructor puts on every line. */
  const ZeroClue: Clue := Clue(0, DefaultColor)

  /** The clue sequence that stands for "this line is empty". */
  predicate IsZeroClue(clues: seq<Clue>) {
    |clues| == 1 && clues[0].value == 0
  }

  // ---------------------------------------------------------------------
  // The grid as a value: `width` columns by `height` rows, stored row by row.

  datatype Grid = Grid(width: nat, height: nat, cells: seq<Cell>)

  predicate WellFormed(g: Grid) {
    |g.cells| == g.width * g.height
  }

  lemma IndexInRange(w: nat, h: nat, a: nat, b: nat)
    requires a < w && b < h
    ensures b * w + a < w * h
  {
    assert (h - b - 1) * w >= 0;
    calc {
      b * w + a;
    <  b * w + w;
    == (b + 1) * w;
    <= (b + 1) * w + (h - b - 1) * w;
    == h * w;
    }
  }

  /** Row `b'` starts at least a full row after an earlier row `b`. */
  lemma {:induction false} RowStartsApart(w: nat, b: nat, b': nat)
    requires b < b'
    ensures b * w + w <= b' * w
    decreases b' - b
  {
    assert b' * w == (b' - 1) * w + w;
    if b + 1 < b' {
      RowStartsApart(w, b, b' - 1);
    }
  }

  lemma IndexInjective(w: nat, a: nat, b: nat, a': nat, b': nat)
    requires a < w && a' < w
    ensures b * w + a == b' * w + a' ==> a == a' && b == b'
  {
    if b < b' {
      RowStartsApart(w, b, b');
    } else if b' < b {
      RowStartsApart(w, b', b);
    }
  }

  /** `Grid::at(a, b)`: the cell in column `a` of row `b`. */
  function At(g: Grid, a: nat, b: nat): Cell
    requires WellFormed(g) && a < g.width && b < g.height
  {
    IndexInRange(g.width, g.height, a, b);
    g.cells[b * g.width + a]
  }

  /** The cells of column `col`, top to bottom: what `puzzle[col][row]`
      (`PuzzleCol::operator[]`) reads for each row. */
  function ColumnOf(g: Grid, col: nat): (view: seq<Cell>)
    requires WellFormed(g) && col < g.width
    ensures |view| == g.height
    ensures forall row :: 0 <= row < g.height ==> view[row] == At(g, col, row)
  {
    seq(g.height, row requires 0 <= row < g.height => At(g, col, row))
  }

  /** The cells of row `row`, left to right. */
  function RowOf(g: Grid, row: nat): (line: seq<Cell>)
    requires WellFormed(g) && row < g.height
    ensures |line| == g.width
    ensures forall col :: 0 <= col < g.width ==> line[col] == At(g, col, row)
  {
    seq(g.width, col requires 0 <= col < g.width => At(g, col, row))
  }
}
