/** The game state of src/game.cpp and src/game.h: where the puzzle grid is
    drawn on screen, its cell size and the rule-area dimensions, with the
    conversions between screen pixels and cell coordinates. Cell `c` of the
    grid starts one pixel after the grid origin plus `c` cells of
    `cell_size` pixels each followed by a one-pixel rule. */
module GameModel {

  datatype GameState = MainMenu | OptsMenu | PuzzleSelection | PuzzleView

  /** C++ `a / b` on `int` for `b > 0`: the quotient truncated toward zero,
      so the remainder has the sign of `a`. */
  function TruncDiv(a: int, b: int): int
    requires b > 0
  {
    if a >= 0 then a / b else -((-a) / b)
  }

  /** The remainder of the truncating division has the sign of `a` and is
      smaller than `b` in size; the quotient has the sign of `a`. */
  lemma TruncDivRemainder(a: int, b: int)
    requires b > 0
    ensures var q := TruncDiv(a, b);
      (a >= 0 ==> 0 <= a - q * b < b)
      && (a < 0 ==> -b < a - q * b <= 0)
      && (a >= 0 ==> q >= 0)
      && (a <= 0 ==> q <= 0)
  {
  }

  /** The first pixel of cell `c` along one axis. */
  function CellToScreen(origin: int, cellSize: int, c: int): int {
    origin + 1 + c * (cellSize + 1)
  }

  /** The cell a pixel falls in along one axis. */
  function ScreenToCell(origin: int, cellSize: nat, s: int): int {
    TruncDiv(s - origin - 1, cellSize + 1)
  }

  /** Neighbouring cells start exactly `cellSize + 1` pixels apart. */
  lemma AdjacentCells(origin: int, cellSize: int, c: int)
    ensures CellToScreen(origin, cellSize, c + 1) == CellToScreen(origin, cellSize, c) + cellSize + 1
  {
    assert (c + 1) * (cellSize + 1) == c * (cellSize + 1) + (cellSize + 1);
  }

  lemma {:induction false} MulAtLeast(k: nat, b: int)
    requires k >= 1 && b > 0
    ensures k * b >= b
  {
    if k > 1 {
      MulAtLeast(k - 1, b);
      assert k * b == (k - 1) * b + b;
    }
  }

  /** Two quotients of `a` by `b` whose remainders differ by less than `b`
      are equal. */
  lemma QuotientUnique(a: int, b: int, q: int, q': int)
    requires b > 0
    requires -b < (a - q * b) - (a - q' * b) < b
    ensures q == q'
  {
    if q > q' {
      MulAtLeast(q - q', b);
    } else if q < q' {
      MulAtLeast(q' - q, b);
    }
  }

  lemma TruncDivExact(q: int, b: int)
    requires b > 0
    ensures TruncDiv(q * b, b) == q
  {
    QuotientUnique(q * b, b, TruncDiv(q * b, b), q);
  }

  /** Converting a cell to its first pixel and back gives the same cell, for
      every cell index (negative ones too). */
  lemma CellRoundTrip(origin: int, cellSize: nat, c: int)
    ensures ScreenToCell(origin, cellSize, CellToScreen(origin, cellSize, c)) == c
  {
    TruncDivExact(c, cellSize + 1);
  }

  /** Every pixel of cell `c >= 0`, from its first pixel up to and including
      the rule after it, converts back to `c`. */
  lemma PixelInCell(origin: int, cellSize: nat, c: nat, s: int)
    requires CellToScreen(origin, cellSize, c) <= s < CellToScreen(origin, cellSize, c + 1)
    ensures ScreenToCell(origin, cellSize, s) == c
  {
    AdjacentCells(origin, cellSize, c);
    var a := s - origin - 1;
    QuotientUnique(a, cellSize + 1, TruncDiv(a, cellSize + 1), c);
  }

  lemma TruncDivMonotone(a: int, a': int, b: int)
    requires b > 0 && a <= a'
    ensures TruncDiv(a, b) <= TruncDiv(a', b)
  {
    var q, q' := TruncDiv(a, b), TruncDiv(a', b);
    TruncDivRemainder(a, b);
    TruncDivRemainder(a', b);
    if q > q' {
      MulAtLeast(q - q', b);
    }
  }

  /** Moving right (or down) on screen never moves to an earlier cell. */
  lemma ScreenToCellMonotone(origin: int, cellSize: nat, s: int, s': int)
    requires s <= s'
    ensures ScreenToCell(origin, cellSize, s) <= ScreenToCell(origin, cellSize, s')
  {
    TruncDivMonotone(s - origin - 1, s' - origin - 1, cellSize + 1);
  }

  /** Because the division truncates, the `cellSize` pixels just before
      cell 0 (the grid's outer rule at `origin` and the pixels before it)
      convert to cell 0 as well, not to cell -1. */
  lemma PixelsBeforeGridInCellZero(origin: int, cellSize: nat, s: int)
    requires origin - cellSize < s <= origin
    ensures ScreenToCell(origin, cellSize, s) == 0
  {
  }

  /** Along one axis, a pixel after the origin lies in the cell it converts
      to, and a pixel at or before the origin converts to a cell index of
      at most 0. */
  lemma ScreenToCellBounds(origin: int, cellSize: nat, s: int)
    ensures var c := ScreenToCell(origin, cellSize, s);
      (s > origin ==> CellToScreen(origin, cellSize, c) <= s < CellToScreen(origin, cellSize, c + 1))
      && (s <= origin ==> c <= 0)
  {
    var c := ScreenToCell(origin, cellSize, s);
    TruncDivRemainder(s - origin - 1, cellSize + 1);
    AdjacentCells(origin, cellSize, c);
  }

  class Game {
    var state: GameState
    /** Screen position of the grid's top-left corner. */
    var x: int
    var y: int
    var cellSize: nat
    var recalcSize: bool
    var rowRuleWidth: int
    var colRuleHeight: int

    /** `Game()`: the grid at (150, 150), 32-pixel cells, sizes to be
        recalculated, empty rule areas, showing the puzzle. */
    constructor ()
      ensures x == 150 && y == 150 && cellSize == 32
      ensures recalcSize && rowRuleWidth == 0 && colRuleHeight == 0
      ensures state == PuzzleView
    {
      x, y, cellSize := 150, 150, 32;
      recalcSize := true;
      rowRuleWidth, colRuleHeight := 0, 0;
      state := PuzzleView;
    }

    /** `has_size_changed()`. */
    function HasSizeChanged(): bool
      reads this
    {
      recalcSize
    }

    /** `set_rule_dimensions(w, h)`: stores both dimensions and clears the
        size-changed flag; the grid position and cell size stay. */
    method SetRuleDimensions(rowRule: int, colRule: int)
      modifies this
      ensures rowRuleWidth == rowRule && colRuleHeight == colRule
      ensures !HasSizeChanged()
      ensures x == old(x) && y == old(y) && cellSize == old(cellSize) && state == old(state)
    {
      recalcSize := false;
      rowRuleWidth := rowRule;
      colRuleHeight := colRule;
    }

    /** `get_puzzle_coords(&x, &y)`: the grid origin; nothing changes. */
    method GetPuzzleCoords() returns (px: int, py: int)
      ensures px == x && py == y
    {
      px, py := x, y;
    }

    /** `screen_coords_to_cell_coords(sx, sy, &x, &y)`: a pixel of the grid
        lies in the cell returned; a pixel before the grid gives a cell
        index of at most 0. */
    method ScreenCoordsToCellCoords(sx: int, sy: int) returns (cx: int, cy: int)
      ensures cx == ScreenToCell(x, cellSize, sx) && cy == ScreenToCell(y, cellSize, sy)
      ensures sx > x ==> CellToScreen(x, cellSize, cx) <= sx < CellToScreen(x, cellSize, cx + 1)
      ensures sy > y ==> CellToScreen(y, cellSize, cy) <= sy < CellToScreen(y, cellSize, cy + 1)
      ensures sx <= x ==> cx <= 0
      ensures sy <= y ==> cy <= 0
    {
      cx := TruncDiv(sx - x - 1, cellSize + 1);
      cy := TruncDiv(sy - y - 1, cellSize + 1);
      ScreenToCellBounds(x, cellSize, sx);
      ScreenToCellBounds(y, cellSize, sy);
    }

    /** `cell_coords_to_screen_coords(x, y, &sx, &sy)`: the first pixel of
        the cell, which converts back to the same cell. */
    method CellCoordsToScreenCoords(cx: int, cy: int) returns (sx: int, sy: int)
      ensures sx == x + 1 + cx * (cellSize + 1) && sy == y + 1 + cy * (cellSize + 1)
      ensures ScreenToCell(x, cellSize, sx) == cx && ScreenToCell(y, cellSize, sy) == cy
    {
      sx := x + 1 + cx * (cellSize + 1);
      sy := y + 1 + cy * (cellSize + 1);
      CellRoundTrip(x, cellSize, cx);
      CellRoundTrip(y, cellSize, cy);
    }
  }
}
