/** The mouse and keyboard handling of src/input_handler.cpp: pressing and
    dragging over cells to mark them, cross them out or clear them, the
    row/column lock of a mouse drag, screen dragging and keyboard selection
    movement. The game's puzzle cells and selected cell are a map from cell
    coordinates to `CellState` and a selection record; the grid origin and
    cell size come from GameModel.Game, and the grid's pixel extent
    (`cell_grid_width`, `cell_grid_height`) is a parameter. */
module Input {
  import opened Basics
  import opened GameModel

  datatype CellState = Blank | Marked | ExedOut

  /** What a drag does to the cells it passes over. */
  datatype DragType = Screen | Marks | Exes | BlankMarks | BlankExes

  datatype MouseLockType = NoLock | ToRow | ToCol

  datatype MouseButton = LeftButton | MiddleButton | RightButton | OtherButton

  datatype KeyAction =
    | ScreenLeft | ScreenRight | ScreenUp | ScreenDown
    | MoveLeft | MoveRight | MoveUp | MoveDown
    | Mark | ExOut | ZoomIn | ZoomOut | NextControl | OpenMenu | OpenHelp

  /** The two cell tools: the left button or mark key, and the right button
      or ex-out key. */
  datatype Tool = MarkTool | ExTool

  type Coord = (int, int)

  /** Screen scroll speed while a screen-movement key is held. */
  const MoveSpeed: int := 250

  function Abs(n: int): nat {
    if n < 0 then -n else n
  }

  // ---------------------------------------------------------------------
  // Drag types: which cell state a drag changes, and into what.

  /** The only state a drag of type `d` changes. */
  function DragSource(d: DragType): Option<CellState> {
    match d
    case Screen => None
    case Marks => Some(Blank)
    case Exes => Some(Blank)
    case BlankMarks => Some(Marked)
    case BlankExes => Some(ExedOut)
  }

  /** The state a drag of type `d` leaves behind. */
  function DragTarget(d: DragType): Option<CellState> {
    match d
    case Screen => None
    case Marks => Some(Marked)
    case Exes => Some(ExedOut)
    case BlankMarks => Some(Blank)
    case BlankExes => Some(Blank)
  }

  /** One cell under a drag: the new state if the cell changes. */
  function DragStep(d: DragType, s: CellState): (r: Option<CellState>)
    ensures r.Some? <==> DragSource(d) == Some(s)
    ensures r.Some? ==> r == DragTarget(d)
  {
    if d == Marks && s == Blank then Some(Marked)
    else if d == Exes && s == Blank then Some(ExedOut)
    else if d == BlankMarks && s == Marked then Some(Blank)
    else if d == BlankExes && s == ExedOut then Some(Blank)
    else None
  }

  /** A drag never undoes its own change: a cell it has changed is left
      alone when the drag passes over it again. */
  lemma DragStepOnce(d: DragType, s: CellState)
    requires DragStep(d, s).Some?
    ensures DragStep(d, DragStep(d, s).value).None?
  {
  }

  /** The drag a press (or a mark/ex-out key) starts on a cell in state `s`:
      a blank cell starts marking or crossing out, depending on the tool; a
      marked or crossed-out cell starts clearing cells of that state. */
  function StartDrag(tool: Tool, s: CellState): (d: DragType)
    ensures DragSource(d) == Some(s)
    ensures s == Blank ==> d == (if tool == MarkTool then Marks else Exes)
  {
    match s
    case Blank => if tool == MarkTool then Marks else Exes
    case Marked => BlankMarks
    case ExedOut => BlankExes
  }

  /** The press itself is the first step of the drag it starts, so the
      pressed cell is not changed again by that drag. */
  lemma PressIsFirstDragStep(tool: Tool, s: CellState)
    ensures var d := StartDrag(tool, s);
      DragStep(d, s) == DragTarget(d) && DragStep(d, DragTarget(d).value).None?
  {
  }

  /** `set_cell` on the map of cells: a cell outside the puzzle is left out. */
  function SetCell(b: map<Coord, CellState>, c: Coord, s: CellState): map<Coord, CellState> {
    if c in b then b[c := s] else b
  }

  /** `set_cell` changes the addressed cell of the puzzle and no other, and
      never adds a cell. */
  lemma SetCellChangesOne(b: map<Coord, CellState>, c: Coord, s: CellState)
    ensures var r := SetCell(b, c, s);
      r.Keys == b.Keys && (c in b ==> r[c] == s)
      && forall c' :: c' in b && c' != c ==> r[c'] == b[c']
  {
  }

  /** A drag of type `d` passing over cell `c`. */
  function ApplyDrag(b: map<Coord, CellState>, d: DragType, c: Coord): map<Coord, CellState> {
    if c in b && DragStep(d, b[c]).Some? then SetCell(b, c, DragStep(d, b[c]).value) else b
  }

  /** A drag changes only the cell it passes over, only from its source
      state, and always to its target state; a cell in the source state is
      changed. */
  lemma ApplyDragChangesOnlySource(b: map<Coord, CellState>, d: DragType, c: Coord)
    ensures var r := ApplyDrag(b, d, c);
      r.Keys == b.Keys
      && (forall c' :: c' in b && r[c'] != b[c'] ==>
            c' == c && DragSource(d) == Some(b[c']) && DragTarget(d) == Some(r[c']))
      && (c in b && DragSource(d) == Some(b[c]) ==> Some(r[c]) == DragTarget(d))
  {
    if c in b && DragStep(d, b[c]).Some? {
      SetCellChangesOne(b, c, DragStep(d, b[c]).value);
    }
  }

  // ---------------------------------------------------------------------
  // The handler's state as a value, and one function per event.

  datatype Input = Input(
    board: map<Coord, CellState>,
    selX: int, selY: int, selected: bool,
    mouseX: int, mouseY: int, prevMouseX: int, prevMouseY: int,
    mouseDragging: bool, kbDragging: bool,
    lockType: MouseLockType, lockPos: int,
    mouseDragType: DragType, kbDragType: DragType,
    moveHoriz: int, moveVert: int)

  /** Where the grid is on screen: its origin, cell size and pixel extent. */
  datatype Geometry = Geometry(x: int, y: int, cellSize: nat, gridW: int, gridH: int)

  /** The outcome of the lock check of a drag that is not yet locked. */
  datatype LockChange = MovePrev | LockCol(col: int) | LockRow(row: int) | NoChange

  /** Cell (cx, cy) under the mouse against cell (px, py) of the last
      reference point: a move to another row and column moves the reference
      point; a move of more than two cells along the reference column locks
      the drag to that column, and along the reference row to that row. */
  function LockDecision(cx: int, cy: int, px: int, py: int): (r: LockChange)
    ensures r == MovePrev <==> cx != px && cy != py
    ensures r.LockCol? <==> cx == px && Abs(cy - py) > 2
    ensures r.LockCol? ==> r.col == cx
    ensures r.LockRow? <==> cy == py && Abs(cx - px) > 2
    ensures r.LockRow? ==> r.row == cy
  {
    if cx != px && cy != py then MovePrev
    else if cx == px && Abs(cy - py) > 2 then LockCol(cx)
    else if cy == py && Abs(cx - px) > 2 then LockRow(cy)
    else NoChange
  }

  /** The selection part of `mouse_move`: over the grid the cell under the
      mouse is selected (with the locked coordinate held), elsewhere the
      selection is cleared. */
  function HoverSelect(m: Input, g: Geometry, x: int, y: int): Input {
    if x >= g.x && x < g.x + g.gridW && y >= g.y && y < g.y + g.gridH then
      var cx := if m.lockType == ToCol then m.lockPos else ScreenToCell(g.x, g.cellSize, x);
      var cy := if m.lockType == ToRow then m.lockPos else ScreenToCell(g.y, g.cellSize, y);
      m.(selX := cx, selY := cy, selected := true)
    else
      m.(selected := false)
  }

  /** The lock check of a drag, with the mouse position already updated:
      (cx, cy) is the cell under the mouse and (px, py) the cell of the
      reference point. Only a drag that is not locked yet is affected. */
  function LockUpdate(m: Input, cx: int, cy: int, px: int, py: int): Input {
    if m.lockType != NoLock then m
    else match LockDecision(cx, cy, px, py)
      case MovePrev => m.(prevMouseX := m.mouseX, prevMouseY := m.mouseY)
      case LockCol(col) => m.(lockType := ToCol, lockPos := col)
      case LockRow(row) => m.(lockType := ToRow, lockPos := row)
      case NoChange => m
  }

  /** The cell-drag part of `mouse_move`: hold the locked coordinate, apply
      the lock check, then the drag to the cell under the mouse. */
  function CellDrag(m: Input, g: Geometry, x: int, y: int): Input {
    var mx := if m.lockType == ToCol then m.prevMouseX else x;
    var my := if m.lockType == ToRow then m.prevMouseY else y;
    var cx := ScreenToCell(g.x, g.cellSize, mx);
    var cy := ScreenToCell(g.y, g.cellSize, my);
    var px := ScreenToCell(g.x, g.cellSize, m.prevMouseX);
    var py := ScreenToCell(g.y, g.cellSize, m.prevMouseY);
    var m1 := LockUpdate(m.(mouseX := mx, mouseY := my), cx, cy, px, py);
    m1.(board := ApplyDrag(m.board, m.mouseDragType, (cx, cy)))
  }

  /** `mouse_move(x, y)`; `captured` is whether the window holds the mouse
      capture. */
  function MouseMoveStep(m: Input, g: Geometry, x: int, y: int, captured: bool): Input {
    var m1 := HoverSelect(m, g, x, y);
    if !(m1.mouseDragging && captured) then m1
    else if m1.mouseDragType == Screen then m1.(mouseX := x, mouseY := y)
    else CellDrag(m1, g, x, y)
  }

  /** A press or release that starts or ends a screen drag. */
  function ScreenDrag(m: Input, down: bool): Input {
    m.(mouseDragging := down, mouseDragType := if down then Screen else m.mouseDragType)
  }

  /** The pressed cell `c`: changed as the first step of the drag the press
      starts. A press on a coordinate outside the puzzle changes no cell and
      starts a drag that clears crossed-out cells. */
  function PressCell(m: Input, c: Coord, tool: Tool): Input {
    if c in m.board then
      var d := StartDrag(tool, m.board[c]);
      m.(board := SetCell(m.board, c, DragTarget(d).value), mouseDragType := d)
    else
      m.(mouseDragType := BlankExes)
  }

  /** A press or release over the grid with one of the cell tools. */
  function GridPress(m: Input, g: Geometry, tool: Tool, down: bool): Input {
    var m1 := m.(mouseDragging := down);
    if !down then m1
    else
      var c := (ScreenToCell(g.x, g.cellSize, m.mouseX), ScreenToCell(g.y, g.cellSize, m.mouseY));
      var m2 := m1.(prevMouseX := m.mouseX, prevMouseY := m.mouseY,
                    lockType := if tool == ExTool then NoLock else m.lockType);
      PressCell(m2, c, tool)
  }

  predicate OnGrid(g: Geometry, x: int, y: int) {
    x >= g.x && x <= g.x + g.gridW && y >= g.y && y <= g.y + g.gridH
  }

  /** A press or release of the left (mark) or right (cross) button: a
      release ends the drag and the lock; over the grid the cell tool acts,
      off the grid the left button drags the screen. */
  function ToolPress(m: Input, g: Geometry, tool: Tool, down: bool, onGrid: bool): Input {
    var m1 := if !down then m.(mouseDragging := false, lockType := NoLock) else m;
    if onGrid then GridPress(m1, g, tool, down)
    else if tool == MarkTool then ScreenDrag(m1, down)
    else m1
  }

  /** `mouse_press(button, down)` with the mouse at (mx, my). With reversed
      buttons every button acts as the right one, because the remapping
      assigns instead of comparing. A left press off the grid acts as the
      middle button. */
  function MousePressStep(m: Input, g: Geometry, reverse: bool, button: MouseButton,
                          down: bool, mx: int, my: int): Input
  {
    ButtonPress(m.(mouseX := mx, mouseY := my), g, if reverse then RightButton else button,
                down, OnGrid(g, mx, my))
  }

  /** The button `b` (after remapping) acting with the mouse already at its
      new position. */
  function ButtonPress(m: Input, g: Geometry, b: MouseButton, down: bool, onGrid: bool): Input {
    match b
    case LeftButton => ToolPress(m, g, MarkTool, down, onGrid)
    case MiddleButton => ScreenDrag(m, down)
    case RightButton => ToolPress(m, g, ExTool, down, onGrid)
    case OtherButton => m
  }

  /** A coordinate that left `[0, max]`: wrapped to the other edge, or held
      at the edge during a keyboard drag. */
  function Bound(v: int, max: int, dragging: bool): (r: int)
    ensures max >= 0 ==> 0 <= r <= max
    ensures 0 <= v <= max ==> r == v
    ensures v < 0 ==> r == (if dragging then 0 else max)
    ensures v > max && v >= 0 ==> r == (if dragging then max else 0)
  {
    if v < 0 then (if dragging then 0 else max)
    else if v > max then (if dragging then max else 0)
    else v
  }

  /** `move_selection(horizontal, amount)` on a `width` by `height` puzzle. */
  function MoveSel(m: Input, horizontal: bool, amount: int, width: int, height: int): Input {
    var max := if horizontal then width - 1 else height - 1;
    var v := (if horizontal then m.selX else m.selY) + (if m.selected then amount else 0);
    var nv := Bound(v, max, m.kbDragging);
    if horizontal then m.(selX := nv, selected := true) else m.(selY := nv, selected := true)
  }

  /** The mark or ex-out key going down. */
  function KeyStart(m: Input, tool: Tool): Input {
    if m.selected && !m.kbDragging then
      var c := (m.selX, m.selY);
      var m1 := m.(kbDragging := true);
      if c in m.board then
        var d := StartDrag(tool, m.board[c]);
        m1.(kbDragType := d, board := SetCell(m.board, c, DragTarget(d).value))
      else m1
    else m.(selected := true)
  }

  predicate IsMove(a: KeyAction) {
    a == MoveLeft || a == MoveRight || a == MoveUp || a == MoveDown
  }

  /** A move key: move the selection, then continue a keyboard drag onto the
      newly selected cell. */
  function KeyMove(m: Input, horizontal: bool, amount: int, width: int, height: int): Input {
    var m1 := MoveSel(m, horizontal, amount, width, height);
    if m1.kbDragging then m1.(board := ApplyDrag(m1.board, m1.kbDragType, (m1.selX, m1.selY)))
    else m1
  }

  /** `key_press` of a key bound to `a`, going down. */
  function KeyDownStep(m: Input, a: KeyAction, width: int, height: int): Input {
    match a
    case ScreenLeft => m.(moveHoriz := -MoveSpeed)
    case ScreenRight => m.(moveHoriz := MoveSpeed)
    case ScreenUp => m.(moveVert := -MoveSpeed)
    case ScreenDown => m.(moveVert := MoveSpeed)
    case MoveLeft => KeyMove(m, true, -1, width, height)
    case MoveRight => KeyMove(m, true, 1, width, height)
    case MoveUp => KeyMove(m, false, -1, width, height)
    case MoveDown => KeyMove(m, false, 1, width, height)
    case Mark => KeyStart(m, MarkTool)
    case ExOut => KeyStart(m, ExTool)
    case _ => m
  }

  /** `key_press` of a key bound to `a`, going up. */
  function KeyUpStep(m: Input, a: KeyAction): Input {
    match a
    case ScreenLeft => m.(moveHoriz := 0)
    case ScreenRight => m.(moveHoriz := 0)
    case ScreenUp => m.(moveVert := 0)
    case ScreenDown => m.(moveVert := 0)
    case Mark => m.(kbDragging := false)
    case ExOut => m.(kbDragging := false)
    case _ => m
  }

  // ---------------------------------------------------------------------
  // What the events promise.

  /** Moving the selection leaves the moved coordinate on the puzzle, keeps
      the other one and selects; off-grid steps wrap, or clamp during a
      keyboard drag. */
  lemma MoveSelStaysOnPuzzle(m: Input, horizontal: bool, amount: int, width: int, height: int)
    ensures var r := MoveSel(m, horizontal, amount, width, height);
      var max := if horizontal then width - 1 else height - 1;
      var old_v := if horizontal then m.selX else m.selY;
      var v := if horizontal then r.selX else r.selY;
      var step := old_v + (if m.selected then amount else 0);
      (max >= 0 ==> 0 <= v <= max)
      && (horizontal ==> r.selY == m.selY) && (!horizontal ==> r.selX == m.selX)
      && r.selected && r.board == m.board
      && (step < 0 ==> v == (if m.kbDragging then 0 else max))
      && (step > max && step >= 0 ==> v == (if m.kbDragging then max else 0))
  {
  }

  /** A mouse move changes a cell only during a cell drag, only the cell
      under the mouse (with the locked coordinate held, which is where the
      recorded mouse position now is), and only from the drag's source
      state to its target state. */
  lemma MouseMoveChangesOnlySource(m: Input, g: Geometry, x: int, y: int, captured: bool)
    ensures var r := MouseMoveStep(m, g, x, y, captured);
      r.board.Keys == m.board.Keys
      && (!(m.mouseDragging && captured) || m.mouseDragType == Screen ==> r.board == m.board)
      && forall c :: c in m.board && r.board[c] != m.board[c] ==>
           c == (ScreenToCell(g.x, g.cellSize, r.mouseX), ScreenToCell(g.y, g.cellSize, r.mouseY))
           && DragSource(m.mouseDragType) == Some(m.board[c]) && DragTarget(m.mouseDragType) == Some(r.board[c])
  {
  }

  /** A keyboard move changes a cell only during a keyboard drag, only the
      newly selected cell, and only from the drag's source state to its
      target state. */
  lemma KeyMoveChangesOnlySource(m: Input, a: KeyAction, width: int, height: int)
    requires IsMove(a)
    ensures var r := KeyDownStep(m, a, width, height);
      r.board.Keys == m.board.Keys
      && (!m.kbDragging ==> r.board == m.board)
      && forall c :: c in m.board && r.board[c] != m.board[c] ==>
           c == (r.selX, r.selY)
           && DragSource(m.kbDragType) == Some(m.board[c]) && DragTarget(m.kbDragType) == Some(r.board[c])
  {
  }

  /** Once a drag is locked to a row or column, moving the mouse keeps the
      lock, and over the grid the locked coordinate of the selection is the
      lock position. */
  lemma LockHolds(m: Input, g: Geometry, x: int, y: int, captured: bool)
    requires m.lockType != NoLock
    ensures var r := MouseMoveStep(m, g, x, y, captured);
      r.lockType == m.lockType && r.lockPos == m.lockPos
      && (r.selected ==> if m.lockType == ToRow then r.selY == m.lockPos else r.selX == m.lockPos)
  {
  }

  /** Pressing a cell tool on a cell of the grid changes that cell as the
      first step of the drag it starts and records the drag; the left button
      (or mark key) never starts crossing out and the right button (or
      ex-out key) never starts marking. */
  lemma PressStartsDrag(m: Input, g: Geometry, button: MouseButton, mx: int, my: int)
    requires button == LeftButton || button == RightButton
    requires OnGrid(g, mx, my)
    ensures var r := MousePressStep(m, g, false, button, true, mx, my);
      var c := (ScreenToCell(g.x, g.cellSize, mx), ScreenToCell(g.y, g.cellSize, my));
      r.mouseDragging && r.prevMouseX == mx && r.prevMouseY == my
      && (c in m.board ==>
            DragSource(r.mouseDragType) == Some(m.board[c])
            && DragTarget(r.mouseDragType) == Some(r.board[c]))
      && (button == LeftButton ==> r.mouseDragType != Exes)
      && (button == RightButton ==> r.mouseDragType != Marks && r.lockType == NoLock)
  {
  }

  /** A left press or release off the grid starts or ends a screen drag and
      leaves every cell alone. */
  lemma LeftOffGridDragsScreen(m: Input, g: Geometry, down: bool, mx: int, my: int)
    requires !OnGrid(g, mx, my)
    ensures var r := MousePressStep(m, g, false, LeftButton, down, mx, my);
      r.mouseDragging == down && (down ==> r.mouseDragType == Screen) && r.board == m.board
  {
  }

  // ---------------------------------------------------------------------

  class InputHandler {
    const game: Game
    const reverseMouse: bool
    /** The puzzle's size in cells. */
    const width: int
    const height: int
    var board: map<Coord, CellState>
    var selX: int
    var selY: int
    var selected: bool
    var mouseX: int
    var mouseY: int
    var prevMouseX: int
    var prevMouseY: int
    var mouseDragging: bool
    var kbDragging: bool
    var mouseLockType: MouseLockType
    var mouseLockPos: int
    var mouseDragType: DragType
    var kbDragType: DragType
    var moveScreenHoriz: int
    var moveScreenVert: int
    var keyMapping: map<int, KeyAction>

    function View(): Input
      reads this
    {
      Input(board, selX, selY, selected, mouseX, mouseY, prevMouseX, prevMouseY,
            mouseDragging, kbDragging, mouseLockType, mouseLockPos,
            mouseDragType, kbDragType, moveScreenHoriz, moveScreenVert)
    }

    function Geo(gridW: int, gridH: int): Geometry
      reads this, game
    {
      Geometry(game.x, game.y, game.cellSize, gridW, gridH)
    }

    /** `InputHandler(window, game)`: mouse at the origin, no drag, no
        lock, no screen movement, buttons not reversed. The lock position
        and the drag types are left uninitialised by the source and are
        unconstrained here. */
    constructor (game: Game, width: int, height: int, board: map<Coord, CellState>,
                 selX: int, selY: int, selected: bool)
      ensures this.game == game && this.width == width && this.height == height
      ensures this.board == board && this.selX == selX && this.selY == selY && this.selected == selected
      ensures !reverseMouse
      ensures mouseX == 0 && mouseY == 0 && prevMouseX == 0 && prevMouseY == 0
      ensures !mouseDragging && !kbDragging && mouseLockType == NoLock
      ensures moveScreenHoriz == 0 && moveScreenVert == 0
    {
      this.game := game;
      this.width, this.height := width, height;
      this.board := board;
      this.selX, this.selY, this.selected := selX, selY, selected;
      reverseMouse := false;
      mouseX, mouseY, prevMouseX, prevMouseY := 0, 0, 0, 0;
      mouseDragging, kbDragging := false, false;
      mouseLockType := NoLock;
      moveScreenHoriz, moveScreenVert := 0, 0;
    }

    /** `associate_key(action, key)`. */
    method AssociateKey(action: KeyAction, key: int)
      modifies this
      ensures keyMapping == old(keyMapping)[key := action]
      ensures View() == old(View())
    {
      keyMapping := keyMapping[key := action];
    }

    /** `set_cell(x, y, state)` on the game's puzzle. */
    method SetCellState(x: int, y: int, s: CellState)
      modifies this
      ensures board == SetCell(old(board), (x, y), s)
      ensures View() == old(View()).(board := board)
      ensures keyMapping == old(keyMapping)
    {
      if (x, y) in board {
        board := board[(x, y) := s];
      }
    }

    /** `mouse_move(x, y)`. */
    method MouseMove(x: int, y: int, gridW: int, gridH: int, captured: bool)
      modifies this
      ensures View() == MouseMoveStep(old(View()), Geo(gridW, gridH), x, y, captured)
      ensures keyMapping == old(keyMapping)
    {
      Hover(x, y, gridW, gridH);
      if mouseDragging && captured {
        if mouseDragType == Screen {
          mouseX, mouseY := x, y;
        } else {
          DragTo(x, y, gridW, gridH);
        }
      }
    }

    /** The selection part of `mouse_move`. */
    method Hover(x: int, y: int, gridW: int, gridH: int)
      modifies this
      ensures View() == HoverSelect(old(View()), Geo(gridW, gridH), x, y)
      ensures keyMapping == old(keyMapping)
    {
      var gx, gy := game.GetPuzzleCoords();
      if x >= gx && x < gx + gridW && y >= gy && y < gy + gridH {
        var cx, cy := game.ScreenCoordsToCellCoords(x, y);
        if mouseLockType == ToRow {
          cy := mouseLockPos;
        } else if mouseLockType == ToCol {
          cx := mouseLockPos;
        }
        selX, selY, selected := cx, cy, true;
      } else {
        selected := false;
      }
    }

    /** The cell-drag part of `mouse_move`. */
    method DragTo(x: int, y: int, ghost gridW: int, ghost gridH: int)
      modifies this
      ensures View() == CellDrag(old(View()), Geo(gridW, gridH), x, y)
      ensures keyMapping == old(keyMapping)
    {
      var mx, my := x, y;
      if mouseLockType == ToRow {
        my := prevMouseY;
      } else if mouseLockType == ToCol {
        mx := prevMouseX;
      }
      var cx, cy := game.ScreenCoordsToCellCoords(mx, my);
      var px, py := game.ScreenCoordsToCellCoords(prevMouseX, prevMouseY);
      mouseX, mouseY := mx, my;
      ghost var m1 := View();
      assert m1 == old(View()).(mouseX := mx, mouseY := my);
      LockMouse(cx, cy, px, py);
      assert board == old(board) && mouseDragType == old(mouseDragType);
      DragOver(cx, cy);
      assert View() == LockUpdate(m1, cx, cy, px, py).(board := ApplyDrag(old(board), old(mouseDragType), (cx, cy)));
    }

    /** The lock check of `mouse_move`. */
    method LockMouse(cx: int, cy: int, px: int, py: int)
      modifies this
      ensures View() == LockUpdate(old(View()), cx, cy, px, py)
      ensures keyMapping == old(keyMapping)
    {
      if mouseLockType == NoLock {
        if cx != px && cy != py {
          prevMouseX, prevMouseY := mouseX, mouseY;
        } else if cx == px && Abs(cy - py) > 2 {
          mouseLockType, mouseLockPos := ToCol, cx;
        } else if cy == py && Abs(cx - px) > 2 {
          mouseLockType, mouseLockPos := ToRow, cy;
        }
      }
    }

    /** The cell update of `mouse_move`: the drag passes over (cx, cy). */
    method DragOver(cx: int, cy: int)
      modifies this
      ensures View() == old(View()).(board := ApplyDrag(old(board), mouseDragType, (cx, cy)))
      ensures keyMapping == old(keyMapping)
    {
      var state := Blank;
      var change := false;
      var c := (cx, cy);
      if mouseDragType == Marks && c in board && board[c] == Blank {
        change, state := true, Marked;
      } else if mouseDragType == Exes && c in board && board[c] == Blank {
        change, state := true, ExedOut;
      } else if mouseDragType == BlankMarks && c in board && board[c] == Marked {
        change, state := true, Blank;
      } else if mouseDragType == BlankExes && c in board && board[c] == ExedOut {
        change, state := true, Blank;
      }
      if change {
        SetCellState(cx, cy, state);
      }
    }

    /** A press or release of a cell tool over the grid. */
    method PressOnGrid(tool: Tool, down: bool, ghost gridW: int, ghost gridH: int)
      modifies this
      ensures View() == GridPress(old(View()), Geo(gridW, gridH), tool, down)
      ensures keyMapping == old(keyMapping)
    {
      mouseDragging := down;
      if down {
        var x, y := game.ScreenCoordsToCellCoords(mouseX, mouseY);
        prevMouseX, prevMouseY := mouseX, mouseY;
        if tool == ExTool {
          mouseLockType := NoLock;
        }
        ghost var m2 := View();
        assert m2 == old(View()).(mouseDragging := true, prevMouseX := mouseX, prevMouseY := mouseY,
                                  lockType := mouseLockType);
        MarkPressedCell(x, y, tool);
      }
    }

    /** The cell part of a press: change the cell, record the drag. */
    method MarkPressedCell(x: int, y: int, tool: Tool)
      modifies this
      ensures View() == PressCell(old(View()), (x, y), tool)
      ensures keyMapping == old(keyMapping)
    {
      var c := (x, y);
      var state := Blank;
      var dragType := BlankExes;
      if c in board && board[c] == Blank {
        state := if tool == MarkTool then Marked else ExedOut;
        dragType := if tool == MarkTool then Marks else Exes;
      } else if c in board && board[c] == Marked {
        dragType := BlankMarks;
      }
      SetCellState(x, y, state);
      mouseDragType := dragType;
    }

    /** `mouse_press(button, down)` with the mouse at (mx, my). */
    method MousePress(button: MouseButton, down: bool, mx: int, my: int, gridW: int, gridH: int)
      modifies this
      ensures View() == MousePressStep(old(View()), Geo(gridW, gridH), reverseMouse, button, down, mx, my)
      ensures keyMapping == old(keyMapping)
    {
      var b := if reverseMouse then RightButton else button;
      mouseX, mouseY := mx, my;
      var gx, gy := game.GetPuzzleCoords();
      var onGrid := mouseX >= gx && mouseX <= gx + gridW && mouseY >= gy && mouseY <= gy + gridH;
      assert View() == old(View()).(mouseX := mx, mouseY := my);
      assert onGrid == OnGrid(Geo(gridW, gridH), mx, my);
      PressButton(b, down, onGrid, gridW, gridH);
    }

    /** The button part of `mouse_press`, after the remapping. */
    method PressButton(b: MouseButton, down: bool, onGrid: bool, ghost gridW: int, ghost gridH: int)
      modifies this
      ensures View() == ButtonPress(old(View()), Geo(gridW, gridH), b, down, onGrid)
      ensures keyMapping == old(keyMapping)
    {
      match b {
        case MiddleButton => ScreenPress(down);
        case LeftButton => PressTool(MarkTool, down, onGrid, gridW, gridH);
        case RightButton => PressTool(ExTool, down, onGrid, gridW, gridH);
        case OtherButton =>
      }
    }

    /** The left or right button of `mouse_press`. */
    method PressTool(tool: Tool, down: bool, onGrid: bool, ghost gridW: int, ghost gridH: int)
      modifies this
      ensures View() == ToolPress(old(View()), Geo(gridW, gridH), tool, down, onGrid)
      ensures keyMapping == old(keyMapping)
    {
      if !down {
        mouseDragging, mouseLockType := false, NoLock;
      }
      if onGrid {
        PressOnGrid(tool, down, gridW, gridH);
      } else if tool == MarkTool {
        ScreenPress(down);
      }
    }

    /** A press or release that starts or ends a screen drag. */
    method ScreenPress(down: bool)
      modifies this
      ensures View() == ScreenDrag(old(View()), down)
      ensures keyMapping == old(keyMapping)
    {
      mouseDragging := down;
      if down {
        mouseDragType := Screen;
      }
    }

    /** `move_selection(horizontal, amount)`. */
    method MoveSelection(horizontal: bool, amount: int)
      modifies this
      ensures View() == MoveSel(old(View()), horizontal, amount, width, height)
      ensures keyMapping == old(keyMapping)
    {
      var sx, sy := selX, selY;
      var change := if horizontal then sx else sy;
      var max := if horizontal then width - 1 else height - 1;
      if selected {
        change := change + amount;
      }
      if change < 0 {
        change := if kbDragging then 0 else max;
      } else if change > max {
        change := if kbDragging then max else 0;
      }
      if horizontal {
        sx := change;
      } else {
        sy := change;
      }
      selX, selY, selected := sx, sy, true;
    }

    /** The mark or ex-out key going down. */
    method StartKeyDrag(tool: Tool)
      modifies this
      ensures View() == KeyStart(old(View()), tool)
      ensures keyMapping == old(keyMapping)
    {
      if selected && !kbDragging {
        var c := (selX, selY);
        var dragType := kbDragType;
        var state := Blank;
        var change := false;
        if c in board && board[c] == Blank {
          dragType := if tool == MarkTool then Marks else Exes;
          state, change := if tool == MarkTool then Marked else ExedOut, true;
        } else if c in board && board[c] == Marked {
          dragType, change := BlankMarks, true;
        } else if c in board && board[c] == ExedOut {
          dragType, change := BlankExes, true;
        }
        kbDragging, kbDragType := true, dragType;
        ghost var m1 := View();
        assert m1 == old(View()).(kbDragging := true, kbDragType := dragType);
        if change {
          SetCellState(selX, selY, state);
        }
      } else {
        selected := true;
      }
    }

    /** A move key going down. */
    method MoveKey(horizontal: bool, amount: int)
      modifies this
      ensures View() == KeyMove(old(View()), horizontal, amount, width, height)
      ensures keyMapping == old(keyMapping)
    {
      MoveSelection(horizontal, amount);
      if kbDragging {
        var c := (selX, selY);
        var state := Blank;
        var change := false;
        match kbDragType {
        case Marks =>
          if c in board && board[c] == Blank {
            change, state := true, Marked;
          }
        case Exes =>
          if c in board && board[c] == Blank {
            change, state := true, ExedOut;
          }
        case BlankMarks =>
          if c in board && board[c] == Marked {
            change, state := true, Blank;
          }
        case BlankExes =>
          if c in board && board[c] == ExedOut {
            change, state := true, Blank;
          }
        case Screen =>
        }
        if change {
          SetCellState(selX, selY, state);
        }
      }
    }

    /** `key_press(key, down)`: keys without a binding do nothing. */
    method KeyPress(key: int, down: bool)
      modifies this
      ensures key !in keyMapping ==> View() == old(View())
      ensures key in keyMapping && down ==>
        View() == KeyDownStep(old(View()), keyMapping[key], width, height)
      ensures key in keyMapping && !down ==> View() == KeyUpStep(old(View()), keyMapping[key])
      ensures keyMapping == old(keyMapping)
    {
      if key !in keyMapping {
        return;
      }
      var action := keyMapping[key];
      if down {
        match action
        case ScreenLeft => moveScreenHoriz := -MoveSpeed;
        case ScreenRight => moveScreenHoriz := MoveSpeed;
        case ScreenUp => moveScreenVert := -MoveSpeed;
        case ScreenDown => moveScreenVert := MoveSpeed;
        case MoveLeft => MoveKey(true, -1);
        case MoveRight => MoveKey(true, 1);
        case MoveUp => MoveKey(false, -1);
        case MoveDown => MoveKey(false, 1);
        case Mark => StartKeyDrag(MarkTool);
        case ExOut => StartKeyDrag(ExTool);
        case _ =>
      } else {
        match action
        case ScreenLeft => moveScreenHoriz := 0;
        case ScreenRight => moveScreenHoriz := 0;
        case ScreenUp => moveScreenVert := 0;
        case ScreenDown => moveScreenVert := 0;
        case Mark => kbDragging := false;
        case ExOut => kbDragging := false;
        case _ =>
      }
    }
  }
}
