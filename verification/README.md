# nonny core in Dafny

A Dafny model of the logic at the heart of nonny, a nonogram (paint-by-numbers)
game. A puzzle is a grid of cells that are blank, filled with a colour or crossed
out. Each row and each column carries a sequence of clues, one per run of filled
cells of a single colour; a line with no runs carries the lone zero clue. The
model covers six parts of the program.

- **The puzzle** (`puzzle.dfy`, module `PuzzleModel`, over the values of
  `grid.dfy`). It covers the constructor with one zero clue per line,
  `mark_cell`, and the solved checks `is_row_solved`, `is_col_solved` and
  `is_solved`, exactly as the code has them. `line_check.dfy` (module
  `LineCheck`) holds the line check those functions are meant to perform: a line
  is solved when its maximal runs are its clues. It is proved to decide exactly
  that. `findings.dfy` exhibits, on concrete grids, where the two disagree (see
  Findings).
- **The solver's block sequence** (`block_sequence.dfy`, module `Solver`). This
  is the interface of the class: blocks, size queries, indexed access, and
  forward and reverse iteration.
- **The game's screen geometry** (`game.dfy`, module `GameModel`). This is the
  game object's defaults and rule dimensions, and the conversions between screen
  pixels and cells. The conversions use C++'s truncating integer division.
- **Mouse and keyboard input** (`input_handler.dfy`, module `Input`).
  - Pressing and dragging over cells marks, crosses out or clears them.
  - A mouse drag locks to a row or column.
  - The screen can be dragged.
  - The keyboard moves the selection (wrapping, or clamping during a keyboard
    drag) and supports keyboard drags.
  - The handler is a class whose state, as a value (`View()`), follows one
    specification function per event. The lemmas are stated on those functions.
- **The file browser** (`file_view.dfy`, module `FileBrowser`). It covers the
  back/forward history of visited directories, opening a parent or an element of
  the current path, and tab focus over the view's eight controls.
- **Dialog focus** (`dialog.dfy`, module `Dialogs`). Tab and shift-tab move focus
  to the next or previous control that accepts it, wrapping round the list.

Each class's methods are proved against a pure step function on a value of its
state. The properties are lemmas about those functions.

The `Grid` class is not part of this model, and neither is `Grid::at`. The grid
is modelled as an owned row-major buffer, with `at(a, b)` the cell in column `a`
of row `b`; this is the order `mark_cell` and `PuzzleCol::operator[]` use. A
read outside the grid is a distinct outcome (`OutOfRange`) rather than a value.

## Model

| member | source | states |
|---|---|---|
| Grids.ColumnOf | src/puzzle/puzzle.cpp:97-100 | column `col` has one cell per row, and its entry `row` is `at(col, row)` |
| PuzzleModel.Puzzle.CellAt | src/puzzle/puzzle.cpp:39 | reading the owned buffer at (a, b) is the grid's cell in column a of row b |
| PuzzleModel.Puzzle.ZeroClues | src/puzzle/puzzle.cpp:28-34 | the push_back loop yields exactly `n` clue sequences, each the single zero clue |
| PuzzleModel.Puzzle.constructor | src/puzzle/puzzle.cpp:23-35 | a new puzzle has every cell blank and one zero clue per row and per column |
| PuzzleModel.Puzzle.MarkCell | src/puzzle/puzzle.cpp:37-42 | cell (col, row) becomes filled with the colour; every other cell and all clues are unchanged |
| PuzzleModel.Puzzle.IsRowSolved | src/puzzle/puzzle.cpp:57-85 | the loops return the verdict of the as-written row check, reading `at(row, i)` |
| PuzzleModel.EmptyScanMeans | src/puzzle/puzzle.cpp:59-66 | the zero-clue scan passes iff every cell it reads is in the grid and unfilled, and fails iff it meets a filled cell first |
| PuzzleModel.ZeroClueRow | src/puzzle/puzzle.cpp:59-66 | for a row with the lone zero clue: passes iff all `width` reads are in the grid and unfilled; fails iff a filled one comes first |
| PuzzleModel.RunScanMeans | src/puzzle/puzzle.cpp:74-81 | the inner loop passes iff each of the clue's `value` cells is within the `> width` guard, in the grid and filled with the clue's colour |
| PuzzleModel.SkipStops | src/puzzle/puzzle.cpp:70-72 | the skip loop stops on a position from which it does not move again |
| PuzzleModel.SkipInRange | src/puzzle/puzzle.cpp:70-72 | when every read up to `width` is in the grid, the skip loop never leaves the grid |
| PuzzleModel.ClueScanFrom | src/puzzle/puzzle.cpp:68-82 | once `pos` is on a filled cell, the clue loop passes iff every clue matches the same run from `pos` |
| PuzzleModel.RowVerdictClosedForm | src/puzzle/puzzle.cpp:57-85 | the row check passes iff every clue fits the run at the first filled cell; no clues pass; all reads in range never give OutOfRange |
| PuzzleModel.SolvedVerdictMeans | src/puzzle/puzzle.cpp:50-54 | the row loop passes iff every row check passes, and otherwise returns the verdict of some row |
| PuzzleModel.Puzzle.IsColSolved | src/puzzle/puzzle.cpp:87-90 | every column is reported solved |
| PuzzleModel.Puzzle.IsSolved | src/puzzle/puzzle.cpp:44-55 | passes iff every row's as-written check passes; otherwise returns the verdict of a failing row (columns always pass) |
| PuzzleModel.Puzzle.CheckRow | src/puzzle/puzzle.cpp:57-85 | corrected row check: true iff row `row` (cells `at(i, row)`) is solved for its clues |
| PuzzleModel.Puzzle.CheckColumn | src/puzzle/puzzle.cpp:87-90 | corrected column check: true iff column `col` is solved for its clues |
| PuzzleModel.Puzzle.CheckSolved | src/puzzle/puzzle.cpp:44-55 | corrected puzzle check: true iff every column and every row is solved |
| LineCheck.RunEnd | src/puzzle/puzzle.cpp:74-81 | the run from `i` is filled with the colour throughout and is maximal |
| LineCheck.RunsFrom | src/puzzle/puzzle.cpp:68-82 | the runs of a line are clues with positive values |
| LineCheck.NextFilled | src/puzzle/puzzle.cpp:70-72 | the first filled cell at or after `pos` (or the end); no filled cell is skipped |
| LineCheck.ScanGivesRuns | src/puzzle/puzzle.cpp:68-82 | a clue sequence the clue-by-clue scan accepts is the runs of the line |
| LineCheck.RunsPassScan | src/puzzle/puzzle.cpp:68-82 | the runs of the line pass the clue-by-clue scan |
| LineCheck.ScanMatchesRuns | src/puzzle/puzzle.cpp:68-82 | the scan accepts a clue sequence iff it is exactly the runs of the line |
| LineCheck.SkipToFilled | src/puzzle/puzzle.cpp:70-72 | the skip loop stops at the first filled cell at or after `pos` |
| LineCheck.RunFilled | src/puzzle/puzzle.cpp:74-81 | true iff the `len` cells from `p` are all filled with the colour |
| LineCheck.MatchClue | src/puzzle/puzzle.cpp:69-81 | one clue matches iff its run sits at the next filled cell and ends there; `next` is just past the run |
| LineCheck.CheckLine | src/puzzle/puzzle.cpp:57-85 | corrected line check: true iff the line's runs are exactly its clues (none for the lone zero clue) |
| Findings.GuardReadsPastGrid | src/puzzle/puzzle.cpp:75 | a 1 by 1 blank puzzle with row clue 1 makes the row check read outside the grid |
| Findings.GuardCountsCellPastLine | src/puzzle/puzzle.cpp:74-81 | a run of one at the end of a line passes clue 2 by counting the cell past the line |
| Findings.SecondClueRereadsFirstRun | src/puzzle/puzzle.cpp:68-82 | one filled cell passes the clues 1 1 |
| Findings.RunEndUnchecked | src/puzzle/puzzle.cpp:74-82 | a run of two passes the clue 1 |
| Findings.RowReadsColumn | src/puzzle/puzzle.cpp:62-77 | a solved top row of a 2 by 2 puzzle fails, because column 0 is read |
| Findings.ColumnsNeverChecked | src/puzzle/puzzle.cpp:87-90 | a blank puzzle whose column asks for a cell is reported solved |
| Solver.DefaultBlock | src/solver/block_sequence.hpp:28-32 | a default block has position 0 and length 0 |
| Solver.Reversed | src/solver/block_sequence.hpp:57-60 | reverse order has the same length, and its entry i is the stored block counted i from the end |
| Solver.ReversedInvolution | src/solver/block_sequence.hpp:57-60 | reversing twice gives back the stored order |
| Solver.ReversedSameBlocks | src/solver/block_sequence.hpp:47-60 | reverse iteration visits the same blocks as forward iteration, each as often |
| Solver.BlockSequence.Empty | src/solver/block_sequence.hpp:44-45 | `empty()` holds iff `size() == 0` |
| Solver.BlockSequence.Get | src/solver/block_sequence.hpp:63 | an index below `size()` reads block `index`, as `operator[]` does |
| Solver.BlockSequence.Set | src/solver/block_sequence.hpp:62 | writing block `index` changes it alone; size, other blocks and the line size are unchanged |
| Solver.BlockSequence.Forward | src/solver/block_sequence.hpp:51-56 | forward iteration visits the blocks in stored order |
| Solver.BlockSequence.Backward | src/solver/block_sequence.hpp:57-60 | reverse iteration visits the blocks last first |
| GameModel.TruncDivRemainder | src/game.cpp:47-48 | C++ division: the remainder has the sign of the dividend and is smaller than the divisor in size |
| GameModel.AdjacentCells | src/game.cpp:51-55 | cells x and x+1 start exactly `cell_size + 1` pixels apart |
| GameModel.CellRoundTrip | src/game.cpp:45-55 | converting a cell to its first pixel and back gives the same cell |
| GameModel.PixelInCell | src/game.cpp:45-49 | every pixel from a cell's first pixel up to the next cell's converts to that cell |
| GameModel.ScreenToCellMonotone | src/game.cpp:45-49 | the screen-to-cell conversion is non-decreasing |
| GameModel.ScreenToCellBounds | src/game.cpp:45-49 | along one axis, a pixel past the origin lies within the cell it converts to; one at or before the origin gives a cell index of at most 0 |
| GameModel.PixelsBeforeGridInCellZero | src/game.cpp:45-49 | the `cell_size` pixels just before cell 0 also convert to 0, because division truncates |
| GameModel.Game.constructor | src/game.cpp:10-13 | origin (150, 150), cell size 32, size to be recalculated, empty rule areas |
| GameModel.Game.SetRuleDimensions | src/game.cpp:28-32 | both dimensions are stored, `has_size_changed()` is false, origin and cell size unchanged |
| GameModel.Game.GetPuzzleCoords | src/game.cpp:34-37 | returns the grid origin and changes nothing |
| GameModel.Game.ScreenCoordsToCellCoords | src/game.cpp:45-49 | a pixel past the origin lies within the returned cell; one at or before it gives a cell index of at most 0 |
| GameModel.Game.CellCoordsToScreenCoords | src/game.cpp:51-55 | returns `m_x + 1 + x*(cell_size+1)`, which converts back to the same cell |
| Input.DragStep | src/input_handler.cpp:103-127 | a drag changes a cell iff the cell is in the drag's source state, and then always to the target state |
| Input.DragStepOnce | src/input_handler.cpp:103-127 | a cell a drag has changed is left alone when the drag passes over it again |
| Input.StartDrag | src/input_handler.cpp:169-229 | a press starts the drag whose source is the pressed cell's state; blank starts marking (left) or crossing (right) |
| Input.PressIsFirstDragStep | src/input_handler.cpp:169-179 | the press changes the cell exactly as the first step of its drag would, so the drag does not change it again |
| Input.SetCellChangesOne | src/input_handler.cpp:126-127 | setting a cell changes that cell of the puzzle alone and adds no cell |
| Input.ApplyDragChangesOnlySource | src/input_handler.cpp:103-127 | a drag over a cell changes only that cell, only from the source state, always to the target |
| Input.LockDecision | src/input_handler.cpp:90-101 | diagonal move moves the reference point; more than two cells along its column locks to the column, along its row to the row |
| Input.Bound | src/input_handler.cpp:437-448 | in `[0, max]` the value stays; below 0 it wraps to max (clamps to 0 in a keyboard drag); above max it wraps to 0 (clamps to max) |
| Input.MoveSelStaysOnPuzzle | src/input_handler.cpp:419-451 | the moved coordinate ends in `[0, max]`, the other is kept, the cell is selected, and the step wraps or clamps |
| Input.MouseMoveChangesOnlySource | src/input_handler.cpp:44-130 | a mouse move changes cells only during a cell drag, only the cell under the recorded mouse position (the locked coordinate held), and only from the drag's source to its target state |
| Input.KeyMoveChangesOnlySource | src/input_handler.cpp:349-386 | a move key changes only the newly selected cell, only in a keyboard drag, from source to target state |
| Input.LockHolds | src/input_handler.cpp:51-101 | a locked drag stays locked, and the selection keeps the locked coordinate |
| Input.PressStartsDrag | src/input_handler.cpp:146-235 | a press on the grid starts a drag, records the reference point and changes the pressed cell as its first step; left never crosses, right never marks and unlocks |
| Input.LeftOffGridDragsScreen | src/input_handler.cpp:147-196 | a left press off the grid falls through to the middle button: it starts or ends a screen drag and changes no cell |
| Input.InputHandler.constructor | src/input_handler.cpp:13-21 | mouse at the origin, no drag, no lock, no screen movement, buttons not reversed |
| Input.InputHandler.AssociateKey | src/input_handler.cpp:27-29 | binds the key to the action and changes nothing else |
| Input.InputHandler.SetCellState | src/input_handler.cpp:126-127 | sets one cell of the puzzle; nothing else changes |
| Input.InputHandler.MouseMove | src/input_handler.cpp:44-130 | the new state is the mouse-move step of the old one |
| Input.InputHandler.Hover | src/input_handler.cpp:51-64 | over the grid the cell under the mouse is selected, holding the locked coordinate; elsewhere the selection is cleared |
| Input.InputHandler.DragTo | src/input_handler.cpp:75-128 | holds the locked coordinate, applies the lock check, then drags over the cell under the mouse |
| Input.InputHandler.LockMouse | src/input_handler.cpp:90-101 | an unlocked drag moves its reference point or locks as the lock decision says |
| Input.InputHandler.DragOver | src/input_handler.cpp:103-127 | the drag passes over one cell; nothing else changes |
| Input.InputHandler.PressOnGrid | src/input_handler.cpp:156-179 | press or release over the grid with one cell tool |
| Input.InputHandler.MarkPressedCell | src/input_handler.cpp:169-179 | the pressed cell changes as the first step of the drag the press starts, which is recorded |
| Input.InputHandler.MousePress | src/input_handler.cpp:132-236 | the new state is the mouse-press step: button remap, then the left, middle or right case |
| Input.InputHandler.PressButton | src/input_handler.cpp:146-235 | after the remap, the left button acts as the mark tool, the right one as the cross tool, the middle one drags the screen; other buttons change nothing |
| Input.InputHandler.PressTool | src/input_handler.cpp:147-185 | a release ends the drag and the lock; over the grid the tool acts; off the grid the left button drags the screen |
| Input.InputHandler.ScreenPress | src/input_handler.cpp:188-196 | a press starts a screen drag, a release ends the drag |
| Input.InputHandler.MoveSelection | src/input_handler.cpp:419-451 | the selection moves as `MoveSel`, so it stays on the puzzle |
| Input.InputHandler.StartKeyDrag | src/input_handler.cpp:291-318 | with a selection and no keyboard drag, starts one and changes the selected cell; otherwise only selects |
| Input.InputHandler.MoveKey | src/input_handler.cpp:349-386 | moves the selection, then continues a keyboard drag onto the new cell |
| Input.InputHandler.KeyPress | src/input_handler.cpp:251-417 | an unbound key changes nothing; a bound key acts by its action, going down or up |
| Dialogs.FindFrom | src/ui/dialog.cpp:68 | the first control at or after `i` that accepts focus, or the end; none before it does |
| Dialogs.FindLast | src/ui/dialog.cpp:44-45 | the last control before `i` that accepts focus, or none when none does |
| Dialogs.NextCursorIsNextFocusable | src/ui/dialog.cpp:63-74 | tab lands on the next focusable control after the cursor, wrapping; the end only when none accepts focus |
| Dialogs.PrevCursorIsPrevFocusable | src/ui/dialog.cpp:41-53 | shift-tab lands on the nearest focusable control before the cursor, wrapping; the first control when none accepts focus |
| Dialogs.PrevUndoesNext | src/ui/dialog.cpp:34-75 | from a focusable control, tab then shift-tab returns to it |
| Dialogs.NextUndoesPrev | src/ui/dialog.cpp:34-75 | from a focusable control, shift-tab then tab returns to it |
| Dialogs.SameFocusability | src/ui/dialog.cpp:43-47 | the cursor searches depend only on which controls accept focus |
| Dialogs.TabAfterAddControl | src/ui/dialog.cpp:27-32 | the control is appended, reposition is requested, and the cursor is at the end |
| Dialogs.TabFromEndFocusesFirst | src/ui/dialog.cpp:57-75 | from the end, tab gives focus to the first control that accepts it |
| Dialogs.MoveFocus | src/ui/dialog.cpp:113-123 | taking focus from the cursor, moving it and giving focus leaves focus only at the new cursor, iff it accepts focus |
| Dialogs.TabKeepsFocusAtCursor | src/ui/dialog.cpp:57-75 | when no control but the cursor one has focus: tab only gives focus to a cursor control awaiting it; otherwise it moves focus to the next focusable control; afterwards still no control but the cursor one has focus |
| Dialogs.ShiftTabKeepsFocusAtCursor | src/ui/dialog.cpp:34-55 | shift-tab as tab, towards the previous focusable control, under the same premise |
| Dialogs.AddControlLeavesFocusBehind | src/ui/dialog.cpp:27-55 | `add_control` does not take focus from the old cursor control, so the premise above can fail: one focused control, a second one added, then shift-tab leaves both focused |
| Dialogs.AddControlKeepsFocusAtCursor | src/ui/dialog.cpp:27-32 | while no control has focus, adding one without focus keeps the premise of the tab lemmas |
| Dialogs.FocusNextLands | src/ui/dialog.cpp:57-75 | tab lands on a control that accepts focus and now has it, or on the end exactly when no control accepts focus |
| Dialogs.FocusNextAsWritten | src/ui/dialog.cpp:57-75 | `focus_next()` as written, defined only for a cursor on a control: lands on a focusable control that now has focus, on the end only when none accepts focus |
| Dialogs.Dialog.AddControl | src/ui/dialog.cpp:27-32 | appends the control, puts the cursor at the end, requests repositioning |
| Dialogs.Dialog.GiveFocus | src/ui/dialog.cpp:113-117 | the cursor control gets focus iff the cursor is on a control that accepts it |
| Dialogs.Dialog.RemoveFocus | src/ui/dialog.cpp:119-123 | the cursor control, if any, loses focus |
| Dialogs.Dialog.FindForward | src/ui/dialog.cpp:68-70 | the forward search loop finds the first focusable control at or after `i` |
| Dialogs.Dialog.FindBackward | src/ui/dialog.cpp:44-47 | the reverse search loop finds the last focusable control before `i` |
| Dialogs.Dialog.FocusNext | src/ui/dialog.cpp:57-75 | tab, with a cursor at the end handled as one before the first control |
| Dialogs.Dialog.FocusPrev | src/ui/dialog.cpp:34-55 | shift-tab |
| FileBrowser.OpenPathStep | src/view/file_view.cpp:325-337 | `p` becomes current and keeps the entries before it; a new `p` lands just after the old current entry (or at the end when there was none), keeping every entry up to that one and dropping the later ones; the current path changes nothing |
| FileBrowser.BackForwardKeepEntries | src/view/file_view.cpp:354-367 | back and forward move the cursor only, back never later and forward never earlier; forward never reaches the end |
| FileBrowser.StepsKeepConsistent | src/view/file_view.cpp:325-367 | open, back and forward keep the cursor on an entry, or at the end of an empty history |
| FileBrowser.ForwardUndoesBack | src/view/file_view.cpp:354-367 | a back that moved is undone by forward |
| FileBrowser.BackUndoesForward | src/view/file_view.cpp:354-367 | a forward that moved is undone by back |
| FileBrowser.BackAfterOpen | src/view/file_view.cpp:325-359 | after opening a new path, back returns to the previous one and forward to the new one |
| FileBrowser.AncestorAdd | src/view/file_view.cpp:576-579 | going up a levels and then b is going up a + b levels |
| FileBrowser.SubdirLevels | src/view/file_view.cpp:576-579 | the loop takes `count - 1 - index` parent steps, none when `index + 1 >= count` |
| FileBrowser.SubdirElements | src/view/file_view.cpp:570-583 | the directory opened for element `index` has exactly `index + 1` elements |
| FileBrowser.SubdirLastIsCurrent | src/view/file_view.cpp:570-583 | opening the last element of the current path changes nothing |
| FileBrowser.FirstFocused | src/view/file_view.cpp:377-378 | the first focused control; none before it has focus |
| FileBrowser.Neighbour | src/view/file_view.cpp:380-386 | the neighbouring control index stays among the controls |
| FileBrowser.SwitchFocusMovesOne | src/view/file_view.cpp:375-399 | with one control focused, focus moves to the next (or previous) control, wrapping at both ends |
| FileBrowser.SwitchFocusFromFirst | src/view/file_view.cpp:377-391 | whatever else has focus, the first focused control loses it, its neighbour (wrapping at both ends) gains it, and every other control keeps its focus |
| FileBrowser.SwitchFocusFromNone | src/view/file_view.cpp:393-398 | with none focused, forward focuses the menu button and backward the filename box |
| FileBrowser.SwitchFocusUndo | src/view/file_view.cpp:375-399 | with one control focused, shift-tab undoes tab and tab undoes shift-tab |
| FileBrowser.FileView.constructor | src/view/file_view.cpp:45-50 | the history holds the starting directory alone, current; in save mode only the filename box has focus |
| FileBrowser.FileView.OpenPath | src/view/file_view.cpp:325-337 | the history follows `OpenPathStep`; focus is unchanged |
| FileBrowser.FileView.Back | src/view/file_view.cpp:354-359 | the history follows `BackStep` |
| FileBrowser.FileView.Forward | src/view/file_view.cpp:361-367 | the history follows `ForwardStep` |
| FileBrowser.FileView.Up | src/view/file_view.cpp:369-373 | opens the parent of the current path when it has one |
| FileBrowser.FileView.OpenSubdir | src/view/file_view.cpp:570-583 | the parent loop opens the ancestor `SubdirLevels` steps up |
| FileBrowser.FileView.SwitchFocus | src/view/file_view.cpp:375-399 | focus follows `SwitchFocusStep`; the history is unchanged |
| FileBrowser.FileView.ClearFocus | src/view/file_view.cpp:401-405 | no control has focus afterwards; the history is unchanged |

## Left out

- Grid, `Grid::at` and `PuzzleCell`: their definitions are not part of this model. The grid is an owned row-major buffer, and a read outside it is the `OutOfRange` verdict instead of whatever `at` does there.
- Color: `Color` is an abstract type with equality and a default value; its representation is not part of this model.
- Puzzle file loading (`Puzzle(filename)`, puzzle_io.hpp) is not part of this model; its parser is not available.
- Solver.BlockSequence.constructor: how the blocks are laid out from the clues is in block_sequence.cpp, which is not part of this model. The new sequence is unconstrained.
- Solver.BlockSequence.SlideLeft: the sliding and flushing bodies are in block_sequence.cpp, not part of this model. Both slide methods promise only their frame.
- Integer widths: cell indices, pixel coordinates and sizes are unbounded integers. 32-bit overflow of `int` and `unsigned` arithmetic is not modelled.
- Cell size: the cell size is a `nat` so that the divisor `cell_size + 1` is positive. A negative `m_cell_size` is not modelled.
- `Game::update`, `load_puzzle`, `age_cells`, `update_screen_size`, zooming and rendering: these are empty or depend on `Puzzle::age_cell`, the window and fonts. They are not modelled.
- `cell_grid_width`/`cell_grid_height`: the grid's pixel extent is a parameter (`gridW`, `gridH`), because those functions are not part of this model.
- `InputHandler::update` (src/input_handler.cpp:31-42): screen scrolling over time uses floating point and `move_puzzle`. It is not modelled; only `moveScreenHoriz`/`moveScreenVert` are.
- `InputHandler::mouse_wheel` (src/input_handler.cpp:238-249): it only calls `zoom_in`/`zoom_out`, which are not part of this model.
- Screen drags: `move_puzzle` during a screen drag is not modelled. The mouse position it records is.
- `make_selected_cell_visible`: it moves the camera and is not modelled.
- SDL: `SDL_CaptureMouse`, the window's capture flag (the `captured` parameter) and `SDL_GetMouseState` (the `mx`, `my` parameters) are inputs; key codes are plain integers.
- `set_default_controls` (src/input_handler.cpp:453-481): the default bindings use SDL key codes, so the model starts from any binding map and models `associate_key` only.
- Input.PressCell: `puzzle().cell(x, y)` outside the puzzle is not part of this model. Such a cell is absent from the cell map. A press there changes no cell and starts a drag that clears crossed-out cells, the source's `else` branch.
- Input.OnGrid: the press test is inclusive (`<=`) while the hover test is strict (`<`), as in the source; both are kept.
- Input.InputHandler.constructor: `m_mouse_lock_pos` and the drag types are left uninitialised by the source and are unconstrained here.
- Input.InputHandler.KeyPress: the reading of the selected cell through `get_selected_cell` and `is_cell_selected` is the handler's own `selX`, `selY` and `selected` fields; the game's selection is not a separate object here.
- `FileView` layout, drawing, `collapse_path`, `path_name_width`, `update`, callbacks and the file selection panel are not modelled. This includes the panel updates in `handle_directory_change` and the `s_last_*_path` statics.
- Filesystem: `home`, `open_saved`, `open_file` and `open_default_dir` use `stdfs::canonical`, `exists` and `create_directories`. The constructor takes the starting directory as a parameter instead.
- FileBrowser.FileView.OpenSubdir: `parent_path()` and `path_subdir_count()` are functions given as parameters (`parent`, `elements`), and `has_parent_path()` is `hasParent` for `Up`.
- `Dialog` constructor, `update`, `draw`, `move` and `position_controls`: dialog.hpp is not part of this model. The tab-key dispatch in `update` only chooses between `focus_prev` and `focus_next`, which are modelled. Controls are records of `canFocus` and `hasFocus`.
- Dialogs.FocusNextAsWritten: `++m_focused` on the end iterator is undefined behaviour, so the as-written step is defined only for a cursor on a control (see Findings).

## Findings

| source | as written | input that shows it | evidently intended | confidence | as-written member | corrected member |
|---|---|---|---|---|---|---|
| src/puzzle/puzzle.cpp:75 | the run guard is `pos + i > width`, so index `width` is read | 1 by 1 blank puzzle, row clue 1: the skip loop stops at 1 and `at(0, 1)` is outside the grid | `pos + i >= width` rejects the row | not executed | Findings.GuardReadsPastGrid, PuzzleModel.RowVerdict | LineCheck.CheckLine, PuzzleModel.Puzzle.CheckRow |
| src/puzzle/puzzle.cpp:74-81 | the same guard lets a cell past the end of the line count towards a run | width 2, height 3, column 0 holding blank, filled, filled; row 0 clue 2: passes | a run of one at the line's end does not match clue 2 | not executed | Findings.GuardCountsCellPastLine, PuzzleModel.RowVerdict | LineCheck.CheckLine, PuzzleModel.Puzzle.CheckRow |
| src/puzzle/puzzle.cpp:68-82 | `pos` is never moved past a matched run, so every clue is matched against the first run | line filled, blank, blank with clues 1 1: passes | the second clue is matched after the first run | not executed | Findings.SecondClueRereadsFirstRun, PuzzleModel.RowVerdictClosedForm | LineCheck.CheckLine, LineCheck.ScanMatchesRuns |
| src/puzzle/puzzle.cpp:74-82 | the end of a run and the cells after the last run are not examined | line filled, filled, blank with clue 1: passes | a run longer than its clue, or an extra run, fails | not executed | Findings.RunEndUnchecked, PuzzleModel.RowVerdictClosedForm | LineCheck.CheckLine, LineCheck.ScanMatchesRuns |
| src/puzzle/puzzle.cpp:62-77 | `is_row_solved(row)` reads `at(row, i)`, which is column `row` | 2 by 2 puzzle with the top row filled, top row clue 2: fails | the row is read as `at(i, row)`, as `mark_cell` writes it | not executed | Findings.RowReadsColumn, PuzzleModel.RowCheck | PuzzleModel.Puzzle.CheckRow |
| src/puzzle/puzzle.cpp:87-90 | `is_col_solved` returns true for every column | 1 by 1 blank puzzle, row clue 0, column clue 1: `is_solved` passes | each column is checked against its clues | not executed | Findings.ColumnsNeverChecked, PuzzleModel.SolvedVerdict | PuzzleModel.Puzzle.CheckColumn, PuzzleModel.Puzzle.CheckSolved |
| src/ui/dialog.cpp:30 | `add_control` leaves the cursor at `end()`, and `focus_next` increments it (line 65) when the cursor control cannot take focus | add a control, then press tab: `++end()` is undefined | from the end, the search starts at the first control | not executed | Dialogs.TabAfterAddControl, Dialogs.FocusNextAsWritten | Dialogs.Dialog.FocusNext, Dialogs.TabFromEndFocusesFirst |
