# Game-of-Life editor: a verified model

The repository holds three successive versions of a terminal editor for
Conway's Game of Life. Apart from curses calls, each is a small key-driven
mode machine; the two later ones also keep a sparse board of live cells
(the packaged version imports its board from a module outside this model).

- `common.dfy` (module `Common`): points, vectors, the exceptions the code
  raises, the curses cursor move that silently fails outside the window, and
  `Command.cursor_transform_for_command`, which all three versions define
  identically (game-of-life.py words its ValueError differently).
- `life.dfy` (module `Life`, game_of_life.py): the `Board` class (a dict of
  live points whose values are always True), the `Screen` class (cursor,
  window extent and the character written at each position), and the
  `GameOfLife` session with its two-mode dispatcher. The dispatcher is a
  method over the three objects, proved against the pure function
  `Dispatched` over a `View` (mode, cursor, live cells, written characters),
  about which the lemmas are stated.
- `life_script.dfy` (module `LifeScript`, game-of-life.py): the first,
  board-less editor; space toggles Insert mode, arrows move the cursor and
  paint after the move. Again a class whose dispatch method is proved against
  a pure `Dispatched`.
- `life_package.dfy` (module `LifePackage`, game_of_life/game_of_life.py):
  the four-mode dispatcher. Its board, screen and data-structure modules are
  not part of this model, so a key press is modelled as the decision it
  makes: whether to go on, the new mode, and the ordered calls it makes.

The curses window is abstracted to its extent `rows x cols` and a cursor;
a cursor move succeeds exactly when the target is inside
`[0, rows) x [0, cols)`, which is how the caught `curses.error` behaves.
Key presses are parameters; the blocking input loops are not modelled, but
`DispatchAll` feeds a sequence of keys to a dispatcher the way those loops
do, to state properties of key sequences.

The model follows the code as written:
- `Board.step` is a stub: it creates an empty `next_cell_positions` and
  leaves the live cells alone; the B3/S23 rule is only a comment.
- In the packaged editor's Record mode no branch takes an arrow key, so an
  arrow does nothing there.
- In game_of_life.py the key `'r'` calls `Screen.redraw`, which does not
  exist: the call raises AttributeError, modelled as a `Failure` result with
  nothing changed.
- In Insert mode game_of_life.py paints before moving, so left, left, left
  from column 3 paints columns 3, 2, 1 and ends at column 0
  (`Life.InsertTrail`); game-of-life.py paints after moving, so the same keys
  paint columns 2, 1, 0 (`LifeScript.InsertTrailAfterMove`). The packaged
  editor paints before moving, like game_of_life.py.

## Model

| member | source | states |
|---|---|---|
| `Common.CursorTransformForCommand` | game_of_life.py:31-45 | succeeds exactly on the four arrow keys, always with a unit step; any other key gives ValueError carrying that key |
| `Common.ArrowDirections` | game_of_life/game_of_life.py:35-42 | left and up decrease column and row, right and down increase them |
| `Common.OppositeArrowsCancel` | game-of-life.py:28-35 | left then right, and up then down, return to the starting point |
| `Common.TransformInjective` | game_of_life/game_of_life.py:30-44 | distinct arrow keys map to distinct displacements |
| `Common.TransformCoversUnitSteps` | game-of-life.py:24-37 | every unit step is the displacement of some arrow key, so the map is a bijection onto unit steps |
| `Common.MovedCursor` | game_of_life.py:127-137 | the cursor stays in the window; it reaches the target exactly when the target is in the window, otherwise it stays put |
| `Life.Board.constructor` | game_of_life.py:60-63 | the live cells are exactly the distinct initial positions, every stored value is True, no next generation yet |
| `Life.DistinctPointsCount` | game_of_life.py:60-63 | n pairwise distinct initial positions give n live cells |
| `Life.Board.Cells` | game_of_life.py:65-67 | the live points are the keys of the dict, which are exactly the points stored as True |
| `Life.Board.CellCount` | game_of_life.py:69-71 | the count is the number of live points |
| `Life.Board.CellAt` | game_of_life.py:78-79 | true exactly when the point is a key of the dict, since stored values are always True |
| `Life.Board.AddCell` | game_of_life.py:81-92 | returns true exactly when the point was dead; afterwards it is live, nothing else changes, the count grows by one exactly when true was returned |
| `Life.Board.RemoveCell` | game_of_life.py:94-105 | returns true exactly when the point was live; afterwards it is dead, nothing else changes, the count drops by one exactly when true was returned |
| `Life.Board.EmptyNeighbourSet` | game_of_life.py:73-76 | every point of the set is dead (the full characterisation is the next row) |
| `Life.NeighbourTransformsAreMooreSteps` | game_of_life.py:56-58 | the offset table holds exactly the non-zero steps of at most one row and one column |
| `Life.EmptyNeighbourSetIsFrontier` | game_of_life.py:73-76 | a point is in the empty-neighbour set exactly when it is dead and Moore-adjacent to a live cell; the set is empty on an empty board |
| `Life.Board.Step` | game_of_life.py:107-112 | the live cells are unchanged and the next-generation dict is empty |
| `Life.Screen.constructor` | game_of_life.py:114-116 | the cursor starts at the top-left corner of a window of the given extent, nothing written |
| `Life.Screen.MoveCursor` | game_of_life.py:127-137 | returns true exactly when the target lies in the window; the cursor moves only then; nothing is written |
| `Life.Screen.Clear` | game_of_life.py:151-152 | nothing is written any more and the cursor is at the top-left corner |
| `Life.Screen.AddCell` | game_of_life.py:139-143 | the cell character is written at the point and the cursor ends where it was |
| `Life.Screen.RemoveCell` | game_of_life.py:145-149 | a blank is written at the point and the cursor ends where it was |
| `Life.GameOfLife.constructor` | game_of_life.py:158-164 | Normal mode, cursor at the origin, live cells (1,1) and (2,2), nothing drawn yet; both cells lie in the window exactly when it is at least 3 x 3 |
| `Life.GameOfLife.AddCell` | game_of_life.py:200-202 | the board gains the cell, the screen shows it, cursor, mode and next generation unchanged |
| `Life.GameOfLife.RemoveCell` | game_of_life.py:204-206 | the board loses the cell, the screen blanks it, cursor, mode and next generation unchanged |
| `Life.GameOfLife.DispatchUserCommand` | game_of_life.py:177-198 | the result and the new mode, cursor, cells and screen are those `Dispatched` gives for the old ones; the next generation is untouched |
| `Life.GameOfLife.RefreshScreen` | game_of_life.py:208-211 | raises curses.error exactly when a live cell lies outside the window; otherwise the screen shows exactly the live cells and the cursor is home |
| `Life.GameOfLife.Step` | game_of_life.py:213-215 | the live cells stay, the next generation is empty, then the screen is refreshed as `RefreshScreen` says |
| `Life.Dispatched` | game_of_life.py:177-198 | returns false exactly on 'q'; raises exactly on 'r'; on both nothing changes; 't' swaps Insert and Normal and changes nothing else; a key with no branch changes nothing; the cursor stays in the window; only the cell under the cursor can change, on the board or on screen |
| `Life.ToggleTwiceRestores` | game_of_life.py:193-194 | 't' twice returns true both times and restores the whole view |
| `Life.InsertArrowPaintsBeforeMove` | game_of_life.py:183-186 | in Insert mode an arrow makes the pre-move cursor cell live and draws it, with no other write, then moves the cursor |
| `Life.NormalArrowOnlyMoves` | game_of_life.py:183-186 | in Normal mode an arrow only moves the cursor, within the window |
| `Life.CellKeysKeepCursor` | game_of_life.py:187-190 | 'c' and 'x' make the cursor cell live or dead and redraw only it, in either mode, without moving the cursor |
| `Life.InsertTrail` | game_of_life.py:183-186 | n left arrows in Insert mode from column c >= n make columns c..c-n+1 live and leave the cursor at c-n |
| `LifeScript.GameOfLife.constructor` | game-of-life.py:49-53 | Normal mode, cursor at the origin, nothing painted |
| `LifeScript.GameOfLife.DispatchUserCommand` | game-of-life.py:69-100 | the result and the new mode, cursor and painted cells are those `Dispatched` gives for the old ones |
| `LifeScript.Dispatched` | game-of-life.py:69-100 | returns false exactly on 'q', changing nothing; the cursor stays in the window and moves only on arrows; painting only adds the final cursor cell; only space changes the mode |
| `LifeScript.ToggleTwiceRestoresMode` | game-of-life.py:89-96 | space twice restores the mode and cursor, having painted the cursor cell |
| `LifeScript.ToggleOnlyPaintsOnEntry` | game-of-life.py:89-96 | entering Insert paints the cursor cell, leaving it paints nothing; the cursor does not move |
| `LifeScript.ArrowMovesThenPaints` | game-of-life.py:75-88 | an arrow moves the cursor by its unit step when the target is in the window, else not at all; Insert mode then paints the new cursor cell |
| `LifeScript.InsertTrailAfterMove` | game-of-life.py:75-88 | n left arrows in Insert mode from column c >= n paint columns c-1..c-n and leave the cursor at c-n |
| `LifePackage.DispatchUserCommand` | game_of_life/game_of_life.py:77-118 | returns false exactly on 'q', which makes no call and keeps the mode; only a mode key changes the mode, and it then makes no call; unknown keys do nothing; at most two calls per key |
| `LifePackage.ModeKeysIdempotent` | game_of_life/game_of_life.py:98-105 | 'i', 'n', 'p', 'r' select their mode whatever the mode was, with no call; repeating the key changes nothing |
| `LifePackage.NormalArrowOnlyMovesCursor` | game_of_life/game_of_life.py:83-85 | in Normal mode an arrow makes exactly one call, a cursor move by its unit step |
| `LifePackage.InsertArrowPaintsThenMoves` | game_of_life/game_of_life.py:86-89 | in Insert mode an arrow adds the cell at the cursor, then moves the cursor |
| `LifePackage.PanArrowShiftsOrigin` | game_of_life/game_of_life.py:90-93 | in Pan mode an arrow moves the origin and refreshes, touching neither cursor nor board |
| `LifePackage.RecordArrowIsNoOp` | game_of_life/game_of_life.py:83-93 | in Record mode an arrow matches no branch: no call, mode kept |
| `LifePackage.StepRecordsOnlyInRecordMode` | game_of_life/game_of_life.py:106-110 | space records then steps in Record mode, and only steps in every other mode |
| `LifePackage.CellAndFileKeysIgnoreMode` | game_of_life/game_of_life.py:94-114 | 'c', 'x', 's', 'l' make the same single call in every mode and keep the mode |
| `LifePackage.ModeIgnoresCursor` | game_of_life/game_of_life.py:77-118 | the new mode and the returned flag do not depend on the cursor |
| `LifePackage.ModeIsLastModeKey` | game_of_life/game_of_life.py:98-105 | after keys without 'q', the mode is that of the last mode key, or the starting mode if there was none |

## Left out

- The curses plumbing: the blocking input loops (`start`), `get_input_key`, the packaged editor's `screen.clear`, the `curses.wrapper` entry points, and the raw terminal. The window is only an extent, a cursor and what has been written.
- Life.GameOfLife.constructor: `__init__` ends by calling `start`, which runs `refresh_screen` before reading the first key (drawing 'o' at (1,1) and (2,2), or raising curses.error in a window smaller than 3 x 3) and then loops; the constructor stops before `start`, so it ends with nothing drawn. `Life.GameOfLife.RefreshScreen` models that first redraw separately.
- Life.GameOfLife.RefreshScreen: when it raises, which cells were drawn before the failing one depends on the dict's order and is not stated.
- curses raises an error when a character is written in the bottom-right corner of a window; the model lets that write succeed in `Life.Screen.AddCell`, `Life.Screen.RemoveCell` and the painting of game-of-life.py.
- `Life.Screen.AddCell` and `Life.Screen.RemoveCell` require the point to be in the window; outside it `stdscr.move` raises an uncaught curses.error. The dispatcher passes the cursor, which is always in the window; `Life.GameOfLife.RefreshScreen` passes every live cell and checks the point first, returning that curses.error as its result.
- LifeScript.Dispatched: a key that is neither 'q', an arrow nor space is echoed with `addstr`, which writes its text and advances the cursor; the model leaves the view unchanged for such a key.
- The text of the ValueError raised for a non-arrow key (game_of_life.py and game_of_life/game_of_life.py share one wording, game-of-life.py has another); the model keeps only the offending key.
- The packaged editor's board, screen and data-structure modules (board.py, screen.py, datastructures.py) are not part of this model: `Board.step`, `serialize_board`, `load_serialized_board`, `Screen.move_origin`, `save_cursor` and `restore_cursor` appear only as named effects.
- The file I/O of `save`, `load` and `record` (the save file, the append-only record file, a missing or malformed save file): only the calls and their order are modelled.
- The Game-of-Life generation rule: no shown code implements it.
- The unused `origin` and `insert_tranjectory` fields.
