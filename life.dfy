/**
 * The single-file editor with a board (game_of_life.py): a sparse store of
 * live cells, a screen wrapper that paints cells without moving the
 * interactive cursor, and a two-mode key dispatcher.
 *
 * The curses window is abstracted to its extent (rows x cols), the cursor
 * position and the character written at each screen position.
 */
module Life {
  import opened Common

  // ---------------------------------------------------------------------------
  // Board
  // ---------------------------------------------------------------------------

  /** The eight Moore-neighbourhood offsets (`Board.NEIGHBOUR_TRANFORMS`). */
  const NEIGHBOUR_TRANSFORMS: seq<Vector> :=
    [Vector(-1, -1), Vector(-1, 0), Vector(-1, 1),
     Vector(0, -1), Vector(0, 1),
     Vector(1, -1), Vector(1, 0), Vector(1, 1)]

  /** q is one of the eight cells touching p, independently of the offset table. */
  predicate MooreNeighbours(p: Point, q: Point) {
    p != q && -1 <= q.row - p.row <= 1 && -1 <= q.col - p.col <= 1
  }

  /** The distinct points of a sequence. */
  function Elements(ps: seq<Point>): set<Point> {
    set i | 0 <= i < |ps| :: ps[i]
  }

  /**
   * The live cells. `cellPositions` is the Python dict keyed by Point whose
   * values are always True; `nextCellPositions` is the attribute `step`
   * creates, absent until the first step.
   */
  class Board {
    var cellPositions: map<Point, bool>
    var nextCellPositions: Option<map<Point, bool>>

    /** Every stored value is True. */
    ghost predicate Valid()
      reads this
    {
      forall p :: p in cellPositions ==> cellPositions[p]
    }

    /** The `cells` property: the keys of the dict, which are exactly the points stored as True. */
    function Cells(): (s: set<Point>)
      reads this
      ensures Valid() ==> forall p :: p in s <==> p in cellPositions && cellPositions[p]
    {
      cellPositions.Keys
    }

    /** `Board(initial_positions)`: adds every initial position in turn. */
    constructor (initialPositions: seq<Point>)
      ensures Valid()
      ensures Cells() == Elements(initialPositions)
      ensures nextCellPositions == None
    {
      cellPositions := map[];
      nextCellPositions := None;
      new;
      var i := 0;
      while i < |initialPositions|
        invariant 0 <= i <= |initialPositions|
        invariant Valid()
        invariant Cells() == Elements(initialPositions[..i])
        invariant nextCellPositions == None
      {
        var _ := AddCell(initialPositions[i]);
        assert initialPositions[..i + 1] == initialPositions[..i] + [initialPositions[i]];
        ElementsSnoc(initialPositions[..i], initialPositions[i]);
        i := i + 1;
      }
      assert initialPositions[..i] == initialPositions;
    }

    /** `cell_count`: the number of live cells. */
    function CellCount(): (n: nat)
      reads this
      ensures n == |Cells()|
    {
      |cellPositions|
    }

    /** `cell_at`: the stored value, or False for an absent key. */
    function CellAt(p: Point): (live: bool)
      reads this
      requires Valid()
      ensures live <==> p in Cells()
    {
      if p in cellPositions then cellPositions[p] else false
    }

    /** `empty_neighbour_set`: every dead point at one of the eight offsets from a live cell. */
    function EmptyNeighbourSet(): (r: set<Point>)
      reads this
      requires Valid()
      ensures r !! Cells()
    {
      set p, v | p in cellPositions && v in NEIGHBOUR_TRANSFORMS && !CellAt(Translate(p, v))
        :: Translate(p, v)
    }

    /** `add_cell`: True and the point becomes live when it was dead, False otherwise. */
    method AddCell(p: Point) returns (added: bool)
      requires Valid()
      modifies this
      ensures Valid()
      ensures added <==> p !in old(Cells())
      ensures Cells() == old(Cells()) + {p}
      ensures CellCount() == old(CellCount()) + (if added then 1 else 0)
      ensures nextCellPositions == old(nextCellPositions)
    {
      if !CellAt(p) {
        cellPositions := cellPositions[p := true];
        return true;
      } else {
        return false;
      }
    }

    /** `remove_cell`: True and the point becomes dead when it was live, False otherwise. */
    method RemoveCell(p: Point) returns (removed: bool)
      requires Valid()
      modifies this
      ensures Valid()
      ensures removed <==> p in old(Cells())
      ensures Cells() == old(Cells()) - {p}
      ensures CellCount() == old(CellCount()) - (if removed then 1 else 0)
      ensures nextCellPositions == old(nextCellPositions)
    {
      if CellAt(p) {
        cellPositions := cellPositions - {p};
        assert cellPositions.Keys == old(cellPositions.Keys) - {p};
        return true;
      } else {
        return false;
      }
    }

    /**
     * `step` as written: it only resets `next_cell_positions` to an empty
     * dict; the generation rule appears in comments and is not implemented.
     */
    method Step()
      requires Valid()
      modifies this
      ensures Valid()
      ensures cellPositions == old(cellPositions)
      ensures nextCellPositions == Some(map[])
    {
      nextCellPositions := Some(map[]);
    }
  }

  lemma ElementsSnoc(ps: seq<Point>, p: Point)
    ensures Elements(ps + [p]) == Elements(ps) + {p}
  {
    var qs := ps + [p];
    assert forall i :: 0 <= i < |ps| ==> qs[i] == ps[i];
    assert qs[|ps|] == p;
  }

  /**
   * Adding pairwise distinct points makes as many live cells as there are
   * points: a board built from n distinct positions has `cell_count` n.
   */
  lemma {:induction false} DistinctPointsCount(ps: seq<Point>)
    requires forall i, j :: 0 <= i < j < |ps| ==> ps[i] != ps[j]
    ensures |Elements(ps)| == |ps|
  {
    if ps != [] {
      var init := ps[..|ps| - 1];
      var last := ps[|ps| - 1];
      assert ps == init + [last];
      DistinctPointsCount(init);
      ElementsSnoc(init, last);
      assert last !in Elements(init);
    }
  }

  /** The offset table holds exactly the eight non-zero steps of length at most one per axis. */
  lemma NeighbourTransformsAreMooreSteps(v: Vector)
    ensures v in NEIGHBOUR_TRANSFORMS <==> v != Vector(0, 0) && -1 <= v.row <= 1 && -1 <= v.col <= 1
  {
    if v != Vector(0, 0) && -1 <= v.row <= 1 && -1 <= v.col <= 1 {
      if v.row == -1 {
        assert v == NEIGHBOUR_TRANSFORMS[1 + v.col];
      } else if v.row == 0 {
        assert v == NEIGHBOUR_TRANSFORMS[if v.col < 0 then 3 else 4];
      } else {
        assert v == NEIGHBOUR_TRANSFORMS[6 + v.col];
      }
    }
  }

  /**
   * The empty-neighbour set is exactly the frontier of the live cells: the
   * dead points that touch at least one live cell. With no live cell it is empty.
   */
  lemma EmptyNeighbourSetIsFrontier(b: Board, q: Point)
    requires b.Valid()
    ensures q in b.EmptyNeighbourSet() <==>
              q !in b.Cells() && exists p :: p in b.Cells() && MooreNeighbours(p, q)
    ensures b.Cells() == {} ==> b.EmptyNeighbourSet() == {}
  {
    var frontier := b.EmptyNeighbourSet();
    if q in frontier {
      var p, v :| p in b.cellPositions && v in NEIGHBOUR_TRANSFORMS && !b.CellAt(Translate(p, v))
                  && q == Translate(p, v);
      NeighbourTransformsAreMooreSteps(v);
      assert MooreNeighbours(p, q);
    }
    if q !in b.Cells() && exists p :: p in b.Cells() && MooreNeighbours(p, q) {
      var p :| p in b.Cells() && MooreNeighbours(p, q);
      var v := Vector(q.row - p.row, q.col - p.col);
      NeighbourTransformsAreMooreSteps(v);
      assert Translate(p, v) == q;
    }
  }

  // ---------------------------------------------------------------------------
  // Screen
  // ---------------------------------------------------------------------------

  const BLANK_CHAR: char := ' '

  /**
   * The curses window seen through `Screen`: its fixed extent, the cursor and
   * the character last written at each position.
   */
  class Screen {
    const rows: nat
    const cols: nat
    var cursor: Point
    var glyphs: map<Point, char>

    ghost predicate Valid()
      reads this
    {
      InWindow(cursor, rows, cols) && forall p :: p in glyphs ==> InWindow(p, rows, cols)
    }

    /** A fresh window: curses puts the cursor at the top-left corner. */
    constructor (rows: nat, cols: nat)
      requires rows > 0 && cols > 0
      ensures Valid()
      ensures this.rows == rows && this.cols == cols
      ensures cursor == Point(0, 0) && glyphs == map[]
    {
      this.rows := rows;
      this.cols := cols;
      cursor := Point(0, 0);
      glyphs := map[];
    }

    /** `move_cursor`: True when the target is in the window, False and no move otherwise. */
    method MoveCursor(rowDelta: int, colDelta: int) returns (moved: bool)
      requires Valid()
      modifies this
      ensures Valid()
      ensures moved <==> InWindow(Translate(old(cursor), Vector(rowDelta, colDelta)), rows, cols)
      ensures cursor == MovedCursor(old(cursor), Vector(rowDelta, colDelta), rows, cols)
      ensures glyphs == old(glyphs)
    {
      var pos := cursor;
      var target := Point(pos.row + rowDelta, pos.col + colDelta);
      if !InWindow(target, rows, cols) {
        return false;
      }
      cursor := target;
      return true;
    }

    /** `clear`: `stdscr.erase` blanks the window and homes the cursor. */
    method Clear()
      requires Valid()
      modifies this
      ensures Valid()
      ensures cursor == Point(0, 0) && glyphs == map[]
    {
      glyphs := map[];
      cursor := Point(0, 0);
    }

    /** `add_cell`: writes the cell character at p and puts the cursor back. */
    method AddCell(p: Point)
      requires Valid() && InWindow(p, rows, cols)
      modifies this
      ensures Valid()
      ensures cursor == old(cursor)
      ensures glyphs == old(glyphs)[p := CELL_CHAR]
    {
      var oldPosition := cursor;
      cursor := p;
      glyphs := glyphs[p := CELL_CHAR];
      cursor := oldPosition;
    }

    /** `remove_cell`: writes a blank at p and puts the cursor back. */
    method RemoveCell(p: Point)
      requires Valid() && InWindow(p, rows, cols)
      modifies this
      ensures Valid()
      ensures cursor == old(cursor)
      ensures glyphs == old(glyphs)[p := BLANK_CHAR]
    {
      var oldPosition := cursor;
      cursor := p;
      glyphs := glyphs[p := BLANK_CHAR];
      cursor := oldPosition;
    }
  }

  // ---------------------------------------------------------------------------
  // Key dispatch
  // ---------------------------------------------------------------------------

  const TOGGLE_INSERT_MODE_KEY: string := "t"
  const INSERT_CELL: string := "c"
  const DELETE_CELL: string := "x"
  const QUIT: string := "q"
  const REFRESH: string := "r"

  datatype Mode = Insert | Normal

  function Toggled(m: Mode): (t: Mode)
    ensures t != m
  {
    if m == Normal then Insert else Normal
  }

  /** Every key `dispatch_user_command` has a branch for. */
  const KNOWN_KEYS: seq<string> := MOVE_KEYS + [QUIT, INSERT_CELL, DELETE_CELL, REFRESH, TOGGLE_INSERT_MODE_KEY]

  /** What a dispatch can observe and change: mode, cursor, live cells, written characters. */
  datatype View = View(mode: Mode, cursor: Point, cells: set<Point>, glyphs: map<Point, char>)

  /** The outcome of one key: the returned value (or the exception raised) and the new view. */
  datatype Reply = Reply(result: Result<bool>, after: View)

  /** `GameOfLife.add_cell` on a view: the board gains p and the screen shows a cell there. */
  function Painted(v: View, p: Point): View {
    v.(cells := v.cells + {p}, glyphs := v.glyphs[p := CELL_CHAR])
  }

  /** `GameOfLife.remove_cell` on a view: the board loses p and the screen shows a blank there. */
  function Erased(v: View, p: Point): View {
    v.(cells := v.cells - {p}, glyphs := v.glyphs[p := BLANK_CHAR])
  }

  /**
   * `dispatch_user_command` as a function of the view. Only 'q' stops the
   * session; 'r' calls `Screen.redraw`, which does not exist, so it raises
   * AttributeError before anything changes.
   */
  function Dispatched(v: View, rows: nat, cols: nat, key: string): (r: Reply)
    ensures r.result == Success(false) <==> key == QUIT
    ensures r.result.Failure? <==> key == REFRESH
    ensures r.result != Success(true) ==> r.after == v
    ensures InWindow(v.cursor, rows, cols) ==> InWindow(r.after.cursor, rows, cols)
    ensures r.after.mode != v.mode ==> key == TOGGLE_INSERT_MODE_KEY
    ensures r.after.cells - v.cells <= {v.cursor} && v.cells - r.after.cells <= {v.cursor}
    ensures forall p :: p != v.cursor ==>
              (p in r.after.glyphs <==> p in v.glyphs) && (p in v.glyphs ==> r.after.glyphs[p] == v.glyphs[p])
    ensures key == TOGGLE_INSERT_MODE_KEY ==> r == Reply(Success(true), v.(mode := Toggled(v.mode)))
    ensures key !in KNOWN_KEYS ==> r == Reply(Success(true), v)
  {
    if key == QUIT then
      Reply(Success(false), v)
    else if key in MOVE_KEYS then
      var transform := CursorTransformForCommand(key).value;
      var painted := if v.mode == Insert then Painted(v, v.cursor) else v;
      Reply(Success(true), painted.(cursor := MovedCursor(painted.cursor, transform, rows, cols)))
    else if key == INSERT_CELL then
      Reply(Success(true), Painted(v, v.cursor))
    else if key == DELETE_CELL then
      Reply(Success(true), Erased(v, v.cursor))
    else if key == REFRESH then
      Reply(Failure(AttributeError("redraw")), v)
    else if key == TOGGLE_INSERT_MODE_KEY then
      Reply(Success(true), v.(mode := Toggled(v.mode)))
    else
      Reply(Success(true), v)
  }

  /** The editor session: screen, board and mode. */
  class GameOfLife {
    const screen: Screen
    const board: Board
    var mode: Mode

    ghost predicate Valid()
      reads this, screen, board
    {
      screen.Valid() && board.Valid()
    }

    function Snapshot(): View
      reads this, screen, board
    {
      View(mode, screen.cursor, board.Cells(), screen.glyphs)
    }

    /**
     * `__init__` up to the call of `start`: Normal mode, live cells (1,1) and
     * (2,2), nothing drawn yet. `start` then calls `RefreshScreen`, which
     * can draw both cells only in a window of at least 3 x 3.
     */
    constructor (rows: nat, cols: nat)
      requires rows > 0 && cols > 0
      ensures Valid() && fresh(screen) && fresh(board)
      ensures screen.rows == rows && screen.cols == cols
      ensures Snapshot() == View(Normal, Point(0, 0), {Point(1, 1), Point(2, 2)}, map[])
      ensures board.nextCellPositions == None
      ensures (forall p :: p in board.Cells() ==> InWindow(p, rows, cols)) <==> rows >= 3 && cols >= 3
    {
      screen := new Screen(rows, cols);
      board := new Board([Point(1, 1), Point(2, 2)]);
      mode := Normal;
      new;
      assert Elements([Point(1, 1), Point(2, 2)]) == {Point(1, 1), Point(2, 2)} by {
        var ps := [Point(1, 1), Point(2, 2)];
        assert ps[0] == Point(1, 1) && ps[1] == Point(2, 2);
      }
    }

    /** `GameOfLife.add_cell`: the board gains the cell, the screen paints it, the cursor stays. */
    method AddCell(position: Point)
      requires Valid() && InWindow(position, screen.rows, screen.cols)
      modifies screen, board
      ensures Valid()
      ensures Snapshot() == Painted(old(Snapshot()), position)
      ensures board.nextCellPositions == old(board.nextCellPositions)
    {
      var _ := board.AddCell(position);
      screen.AddCell(position);
    }

    /** `GameOfLife.remove_cell`: the board loses the cell, the screen blanks it, the cursor stays. */
    method RemoveCell(position: Point)
      requires Valid() && InWindow(position, screen.rows, screen.cols)
      modifies screen, board
      ensures Valid()
      ensures Snapshot() == Erased(old(Snapshot()), position)
      ensures board.nextCellPositions == old(board.nextCellPositions)
    {
      var _ := board.RemoveCell(position);
      screen.RemoveCell(position);
    }

    /** `dispatch_user_command`: performs what `Dispatched` describes. */
    method DispatchUserCommand(key: string) returns (r: Result<bool>)
      requires Valid()
      modifies this, screen, board
      ensures Valid()
      ensures Reply(r, Snapshot()) == Dispatched(old(Snapshot()), screen.rows, screen.cols, key)
      ensures board.nextCellPositions == old(board.nextCellPositions)
    {
      if key == QUIT {
        return Success(false);
      } else if key in MOVE_KEYS {
        var transform := CursorTransformForCommand(key).value;
        if mode == Insert {
          AddCell(screen.cursor);
        }
        var _ := screen.MoveCursor(transform.row, transform.col);
      } else if key == INSERT_CELL {
        AddCell(screen.cursor);
      } else if key == DELETE_CELL {
        RemoveCell(screen.cursor);
      } else if key == REFRESH {
        return Failure(AttributeError("redraw"));
      } else if key == TOGGLE_INSERT_MODE_KEY {
        mode := if mode == Normal then Insert else Normal;
      }
      return Success(true);
    }

    /**
     * `refresh_screen`: blanks the window, then draws every live cell in the
     * dict's (unspecified) order. Drawing a cell outside the window raises
     * curses.error; otherwise the screen shows exactly the live cells and the
     * cursor is where `clear` left it.
     */
    method RefreshScreen() returns (r: Result<()>)
      requires Valid()
      modifies screen
      ensures Valid()
      ensures r.Success? <==> forall p :: p in board.Cells() ==> InWindow(p, screen.rows, screen.cols)
      ensures r.Failure? ==> r.error == CursesError
      ensures r.Success? ==> screen.cursor == Point(0, 0) && screen.glyphs == map p | p in board.Cells() :: CELL_CHAR
    {
      screen.Clear();
      var todo := board.Cells();
      while todo != {}
        invariant Valid()
        invariant todo <= board.Cells()
        invariant forall p :: p in board.Cells() - todo ==> InWindow(p, screen.rows, screen.cols)
        invariant screen.cursor == Point(0, 0)
        invariant screen.glyphs == map p | p in board.Cells() - todo :: CELL_CHAR
        decreases todo
      {
        var p :| p in todo;
        if !InWindow(p, screen.rows, screen.cols) {
          return Failure(CursesError);
        }
        screen.AddCell(p);
        todo := todo - {p};
      }
      return Success(());
    }

    /** `GameOfLife.step`: the board's stub step, then a refresh. No key calls it. */
    method Step() returns (r: Result<()>)
      requires Valid()
      modifies screen, board
      ensures Valid()
      ensures board.cellPositions == old(board.cellPositions) && board.nextCellPositions == Some(map[])
      ensures mode == old(mode)
      ensures r.Success? <==> forall p :: p in board.Cells() ==> InWindow(p, screen.rows, screen.cols)
      ensures r.Success? ==> screen.cursor == Point(0, 0) && screen.glyphs == map p | p in board.Cells() :: CELL_CHAR
    {
      board.Step();
      r := RefreshScreen();
    }
  }

  /** Toggling twice restores the mode and changes nothing else. */
  lemma ToggleTwiceRestores(v: View, rows: nat, cols: nat)
    ensures Dispatched(Dispatched(v, rows, cols, TOGGLE_INSERT_MODE_KEY).after, rows, cols, TOGGLE_INSERT_MODE_KEY)
            == Reply(Success(true), v)
  {
  }

  /**
   * In Insert mode an arrow key makes the cell under the cursor live and
   * paints it before the cursor moves; the mode is kept.
   */
  lemma InsertArrowPaintsBeforeMove(v: View, rows: nat, cols: nat, key: string)
    requires v.mode == Insert && key in MOVE_KEYS
    ensures var w := Dispatched(v, rows, cols, key).after;
            && w.mode == Insert
            && w.cells == v.cells + {v.cursor}
            && w.glyphs == v.glyphs[v.cursor := CELL_CHAR]
            && w.cursor == MovedCursor(v.cursor, CursorTransformForCommand(key).value, rows, cols)
  {
  }

  /** In Normal mode an arrow key only moves the cursor, and only within the window. */
  lemma NormalArrowOnlyMoves(v: View, rows: nat, cols: nat, key: string)
    requires v.mode == Normal && key in MOVE_KEYS
    ensures Dispatched(v, rows, cols, key)
            == Reply(Success(true), v.(cursor := MovedCursor(v.cursor, CursorTransformForCommand(key).value, rows, cols)))
  {
  }

  /**
   * 'c' and 'x' make the cell under the cursor live or dead in either mode,
   * redraw it, and leave cursor and mode where they were.
   */
  lemma CellKeysKeepCursor(v: View, rows: nat, cols: nat)
    ensures var w := Dispatched(v, rows, cols, INSERT_CELL).after;
            w.cursor == v.cursor && w.mode == v.mode
            && w.cells == v.cells + {v.cursor} && w.glyphs == v.glyphs[v.cursor := CELL_CHAR]
    ensures var w := Dispatched(v, rows, cols, DELETE_CELL).after;
            w.cursor == v.cursor && w.mode == v.mode
            && w.cells == v.cells - {v.cursor} && w.glyphs == v.glyphs[v.cursor := BLANK_CHAR]
  {
  }

  /** Feeds keys to the dispatcher one at a time until one of them does not return True. */
  function DispatchAll(v: View, rows: nat, cols: nat, keys: seq<string>): View
    decreases |keys|
  {
    if keys == [] then v
    else
      var r := Dispatched(v, rows, cols, keys[0]);
      if r.result == Success(true) then DispatchAll(r.after, rows, cols, keys[1..]) else r.after
  }

  /**
   * Painting a trail: in Insert mode, n presses of the left arrow from column
   * c >= n leave live cells at columns c, c-1, ..., c-n+1 of the cursor's row
   * and the cursor at column c-n.
   */
  lemma {:induction false} InsertTrail(v: View, rows: nat, cols: nat, n: nat)
    requires v.mode == Insert && InWindow(v.cursor, rows, cols) && n <= v.cursor.col
    ensures var w := DispatchAll(v, rows, cols, Repeat(KEY_LEFT, n));
            && w.mode == Insert
            && w.cursor == Point(v.cursor.row, v.cursor.col - n)
            && w.cells == v.cells + RowRun(v.cursor.row, v.cursor.col, n)
    decreases n
  {
    var row, col := v.cursor.row, v.cursor.col;
    if n > 0 {
      var keys := Repeat(KEY_LEFT, n);
      assert keys[0] == KEY_LEFT && keys[1..] == Repeat(KEY_LEFT, n - 1);
      var r := Dispatched(v, rows, cols, KEY_LEFT);
      assert r.after.cursor == Point(row, col - 1);
      InsertTrail(r.after, rows, cols, n - 1);
    }
  }
}
