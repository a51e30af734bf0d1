/**
 * The first, board-less editor (game-of-life.py): the space bar toggles
 * between Normal and Insert mode, the arrow keys move the cursor inside the
 * window, and in Insert mode every cell the cursor reaches is painted.
 *
 * The curses window is abstracted to its extent, the cursor and the set of
 * positions where the cell character has been written.
 */
module LifeScript {
  import opened Common

  const TOGGLE_INSERT_MODE_KEY: string := " "
  const QUIT: string := "q"

  datatype Mode = Insert | Normal

  /** What a dispatch can observe and change: mode, cursor and painted positions. */
  datatype View = View(mode: Mode, cursor: Point, painted: set<Point>)

  /** The value `dispatch_user_command` returns and the view it leaves. */
  datatype Reply = Reply(keepRunning: bool, after: View)

  /** Writes the cell character under the cursor and moves the cursor back. */
  function PaintedAtCursor(v: View): View {
    v.(painted := v.painted + {v.cursor})
  }

  /**
   * `dispatch_user_command` as a function of the view. Only 'q' stops. An
   * arrow key first moves the cursor (a move off the window is ignored) and
   * then, in Insert mode, paints where the cursor now is. The space bar
   * leaves Insert mode without painting, or enters it and paints the cell
   * under the cursor.
   */
  function Dispatched(v: View, rows: nat, cols: nat, key: string): (r: Reply)
    ensures !r.keepRunning <==> key == QUIT
    ensures !r.keepRunning ==> r.after == v
    ensures InWindow(v.cursor, rows, cols) ==> InWindow(r.after.cursor, rows, cols)
    ensures v.painted <= r.after.painted && r.after.painted - v.painted <= {r.after.cursor}
    ensures r.after.mode != v.mode ==> key == TOGGLE_INSERT_MODE_KEY
    ensures r.after.cursor != v.cursor ==> key in MOVE_KEYS
  {
    if key == QUIT then
      Reply(false, v)
    else if key in MOVE_KEYS then
      var transform := CursorTransformForCommand(key).value;
      var moved := v.(cursor := MovedCursor(v.cursor, transform, rows, cols));
      Reply(true, if v.mode == Insert then PaintedAtCursor(moved) else moved)
    else if key == TOGGLE_INSERT_MODE_KEY then
      if v.mode == Insert then Reply(true, v.(mode := Normal))
      else Reply(true, PaintedAtCursor(v.(mode := Insert)))
    else
      Reply(true, v)
  }

  /** The editor session over a curses window of fixed extent. */
  class GameOfLife {
    const rows: nat
    const cols: nat
    var mode: Mode
    var cursor: Point
    var painted: set<Point>

    ghost predicate Valid()
      reads this
    {
      InWindow(cursor, rows, cols)
    }

    function Snapshot(): View
      reads this
    {
      View(mode, cursor, painted)
    }

    /** Starts in Normal mode with the cursor at the top-left and nothing painted. */
    constructor (rows: nat, cols: nat)
      requires rows > 0 && cols > 0
      ensures Valid()
      ensures this.rows == rows && this.cols == cols
      ensures Snapshot() == View(Normal, Point(0, 0), {})
    {
      this.rows := rows;
      this.cols := cols;
      mode := Normal;
      cursor := Point(0, 0);
      painted := {};
    }

    /** `dispatch_user_command`: performs what `Dispatched` describes. */
    method DispatchUserCommand(key: string) returns (keepRunning: bool)
      requires Valid()
      modifies this
      ensures Valid()
      ensures Reply(keepRunning, Snapshot()) == Dispatched(old(Snapshot()), rows, cols, key)
    {
      if key == QUIT {
        return false;
      } else if key in MOVE_KEYS {
        var transform := CursorTransformForCommand(key).value;
        var pos := cursor;
        var target := Point(pos.row + transform.row, pos.col + transform.col);
        if InWindow(target, rows, cols) {
          cursor := target;
        }
        if mode == Insert {
          pos := cursor;
          painted := painted + {cursor};
          cursor := pos;
        }
      } else if key == TOGGLE_INSERT_MODE_KEY {
        if mode == Insert {
          mode := Normal;
        } else {
          mode := Insert;
          var pos := cursor;
          painted := painted + {cursor};
          cursor := pos;
        }
      }
      return true;
    }
  }

  /** Toggling twice restores the mode; the cell under the cursor has been painted once on the way. */
  lemma ToggleTwiceRestoresMode(v: View, rows: nat, cols: nat)
    ensures var r1 := Dispatched(v, rows, cols, TOGGLE_INSERT_MODE_KEY);
            var r2 := Dispatched(r1.after, rows, cols, TOGGLE_INSERT_MODE_KEY);
            r2 == Reply(true, v.(painted := v.painted + {v.cursor}))
  {
  }

  /** Entering Insert mode paints the cell under the cursor; leaving it paints nothing. */
  lemma ToggleOnlyPaintsOnEntry(v: View, rows: nat, cols: nat)
    ensures var w := Dispatched(v, rows, cols, TOGGLE_INSERT_MODE_KEY).after;
            && w.cursor == v.cursor
            && (v.mode == Normal ==> w.mode == Insert && w.painted == v.painted + {v.cursor})
            && (v.mode == Insert ==> w.mode == Normal && w.painted == v.painted)
  {
  }

  /**
   * An arrow key moves the cursor by its unit step when the target is in the
   * window and leaves it in place otherwise; in Normal mode nothing is painted,
   * in Insert mode the cell at the new position is.
   */
  lemma ArrowMovesThenPaints(v: View, rows: nat, cols: nat, key: string)
    requires key in MOVE_KEYS
    ensures var target := Translate(v.cursor, CursorTransformForCommand(key).value);
            var w := Dispatched(v, rows, cols, key).after;
            && w.mode == v.mode
            && w.cursor == (if InWindow(target, rows, cols) then target else v.cursor)
            && w.painted == (if v.mode == Insert then v.painted + {w.cursor} else v.painted)
  {
  }

  /** Feeds keys to the dispatcher one at a time until one of them returns False. */
  function DispatchAll(v: View, rows: nat, cols: nat, keys: seq<string>): View
    decreases |keys|
  {
    if keys == [] then v
    else
      var r := Dispatched(v, rows, cols, keys[0]);
      if r.keepRunning then DispatchAll(r.after, rows, cols, keys[1..]) else r.after
  }

  /**
   * Painting a trail after each move: in Insert mode, n presses of the left
   * arrow from column c >= n paint columns c-1, ..., c-n of the cursor's row
   * (not c itself) and leave the cursor at column c-n.
   */
  lemma {:induction false} InsertTrailAfterMove(v: View, rows: nat, cols: nat, n: nat)
    requires v.mode == Insert && InWindow(v.cursor, rows, cols) && n <= v.cursor.col
    ensures var w := DispatchAll(v, rows, cols, Repeat(KEY_LEFT, n));
            && w.mode == Insert
            && w.cursor == Point(v.cursor.row, v.cursor.col - n)
            && w.painted == v.painted + RowRun(v.cursor.row, v.cursor.col - 1, n)
    decreases n
  {
    var row, col := v.cursor.row, v.cursor.col;
    if n > 0 {
      var keys := Repeat(KEY_LEFT, n);
      assert keys[0] == KEY_LEFT && keys[1..] == Repeat(KEY_LEFT, n - 1);
      var r := Dispatched(v, rows, cols, KEY_LEFT);
      assert r.after.cursor == Point(row, col - 1);
      InsertTrailAfterMove(r.after, rows, cols, n - 1);
    }
  }
}
