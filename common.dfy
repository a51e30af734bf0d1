/**
 * Values shared by the three versions of the terminal Game-of-Life editor:
 * grid coordinates, displacements, the errors the editors can raise, and the
 * arrow-key to unit-displacement map that every version defines the same way.
 */
module Common {

  /** An absolute grid coordinate or a screen position (a `Point` namedtuple). */
  datatype Point = Point(row: int, col: int)

  /** A displacement applied to a Point component-wise (a `Vector` namedtuple). */
  datatype Vector = Vector(row: int, col: int)

  /** The Python exceptions the modelled code can raise. */
  datatype Error =
    | ValueError(key: string)        // a key that is not an arrow key was asked for a transform
    | AttributeError(name: string)   // a method that does not exist was called
    | CursesError                    // curses refused a cursor move outside the window

  datatype Result<T> = Success(value: T) | Failure(error: Error)

  datatype Option<T> = None | Some(value: T)

  function Translate(p: Point, v: Vector): Point {
    Point(p.row + v.row, p.col + v.col)
  }

  /** A step of length one along exactly one axis. */
  predicate IsUnitStep(v: Vector) {
    (v.row == 0 && (v.col == 1 || v.col == -1)) || (v.col == 0 && (v.row == 1 || v.row == -1))
  }

  /** The character drawn for a live cell. */
  const CELL_CHAR: char := 'o'

  /** p lies inside a curses window of the given extent. */
  predicate InWindow(p: Point, rows: nat, cols: nat) {
    0 <= p.row < rows && 0 <= p.col < cols
  }

  /**
   * Where the cursor is after asking curses to move it by v: the target when
   * it lies in the window, otherwise where it was (the curses.error is caught).
   */
  function MovedCursor(cursor: Point, v: Vector, rows: nat, cols: nat): (r: Point)
    ensures InWindow(cursor, rows, cols) ==> InWindow(r, rows, cols)
    ensures r == Translate(cursor, v) <==> InWindow(Translate(cursor, v), rows, cols) || v == Vector(0, 0)
    ensures r != Translate(cursor, v) ==> r == cursor
  {
    var target := Translate(cursor, v);
    if InWindow(target, rows, cols) then target else cursor
  }

  const KEY_LEFT: string := "KEY_LEFT"
  const KEY_RIGHT: string := "KEY_RIGHT"
  const KEY_UP: string := "KEY_UP"
  const KEY_DOWN: string := "KEY_DOWN"

  /** The key names curses reports for the four arrow keys (`Command.MOVE_KEYS`). */
  const MOVE_KEYS: seq<string> := [KEY_LEFT, KEY_RIGHT, KEY_UP, KEY_DOWN]

  /**
   * `Command.cursor_transform_for_command`: the displacement an arrow key
   * stands for; any other key raises ValueError.
   */
  function CursorTransformForCommand(key: string): (r: Result<Vector>)
    ensures r.Success? <==> key in MOVE_KEYS
    ensures r.Success? ==> IsUnitStep(r.value)
    ensures r.Failure? ==> r.error == ValueError(key)
  {
    if key == KEY_LEFT then Success(Vector(0, -1))
    else if key == KEY_RIGHT then Success(Vector(0, 1))
    else if key == KEY_UP then Success(Vector(-1, 0))
    else if key == KEY_DOWN then Success(Vector(1, 0))
    else Failure(ValueError(key))
  }

  /** Rows grow downwards and columns rightwards: each arrow points the way its name says. */
  lemma ArrowDirections()
    ensures CursorTransformForCommand(KEY_LEFT).value.col < 0
    ensures CursorTransformForCommand(KEY_RIGHT).value.col > 0
    ensures CursorTransformForCommand(KEY_UP).value.row < 0
    ensures CursorTransformForCommand(KEY_DOWN).value.row > 0
  {
  }

  /** Opposite arrows cancel: moving one way and back returns to the start. */
  lemma OppositeArrowsCancel(p: Point)
    ensures Translate(Translate(p, CursorTransformForCommand(KEY_LEFT).value), CursorTransformForCommand(KEY_RIGHT).value) == p
    ensures Translate(Translate(p, CursorTransformForCommand(KEY_UP).value), CursorTransformForCommand(KEY_DOWN).value) == p
  {
  }

  /** Distinct arrow keys give distinct displacements. */
  lemma TransformInjective(k1: string, k2: string)
    requires k1 in MOVE_KEYS && k2 in MOVE_KEYS && k1 != k2
    ensures CursorTransformForCommand(k1).value != CursorTransformForCommand(k2).value
  {
  }

  /** Every unit step is reached by some arrow key, so the map is onto the unit steps. */
  lemma TransformCoversUnitSteps(v: Vector)
    requires IsUnitStep(v)
    ensures exists k :: k in MOVE_KEYS && CursorTransformForCommand(k) == Success(v)
  {
    if v == Vector(0, -1) {
      assert CursorTransformForCommand(KEY_LEFT) == Success(v);
    } else if v == Vector(0, 1) {
      assert CursorTransformForCommand(KEY_RIGHT) == Success(v);
    } else if v == Vector(-1, 0) {
      assert CursorTransformForCommand(KEY_UP) == Success(v);
    } else {
      assert CursorTransformForCommand(KEY_DOWN) == Success(v);
    }
  }

  /** n copies of one key, as a user holding it down would produce. */
  function Repeat(key: string, n: nat): (keys: seq<string>)
    ensures |keys| == n && forall i :: 0 <= i < n ==> keys[i] == key
  {
    if n == 0 then [] else [key] + Repeat(key, n - 1)
  }

  /** The n points of a row ending at column col and extending leftwards. */
  function RowRun(row: int, col: int, n: nat): (s: set<Point>)
    ensures forall p :: p in s <==> p.row == row && col - n < p.col <= col
    decreases n
  {
    if n == 0 then {} else {Point(row, col)} + RowRun(row, col - 1, n - 1)
  }
}
