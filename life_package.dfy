/**
 * The packaged editor (game_of_life/game_of_life.py): four modes (Normal,
 * Insert, Pan, Record) and keys for stepping, saving and loading.
 *
 * The board, the screen and the snapshot files live in modules that are not
 * part of this model, so a key press is modelled as the decision it makes:
 * whether the session goes on, the new mode, and the ordered list of calls
 * it makes on the board, the screen and the files.
 */
module LifePackage {
  import opened Common

  const INSERT_MODE: string := "i"
  const NORMAL_MODE: string := "n"
  const PAN_MODE: string := "p"
  const RECORD_MODE: string := "r"
  const INSERT_CELL: string := "c"
  const DELETE_CELL: string := "x"
  const QUIT: string := "q"
  const STEP: string := " "
  const SAVE_BOARD: string := "s"
  const LOAD_BOARD: string := "l"

  const MODE_KEYS: seq<string> := [INSERT_MODE, NORMAL_MODE, PAN_MODE, RECORD_MODE]

  /** Every key the dispatcher gives a meaning to. */
  const KNOWN_KEYS: seq<string> :=
    MOVE_KEYS + MODE_KEYS + [INSERT_CELL, DELETE_CELL, QUIT, STEP, SAVE_BOARD, LOAD_BOARD]

  datatype Mode = Insert | Normal | Pan | Record

  /** A call the dispatcher makes, named after the method it calls. */
  datatype Effect =
    | AddCell(position: Point)      // GameOfLife.add_cell: board.add_cell, then screen.add_cell
    | RemoveCell(position: Point)   // GameOfLife.remove_cell: board.remove_cell, then screen.remove_cell
    | MoveCursor(delta: Vector)     // Screen.move_cursor
    | MoveOrigin(delta: Vector)     // Screen.move_origin
    | RefreshScreen                 // GameOfLife.refresh_screen
    | RecordBoard                   // GameOfLife.record: append the serialized board to the record file
    | StepBoard                     // GameOfLife.step: board.step, then refresh_screen
    | SaveBoard                     // GameOfLife.save: write the serialized board to the save file
    | LoadBoard                     // GameOfLife.load: read the save file into the board, then refresh_screen

  /** The effect changes the board. */
  predicate ChangesBoard(e: Effect) {
    e.AddCell? || e.RemoveCell? || e.StepBoard? || e.LoadBoard?
  }

  /** The effect moves the interactive cursor. */
  predicate MovesCursor(e: Effect) {
    e.MoveCursor?
  }

  /** What one key press decides: the returned flag, the new mode, the calls made in order. */
  datatype Reaction = Reaction(keepRunning: bool, mode: Mode, effects: seq<Effect>)

  function ModeForKey(key: string): Mode
    requires key in MODE_KEYS
  {
    if key == INSERT_MODE then Insert
    else if key == NORMAL_MODE then Normal
    else if key == PAN_MODE then Pan
    else Record
  }

  /**
   * `dispatch_user_command` given the mode and the cursor position at the
   * time of the key press. Only 'q' returns False; the mode changes only on
   * a mode key; a key press makes at most two calls.
   */
  function DispatchUserCommand(mode: Mode, key: string, cursor: Point): (r: Reaction)
    ensures r.keepRunning <==> key != QUIT
    ensures key == QUIT ==> r == Reaction(false, mode, [])
    ensures r.mode != mode ==> key in MODE_KEYS
    ensures key in MODE_KEYS ==> r.mode == ModeForKey(key) && r.effects == []
    ensures key !in KNOWN_KEYS ==> r == Reaction(true, mode, [])
    ensures |r.effects| <= 2
  {
    if key == QUIT then
      Reaction(false, mode, [])
    else if key in MOVE_KEYS && mode == Normal then
      var transform := CursorTransformForCommand(key).value;
      Reaction(true, mode, [MoveCursor(transform)])
    else if key in MOVE_KEYS && mode == Insert then
      var transform := CursorTransformForCommand(key).value;
      Reaction(true, mode, [AddCell(cursor), MoveCursor(transform)])
    else if key in MOVE_KEYS && mode == Pan then
      var transform := CursorTransformForCommand(key).value;
      Reaction(true, mode, [MoveOrigin(transform), RefreshScreen])
    else if key == INSERT_CELL then
      Reaction(true, mode, [AddCell(cursor)])
    else if key == DELETE_CELL then
      Reaction(true, mode, [RemoveCell(cursor)])
    else if key == INSERT_MODE then
      Reaction(true, Insert, [])
    else if key == NORMAL_MODE then
      Reaction(true, Normal, [])
    else if key == PAN_MODE then
      Reaction(true, Pan, [])
    else if key == RECORD_MODE then
      Reaction(true, Record, [])
    else if key == STEP && mode == Record then
      Reaction(true, mode, [RecordBoard, StepBoard])
    else if key == STEP then
      Reaction(true, mode, [StepBoard])
    else if key == SAVE_BOARD then
      Reaction(true, mode, [SaveBoard])
    else if key == LOAD_BOARD then
      Reaction(true, mode, [LoadBoard])
    else
      Reaction(true, mode, [])
  }

  /**
   * A mode key selects its mode whatever the mode was, and does nothing
   * else; pressing it again changes nothing.
   */
  lemma ModeKeysIdempotent(mode: Mode, other: Mode, key: string, cursor: Point)
    requires key in MODE_KEYS
    ensures var r := DispatchUserCommand(mode, key, cursor);
            && r == DispatchUserCommand(other, key, cursor)
            && DispatchUserCommand(r.mode, key, cursor) == r
  {
  }

  /** In Normal mode an arrow key only moves the cursor by its unit step. */
  lemma NormalArrowOnlyMovesCursor(key: string, cursor: Point)
    requires key in MOVE_KEYS
    ensures var r := DispatchUserCommand(Normal, key, cursor);
            && r.mode == Normal
            && r.effects == [MoveCursor(CursorTransformForCommand(key).value)]
            && IsUnitStep(r.effects[0].delta)
  {
  }

  /** In Insert mode an arrow key paints the cell under the cursor first and then moves. */
  lemma InsertArrowPaintsThenMoves(key: string, cursor: Point)
    requires key in MOVE_KEYS
    ensures var r := DispatchUserCommand(Insert, key, cursor);
            && r.mode == Insert
            && r.effects == [AddCell(cursor), MoveCursor(CursorTransformForCommand(key).value)]
  {
  }

  /**
   * In Pan mode an arrow key shifts the origin by its unit step and redraws;
   * it neither moves the cursor nor changes the board.
   */
  lemma PanArrowShiftsOrigin(key: string, cursor: Point)
    requires key in MOVE_KEYS
    ensures var r := DispatchUserCommand(Pan, key, cursor);
            && r.mode == Pan
            && r.effects == [MoveOrigin(CursorTransformForCommand(key).value), RefreshScreen]
            && forall i :: 0 <= i < |r.effects| ==> !ChangesBoard(r.effects[i]) && !MovesCursor(r.effects[i])
  {
  }

  /** In Record mode no branch takes an arrow key: it is a no-op. */
  lemma RecordArrowIsNoOp(key: string, cursor: Point)
    requires key in MOVE_KEYS
    ensures DispatchUserCommand(Record, key, cursor) == Reaction(true, Record, [])
  {
  }

  /**
   * The space bar steps the board; in Record mode the board is first appended
   * to the record file, so the record holds the generation before the step.
   */
  lemma StepRecordsOnlyInRecordMode(mode: Mode, cursor: Point)
    ensures DispatchUserCommand(mode, STEP, cursor).effects
            == if mode == Record then [RecordBoard, StepBoard] else [StepBoard]
    ensures DispatchUserCommand(mode, STEP, cursor).mode == mode
  {
  }

  /** 'c', 'x', 's' and 'l' do the same thing in every mode and keep the mode. */
  lemma CellAndFileKeysIgnoreMode(mode: Mode, cursor: Point)
    ensures DispatchUserCommand(mode, INSERT_CELL, cursor) == Reaction(true, mode, [AddCell(cursor)])
    ensures DispatchUserCommand(mode, DELETE_CELL, cursor) == Reaction(true, mode, [RemoveCell(cursor)])
    ensures DispatchUserCommand(mode, SAVE_BOARD, cursor) == Reaction(true, mode, [SaveBoard])
    ensures DispatchUserCommand(mode, LOAD_BOARD, cursor) == Reaction(true, mode, [LoadBoard])
  {
  }

  /**
   * The mode after a run of keys, each dispatched in the mode the previous
   * one left, stopping at 'q'. Since the mode never depends on the cursor,
   * the cursor is not threaded through.
   */
  function ModeAfter(mode: Mode, keys: seq<string>): Mode
    decreases |keys|
  {
    if keys == [] then mode
    else
      var r := DispatchUserCommand(mode, keys[0], Point(0, 0));
      if r.keepRunning then ModeAfter(r.mode, keys[1..]) else r.mode
  }

  /** The mode a key press leaves does not depend on where the cursor is. */
  lemma ModeIgnoresCursor(mode: Mode, key: string, c1: Point, c2: Point)
    ensures DispatchUserCommand(mode, key, c1).mode == DispatchUserCommand(mode, key, c2).mode
    ensures DispatchUserCommand(mode, key, c1).keepRunning == DispatchUserCommand(mode, key, c2).keepRunning
  {
  }

  /**
   * The mode is never inferred: after a run of keys it is the mode of the
   * last mode key pressed, or the starting mode when there was none.
   */
  lemma {:induction false} ModeIsLastModeKey(mode: Mode, keys: seq<string>)
    requires forall i :: 0 <= i < |keys| ==> keys[i] != QUIT
    ensures (forall i :: 0 <= i < |keys| ==> keys[i] !in MODE_KEYS) ==> ModeAfter(mode, keys) == mode
    ensures forall i :: 0 <= i < |keys| && keys[i] in MODE_KEYS
                        && (forall j :: i < j < |keys| ==> keys[j] !in MODE_KEYS)
                        ==> ModeAfter(mode, keys) == ModeForKey(keys[i])
    decreases |keys|
  {
    if keys != [] {
      var r := DispatchUserCommand(mode, keys[0], Point(0, 0));
      var rest := keys[1..];
      assert forall i :: 0 <= i < |rest| ==> rest[i] == keys[i + 1];
      ModeIsLastModeKey(r.mode, rest);
      forall i | 0 <= i < |keys| && keys[i] in MODE_KEYS && (forall j :: i < j < |keys| ==> keys[j] !in MODE_KEYS)
        ensures ModeAfter(mode, keys) == ModeForKey(keys[i])
      {
        if i > 0 {
          assert rest[i - 1] == keys[i];
          assert forall j :: i - 1 < j < |rest| ==> rest[j] !in MODE_KEYS;
        } else {
          assert forall j :: 0 <= j < |rest| ==> rest[j] !in MODE_KEYS;
        }
      }
    }
  }
}
