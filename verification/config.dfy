/** `GameConfig`: the grid size and whether to resume the saved game. */
module Config {
  import opened CSharpInt

  /** No validation: any `int` is accepted for rows and columns. */
  datatype GameConfig = GameConfig(rows: Int32, cols: Int32, loadSavedGame: bool)

  /** The parameterless constructor: a 2 by 2 fresh game. */
  function Default(): (c: GameConfig)
    ensures c.rows == 2 && c.cols == 2 && !c.loadSavedGame
  {
    GameConfig(2, 2, false)
  }

  /** A property assignment. */
  datatype Assignment =
    | SetRows(rows: Int32)
    | SetCols(cols: Int32)
    | SetLoadSavedGame(load: bool)

  /** One setter: it changes its own property and leaves the other two. */
  function Assign(c: GameConfig, a: Assignment): (r: GameConfig)
    ensures a.SetRows? ==> r.rows == a.rows && r.(rows := c.rows) == c
    ensures a.SetCols? ==> r.cols == a.cols && r.(cols := c.cols) == c
    ensures a.SetLoadSavedGame? ==> r.loadSavedGame == a.load && r.(loadSavedGame := c.loadSavedGame) == c
  {
    match a
    case SetRows(v) => c.(rows := v)
    case SetCols(v) => c.(cols := v)
    case SetLoadSavedGame(v) => c.(loadSavedGame := v)
  }

  /** A run of setter calls, in order. */
  function AssignAll(c: GameConfig, as_: seq<Assignment>): GameConfig
    decreases |as_|
  {
    if |as_| == 0 then c else AssignAll(Assign(c, as_[0]), as_[1..])
  }

  /** The value the last `Rows` assignment of `as_` stored, or `initial`. */
  function LastRows(as_: seq<Assignment>, initial: Int32): Int32 {
    if |as_| == 0 then initial
    else if as_[|as_| - 1].SetRows? then as_[|as_| - 1].rows
    else LastRows(as_[..|as_| - 1], initial)
  }

  function LastCols(as_: seq<Assignment>, initial: Int32): Int32 {
    if |as_| == 0 then initial
    else if as_[|as_| - 1].SetCols? then as_[|as_| - 1].cols
    else LastCols(as_[..|as_| - 1], initial)
  }

  function LastLoad(as_: seq<Assignment>, initial: bool): bool {
    if |as_| == 0 then initial
    else if as_[|as_| - 1].SetLoadSavedGame? then as_[|as_| - 1].load
    else LastLoad(as_[..|as_| - 1], initial)
  }

  lemma {:induction false} AssignAllSnoc(c: GameConfig, as_: seq<Assignment>, a: Assignment)
    ensures AssignAll(c, as_ + [a]) == Assign(AssignAll(c, as_), a)
    decreases |as_|
  {
    if |as_| == 0 {
      assert ([] + [a])[1..] == [];
    } else {
      assert (as_ + [a])[1..] == as_[1..] + [a];
      AssignAllSnoc(Assign(c, as_[0]), as_[1..], a);
    }
  }

  /** Each getter returns the value its setter stored last, whatever the
      other setters did in between. */
  lemma {:induction false} GettersReturnLastAssignment(c: GameConfig, as_: seq<Assignment>)
    ensures AssignAll(c, as_).rows == LastRows(as_, c.rows)
    ensures AssignAll(c, as_).cols == LastCols(as_, c.cols)
    ensures AssignAll(c, as_).loadSavedGame == LastLoad(as_, c.loadSavedGame)
    decreases |as_|
  {
    if |as_| > 0 {
      var front := as_[..|as_| - 1];
      var last := as_[|as_| - 1];
      assert as_ == front + [last];
      GettersReturnLastAssignment(c, front);
      AssignAllSnoc(c, front, last);
    }
  }
}
