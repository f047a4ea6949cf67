/**
 The grid environment of `src/maze.py`: a rectangular matrix of cell codes,
 the recorded start cell and the agent's position, with the transition and
 reward function `step`, the random restart `reset`, the cell predicates and
 the row-major search used by the constructor.

 The Python object mutates `_agent_position`; here a `Maze` is an immutable
 value and every operation returns the updated maze alongside its result.
 */
module MazeEnv {
  import opened Wrappers
  import PyIndex

  // Cell codes of the maze file.
  const EMPTY: int := 0
  const WALL: int := 1
  const START: int := 2
  const TARGET: int := 3

  // Rewards returned by `step`.
  const BumpReward: int := -10
  const TargetReward: int := 100
  const MoveReward: int := -1

  datatype Pos = Pos(row: int, col: int)

  /** Row and column offsets of actions 0..3: up, down, left, right. */
  const Deltas: seq<Pos> := [Pos(-1, 0), Pos(1, 0), Pos(0, -1), Pos(0, 1)]

  /** A Python index into `Deltas` (no IndexError). */
  predicate ValidAction(action: int) {
    PyIndex.InRange(action, |Deltas|)
  }

  /** The offset Python reads for `action`, negative indices wrapping around. */
  function Delta(action: int): (d: Pos)
    requires ValidAction(action)
    ensures (d.row == 0) != (d.col == 0)
    ensures -1 <= d.row <= 1 && -1 <= d.col <= 1
  {
    Deltas[PyIndex.Norm(action, |Deltas|)]
  }

  function Add(p: Pos, d: Pos): Pos {
    Pos(p.row + d.row, p.col + d.col)
  }

  type Grid = seq<seq<int>>

  /** At least one row, and every row as long as the first. */
  predicate Rectangular(m: Grid) {
    |m| >= 1 && forall i :: 0 <= i < |m| ==> |m[i]| == |m[0]|
  }

  /** p addresses a cell of m with non-negative indices. */
  predicate InGrid(m: Grid, p: Pos) {
    0 <= p.row < |m| && 0 <= p.col < |m[p.row]|
  }

  function CellAt(m: Grid, p: Pos): int
    requires InGrid(m, p)
  {
    m[p.row][p.col]
  }

  /** p comes strictly before q in row-major order. */
  predicate Before(p: Pos, q: Pos) {
    p.row < q.row || (p.row == q.row && p.col < q.col)
  }

  /** The state of a `Maze` object: `_matrix`, `_rows`, `_cols`,
      `_start_position` and `_agent_position`. */
  datatype Maze = Maze(matrix: Grid, rows: int, cols: int, start: Pos, agent: Pos)

  /** What the constructor establishes about the dimensions. */
  predicate WellFormed(mz: Maze) {
    Rectangular(mz.matrix) && mz.rows == |mz.matrix| && mz.cols == |mz.matrix[0]|
  }

  // ---------------------------------------------------------------------
  // Row-major search (`_find_item`)

  /** First column at or after c of `row` holding `item`. */
  function FindInRow(row: seq<int>, item: int, c: nat): (res: Option<nat>)
    requires c <= |row|
    decreases |row| - c
    ensures res.Some? ==> c <= res.value < |row| && row[res.value] == item
    ensures res.Some? ==> forall j :: c <= j < res.value ==> row[j] != item
    ensures res.None? ==> forall j :: c <= j < |row| ==> row[j] != item
  {
    if c == |row| then None
    else if row[c] == item then Some(c)
    else FindInRow(row, item, c + 1)
  }

  /** First cell in row-major order, from row r on, holding `item`. */
  function FindFromRow(m: Grid, item: int, r: nat): (res: Option<Pos>)
    requires r <= |m|
    decreases |m| - r
    ensures res.Some? ==> InGrid(m, res.value) && r <= res.value.row && CellAt(m, res.value) == item
    ensures res.Some? ==>
      forall q :: InGrid(m, q) && r <= q.row && Before(q, res.value) ==> CellAt(m, q) != item
    ensures res.None? ==> forall q :: InGrid(m, q) && r <= q.row ==> CellAt(m, q) != item
  {
    if r == |m| then None
    else
      match FindInRow(m[r], item, 0)
      case Some(c) => Some(Pos(r, c))
      case None => FindFromRow(m, item, r + 1)
  }

  /** `_find_item`: the first row-major cell holding `item`, else (0, 0). */
  function FindItem(m: Grid, item: int): (p: Pos)
    ensures (exists q :: InGrid(m, q) && CellAt(m, q) == item) ==>
      InGrid(m, p) && CellAt(m, p) == item
      && forall q :: InGrid(m, q) && Before(q, p) ==> CellAt(m, q) != item
    ensures (forall q :: InGrid(m, q) ==> CellAt(m, q) != item) ==> p == Pos(0, 0)
  {
    match FindFromRow(m, item, 0)
    case Some(p) => p
    case None => Pos(0, 0)
  }

  // ---------------------------------------------------------------------
  // Construction

  /** `Maze.__init__` after `_load_matrix` produced `m`: the dimensions come
      from the matrix and the agent starts on the first START cell. */
  function New(m: Grid): (mz: Maze)
    requires Rectangular(m)
    ensures WellFormed(mz) && mz.matrix == m
    ensures mz.rows == |m| && mz.cols == |m[0]|
    ensures mz.agent == mz.start
    ensures (exists q :: InGrid(m, q) && CellAt(m, q) == START) ==>
      InGrid(m, mz.start) && CellAt(m, mz.start) == START
      && forall q :: InGrid(m, q) && Before(q, mz.start) ==> CellAt(m, q) != START
    ensures (forall q :: InGrid(m, q) ==> CellAt(m, q) != START) ==> mz.start == Pos(0, 0)
  {
    var start := FindItem(m, START);
    Maze(m, |m|, |m[0]|, start, start)
  }

  // ---------------------------------------------------------------------
  // Cell predicates

  /** `is_on_limits`: on a well-formed maze, exactly the cells the matrix
      can be indexed at with non-negative indices, so `_rows` and `_cols`
      agree with the matrix. */
  function IsOnLimits(mz: Maze, p: Pos): (b: bool)
    ensures WellFormed(mz) ==> (b <==> InGrid(mz.matrix, p))
  {
    0 <= p.row < mz.rows && 0 <= p.col < mz.cols
  }

  /** `is_wall`: out-of-bounds coordinates count as walls. */
  function IsWall(mz: Maze, p: Pos): (b: bool)
    requires WellFormed(mz)
    ensures !(0 <= p.row < |mz.matrix| && 0 <= p.col < |mz.matrix[0]|) ==> b
    ensures 0 <= p.row < |mz.matrix| && 0 <= p.col < |mz.matrix[0]| ==>
      (b <==> mz.matrix[p.row][p.col] == WALL)
  {
    if !IsOnLimits(mz, p) then true else mz.matrix[p.row][p.col] == WALL
  }

  /** `is_target`: reads the matrix with Python indexing, so negative
      coordinates wrap around and anything else out of range raises. */
  function IsTarget(mz: Maze, p: Pos): (b: bool)
    requires WellFormed(mz)
    requires PyIndex.InRange(p.row, mz.rows) && PyIndex.InRange(p.col, mz.cols)
    ensures InGrid(mz.matrix, p) ==> (b <==> CellAt(mz.matrix, p) == TARGET)
    ensures b <==> (exists q :: InGrid(mz.matrix, q) && CellAt(mz.matrix, q) == TARGET
                      && (q.row == p.row || q.row == p.row + mz.rows)
                      && (q.col == p.col || q.col == p.col + mz.cols))
  {
    var r := PyIndex.Norm(p.row, mz.rows);
    var c := PyIndex.Norm(p.col, mz.cols);
    assert InGrid(mz.matrix, Pos(r, c));
    mz.matrix[r][c] == TARGET
  }

  // ---------------------------------------------------------------------
  // Transition and reward (`step`)

  datatype StepResult = StepResult(maze: Maze, next: Pos, reward: int, done: bool)

  /** The candidate cell is off the grid or a wall, so the agent stays put. */
  predicate Blocked(mz: Maze, action: int)
    requires WellFormed(mz) && ValidAction(action)
  {
    var c := Add(mz.agent, Delta(action));
    !IsOnLimits(mz, c) || IsWall(mz, c)
  }

  /** `step`: move the agent by the action's offset unless blocked. */
  function Step(mz: Maze, action: int): (r: StepResult)
    requires WellFormed(mz)
    requires ValidAction(action)
    ensures r.maze == mz.(agent := r.next)
    ensures var c := Add(mz.agent, Delta(action));
      if !(InGrid(mz.matrix, c) && CellAt(mz.matrix, c) != WALL) then
        r.next == mz.agent && r.reward == -10 && !r.done
      else if CellAt(mz.matrix, c) == TARGET then
        r.next == c && r.reward == 100 && r.done
      else
        r.next == c && r.reward == -1 && !r.done
  {
    var c := Add(mz.agent, Delta(action));
    if !IsOnLimits(mz, c) || IsWall(mz, c) then
      StepResult(mz, mz.agent, BumpReward, false)
    else
      var mz' := mz.(agent := c);
      if mz.matrix[c.row][c.col] == TARGET then
        StepResult(mz', c, TargetReward, true)
      else
        StepResult(mz', c, MoveReward, false)
  }

  // ---------------------------------------------------------------------
  // Random restart (`reset`)

  /** An EMPTY or START cell: where `reset` may place the agent. */
  predicate IsFree(cell: int) {
    cell == EMPTY || cell == START
  }

  /** Free cells of row r from column c on, left to right. */
  function SlotsInRow(row: seq<int>, r: int, c: nat): (s: seq<Pos>)
    requires c <= |row|
    decreases |row| - c
    ensures forall k :: 0 <= k < |s| ==> s[k].row == r && c <= s[k].col < |row| && IsFree(row[s[k].col])
    ensures forall j :: c <= j < |row| && IsFree(row[j]) ==> Pos(r, j) in s
    ensures forall k, l :: 0 <= k < l < |s| ==> s[k].col < s[l].col
  {
    if c == |row| then []
    else if IsFree(row[c]) then [Pos(r, c)] + SlotsInRow(row, r, c + 1)
    else SlotsInRow(row, r, c + 1)
  }

  /** Free cells of rows r.. in row-major order. */
  function SlotsFromRow(m: Grid, r: nat): (s: seq<Pos>)
    requires r <= |m|
    decreases |m| - r
    ensures forall k :: 0 <= k < |s| ==> InGrid(m, s[k]) && r <= s[k].row && IsFree(CellAt(m, s[k]))
    ensures forall q :: InGrid(m, q) && r <= q.row && IsFree(CellAt(m, q)) ==> q in s
    ensures forall k, l :: 0 <= k < l < |s| ==> Before(s[k], s[l])
  {
    if r == |m| then []
    else
      var here := SlotsInRow(m[r], r, 0);
      var rest := SlotsFromRow(m, r + 1);
      assert forall q :: InGrid(m, q) && q.row == r && IsFree(CellAt(m, q)) ==> q in here by {
        forall q | InGrid(m, q) && q.row == r && IsFree(CellAt(m, q))
          ensures q in here
        {
          assert q == Pos(r, q.col);
        }
      }
      here + rest
  }

  /** `valid_slots` of `reset`: every EMPTY or START cell, row by row. */
  function ValidSlots(mz: Maze): (s: seq<Pos>)
    requires WellFormed(mz)
    ensures forall k :: 0 <= k < |s| ==> InGrid(mz.matrix, s[k]) && IsFree(CellAt(mz.matrix, s[k]))
    ensures forall q :: InGrid(mz.matrix, q) && IsFree(CellAt(mz.matrix, q)) ==> q in s
    ensures forall k, l :: 0 <= k < l < |s| ==> Before(s[k], s[l])
  {
    SlotsFromRow(mz.matrix, 0)
  }

  /** `reset`: `pick` is the index `random.choice` draws from the slot list,
      ignored when there are no slots. */
  function Reset(mz: Maze, pick: nat): (r: (Maze, Pos))
    requires WellFormed(mz)
    requires ValidSlots(mz) == [] || pick < |ValidSlots(mz)|
    ensures r.0 == mz.(agent := r.1)
    ensures (exists q :: InGrid(mz.matrix, q) && IsFree(CellAt(mz.matrix, q))) ==>
      InGrid(mz.matrix, r.1) && IsFree(CellAt(mz.matrix, r.1))
    ensures (forall q :: InGrid(mz.matrix, q) ==> !IsFree(CellAt(mz.matrix, q))) ==>
      r.1 == mz.start
  {
    var slots := ValidSlots(mz);
    var p := if slots != [] then slots[pick] else mz.start;
    (mz.(agent := p), p)
  }
}
