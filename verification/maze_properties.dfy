/**
 Properties of the grid environment that relate several calls or several
 members: the position invariant kept by `step`, the reward/terminal
 correspondences, idempotence of a blocked move, reachability of every free
 cell by `reset`, and a worked episode on a 3x3 grid.
 */
module MazeProperties {
  import opened MazeEnv
  import PyIndex

  /** The bounds test in `step` adds nothing to `is_wall`: a move is blocked
      exactly when `is_wall` holds for the candidate cell. */
  lemma BlockedIffWall(mz: Maze, action: int)
    requires WellFormed(mz) && ValidAction(action)
    ensures Blocked(mz, action) <==> IsWall(mz, Add(mz.agent, Delta(action)))
  {
  }

  /** The position invariant: an agent in bounds and off the walls stays so. */
  lemma StepKeepsAgentValid(mz: Maze, action: int)
    requires WellFormed(mz) && ValidAction(action)
    requires InGrid(mz.matrix, mz.agent) && CellAt(mz.matrix, mz.agent) != WALL
    ensures var r := Step(mz, action);
      WellFormed(r.maze) && InGrid(r.maze.matrix, r.maze.agent) && CellAt(r.maze.matrix, r.maze.agent) != WALL
  {
  }

  /** Whatever the agent's position, `step` either leaves it where it is or
      moves it by exactly the action's offset onto a free, in-bounds cell. */
  lemma StepStaysOrMovesByDelta(mz: Maze, action: int)
    requires WellFormed(mz) && ValidAction(action)
    ensures var r := Step(mz, action);
      r.next == r.maze.agent
      && (r.next == mz.agent
          || (r.next == Add(mz.agent, Delta(action))
              && InGrid(mz.matrix, r.next) && CellAt(mz.matrix, r.next) != WALL))
  {
  }

  /** The -10 penalty is paid exactly when the agent does not move. */
  lemma PenaltyIffStays(mz: Maze, action: int)
    requires WellFormed(mz) && ValidAction(action)
    ensures var r := Step(mz, action);
      r.reward == BumpReward <==> r.next == mz.agent
  {
    var d := Delta(action);
    assert Add(mz.agent, d) != mz.agent;
  }

  /** The episode ends exactly when the +100 reward is paid, and then the
      agent stands on a TARGET cell. */
  lemma DoneIffTargetReward(mz: Maze, action: int)
    requires WellFormed(mz) && ValidAction(action)
    ensures var r := Step(mz, action);
      (r.done <==> r.reward == TargetReward)
      && (r.done ==> InGrid(mz.matrix, r.next) && CellAt(mz.matrix, r.next) == TARGET)
  {
  }

  /** After a real move, `done` is exactly `is_target` of the returned
      position, the flag the agents' `update` recomputes. */
  lemma MovedDoneIffIsTarget(mz: Maze, action: int)
    requires WellFormed(mz) && ValidAction(action)
    ensures var r := Step(mz, action);
      r.next != mz.agent ==>
        && PyIndex.InRange(r.next.row, mz.rows) && PyIndex.InRange(r.next.col, mz.cols)
        && (r.done <==> IsTarget(r.maze, r.next))
  {
  }

  /** Repeating a blocked move returns the identical result. */
  lemma BlockedStepIsFixedPoint(mz: Maze, action: int)
    requires WellFormed(mz) && ValidAction(action)
    requires Step(mz, action).reward == BumpReward
    ensures Step(Step(mz, action).maze, action) == Step(mz, action)
  {
    PenaltyIffStays(mz, action);
  }

  /** Every EMPTY or START cell is a possible outcome of `reset`, and every
      outcome is one of them (when one exists). */
  lemma ResetReachesEveryFreeCell(mz: Maze, q: Pos)
    requires WellFormed(mz)
    requires InGrid(mz.matrix, q) && IsFree(CellAt(mz.matrix, q))
    ensures exists pick: nat :: pick < |ValidSlots(mz)| && Reset(mz, pick).1 == q
  {
    var slots := ValidSlots(mz);
    assert q in slots;
    var k :| 0 <= k < |slots| && slots[k] == q;
    assert Reset(mz, k).1 == q;
  }

  /** The slot list has no repeats, so `random.choice` weighs each free cell
      once. */
  lemma ValidSlotsDistinct(mz: Maze)
    requires WellFormed(mz)
    ensures forall k, l :: 0 <= k < l < |ValidSlots(mz)| ==> ValidSlots(mz)[k] != ValidSlots(mz)[l]
  {
  }

  /** Without a START cell the start falls back to (0, 0) even when that
      cell is a wall, and with no free cell `reset` returns it as well. */
  lemma WallStartFallback()
    ensures var mz := New([[WALL, TARGET]]);
      mz.agent == Pos(0, 0) && CellAt(mz.matrix, mz.agent) == WALL
      && Reset(mz, 0).1 == Pos(0, 0)
  {
    var m := [[WALL, TARGET]];
    var mz := New(m);
    assert forall q :: InGrid(m, q) ==> CellAt(m, q) != START by {
      forall q | InGrid(m, q) ensures CellAt(m, q) != START {
        assert q.row == 0 && (q.col == 0 || q.col == 1);
      }
    }
    assert forall q :: InGrid(m, q) ==> !IsFree(CellAt(m, q)) by {
      forall q | InGrid(m, q) ensures !IsFree(CellAt(m, q)) {
        assert q.row == 0 && (q.col == 0 || q.col == 1);
      }
    }
  }

  /** A 3x3 grid with START at (0, 0) and TARGET at (2, 2). */
  const Corner: Grid := [[START, EMPTY, EMPTY], [EMPTY, EMPTY, EMPTY], [EMPTY, EMPTY, TARGET]]

  /** The constructor places the agent on the START cell of `Corner`. */
  lemma CornerStart()
    ensures New(Corner) == CornerAt(Pos(0, 0))
  {
    assert InGrid(Corner, Pos(0, 0)) && CellAt(Corner, Pos(0, 0)) == START;
  }

  /** `Corner` with the agent at p. */
  function CornerAt(p: Pos): Maze {
    Maze(Corner, 3, 3, Pos(0, 0), p)
  }

  /** One move on `Corner` onto the free cell q next to p. */
  lemma CornerMove(p: Pos, action: int, q: Pos)
    requires ValidAction(action) && q == Add(p, Delta(action))
    requires 0 <= q.row < 3 && 0 <= q.col < 3
    ensures Step(CornerAt(p), action)
            == if q == Pos(2, 2) then StepResult(CornerAt(q), q, 100, true) else StepResult(CornerAt(q), q, -1, false)
  {
    assert WellFormed(CornerAt(p));
    assert CellAt(Corner, q) == if q == Pos(2, 2) then TARGET else if q == Pos(0, 0) then START else EMPTY;
  }

  /** On `Corner`, right, down, right, down from the start (`CornerStart`) reaches the
      target with rewards -1, -1, -1, +100, and only the last step ends the
      episode. */
  lemma ThreeByThreeEpisode()
    ensures Step(CornerAt(Pos(0, 0)), 3) == StepResult(CornerAt(Pos(0, 1)), Pos(0, 1), -1, false)
    ensures Step(CornerAt(Pos(0, 1)), 1) == StepResult(CornerAt(Pos(1, 1)), Pos(1, 1), -1, false)
    ensures Step(CornerAt(Pos(1, 1)), 3) == StepResult(CornerAt(Pos(1, 2)), Pos(1, 2), -1, false)
    ensures Step(CornerAt(Pos(1, 2)), 1) == StepResult(CornerAt(Pos(2, 2)), Pos(2, 2), 100, true)
  {
    CornerMove(Pos(0, 0), 3, Pos(0, 1));
    CornerMove(Pos(0, 1), 1, Pos(1, 1));
    CornerMove(Pos(1, 1), 3, Pos(1, 2));
    CornerMove(Pos(1, 2), 1, Pos(2, 2));
  }
}
