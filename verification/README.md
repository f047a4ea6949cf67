# Grid-world Q-learning, modelled in Dafny

This project models the core of a small reinforcement-learning simulation. The
simulation has three parts:

- a grid maze, where an agent moves up, down, left or right, is penalised for
  bumping into walls or edges, and is rewarded on reaching a target cell;
- two tabular Q-learning agents: the newer `QLearningAgent`, whose `learn`
  knows about terminal transitions, and the older one in `src/agent.py`,
  which always bootstraps;
- a linear approximate Q-learning agent with three features: a bias, the
  scaled distance to the nearest target, and a "this move hits a wall" flag.

Everything is modelled as immutable values and pure functions. A `Maze` holds
the matrix, its dimensions, the start cell and the agent's position. `step`
and `reset` return the updated maze next to their result instead of mutating
`_agent_position`. An agent is a record of its Q-table (or weight vector) and
its parameters, and `learn` returns the updated agent.

Modelling decisions that matter when reading the contracts:

- **Python indexing.** A list or numpy index `i` into an axis of length `n`
  is accepted when `-n <= i < n`, and negative indices wrap (`PyIndex`). So
  action `-1` is "right" in `step`, and `q_table[-1, 0, a]` is the last row.
  An index outside that range raises `IndexError` in the source; here it is a
  precondition.
- **Numbers.** Q-values, rewards in the agents and weights are exact `real`s,
  not IEEE floats. Maze rewards are the source's integers -10, +100 and -1.
- **Randomness is a parameter.** `choose_action` takes the uniform draw `u`
  that is compared with epsilon and the random action `pick`. `reset` takes
  the index `pick` that `random.choice` draws from its list of free cells.
  Contracts hold for every value of these parameters.
- **Helpers that are not in the model.** The approximate agent calls
  `maze.predict_next_state` and `maze._find_all_targets`, which
  `src/maze.py` does not define. It also calls `np.linalg.norm` and `** 0.5`.
  These four are fields of an `Oracle` value that the agent receives. The
  lemma `WallFeatureIffPredictedStay` additionally *assumes* that
  `predict_next_state` is a non-mutating `step` (`PureStep`). That is a
  stand-in, not source behaviour.
  Because `predictNextState` is a plain function, every contract of the
  approximate agent treats `predict_next_state` as deterministic and free of
  side effects. `learn` calls it twice with the same arguments (through
  `get_features` and again through `get_q_value`), and the model agrees with
  the program only when both calls give the same answer and change nothing.
- **Behaviour of the code worth knowing:**
  - `reset` does not always return an in-bounds, non-wall cell. If the grid has
    no START cell, the start falls back to (0, 0). If the grid also has no
    EMPTY or START cell, `reset` returns that fallback, even when (0, 0) is a
    wall (`MazeProperties.WallStartFallback`).
  - The constructor does not reject unknown cell codes, so cells are arbitrary
    integers. Ragged matrices are excluded by a precondition rather than by an
    error.
  - An action index is not range-checked: any value in -4..3 is accepted.

Files:

- `wrappers.dfy`: `Option`.
- `pyindex.dfy`: Python index rules.
- `realseq.dfy`: `np.argmax`, `np.max`/`max` and `min` on real sequences.
- `maze.dfy`: `MazeEnv`, the environment.
- `maze_properties.dfy`: lemmas about `step` and `reset`, and a worked
  episode.
- `tabular.dfy`: the Q-table and epsilon-greedy choice that both tabular
  agents share.
- `q_learning_agent.dfy`, `legacy_agent.dfy`, `approximate_agent.dfy`: the
  three agents.

## Model

| member | source | states |
|---|---|---|
| PyIndex.Norm | src/maze.py:22 | the position Python reads for an accepted index is below the length, equals a non-negative index, and is the index plus the length for a negative one |
| RealSeq.ArgMax | src/agents/q_learning_agent.py:40 | `np.argmax` returns an index holding the maximum, with every earlier index strictly smaller (first maximum wins ties) |
| RealSeq.FirstMaxUnique | src/agent.py:24 | any index that is a first maximum is the one `ArgMax` returns, so tie-breaking is fully determined |
| RealSeq.Max | src/agents/q_learning_agent.py:29 | `np.max` is an element of the row and no element exceeds it |
| RealSeq.Min | src/agents/approximate_q_learning_agent.py:29 | `min` is an element of the list and no element is below it |
| MazeEnv.Delta | src/maze.py:22 | each accepted action, negative ones included, moves exactly one coordinate by -1 or +1 |
| MazeEnv.FindInRow | src/maze.py:114-116 | the inner scan returns the first column from `c` on holding the item, or none when no later column holds it |
| MazeEnv.FindFromRow | src/maze.py:113-118 | the outer scan returns the first cell in row-major order, from row `r` on, holding the item, or none when no such cell exists |
| MazeEnv.FindItem | src/maze.py:112-118 | `_find_item` returns the first row-major cell holding the item, and (0, 0) when no cell holds it |
| MazeEnv.New | src/maze.py:13-18 | `_rows` is the number of rows, `_cols` the length of row 0, the agent starts on the start cell, and the start is the first START cell or (0, 0) |
| MazeEnv.IsOnLimits | src/maze.py:52-53 | on a well-formed maze, `is_on_limits` holds exactly on the cells the matrix can be indexed at with non-negative indices, so `_rows` and `_cols` agree with the matrix |
| MazeEnv.IsWall | src/maze.py:58-61 | every out-of-bounds coordinate is a wall; in bounds, a wall exactly when the cell is WALL |
| MazeEnv.IsTarget | src/maze.py:55-56 | in bounds, true exactly on TARGET cells; for negative coordinates, true exactly when the wrapped cell is a TARGET |
| MazeEnv.Step | src/maze.py:20-34 | a blocked move keeps the position and maze with -10 and not done; a move onto a TARGET moves the agent with +100 and done; any other move moves it with -1 and not done; the returned position is the new agent position |
| MazeEnv.SlotsInRow | src/maze.py:40-43 | one row's free cells, left to right: every listed cell is free, and every free cell is listed |
| MazeEnv.SlotsFromRow | src/maze.py:39-43 | free cells from row `r` on, in strictly increasing row-major order, each one free and every free cell present |
| MazeEnv.ValidSlots | src/maze.py:37-43 | `valid_slots` lists exactly the EMPTY and START cells, in row-major order without repeats |
| MazeEnv.Reset | src/maze.py:36-50 | the returned position is the new agent position; it is an in-bounds EMPTY or START cell whenever one exists, and the recorded start otherwise |
| MazeProperties.BlockedIffWall | src/maze.py:26 | the bounds test in `step` adds nothing to `is_wall`: a move is blocked exactly when `is_wall` holds for the candidate cell |
| MazeProperties.StepKeepsAgentValid | src/maze.py:20-34 | an agent in bounds and off the walls stays in bounds and off the walls after any step |
| MazeProperties.StepStaysOrMovesByDelta | src/maze.py:20-34 | the agent either stays put or moves by exactly the action's offset onto a free in-bounds cell |
| MazeProperties.PenaltyIffStays | src/maze.py:26-27 | the -10 penalty is paid exactly when the position does not change |
| MazeProperties.DoneIffTargetReward | src/maze.py:31-32 | the episode ends exactly when +100 is paid, and then the agent stands on a TARGET cell |
| MazeProperties.MovedDoneIffIsTarget | src/maze.py:55-56 | after a real move, `done` agrees with `is_target` of the returned position |
| MazeProperties.BlockedStepIsFixedPoint | src/maze.py:26-27 | repeating a blocked move returns the identical result |
| MazeProperties.ResetReachesEveryFreeCell | src/maze.py:45-46 | every EMPTY or START cell is the outcome of `reset` for some random choice |
| MazeProperties.ValidSlotsDistinct | src/maze.py:39-43 | the slot list has no repeated cell |
| MazeProperties.WallStartFallback | src/maze.py:47-48 | without START, EMPTY or other free cells, `reset` returns (0, 0) even when that cell is a wall |
| MazeProperties.CornerStart | src/maze.py:17-18 | on a 3x3 grid with START in the corner, the agent starts there |
| MazeProperties.CornerMove | src/maze.py:29-34 | on that grid, a move onto a free cell gives -1 and not done, and a move onto the target gives +100 and done |
| MazeProperties.ThreeByThreeEpisode | src/maze.py:20-34 | right, down, right, down from the corner earns -1, -1, -1, +100 and only the last step ends the episode |
| Tabular.Zeros | src/agent.py:11 | `np.zeros` has shape rows x cols x n with every entry 0 |
| Tabular.New | src/agents/q_learning_agent.py:7-9 | the constructor stores the parameters and a zero table of the requested shape |
| Tabular.SetEntry | src/agent.py:38 | assigning one entry keeps the shape, stores the value there, and leaves every other entry unchanged |
| Tabular.Values | src/agents/q_learning_agent.py:29 | `q_table[row, col]` has one value per action, and its a-th value is the entry `q_table[row, col, a]` at the wrapped indices; both agents read it for `np.max` and `np.argmax` (also src/agent.py:24 and :32) |
| Tabular.Write | src/agents/q_learning_agent.py:32 | an assignment with numpy indices changes exactly the entry at the wrapped indices and no parameter |
| Tabular.BootstrapIsBestReturn | src/agents/q_learning_agent.py:29-30 | the bootstrapped target is one of the one-step returns reward + gamma * Q[s'][a], and with gamma >= 0 the largest of them |
| QLearningAgent.Learn | src/agents/q_learning_agent.py:20-32 | Q[s, a] becomes old + alpha * (reward - old) when done, and old + alpha * (reward + gamma * max Q[s'] - old) otherwise; no other entry, parameter or dimension changes |
| QLearningAgent.ChooseAction | src/agents/q_learning_agent.py:34-40 | the result is a valid action; below epsilon it is the random pick, otherwise the first index of the maximum of Q[s] |
| QLearningAgent.TerminalIgnoresNextState | src/agents/q_learning_agent.py:26-27 | on a terminal transition the next state has no effect on the update |
| QLearningAgent.LearnStaysBetweenOldAndTarget | src/agents/q_learning_agent.py:24-32 | with 0 <= alpha <= 1 the updated entry lies between its old value and the target |
| QLearningAgent.LearnExtremeRates | src/agents/q_learning_agent.py:32 | with alpha = 1 the entry becomes the target; with alpha = 0 the agent is unchanged |
| QLearningAgent.GreedyWhenEpsilonZero | src/agents/q_learning_agent.py:37-40 | with epsilon = 0 the choice is the first maximum whatever the random pick |
| LegacyAgent.Learn | src/agent.py:26-38 | Q[s, a] becomes old + alpha * (reward + gamma * max Q[s'] - old); nothing else changes |
| LegacyAgent.ChooseAction | src/agent.py:17-24 | the result is a valid action; below epsilon it is the random pick, otherwise the first index of the maximum of Q[s] |
| LegacyAgent.AgreesWithNonTerminalLearn | src/agent.py:31-38 | the older update equals the newer one on every non-terminal transition |
| LegacyAgent.TerminalGap | src/agent.py:36 | for any next state, goal included, the older update equals the terminal update plus alpha * gamma * max Q[s'], so it keeps bootstrapping where the newer agent stops |
| LegacyAgent.SameChoiceAsNewerAgent | src/agent.py:17-24 | both agent classes choose the same action from the same table and draws |
| ApproximateAgent.Distances | src/agents/approximate_q_learning_agent.py:28 | one distance per target, in target order, each the norm of the displacement to that target |
| ApproximateAgent.MinDist | src/agents/approximate_q_learning_agent.py:29 | 0 without targets; otherwise the distance to some target, and no target is closer |
| ApproximateAgent.DistanceFeature | src/agents/approximate_q_learning_agent.py:24-34 | f1 times the diagonal `MaxDist` (`(rows ** 2 + cols ** 2) ** 0.5`, line 31) is the distance from the given (predicted) state to the nearest target, and f1 is 0 without targets |
| ApproximateAgent.WallFeature | src/agents/approximate_q_learning_agent.py:21-35 | f2 is 1 exactly when the intended cell is off the grid or a wall, and 0 otherwise |
| ApproximateAgent.Features | src/agents/approximate_q_learning_agent.py:20-37 | three features: f0 = 1; f1 times the diagonal `MaxDist` is the minimum target distance from the predicted state, and 0 without targets; f2 is 1 exactly when the intended cell is off the grid or a wall and 0 otherwise |
| ApproximateAgent.Dot3 | src/agents/approximate_q_learning_agent.py:41 | `np.dot` of two 3-vectors is the sum of the three products |
| ApproximateAgent.AddScaled | src/agents/approximate_q_learning_agent.py:60 | `w + a * e * f` keeps the length and adds a * e * f[i] to each weight |
| ApproximateAgent.New | src/agents/approximate_q_learning_agent.py:7-9 | the constructor stores the parameters and `number_of_features` zero weights |
| ApproximateAgent.QValue | src/agents/approximate_q_learning_agent.py:39-41 | Q(s, a) is the bias weight plus the distance weight times f1, plus the wall weight exactly when the move is blocked |
| ApproximateAgent.QValues | src/agents/approximate_q_learning_agent.py:47 | one value per action, each Q(s, a) |
| ApproximateAgent.ChooseAction | src/agents/approximate_q_learning_agent.py:43-48 | the result is a valid action; below epsilon it is the random pick, otherwise the first index of the maximum Q-value |
| ApproximateAgent.LearnTarget | src/agents/approximate_q_learning_agent.py:53-58 | on a terminal transition the target of `learn` is the reward itself, whatever the next state |
| ApproximateAgent.LearnTargetIsBestReturn | src/agents/approximate_q_learning_agent.py:56-58 | on a non-terminal transition the target is one of the one-step returns reward + gamma * Q(s', a), and with gamma >= 0 the largest of them |
| ApproximateAgent.MoveToward | src/agents/approximate_q_learning_agent.py:60 | each weight moves by alpha * (target - Q(s, a)) times its feature; nothing else changes |
| ApproximateAgent.Learn | src/agents/approximate_q_learning_agent.py:50-60 | every weight moves by alpha * (target - Q(s, a)) times its feature, where the target is the reward when done and reward + gamma * max of Q(s', .) otherwise; the vector keeps its length and no parameter changes |
| ApproximateAgent.LearnBiasAndWall | src/agents/approximate_q_learning_agent.py:33-60 | in `learn`, the bias weight moves by alpha times the error target - Q(s, a), and the wall weight is unchanged when the intended move is legal |
| ApproximateAgent.DotAddScaled | src/agents/approximate_q_learning_agent.py:39-41 | the value is linear in the weights: (w + a e f) . g = w . g + a e (f . g) |
| ApproximateAgent.FeatureNormAtLeastOne | src/agents/approximate_q_learning_agent.py:33-37 | every feature vector has squared length at least 1, because of the bias |
| ApproximateAgent.MoveTowardBiasAndWall | src/agents/approximate_q_learning_agent.py:33-60 | the bias weight always moves by alpha * error, and the wall weight is unchanged when the intended move is legal |
| ApproximateAgent.MoveTowardShiftsValue | src/agents/approximate_q_learning_agent.py:50-60 | after the update, Q(s, a) has moved by alpha * (target - Q(s, a)) * f . f |
| ApproximateAgent.MoveTowardStaysBetween | src/agents/approximate_q_learning_agent.py:50-60 | when alpha * f . f is in [0, 1], the new Q(s, a) lies between the old one and the target |
| ApproximateAgent.TerminalLearnStaysBetween | src/agents/approximate_q_learning_agent.py:53-55 | when alpha * f . f is in [0, 1], a terminal transition leaves the new Q(s, a) between the old one and the reward |
| ApproximateAgent.BootstrapLearnStaysBetween | src/agents/approximate_q_learning_agent.py:56-60 | when alpha * f . f is in [0, 1], a non-terminal transition leaves the new Q(s, a) between the old one and the bootstrapped target |
| ApproximateAgent.TerminalIgnoresNextState | src/agents/approximate_q_learning_agent.py:53-55 | on a terminal transition the next state has no effect on the update |
| ApproximateAgent.GreedyWhenEpsilonZero | src/agents/approximate_q_learning_agent.py:43-48 | with epsilon = 0 the choice is the first maximum Q-value whatever the random pick |
| ApproximateAgent.WallFeatureIffBump | src/agents/approximate_q_learning_agent.py:35 | the wall feature is set exactly when `step` from the state would pay the -10 penalty |
| ApproximateAgent.WallFeatureIffPredictedStay | src/agents/approximate_q_learning_agent.py:25-35 | if `predict_next_state` is a non-mutating `step`, the wall feature is set exactly when the predicted state is the current one |

## Left out

- Rendering is not modelled: `Maze.draw` and `src/utils.py` only use pygame and matplotlib.
- File I/O is not modelled: `_load_matrix`, every `save_model`/`load_model`, `log_step` and `show_q_table`. The constructor takes the loaded matrix instead.
- The rows of the loaded matrix must have equal lengths, and there must be at least one row. This is a precondition of `MazeEnv.New`, because the source does not check it.
- The training loops (`src/main.py`, `src/simulations/`) are not modelled. They are pygame event loops.
- The `update` methods of both agents are not modelled. They combine `learn` with `predict_next_state` and `get_reward`. `get_reward` is not part of this model, and `predict_next_state` is only an abstract `Oracle` field.
- `src/agents/base_agent.py` is not modelled. It only stores the parameters, which are fields of the agent records here.
- Randomness is not modelled as a distribution. The draws are parameters, so uniformity and the probability of exploring are not stated.
- Floating point is not modelled, and neither is NaN. Values are exact reals.
- ApproximateAgent.Features: the Euclidean norm and the square root are fields of `Oracle`, so f1 is only related to them, not computed.
- ApproximateAgent.Features: `Usable` requires a non-zero diagonal only because `sqrt` is an abstract `Oracle` field. On a well-formed maze rows >= 1, so rows ** 2 + cols ** 2 >= 1 and the real diagonal is at least 1; Python never divides by zero here, and no input the program accepts is excluded when `sqrt` is the real square root.
- ApproximateAgent.MoveTowardStaysBetween: stated only for alpha * f . f in [0, 1]. Outside that range the update can overshoot, and no bound is claimed.
- ApproximateAgent.TerminalLearnStaysBetween: stated only for alpha * f . f in [0, 1]. With alpha = 1 and f = [1, 0, 1], a terminal update from zero weights toward reward 1 gives Q = 2, past the reward.
- ApproximateAgent.BootstrapLearnStaysBetween: stated only for alpha * f . f in [0, 1], for the same reason.
- MazeEnv.Reset: states which cells can come out, not which cell a given `pick` selects; `MazeProperties.ResetReachesEveryFreeCell` covers the other direction.
- ApproximateAgent.WallFeatureIffPredictedStay: relies on the assumed `PureStep` stand-in for `predict_next_state`.
