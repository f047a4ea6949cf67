/**
 The tabular Q-learning agent of `src/agents/q_learning_agent.py`: the
 temporal-difference update with a terminal case and the epsilon-greedy
 action choice over a `Tabular.Agent`.
 */
module QLearningAgent {
  import PyIndex
  import RealSeq
  import opened MazeEnv
  import opened Tabular

  /** `learn`: Q[s, a] moves a fraction alpha toward the target; nothing
      else in the table changes. */
  function Learn(ag: Agent, s: Pos, action: int, reward: real, next: Pos, done: bool): (ag': Agent)
    requires Valid(ag) && ValidState(ag, s.row, s.col) && PyIndex.InRange(action, ag.actions)
    requires !done ==> ValidState(ag, next.row, next.col)
    ensures Valid(ag') && ag' == ag.(table := ag'.table)
    ensures var (i, j, k) := Entry(ag, s.row, s.col, action);
      var v := ag.table[i][j][k];
      && (done ==> ag'.table[i][j][k] == v + ag.alpha * (reward - v))
      && (!done ==> ag'.table[i][j][k]
                    == v + ag.alpha * (reward + ag.gamma * RealSeq.Max(Values(ag, next.row, next.col)) - v))
      && forall a, b, c ::
           (0 <= a < ag.rows && 0 <= b < ag.cols && 0 <= c < ag.actions && (a, b, c) != (i, j, k))
           ==> ag'.table[a][b][c] == ag.table[a][b][c]
  {
    var (i, j, k) := Entry(ag, s.row, s.col, action);
    var v := ag.table[i][j][k];
    var target := if done then reward else reward + ag.gamma * RealSeq.Max(Values(ag, next.row, next.col));
    Write(ag, s.row, s.col, action, v + ag.alpha * (target - v))
  }

  /** `choose_action`: `u` is the draw of `rd.uniform(0, 1)` and `pick` the
      result of `rd.randrange(0, number_of_actions)`. */
  function ChooseAction(ag: Agent, s: Pos, u: real, pick: nat): (a: nat)
    requires Valid(ag) && 0 < ag.actions && pick < ag.actions
    requires ag.epsilon <= u ==> ValidState(ag, s.row, s.col)
    ensures a < ag.actions
    ensures u < ag.epsilon ==> a == pick
    ensures ag.epsilon <= u ==> RealSeq.IsFirstMax(Values(ag, s.row, s.col), a)
  {
    EpsilonGreedy(ag, s.row, s.col, u, pick)
  }

  // ---------------------------------------------------------------------
  // Properties

  /** On a terminal transition the next state plays no part. */
  lemma TerminalIgnoresNextState(ag: Agent, s: Pos, action: int, reward: real, n1: Pos, n2: Pos)
    requires Valid(ag) && ValidState(ag, s.row, s.col) && PyIndex.InRange(action, ag.actions)
    ensures Learn(ag, s, action, reward, n1, true) == Learn(ag, s, action, reward, n2, true)
  {
  }

  /** With 0 <= alpha <= 1 the updated entry lies between its old value and
      the target (the reward when terminal, else the reward plus the
      discounted best next value): the update never overshoots. */
  lemma LearnStaysBetweenOldAndTarget(ag: Agent, s: Pos, action: int, reward: real, next: Pos, done: bool)
    requires Valid(ag) && ValidState(ag, s.row, s.col) && PyIndex.InRange(action, ag.actions)
    requires !done ==> ValidState(ag, next.row, next.col)
    requires 0.0 <= ag.alpha <= 1.0
    ensures var (i, j, k) := Entry(ag, s.row, s.col, action);
      var v, v' := ag.table[i][j][k], Learn(ag, s, action, reward, next, done).table[i][j][k];
      var t := if done then reward else reward + ag.gamma * RealSeq.Max(Values(ag, next.row, next.col));
      (v <= t ==> v <= v' <= t) && (t <= v ==> t <= v' <= v)
  {
    var (i, j, k) := Entry(ag, s.row, s.col, action);
    var v, v' := ag.table[i][j][k], Learn(ag, s, action, reward, next, done).table[i][j][k];
    var t := if done then reward else reward + ag.gamma * RealSeq.Max(Values(ag, next.row, next.col));
    TdStepBetween(v, v', ag.alpha, t);
  }

  /** With alpha = 1 the entry takes the target; with alpha = 0 the table
      is unchanged. */
  lemma LearnExtremeRates(ag: Agent, s: Pos, action: int, reward: real, next: Pos, done: bool)
    requires Valid(ag) && ValidState(ag, s.row, s.col) && PyIndex.InRange(action, ag.actions)
    requires !done ==> ValidState(ag, next.row, next.col)
    ensures ag.alpha == 1.0 ==>
      var (i, j, k) := Entry(ag, s.row, s.col, action);
      Learn(ag, s, action, reward, next, done).table[i][j][k]
      == if done then reward else reward + ag.gamma * RealSeq.Max(Values(ag, next.row, next.col))
    ensures ag.alpha == 0.0 ==> Learn(ag, s, action, reward, next, done) == ag
  {
    var ag' := Learn(ag, s, action, reward, next, done);
    if ag.alpha == 0.0 {
      assert |ag'.table| == |ag.table|;
      forall a | 0 <= a < ag.rows ensures ag'.table[a] == ag.table[a] {
        forall b | 0 <= b < ag.cols ensures ag'.table[a][b] == ag.table[a][b] {
          assert forall c :: 0 <= c < ag.actions ==> ag'.table[a][b][c] == ag.table[a][b][c];
        }
      }
    }
  }

  /** With epsilon = 0 and a draw in [0, 1] the choice is the first maximum,
      whatever the random pick. */
  lemma GreedyWhenEpsilonZero(ag: Agent, s: Pos, u: real, p1: nat, p2: nat)
    requires Valid(ag) && ValidState(ag, s.row, s.col)
    requires 0 < ag.actions && p1 < ag.actions && p2 < ag.actions
    requires ag.epsilon == 0.0 && 0.0 <= u <= 1.0
    ensures ChooseAction(ag, s, u, p1) == ChooseAction(ag, s, u, p2) == RealSeq.ArgMax(Values(ag, s.row, s.col))
  {
  }
}
