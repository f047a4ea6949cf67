/**
 The older tabular agent of `src/agent.py`: the same table and
 epsilon-greedy choice, with a Bellman update that always bootstraps from the
 next state (no terminal case).
 */
module LegacyAgent {
  import PyIndex
  import RealSeq
  import opened MazeEnv
  import opened Tabular
  import QLearningAgent

  /** `learn`: Q[s, a] := old + alpha * (reward + gamma * max Q[s'] - old);
      nothing else in the table changes. */
  function Learn(ag: Agent, s: Pos, action: int, reward: real, next: Pos): (ag': Agent)
    requires Valid(ag) && ValidState(ag, s.row, s.col) && PyIndex.InRange(action, ag.actions)
    requires ValidState(ag, next.row, next.col)
    ensures Valid(ag') && ag' == ag.(table := ag'.table)
    ensures var (i, j, k) := Entry(ag, s.row, s.col, action);
      var v := ag.table[i][j][k];
      && ag'.table[i][j][k] == v + ag.alpha * (reward + ag.gamma * RealSeq.Max(Values(ag, next.row, next.col)) - v)
      && forall a, b, c ::
           (0 <= a < ag.rows && 0 <= b < ag.cols && 0 <= c < ag.actions && (a, b, c) != (i, j, k))
           ==> ag'.table[a][b][c] == ag.table[a][b][c]
  {
    var (i, j, k) := Entry(ag, s.row, s.col, action);
    var v := ag.table[i][j][k];
    var nextMax := RealSeq.Max(Values(ag, next.row, next.col));
    Write(ag, s.row, s.col, action, v + ag.alpha * (reward + ag.gamma * nextMax - v))
  }

  /** `choose_action`: `u` is the draw of `np.random.uniform(0, 1)` and
      `pick` the result of `np.random.randint(0, number_of_actions)`. */
  function ChooseAction(ag: Agent, s: Pos, u: real, pick: nat): (a: nat)
    requires Valid(ag) && 0 < ag.actions && pick < ag.actions
    requires ag.epsilon <= u ==> ValidState(ag, s.row, s.col)
    ensures a < ag.actions
    ensures u < ag.epsilon ==> a == pick
    ensures ag.epsilon <= u ==> RealSeq.IsFirstMax(Values(ag, s.row, s.col), a)
  {
    if u < ag.epsilon then pick else RealSeq.ArgMax(Values(ag, s.row, s.col))
  }

  /** The older update is the newer one on a non-terminal transition. */
  lemma AgreesWithNonTerminalLearn(ag: Agent, s: Pos, action: int, reward: real, next: Pos)
    requires Valid(ag) && ValidState(ag, s.row, s.col) && PyIndex.InRange(action, ag.actions)
    requires ValidState(ag, next.row, next.col)
    ensures Learn(ag, s, action, reward, next) == QLearningAgent.Learn(ag, s, action, reward, next, false)
  {
  }

  /** Even when the next state is the goal the older update adds the
      discounted value of that state: it differs from the terminal update by
      alpha * gamma * max Q[s']. */
  lemma TerminalGap(ag: Agent, s: Pos, action: int, reward: real, next: Pos)
    requires Valid(ag) && ValidState(ag, s.row, s.col) && PyIndex.InRange(action, ag.actions)
    requires ValidState(ag, next.row, next.col)
    ensures var (i, j, k) := Entry(ag, s.row, s.col, action);
      Learn(ag, s, action, reward, next).table[i][j][k]
      == QLearningAgent.Learn(ag, s, action, reward, next, true).table[i][j][k]
         + ag.alpha * ag.gamma * RealSeq.Max(Values(ag, next.row, next.col))
  {
  }

  /** Both agent classes make the same choice from the same table and draws. */
  lemma SameChoiceAsNewerAgent(ag: Agent, s: Pos, u: real, pick: nat)
    requires Valid(ag) && 0 < ag.actions && pick < ag.actions
    requires ag.epsilon <= u ==> ValidState(ag, s.row, s.col)
    ensures ChooseAction(ag, s, u, pick) == QLearningAgent.ChooseAction(ag, s, u, pick)
  {
  }
}
