/**
 The Q-table shared by both tabular agents: a rows x cols x actions array of
 action values (exact reals in place of floats), created with `np.zeros`,
 read and written with numpy indexing, plus the agent's configuration.
 */
module Tabular {
  import PyIndex
  import RealSeq

  type Table = seq<seq<seq<real>>>

  /** `q.shape == (rows, cols, n)`. */
  predicate HasShape(q: Table, rows: nat, cols: nat, n: nat) {
    |q| == rows
    && forall i :: 0 <= i < rows ==>
         |q[i]| == cols && forall j :: 0 <= j < cols ==> |q[i][j]| == n
  }

  /** `np.zeros((rows, cols, n))`. */
  function Zeros(rows: nat, cols: nat, n: nat): (q: Table)
    ensures HasShape(q, rows, cols, n)
    ensures forall i, j, k :: 0 <= i < rows && 0 <= j < cols && 0 <= k < n ==> q[i][j][k] == 0.0
  {
    seq(rows, i => seq(cols, j => seq(n, k => 0.0)))
  }

  /** `q[i, j, k] = v` for non-negative indices. */
  function SetEntry(q: Table, i: nat, j: nat, k: nat, v: real): (q': Table)
    requires i < |q| && j < |q[i]| && k < |q[i][j]|
    ensures |q'| == |q|
    ensures forall a :: 0 <= a < |q| ==> |q'[a]| == |q[a]|
    ensures forall a, b :: 0 <= a < |q| && 0 <= b < |q[a]| ==> |q'[a][b]| == |q[a][b]|
    ensures q'[i][j][k] == v
    ensures forall a, b, c ::
              (0 <= a < |q| && 0 <= b < |q[a]| && 0 <= c < |q[a][b]| && (a, b, c) != (i, j, k))
              ==> q'[a][b][c] == q[a][b][c]
  {
    q[i := q[i][j := q[i][j][k := v]]]
  }

  /** The state shared by both tabular agent classes. `rows` and `cols`
      are the first two extents of the numpy array. */
  datatype Agent = Agent(table: Table, rows: nat, cols: nat, actions: nat,
                         alpha: real, gamma: real, epsilon: real)

  predicate Valid(ag: Agent) {
    HasShape(ag.table, ag.rows, ag.cols, ag.actions)
  }

  /** The constructor: a zero table of shape rows x cols x actions. */
  function New(rows: nat, cols: nat, actions: nat, alpha: real, gamma: real, epsilon: real): (ag: Agent)
    ensures Valid(ag) && ag.rows == rows && ag.cols == cols && ag.actions == actions
    ensures ag.alpha == alpha && ag.gamma == gamma && ag.epsilon == epsilon
    ensures forall i, j, k :: 0 <= i < rows && 0 <= j < cols && 0 <= k < actions ==>
              ag.table[i][j][k] == 0.0
  {
    Agent(Zeros(rows, cols, actions), rows, cols, actions, alpha, gamma, epsilon)
  }

  /** The state indexes the table's first two axes (numpy indexing). */
  predicate ValidState(ag: Agent, row: int, col: int) {
    PyIndex.InRange(row, ag.rows) && PyIndex.InRange(col, ag.cols)
  }

  /** `q_table[row, col]`: the action values of one state, so that
      `q_table[row, col][a]` reads the same entry as `q_table[row, col, a]`. */
  function Values(ag: Agent, row: int, col: int): (v: seq<real>)
    requires Valid(ag) && ValidState(ag, row, col)
    ensures |v| == ag.actions
    ensures forall a :: 0 <= a < |v| ==> var (i, j, k) := Entry(ag, row, col, a); v[a] == ag.table[i][j][k]
  {
    ag.table[PyIndex.Norm(row, ag.rows)][PyIndex.Norm(col, ag.cols)]
  }

  /** The entry `q_table[row, col, action]` addresses: each numpy index
      wrapped into its axis. */
  function Entry(ag: Agent, row: int, col: int, action: int): (nat, nat, nat)
    requires ValidState(ag, row, col) && PyIndex.InRange(action, ag.actions)
  {
    (PyIndex.Norm(row, ag.rows), PyIndex.Norm(col, ag.cols), PyIndex.Norm(action, ag.actions))
  }

  /** The bootstrapped target of a non-terminal transition: the reward plus
      the discounted best value of the next state. */
  function Bootstrap(reward: real, gamma: real, best: real): real {
    reward + gamma * best
  }

  /** Bootstrapping from the best next value picks the largest of the
      one-step returns reward + gamma * next[a] when gamma is non-negative,
      and is one of them. */
  lemma BootstrapIsBestReturn(reward: real, gamma: real, next: seq<real>)
    requires |next| > 0
    ensures exists a :: 0 <= a < |next| && Bootstrap(reward, gamma, RealSeq.Max(next)) == reward + gamma * next[a]
    ensures 0.0 <= gamma ==>
      forall a :: 0 <= a < |next| ==> reward + gamma * next[a] <= Bootstrap(reward, gamma, RealSeq.Max(next))
  {
    var m := RealSeq.Max(next);
    var k := RealSeq.ArgMax(next);
    assert next[k] == m;
    if 0.0 <= gamma {
      forall a | 0 <= a < |next| ensures reward + gamma * next[a] <= reward + gamma * m {
        RealSeq.MulMonotone(gamma, next[a], m);
      }
    }
  }

  /** With gamma non-negative, a better next value never lowers the return. */
  lemma BootstrapMonotone(reward: real, gamma: real, x: real, y: real)
    requires 0.0 <= gamma && x <= y
    ensures Bootstrap(reward, gamma, x) <= Bootstrap(reward, gamma, y)
  {
    RealSeq.MulMonotone(gamma, x, y);
  }

  /** With a rate in [0, 1], the temporal-difference step
      v' = v + alpha * (target - v) lands between its start and its target. */
  lemma TdStepBetween(v: real, v': real, alpha: real, target: real)
    requires 0.0 <= alpha <= 1.0 && v' == v + alpha * (target - v)
    ensures v <= target ==> v <= v' <= target
    ensures target <= v ==> target <= v' <= v
  {
    var d := target - v;
    if 0.0 <= d {
      assert 0.0 <= alpha * d;
      assert 0.0 <= (1.0 - alpha) * d;
    } else {
      assert alpha * d <= 0.0;
      assert (1.0 - alpha) * d <= 0.0;
    }
  }

  /** The table with entry [row, col, action] (numpy indexing) replaced. */
  function Write(ag: Agent, row: int, col: int, action: int, v: real): (ag': Agent)
    requires Valid(ag) && ValidState(ag, row, col) && PyIndex.InRange(action, ag.actions)
    ensures Valid(ag') && ag' == ag.(table := ag'.table)
    ensures var (i, j, k) := Entry(ag, row, col, action);
      ag'.table[i][j][k] == v
      && forall a, b, c ::
           (0 <= a < ag.rows && 0 <= b < ag.cols && 0 <= c < ag.actions && (a, b, c) != (i, j, k))
           ==> ag'.table[a][b][c] == ag.table[a][b][c]
  {
    var (i, j, k) := Entry(ag, row, col, action);
    ag.(table := SetEntry(ag.table, i, j, k, v))
  }

  /** The epsilon-greedy choice: `u` is the uniform draw compared with
      epsilon and `pick` the random action taken when it is smaller; only
      the greedy branch indexes the table. */
  function EpsilonGreedy(ag: Agent, row: int, col: int, u: real, pick: nat): (a: nat)
    requires Valid(ag) && 0 < ag.actions && pick < ag.actions
    requires ag.epsilon <= u ==> ValidState(ag, row, col)
    ensures a < ag.actions
    ensures u < ag.epsilon ==> a == pick
    ensures ag.epsilon <= u ==> RealSeq.IsFirstMax(Values(ag, row, col), a)
  {
    if u < ag.epsilon then pick else RealSeq.ArgMax(Values(ag, row, col))
  }
}
