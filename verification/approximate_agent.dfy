/**
 The linear approximate Q-learning agent of
 `src/agents/approximate_q_learning_agent.py`: a value is the dot product of
 a weight vector with three features of (state, action) — a bias, the scaled
 distance from the predicted next state to the nearest target, and a flag
 for a move into a wall or off the grid — and learning adds
 alpha * error * features to the weights.

 The agent calls maze helpers that `src/maze.py` does not define
 (`predict_next_state`, `_find_all_targets`) and floating-point routines
 (`np.linalg.norm`, `** 0.5`); these are fields of an `Oracle`.
 */
module ApproximateAgent {
  import RealSeq
  import opened MazeEnv
  import Tabular

  /** Length of the feature vector. */
  const NumFeatures: nat := 3

  /** The environment as the agent sees it. `norm(dr, dc)` stands for the
      Euclidean length of a displacement and `sqrt(x)` for `x ** 0.5`. */
  datatype Oracle = Oracle(
    maze: Maze,
    predictNextState: (Pos, int) -> Pos,
    targets: seq<Pos>,
    norm: (int, int) -> real,
    sqrt: int -> real)

  /** `(rows ** 2 + cols ** 2) ** 0.5`, the length of the grid's diagonal. */
  function MaxDist(o: Oracle): real {
    o.sqrt(o.maze.rows * o.maze.rows + o.maze.cols * o.maze.cols)
  }

  /** A well-formed maze and a diagonal Python can divide by. */
  predicate Usable(o: Oracle) {
    WellFormed(o.maze) && MaxDist(o) != 0.0
  }

  /** `distances`: from p to every target, in the order of `targets`. */
  function Distances(o: Oracle, p: Pos): (d: seq<real>)
    ensures |d| == |o.targets|
    ensures forall t :: 0 <= t < |d| ==> d[t] == o.norm(p.row - o.targets[t].row, p.col - o.targets[t].col)
  {
    seq(|o.targets|, t requires 0 <= t < |o.targets| =>
      o.norm(p.row - o.targets[t].row, p.col - o.targets[t].col))
  }

  /** `min_dist`: the smallest distance, 0 when there is no target. */
  function MinDist(o: Oracle, p: Pos): (m: real)
    ensures |o.targets| == 0 ==> m == 0.0
    ensures |o.targets| > 0 ==>
      (exists t :: 0 <= t < |o.targets| && m == o.norm(p.row - o.targets[t].row, p.col - o.targets[t].col))
      && forall t :: 0 <= t < |o.targets| ==> m <= o.norm(p.row - o.targets[t].row, p.col - o.targets[t].col)
  {
    if |o.targets| == 0 then 0.0
    else
      var d := Distances(o, p);
      var m := RealSeq.Min(d);
      assert exists t :: 0 <= t < |d| && d[t] == m;
      m
  }

  /** f1 of `get_features`: the distance from `next` to the nearest target,
      measured in diagonals. */
  function DistanceFeature(o: Oracle, next: Pos): (f1: real)
    requires Usable(o)
    ensures f1 * MaxDist(o) == MinDist(o, next)
    ensures |o.targets| == 0 ==> f1 == 0.0
  {
    MinDist(o, next) / MaxDist(o)
  }

  /** f2 of `get_features`: 1 when the intended cell is off the grid or a
      wall, 0 otherwise. */
  function WallFeature(o: Oracle, s: Pos, action: int): (f2: real)
    requires Usable(o) && ValidAction(action)
    ensures f2 == 0.0 || f2 == 1.0
    ensures var c := Add(s, Delta(action));
      f2 == 1.0 <==> !(InGrid(o.maze.matrix, c) && CellAt(o.maze.matrix, c) != WALL)
  {
    var intended := Add(s, Delta(action));
    if !IsOnLimits(o.maze, intended) || IsWall(o.maze, intended) then 1.0 else 0.0
  }

  /** `get_features`: [bias, distance to nearest target / diagonal, wall flag]. */
  function Features(o: Oracle, s: Pos, action: int): (f: seq<real>)
    requires Usable(o) && ValidAction(action)
    ensures |f| == NumFeatures
    ensures f[0] == 1.0
    ensures f[2] == 0.0 || f[2] == 1.0
    ensures var c := Add(s, Delta(action));
      f[2] == 1.0 <==> !(InGrid(o.maze.matrix, c) && CellAt(o.maze.matrix, c) != WALL)
    ensures f[1] * MaxDist(o) == MinDist(o, o.predictNextState(s, action))
    ensures |o.targets| == 0 ==> f[1] == 0.0
  {
    [1.0, DistanceFeature(o, o.predictNextState(s, action)), WallFeature(o, s, action)]
  }

  /** `np.dot` of two equally long vectors. */
  function Dot(w: seq<real>, f: seq<real>): real
    requires |w| == |f|
  {
    if |w| == 0 then 0.0 else w[0] * f[0] + Dot(w[1..], f[1..])
  }

  /** The dot product of two 3-vectors, written out. */
  lemma Dot3(w: seq<real>, f: seq<real>)
    requires |w| == |f| == 3
    ensures Dot(w, f) == w[0] * f[0] + w[1] * f[1] + w[2] * f[2]
  {
    var w1, f1 := w[1..], f[1..];
    var w2, f2 := w1[1..], f1[1..];
    assert Dot(w2[1..], f2[1..]) == 0.0;
    assert Dot(w2, f2) == w[2] * f[2];
    assert Dot(w1, f1) == w[1] * f[1] + w[2] * f[2];
  }

  /** `w + a * e * f`, elementwise. */
  function AddScaled(w: seq<real>, a: real, e: real, f: seq<real>): (r: seq<real>)
    requires |w| == |f|
    ensures |r| == |w|
    ensures forall i :: 0 <= i < |r| ==> r[i] == w[i] + a * e * f[i]
  {
    seq(|w|, i requires 0 <= i < |w| => w[i] + a * e * f[i])
  }

  /** w' is w with a * e * f[i] added to every weight w[i]. */
  predicate AddedScaled(w: seq<real>, w': seq<real>, a: real, e: real, f: seq<real>) {
    |w'| == |w| == |f| && forall i :: 0 <= i < |w| ==> w'[i] == w[i] + a * e * f[i]
  }

  /** The state of the agent: `_weights` and the base-class parameters. */
  datatype Agent = Agent(weights: seq<real>, actions: nat, alpha: real, gamma: real, epsilon: real)

  /** The weight vector matches the three features `np.dot` meets it with. */
  predicate Valid(ag: Agent) {
    |ag.weights| == NumFeatures
  }

  /** The constructor: `number_of_features` zero weights. */
  function New(features: nat, actions: nat, alpha: real, gamma: real, epsilon: real): (ag: Agent)
    ensures |ag.weights| == features && forall i :: 0 <= i < features ==> ag.weights[i] == 0.0
    ensures features == NumFeatures ==> Valid(ag)
    ensures ag.actions == actions && ag.alpha == alpha && ag.gamma == gamma && ag.epsilon == epsilon
  {
    Agent(seq(features, i => 0.0), actions, alpha, gamma, epsilon)
  }

  /** `get_q_value`: the weights applied to the features, which is the bias
      weight plus the weighted distance feature, plus the wall weight exactly
      when the move is blocked. */
  function QValue(ag: Agent, o: Oracle, s: Pos, action: int): (q: real)
    requires Valid(ag) && Usable(o) && ValidAction(action)
    ensures var f := Features(o, s, action);
      q == ag.weights[0] + ag.weights[1] * f[1] + (if f[2] == 1.0 then ag.weights[2] else 0.0)
  {
    var f := Features(o, s, action);
    Dot3(ag.weights, f);
    Dot(ag.weights, f)
  }

  /** `[get_q_value(state, a, maze) for a in range(number_of_actions)]`. */
  function QValues(ag: Agent, o: Oracle, s: Pos): (qs: seq<real>)
    requires Valid(ag) && Usable(o) && ag.actions <= |Deltas|
    ensures |qs| == ag.actions
    ensures forall a :: 0 <= a < |qs| ==> qs[a] == QValue(ag, o, s, a)
  {
    seq(ag.actions, a requires 0 <= a < ag.actions => QValue(ag, o, s, a))
  }

  /** `choose_action`: `u` is the draw of `rd.uniform(0, 1)` and `pick` the
      result of `rd.randrange(0, number_of_actions)`; only the greedy branch
      reads the maze and indexes the action table. */
  function ChooseAction(ag: Agent, o: Oracle, s: Pos, u: real, pick: nat): (a: nat)
    requires Valid(ag) && 0 < ag.actions && pick < ag.actions
    requires ag.epsilon <= u ==> Usable(o) && ag.actions <= |Deltas|
    ensures a < ag.actions
    ensures u < ag.epsilon ==> a == pick
    ensures ag.epsilon <= u ==> RealSeq.IsFirstMax(QValues(ag, o, s), a)
  {
    if u < ag.epsilon then pick else RealSeq.ArgMax(QValues(ag, o, s))
  }

  /** The weight update of `learn` for a given target: every weight moves
      by alpha * (target - Q(s, a)) times its feature. */
  function MoveToward(ag: Agent, o: Oracle, s: Pos, action: int, target: real): (ag': Agent)
    requires Valid(ag) && Usable(o) && ValidAction(action)
    ensures Valid(ag') && ag' == ag.(weights := ag'.weights)
    ensures AddedScaled(ag.weights, ag'.weights, ag.alpha, target - QValue(ag, o, s, action), Features(o, s, action))
  {
    var f := Features(o, s, action);
    ag.(weights := AddScaled(ag.weights, ag.alpha, target - QValue(ag, o, s, action), f))
  }

  /** The target `learn` moves Q(s, a) toward: the reward on a terminal
      transition, else the reward plus the discounted best value of the next
      state (`LearnTargetIsBestReturn`). */
  function LearnTarget(ag: Agent, o: Oracle, reward: real, next: Pos, done: bool): (t: real)
    requires Valid(ag) && Usable(o) && (!done ==> 0 < ag.actions <= |Deltas|)
    ensures done ==> t == reward
  {
    if done then reward else Tabular.Bootstrap(reward, ag.gamma, RealSeq.Max(QValues(ag, o, next)))
  }

  /** `learn`: every weight moves by alpha * (target - Q(s, a)) times its
      feature (`LearnBiasAndWall` spells this out for the bias and the wall
      weight). */
  function Learn(ag: Agent, o: Oracle, s: Pos, action: int, reward: real, next: Pos, done: bool): (ag': Agent)
    requires Valid(ag) && Usable(o) && ValidAction(action)
    requires !done ==> 0 < ag.actions <= |Deltas|
    ensures Valid(ag') && ag' == ag.(weights := ag'.weights)
    ensures AddedScaled(ag.weights, ag'.weights, ag.alpha, LearnTarget(ag, o, reward, next, done) - QValue(ag, o, s, action), Features(o, s, action))
  {
    MoveToward(ag, o, s, action, LearnTarget(ag, o, reward, next, done))
  }

  // ---------------------------------------------------------------------
  // Properties

  /** The tail of a scaled sum is the scaled sum of the tails. */
  lemma AddScaledTail(w: seq<real>, a: real, e: real, f: seq<real>)
    requires |w| == |f| > 0
    ensures AddScaled(w, a, e, f)[1..] == AddScaled(w[1..], a, e, f[1..])
  {
    var r, r' := AddScaled(w, a, e, f), AddScaled(w[1..], a, e, f[1..]);
    assert forall i :: 0 <= i < |r'| ==> r[1..][i] == r'[i];
  }

  /** The dot product is linear in its first argument. */
  lemma {:induction false} DotAddScaled(w: seq<real>, a: real, e: real, f: seq<real>, g: seq<real>)
    requires |w| == |f| == |g|
    ensures Dot(AddScaled(w, a, e, f), g) == Dot(w, g) + a * e * Dot(f, g)
  {
    if |w| > 0 {
      var r := AddScaled(w, a, e, f);
      AddScaledTail(w, a, e, f);
      DotAddScaled(w[1..], a, e, f[1..], g[1..]);
      Distribute(w[0], f[0], g[0], a, e, Dot(w[1..], g[1..]), Dot(f[1..], g[1..]));
    }
  }

  /** The ring step of `DotAddScaled`. */
  lemma Distribute(w0: real, f0: real, g0: real, a: real, e: real, dw: real, df: real)
    ensures (w0 + a * e * f0) * g0 + (dw + a * e * df) == (w0 * g0 + dw) + a * e * (f0 * g0 + df)
  {
  }

  /** Every feature vector has squared length at least 1, from the bias. */
  lemma FeatureNormAtLeastOne(o: Oracle, s: Pos, action: int)
    requires Usable(o) && ValidAction(action)
    ensures Dot(Features(o, s, action), Features(o, s, action)) >= 1.0
  {
    var f := Features(o, s, action);
    Dot3(f, f);
    assert 0.0 <= f[1] * f[1] && 0.0 <= f[2] * f[2];
  }

  /** The bias weight always moves by alpha * error; the wall weight moves
      only when the move is blocked. */
  lemma MoveTowardBiasAndWall(ag: Agent, o: Oracle, s: Pos, action: int, t: real)
    requires Valid(ag) && Usable(o) && ValidAction(action)
    ensures var ag', err := MoveToward(ag, o, s, action, t), t - QValue(ag, o, s, action);
      && ag'.weights[0] == ag.weights[0] + ag.alpha * err
      && (Features(o, s, action)[2] == 0.0 ==> ag'.weights[2] == ag.weights[2])
  {
  }

  /** In `learn` toward its target t, the bias weight moves by alpha
      times the error t - Q(s, a), and the wall weight stays put when the
      intended move is legal. */
  lemma LearnBiasAndWall(ag: Agent, o: Oracle, s: Pos, action: int, reward: real, next: Pos, done: bool, t: real)
    requires Valid(ag) && Usable(o) && ValidAction(action)
    requires !done ==> 0 < ag.actions <= |Deltas|
    requires t == LearnTarget(ag, o, reward, next, done)
    ensures var ag' := Learn(ag, o, s, action, reward, next, done);
      && ag'.weights[0] == ag.weights[0] + ag.alpha * (t - QValue(ag, o, s, action))
      && (Features(o, s, action)[2] == 0.0 ==> ag'.weights[2] == ag.weights[2])
  {
    MoveTowardBiasAndWall(ag, o, s, action, t);
  }

  /** The non-terminal target of `learn` is one of the one-step returns
      Bootstrap(reward, gamma, Q(next, a)) = reward + gamma * Q(next, a), and
      the largest of them when gamma is non-negative. */
  lemma LearnTargetIsBestReturn(ag: Agent, o: Oracle, reward: real, next: Pos, qs: seq<real>)
    requires Valid(ag) && Usable(o) && 0 < ag.actions <= |Deltas|
    requires qs == QValues(ag, o, next)
    ensures var t := LearnTarget(ag, o, reward, next, false);
      exists a :: 0 <= a < |qs| && t == Tabular.Bootstrap(reward, ag.gamma, qs[a])
    ensures var t := LearnTarget(ag, o, reward, next, false);
      0.0 <= ag.gamma ==> forall a :: 0 <= a < |qs| ==> Tabular.Bootstrap(reward, ag.gamma, qs[a]) <= t
  {
    var t := LearnTarget(ag, o, reward, next, false);
    var k := RealSeq.ArgMax(qs);
    assert qs[k] == RealSeq.Max(qs);
    assert t == Tabular.Bootstrap(reward, ag.gamma, qs[k]);
    if 0.0 <= ag.gamma {
      forall a | 0 <= a < |qs| ensures Tabular.Bootstrap(reward, ag.gamma, qs[a]) <= t {
        Tabular.BootstrapMonotone(reward, ag.gamma, qs[a], qs[k]);
      }
    }
  }

  /** q' is q moved toward t by the fraction a * d: q' = q + a * (t - q) * d. */
  predicate MovedToward(q: real, q': real, t: real, a: real, d: real) {
    q' == q + a * (t - q) * d
  }

  /** a * d is a fraction in [0, 1]. */
  predicate UnitRate(a: real, d: real) {
    0.0 <= a * d <= 1.0
  }

  /** After the update toward t, Q(s, a) has moved by alpha * (t - Q(s, a)) * |f|^2. */
  lemma MoveTowardShiftsValue(ag: Agent, o: Oracle, s: Pos, action: int, t: real)
    requires Valid(ag) && Usable(o) && ValidAction(action)
    ensures var f := Features(o, s, action);
      MovedToward(QValue(ag, o, s, action), QValue(MoveToward(ag, o, s, action, t), o, s, action), t, ag.alpha, Dot(f, f))
  {
    var f := Features(o, s, action);
    DotAddScaled(ag.weights, ag.alpha, t - QValue(ag, o, s, action), f, f);
  }

  /** When alpha * |f|^2 is in [0, 1], the updated value lands between the
      old value and the target: the update never overshoots. */
  lemma MoveTowardStaysBetween(ag: Agent, o: Oracle, s: Pos, action: int, t: real)
    requires Valid(ag) && Usable(o) && ValidAction(action)
    requires var f := Features(o, s, action); UnitRate(ag.alpha, Dot(f, f))
    ensures var q, q' := QValue(ag, o, s, action), QValue(MoveToward(ag, o, s, action, t), o, s, action);
      (q <= t ==> q <= q' <= t) && (t <= q ==> t <= q' <= q)
  {
    var f := Features(o, s, action);
    var q, d := QValue(ag, o, s, action), Dot(f, f);
    var q' := QValue(MoveToward(ag, o, s, action, t), o, s, action);
    MoveTowardShiftsValue(ag, o, s, action, t);
    ScaledStepBetween(q, q', t, ag.alpha, d);
  }

  /** The same for a terminal `learn`, whose target is the reward. */
  lemma TerminalLearnStaysBetween(ag: Agent, o: Oracle, s: Pos, action: int, reward: real, next: Pos)
    requires Valid(ag) && Usable(o) && ValidAction(action)
    requires var f := Features(o, s, action); UnitRate(ag.alpha, Dot(f, f))
    ensures var q, q' := QValue(ag, o, s, action), QValue(Learn(ag, o, s, action, reward, next, true), o, s, action);
      (q <= reward ==> q <= q' <= reward) && (reward <= q ==> reward <= q' <= q)
  {
    MoveTowardStaysBetween(ag, o, s, action, reward);
  }

  /** The same for a non-terminal `learn`, whose target is the reward plus
      the discounted best value of the next state. */
  lemma BootstrapLearnStaysBetween(ag: Agent, o: Oracle, s: Pos, action: int, reward: real, next: Pos)
    requires Valid(ag) && Usable(o) && ValidAction(action) && 0 < ag.actions <= |Deltas|
    requires var f := Features(o, s, action); UnitRate(ag.alpha, Dot(f, f))
    ensures var t := Tabular.Bootstrap(reward, ag.gamma, RealSeq.Max(QValues(ag, o, next)));
      var q, q' := QValue(ag, o, s, action), QValue(Learn(ag, o, s, action, reward, next, false), o, s, action);
      (q <= t ==> q <= q' <= t) && (t <= q ==> t <= q' <= q)
  {
    var t := Tabular.Bootstrap(reward, ag.gamma, RealSeq.Max(QValues(ag, o, next)));
    MoveTowardStaysBetween(ag, o, s, action, t);
  }

  /** q + a * (t - q) * d is a step of rate a * d from q toward t. */
  lemma ScaledStepBetween(q: real, q': real, t: real, a: real, d: real)
    requires UnitRate(a, d) && MovedToward(q, q', t, a, d)
    ensures q <= t ==> q <= q' <= t
    ensures t <= q ==> t <= q' <= q
  {
    var ad := a * d;
    assert a * (t - q) * d == ad * (t - q);
    Tabular.TdStepBetween(q, q', ad, t);
  }

  /** On a terminal transition the next state plays no part. */
  lemma TerminalIgnoresNextState(ag: Agent, o: Oracle, s: Pos, action: int, reward: real, n1: Pos, n2: Pos)
    requires Valid(ag) && Usable(o) && ValidAction(action)
    ensures Learn(ag, o, s, action, reward, n1, true) == Learn(ag, o, s, action, reward, n2, true)
  {
  }

  /** With epsilon = 0 and a draw in [0, 1] the choice is the first maximum
      of the action values, whatever the random pick. */
  lemma GreedyWhenEpsilonZero(ag: Agent, o: Oracle, s: Pos, u: real, p1: nat, p2: nat)
    requires Valid(ag) && Usable(o) && 0 < ag.actions <= |Deltas|
    requires p1 < ag.actions && p2 < ag.actions
    requires ag.epsilon == 0.0 && 0.0 <= u <= 1.0
    ensures ChooseAction(ag, o, s, u, p1) == ChooseAction(ag, o, s, u, p2) == RealSeq.ArgMax(QValues(ag, o, s))
  {
  }

  /** The wall feature is set exactly when `step` from s would pay the
      bump penalty. */
  lemma WallFeatureIffBump(o: Oracle, s: Pos, action: int)
    requires Usable(o) && ValidAction(action)
    ensures Features(o, s, action)[2] == 1.0 <==> Step(o.maze.(agent := s), action).reward == BumpReward
  {
  }

  /** An assumed stand-in for `predict_next_state`, which `src/maze.py`
      does not define: `step` run from s without committing the move. */
  function PureStep(mz: Maze): (Pos, int) -> Pos {
    (p: Pos, a: int) => if WellFormed(mz) && ValidAction(a) then Step(mz.(agent := p), a).next else p
  }

  /** With that stand-in, the wall feature is set exactly when the predicted
      next state is the current one. */
  lemma WallFeatureIffPredictedStay(o: Oracle, s: Pos, action: int)
    requires Usable(o) && ValidAction(action)
    requires o.predictNextState == PureStep(o.maze)
    ensures Features(o, s, action)[2] == 1.0 <==> o.predictNextState(s, action) == s
  {
    var mz := o.maze.(agent := s);
    assert Add(s, Delta(action)) != s;
  }
}
