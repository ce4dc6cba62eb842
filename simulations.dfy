/** The array and table transformations written inline in the loop body of
    `experiments/simulations.py`, each as its own function: the baseline-mean
    shift, the elementary weight schemes, the constant-allocation ratio, the
    `abserr` row, the column-major long tables and the per-replicate table. */
module Simulations {
  import opened Arrays
  import opened Decimal
  import Weights

  // ---------------------------------------------------------------------------
  // Baseline means

  /** `np.row_stack([np.zeros(K), means[:-1]])`: round t's baseline is the
      sample-mean row of round t − 1, and the first round's baseline is zero. */
  function BaselineMeans(means: Matrix, K: nat): (muhat: Matrix)
    requires HasShape(means, |means|, K)
    ensures HasShape(muhat, if |means| == 0 then 1 else |means|, K)
    ensures muhat[0] == Zeros(K)
    ensures forall t :: 1 <= t < |muhat| ==> muhat[t] == means[t - 1]
  {
    [Zeros(K)] + (if |means| == 0 then [] else means[..|means| - 1])
  }

  /** The baseline of round t looks only at rounds before t: two mean matrices that
      agree on their first t rows give the same baseline row t. */
  lemma BaselineMeansUsesOnlyThePast(m1: Matrix, m2: Matrix, K: nat, t: nat)
    requires HasShape(m1, |m1|, K) && HasShape(m2, |m2|, K)
    requires t < |m1| && t < |m2| && m1[..t] == m2[..t]
    ensures BaselineMeans(m1, K)[t] == BaselineMeans(m2, K)[t]
  {
    if t > 0 {
      assert m1[t - 1] == m1[..t][t - 1];
      assert m2[t - 1] == m2[..t][t - 1];
    }
  }

  // ---------------------------------------------------------------------------
  // Elementary weight schemes

  datatype Scheme = Uniform | Propensity

  /** `np.ones_like(probs)` for Uniform and `probs` itself for Propensity. */
  function ElementaryWeights(scheme: Scheme, probs: Matrix): (w: Matrix)
    ensures |w| == |probs| && forall t :: 0 <= t < |w| ==> |w[t]| == |probs[t]|
    ensures forall t, k :: 0 <= t < |w| && 0 <= k < |w[t]| ==>
              w[t][k] == (if scheme == Uniform then 1.0 else probs[t][k])
  {
    match scheme
    case Uniform => seq(|probs|, t requires 0 <= t < |probs| => seq(|probs[t]|, _ => 1.0))
    case Propensity => probs
  }

  /** Both schemes give non-negative weights on non-negative propensities. */
  lemma ElementaryWeightsNonNegative(scheme: Scheme, probs: Matrix)
    requires forall t, k :: 0 <= t < |probs| && 0 <= k < |probs[t]| ==> probs[t][k] >= 0.0
    ensures var w := ElementaryWeights(scheme, probs);
            forall t, k :: 0 <= t < |w| && 0 <= k < |w[t]| ==> w[t][k] >= 0.0
  {
  }

  // ---------------------------------------------------------------------------
  // Constant allocation rate

  /** `np.ones((T, K)) / np.arange(T, 0, -1)[:, np.newaxis]`: every arm of 0-based
      row i gets 1 / (T − i). */
  function ConstantAllocationRatio(T: nat, K: nat): (r: Matrix)
    ensures HasShape(r, T, K)
    ensures forall i, k :: 0 <= i < T && 0 <= k < K ==> r[i][k] * ((T - i) as real) == 1.0
  {
    seq(T, i requires 0 <= i < T => seq(K, _ => 1.0 / ((T - i) as real)))
  }

  /** The ratio is positive, at most 1, and exactly 1 on the last row. */
  lemma ConstantAllocationRatioBounds(T: nat, K: nat, i: nat, k: nat)
    requires i < T && k < K
    ensures 0.0 < ConstantAllocationRatio(T, K)[i][k] <= 1.0
    ensures i == T - 1 ==> ConstantAllocationRatio(T, K)[i][k] == 1.0
  {
    Weights.DivideByAtLeastOne(1.0, (T - i) as real);
  }

  /** The ratio strictly increases from row to row. */
  lemma ConstantAllocationRatioIncreasing(T: nat, K: nat, i: nat, j: nat, k: nat)
    requires i < j < T && k < K
    ensures ConstantAllocationRatio(T, K)[i][k] < ConstantAllocationRatio(T, K)[j][k]
  {
    var r := ConstantAllocationRatio(T, K);
    ReciprocalDecreasing((T - i) as real, (T - j) as real, r[i][k], r[j][k]);
  }

  /** x·a = 1 and y·b = 1 with a > b > 0 give x < y. */
  lemma ReciprocalDecreasing(a: real, b: real, x: real, y: real)
    requires a > b > 0.0 && x * a == 1.0 && y * b == 1.0
    ensures x < y
  {
    assert y > 0.0;
    assert y * (a - b) > 0.0;
    assert (y - x) * a == y * (a - b);
  }

  /** With every propensity equal to 1 (the uniform weights' matrix) the two-point
      ratio is exactly the constant-allocation ratio. */
  lemma SaturatedTwoPointIsConstantAllocation(probs: Matrix, K: nat, pw: seq<real>)
    requires HasShape(probs, |probs|, K) && |pw| == |probs|
    requires Weights.ValidPowers(pw)
    ensures Weights.TwoPointRatio(ElementaryWeights(Uniform, probs), pw)
            == Ok(ConstantAllocationRatio(|probs|, K))
  {
    var ones := ElementaryWeights(Uniform, probs);
    var T := |probs|;
    assert Weights.ValidPropensities(ones) by {
      forall i, k | 0 <= i < |ones| && 0 <= k < |ones[i]| ensures 0.0 <= ones[i][k] <= 1.0 {
        assert ones[i][k] == 1.0;
      }
    }
    Weights.TwoPointRatioSucceeds(ones, pw);
    var lam := Weights.TwoPointRatio(ones, pw).value;
    var c := ConstantAllocationRatio(T, K);
    forall i | 0 <= i < T
      ensures lam[i] == c[i]
    {
      forall k | 0 <= k < K
        ensures lam[i][k] == c[i][k]
      {
        Weights.TwoPointRatioEntry(ones, pw, i, k);
        Weights.LambdaSaturated(i + 1, T, pw[i]);
        assert T - (i + 1) + 1 == T - i;
        assert ones[i][k] == 1.0;
      }
    }
    assert lam == c;
  }

  // ---------------------------------------------------------------------------
  // The abserr row

  /** `np.row_stack([stat, np.abs(stat[2])])`: one extra final row holding the
      absolute value of row 2 (the bias). */
  function WithAbsErr(stat: Matrix): (r: Matrix)
    requires |stat| > 2
    ensures |r| == |stat| + 1 && r[..|stat|] == stat
    ensures |r[|stat|]| == |stat[2]|
    ensures forall k :: 0 <= k < |stat[2]| ==> r[|stat|][k] == Abs(stat[2][k]) >= 0.0
  {
    stat + [seq(|stat[2]|, k requires 0 <= k < |stat[2]| => Abs(stat[2][k]))]
  }

  // ---------------------------------------------------------------------------
  // Long-table columns

  /** The list `labels * n`: `labels` repeated n times. */
  function RepeatList<T>(labels: seq<T>, n: nat): (r: seq<T>)
    ensures |r| == |labels| * n
  {
    if n == 0 then []
    else
      MulPred(|labels|, n);
      RepeatList(labels, n - 1) + labels
  }

  /** Element j of `labels * n` is label j mod |labels|. */
  lemma {:induction false} RepeatListAt<T>(labels: seq<T>, n: nat, j: nat)
    requires j < |labels| * n
    ensures |labels| > 0 && RepeatList(labels, n)[j] == labels[j % |labels|]
    decreases n
  {
    var prev := RepeatList(labels, n - 1);
    MulPred(|labels|, n);
    if j < |prev| {
      RepeatListAt(labels, n - 1, j);
    } else {
      BlockIndex(n - 1, |labels|, j);
    }
  }

  /** `np.repeat(xs, n)`: each element repeated n times consecutively. */
  function RepeatEach<T>(xs: seq<T>, n: nat): (r: seq<T>)
    ensures |r| == |xs| * n
  {
    if |xs| == 0 then []
    else
      MulPred(n, |xs|);
      RepeatEach(xs[..|xs| - 1], n) + seq(n, _ => xs[|xs| - 1])
  }

  /** Element j of `np.repeat(xs, n)` is element j div n of xs. */
  lemma {:induction false} RepeatEachAt<T>(xs: seq<T>, n: nat, j: nat)
    requires j < |xs| * n
    ensures n > 0 && j / n < |xs| && RepeatEach(xs, n)[j] == xs[j / n]
    decreases |xs|
  {
    var init := xs[..|xs| - 1];
    var prev := RepeatEach(init, n);
    MulPred(n, |xs|);
    if j < |prev| {
      RepeatEachAt(init, n, j);
    } else {
      BlockIndex(|xs| - 1, n, j);
    }
  }

  /** Column c of a matrix. */
  function Column(stat: Matrix, c: nat): seq<real>
    requires forall i :: 0 <= i < |stat| ==> c < |stat[i]|
  {
    seq(|stat|, i requires 0 <= i < |stat| => stat[i][c])
  }

  /** The first `cols` columns of `stat`, flattened in column-major order. */
  function FlattenColumns(stat: Matrix, cols: nat): (r: seq<real>)
    requires forall i :: 0 <= i < |stat| ==> cols <= |stat[i]|
    ensures |r| == |stat| * cols
  {
    if cols == 0 then []
    else
      MulPred(|stat|, cols);
      FlattenColumns(stat, cols - 1) + Column(stat, cols - 1)
  }

  /** Element j of the column-major flattening is entry (j mod R, j div R). */
  lemma {:induction false} FlattenColumnsAt(stat: Matrix, cols: nat, j: nat)
    requires forall i :: 0 <= i < |stat| ==> cols <= |stat[i]|
    requires j < |stat| * cols
    ensures |stat| > 0 && j / |stat| < cols && FlattenColumns(stat, cols)[j] == stat[j % |stat|][j / |stat|]
    decreases cols
  {
    var prev := FlattenColumns(stat, cols - 1);
    MulPred(|stat|, cols);
    if j < |prev| {
      FlattenColumnsAt(stat, cols - 1, j);
    } else {
      BlockIndex(cols - 1, |stat|, j);
      assert FlattenColumns(stat, cols)[j] == Column(stat, cols - 1)[j - |prev|];
    }
  }

  /** a·b = a·(b − 1) + a. */
  lemma MulPred(a: nat, b: nat)
    requires b > 0
    ensures a * b == a * (b - 1) + a && b * a == (b - 1) * a + a
  {
  }

  lemma MulAtLeast(a: int, n: int)
    requires a >= 1 && n >= 0
    ensures a * n >= n
  {
    assert a * n == (a - 1) * n + n;
  }

  /** An index in block q of blocks of n: its quotient is q and its remainder its
      offset in the block. */
  lemma BlockIndex(q: nat, n: nat, j: nat)
    requires q * n <= j < q * n + n
    ensures n > 0 && j / n == q && j % n == j - q * n
  {
    DivMod(q, j - q * n, n);
  }

  /** q·n + i divided by n is q with remainder i. */
  lemma DivMod(q: nat, i: nat, n: nat)
    requires i < n
    ensures (q * n + i) / n == q && (q * n + i) % n == i
  {
    var d := (q * n + i) / n;
    if d < q {
      MulAtLeast(q - d, n);
    } else if d > q {
      MulAtLeast(d - q, n);
    }
  }

  // ---------------------------------------------------------------------------
  // The long tables

  /** The `policy` column: an arm index, or the contrast of arm k against arm 0,
      whose cell holds the string `ContrastLabel(k)`, "(0,k)". The string determines k
      (ContrastLabelInjective), so keeping k loses nothing. */
  datatype Policy = Arm(index: nat) | Pair(arm: nat)

  /** The run configuration attached to every row (`**r['config']`). */
  datatype Config = Config(T: nat, K: nat, noiseFunc: string, noiseScale: real,
                           floorStart: real, floorDecay: real, initial: nat, dgp: string)

  /** One row of the long-format table. */
  datatype Row = Row(statistic: string, policy: Policy, value: real, methodName: string, config: Config)

  /** `pd.DataFrame` of equally long columns, with the scalar method and configuration
      broadcast to every row. */
  function Frame(statistic: seq<string>, policy: seq<Policy>, value: seq<real>,
                 methodName: string, config: Config): (df: seq<Row>)
    requires |statistic| == |policy| == |value|
  {
    seq(|value|, j requires 0 <= j < |value| => Row(statistic[j], policy[j], value[j], methodName, config))
  }

  /** The long table of an R×C statistics matrix with R row labels and C policies:
      labels repeated C times, each policy repeated R times, and the values
      flattened in column-major order. */
  function LongTable(labels: seq<string>, policies: seq<Policy>, stat: Matrix,
                     methodName: string, config: Config): (df: seq<Row>)
    requires |labels| == |stat| && HasShape(stat, |stat|, |policies|)
    ensures |df| == |stat| * |policies|
  {
    Frame(RepeatList(labels, |policies|), RepeatEach(policies, |stat|),
          FlattenColumns(stat, |policies|), methodName, config)
  }

  /** Row j of the long table: label j mod R, policy j div R, and the matrix entry
      at that row and column. */
  lemma LongTableRow(labels: seq<string>, policies: seq<Policy>, stat: Matrix,
                     methodName: string, config: Config, j: nat)
    requires |labels| == |stat| && HasShape(stat, |stat|, |policies|)
    requires j < |stat| * |policies|
    ensures |stat| > 0 && j / |stat| < |policies|
    ensures LongTable(labels, policies, stat, methodName, config)[j]
            == Row(labels[j % |stat|], policies[j / |stat|], stat[j % |stat|][j / |stat|],
                   methodName, config)
  {
    RepeatListAt(labels, |policies|, j);
    RepeatEachAt(policies, |stat|, j);
    FlattenColumnsAt(stat, |policies|, j);
  }

  /** Row labels of an arm-statistics table once the abserr row is added. */
  const StatsLabels: seq<string> := ["estimate", "stderr", "bias", "90% coverage of t-stat",
                                     "t-stat", "mse", "CI_width", "truth", "abserr"]

  /** Row labels of a contrast table. */
  const ContrastLabels: seq<string> := ["truth", "estimate", "bias", "mse",
                                        "stderr", "t-stat", "90% coverage of t-stat", "CI_width"]

  /** `np.arange(K)` as the arm policies. */
  function ArmPolicies(K: nat): seq<Policy>
  {
    seq(K, k requires 0 <= k < K => Arm(k))
  }

  /** Number of contrasts (0,k) for k in 1..K−1, the length of `np.arange(1, K)`. */
  function Pairs(K: nat): nat
  {
    if K == 0 then 0 else K - 1
  }

  /** The label f"(0,{k})". */
  function ContrastLabel(k: nat): string
  {
    "(0," + NatToString(k) + ")"
  }

  /** `[f"(0,{k})" for k in np.arange(1, K)]`. */
  function ContrastPolicies(K: nat): seq<Policy>
  {
    seq(Pairs(K), c requires 0 <= c < Pairs(K) => Pair(c + 1))
  }

  /** The text of a policy cell: the arm index, or "(0,k)" for a contrast. */
  function PolicyText(p: Policy): string
  {
    match p
    case Arm(k) => NatToString(k)
    case Pair(k) => ContrastLabel(k)
  }

  /** The arm-statistics table of one method: its 8×K statistics plus the abserr row. */
  function StatsTable(methodName: string, stat: Matrix, K: nat, config: Config): (df: seq<Row>)
    requires HasShape(stat, 8, K)
    ensures |df| == 9 * K
  {
    LongTable(StatsLabels, ArmPolicies(K), WithAbsErr(stat), methodName, config)
  }

  /** The contrast table of one method, from its 8×(K−1) contrast statistics. */
  function ContrastTable(methodName: string, contrast: Matrix, K: nat, config: Config): (df: seq<Row>)
    requires HasShape(contrast, 8, Pairs(K))
    ensures |df| == 8 * Pairs(K)
  {
    LongTable(ContrastLabels, ContrastPolicies(K), contrast, methodName, config)
  }

  /** Layout of an arm-statistics table: 9·K rows; row j is statistic j mod 9 of arm
      j div 9, and its abserr row holds |bias| of the same arm. */
  lemma StatsTableLayout(methodName: string, stat: Matrix, K: nat, config: Config, j: nat)
    requires HasShape(stat, 8, K)
    requires j < 9 * K
    ensures var df := StatsTable(methodName, stat, K, config);
            |df| == 9 * K &&
            df[j].statistic == StatsLabels[j % 9] && df[j].policy == Arm(j / 9) &&
            df[j].methodName == methodName && df[j].config == config &&
            df[j].value == (if j % 9 == 8 then Abs(stat[2][j / 9]) else stat[j % 9][j / 9])
  {
    var aug := WithAbsErr(stat);
    assert |aug| == 9;
    assert aug[..8] == stat;
    LongTableRow(StatsLabels, ArmPolicies(K), aug, methodName, config, j);
    if j % 9 < 8 {
      assert aug[j % 9] == aug[..8][j % 9];
    }
  }

  /** In an arm-statistics table the abserr row of arm k is the absolute value of
      its bias row. */
  lemma AbsErrIsAbsoluteBias(methodName: string, stat: Matrix, K: nat, config: Config, k: nat)
    requires HasShape(stat, 8, K) && k < K
    ensures var df := StatsTable(methodName, stat, K, config);
            |df| == 9 * K &&
            df[9 * k + 2].statistic == "bias" && df[9 * k + 8].statistic == "abserr" &&
            df[9 * k + 2].policy == df[9 * k + 8].policy == Arm(k) &&
            df[9 * k + 8].value == Abs(df[9 * k + 2].value)
  {
    var bias, abserr := 9 * k + 2, 9 * k + 8;
    BlockIndex(k, 9, bias);
    BlockIndex(k, 9, abserr);
    StatsTableLayout(methodName, stat, K, config, bias);
    StatsTableLayout(methodName, stat, K, config, abserr);
  }

  /** Layout of a contrast table: 8·(K−1) rows; row j is statistic j mod 8 of the
      contrast (0, j div 8 + 1). */
  lemma ContrastTableLayout(methodName: string, contrast: Matrix, K: nat, config: Config, j: nat)
    requires HasShape(contrast, 8, Pairs(K))
    requires j < 8 * Pairs(K)
    ensures var df := ContrastTable(methodName, contrast, K, config);
            |df| == 8 * Pairs(K) &&
            df[j].statistic == ContrastLabels[j % 8] &&
            df[j].policy == Pair(j / 8 + 1) && PolicyText(df[j].policy) == ContrastLabel(j / 8 + 1) &&
            df[j].value == contrast[j % 8][j / 8] &&
            df[j].methodName == methodName && df[j].config == config
  {
    LongTableRow(ContrastLabels, ContrastPolicies(K), contrast, methodName, config, j);
  }

  /** Different contrasts carry different policy labels. */
  lemma ContrastLabelInjective(k1: nat, k2: nat)
    ensures ContrastLabel(k1) == ContrastLabel(k2) ==> k1 == k2
  {
    if ContrastLabel(k1) == ContrastLabel(k2) {
      var a, b := NatToString(k1), NatToString(k2);
      assert |a| == |b|;
      assert a == ContrastLabel(k1)[3..3 + |a|];
      assert b == ContrastLabel(k2)[3..3 + |b|];
      NatToStringInjective(k1, k2);
    }
  }

  // ---------------------------------------------------------------------------
  // The per-replicate table

  /** Concatenation of a list of tables (`pd.concat`). */
  function Concat<T>(tabs: seq<seq<T>>): seq<T>
  {
    if |tabs| == 0 then [] else tabs[0] + Concat(tabs[1..])
  }

  lemma {:induction false} ConcatAppend<T>(a: seq<seq<T>>, b: seq<seq<T>>)
    ensures Concat(a + b) == Concat(a) + Concat(b)
    decreases |a|
  {
    if |a| == 0 {
      assert a + b == b;
    } else {
      assert (a + b)[0] == a[0];
      assert (a + b)[1..] == a[1..] + b;
      ConcatAppend(a[1..], b);
    }
  }

  lemma {:induction false} ConcatLength<T>(tabs: seq<seq<T>>, n: nat)
    requires forall i :: 0 <= i < |tabs| ==> |tabs[i]| == n
    ensures |Concat(tabs)| == |tabs| * n
    decreases |tabs|
  {
    if |tabs| > 0 {
      ConcatLength(tabs[1..], n);
    }
  }

  /** Block m of a concatenation of tables of n rows each starts at row m·n. */
  lemma {:induction false} ConcatBlocks<T>(tabs: seq<seq<T>>, n: nat, m: nat, j: nat)
    requires forall i :: 0 <= i < |tabs| ==> |tabs[i]| == n
    requires m < |tabs| && j < n
    ensures m * n + j < |Concat(tabs)| && Concat(tabs)[m * n + j] == tabs[m][j]
    decreases |tabs|
  {
    ConcatLength(tabs, n);
    if m > 0 {
      ConcatBlocks(tabs[1..], n, m - 1, j);
      assert m * n + j == n + ((m - 1) * n + j);
    }
  }

  /** Block m of the left part of Concat(s) + Concat(c). */
  lemma LeftBlock<T>(s: seq<seq<T>>, c: seq<seq<T>>, n: nat, m: nat, j: nat)
    requires forall i :: 0 <= i < |s| ==> |s[i]| == n
    requires m < |s| && j < n
    ensures var k, all := m * n + j, Concat(s) + Concat(c); k < |all| && all[k] == s[m][j]
  {
    ConcatBlocks(s, n, m, j);
  }

  /** Block m of the right part of Concat(s) + Concat(c), after |s| blocks of a rows. */
  lemma RightBlock<T>(s: seq<seq<T>>, a: nat, c: seq<seq<T>>, n: nat, m: nat, j: nat)
    requires forall i :: 0 <= i < |s| ==> |s[i]| == a
    requires forall i :: 0 <= i < |c| ==> |c[i]| == n
    requires m < |c| && j < n
    ensures var k, all := |s| * a + m * n + j, Concat(s) + Concat(c); k < |all| && all[k] == c[m][j]
  {
    ConcatLength(s, a);
    ConcatBlocks(c, n, m, j);
    AppendIndex(Concat(s), Concat(c), m * n + j);
  }

  /** Index q of the right operand is index |x| + q of x + y. */
  lemma AppendIndex<T>(x: seq<T>, y: seq<T>, q: nat)
    requires q < |y|
    ensures |x| + q < |x + y| && (x + y)[|x| + q] == y[q]
  {
  }

  /** Every row of a concatenation comes from one of its tables. */
  lemma {:induction false} ConcatMember<T>(tabs: seq<seq<T>>, j: nat)
    requires j < |Concat(tabs)|
    ensures exists m, i :: 0 <= m < |tabs| && 0 <= i < |tabs[m]| && Concat(tabs)[j] == tabs[m][i]
    decreases |tabs|
  {
    if j < |tabs[0]| {
      assert Concat(tabs)[j] == tabs[0][j];
    } else {
      ConcatMember(tabs[1..], j - |tabs[0]|);
      var m, i :| 0 <= m < |tabs[1..]| && 0 <= i < |tabs[1..][m]| &&
                  Concat(tabs[1..])[j - |tabs[0]|] == tabs[1..][m][i];
      assert Concat(tabs)[j] == tabs[m + 1][i];
    }
  }

  /** The arm-statistics tables of every method, in insertion order. */
  function StatsTables(stats: seq<(string, Matrix)>, K: nat, config: Config): (s: seq<seq<Row>>)
    requires forall m :: 0 <= m < |stats| ==> HasShape(stats[m].1, 8, K)
    ensures |s| == |stats| && forall m :: 0 <= m < |s| ==> |s[m]| == 9 * K
  {
    seq(|stats|, m requires 0 <= m < |stats| => StatsTable(stats[m].0, stats[m].1, K, config))
  }

  /** The contrast tables of every method, in insertion order. */
  function ContrastTables(contrasts: seq<(string, Matrix)>, K: nat, config: Config): (c: seq<seq<Row>>)
    requires forall m :: 0 <= m < |contrasts| ==> HasShape(contrasts[m].1, 8, Pairs(K))
    ensures |c| == |contrasts| && forall m :: 0 <= m < |c| ==> |c[m]| == 8 * Pairs(K)
  {
    seq(|contrasts|, m requires 0 <= m < |contrasts| =>
          ContrastTable(contrasts[m].0, contrasts[m].1, K, config))
  }

  /** The per-replicate table: every arm-statistics table, then every contrast table. */
  function ReplicateRows(stats: seq<(string, Matrix)>, contrasts: seq<(string, Matrix)>,
                         K: nat, config: Config): seq<Row>
    requires forall m :: 0 <= m < |stats| ==> HasShape(stats[m].1, 8, K)
    requires forall m :: 0 <= m < |contrasts| ==> HasShape(contrasts[m].1, 8, Pairs(K))
  {
    Concat(StatsTables(stats, K, config)) + Concat(ContrastTables(contrasts, K, config))
  }

  /** The loops that append one table per method to `tabs_stats` and
      `tabs_contrasts`, followed by `pd.concat(tabs_stats + tabs_contrasts)`. */
  method ReplicateTable(stats: seq<(string, Matrix)>, contrasts: seq<(string, Matrix)>,
                        K: nat, config: Config) returns (df: seq<Row>)
    requires forall m :: 0 <= m < |stats| ==> HasShape(stats[m].1, 8, K)
    requires forall m :: 0 <= m < |contrasts| ==> HasShape(contrasts[m].1, 8, Pairs(K))
    ensures df == ReplicateRows(stats, contrasts, K, config)
  {
    var tabsStats: seq<seq<Row>> := [];
    var m := 0;
    while m < |stats|
      invariant 0 <= m <= |stats| && |tabsStats| == m
      invariant forall i :: 0 <= i < m ==> tabsStats[i] == StatsTable(stats[i].0, stats[i].1, K, config)
    {
      tabsStats := tabsStats + [StatsTable(stats[m].0, stats[m].1, K, config)];
      m := m + 1;
    }
    var tabsContrasts: seq<seq<Row>> := [];
    m := 0;
    while m < |contrasts|
      invariant 0 <= m <= |contrasts| && |tabsContrasts| == m
      invariant forall i :: 0 <= i < m ==>
                  tabsContrasts[i] == ContrastTable(contrasts[i].0, contrasts[i].1, K, config)
    {
      tabsContrasts := tabsContrasts + [ContrastTable(contrasts[m].0, contrasts[m].1, K, config)];
      m := m + 1;
    }
    assert tabsStats == StatsTables(stats, K, config);
    assert tabsContrasts == ContrastTables(contrasts, K, config);
    df := Concat(tabsStats + tabsContrasts);
    ConcatAppend(tabsStats, tabsContrasts);
  }

  /** The per-replicate table has 9K rows per arm-statistics table and 8(K−1) rows per
      contrast table. */
  lemma ReplicateRowsLength(stats: seq<(string, Matrix)>, contrasts: seq<(string, Matrix)>,
                            K: nat, config: Config)
    requires forall m :: 0 <= m < |stats| ==> HasShape(stats[m].1, 8, K)
    requires forall m :: 0 <= m < |contrasts| ==> HasShape(contrasts[m].1, 8, Pairs(K))
    ensures |ReplicateRows(stats, contrasts, K, config)|
            == |stats| * (9 * K) + |contrasts| * (8 * Pairs(K))
  {
    ConcatLength(StatsTables(stats, K, config), 9 * K);
    ConcatLength(ContrastTables(contrasts, K, config), 8 * Pairs(K));
  }

  /** In the per-replicate table the arm-statistics table of method m (element m of
      StatsTables) occupies rows m·9K .. m·9K + 9K − 1, in insertion order. */
  lemma ReplicateStatsBlock(stats: seq<(string, Matrix)>, contrasts: seq<(string, Matrix)>,
                            K: nat, config: Config, m: nat, j: nat, row: nat)
    requires forall m :: 0 <= m < |stats| ==> HasShape(stats[m].1, 8, K)
    requires forall m :: 0 <= m < |contrasts| ==> HasShape(contrasts[m].1, 8, Pairs(K))
    requires m < |stats| && j < 9 * K
    requires row == m * (9 * K) + j
    ensures row < |ReplicateRows(stats, contrasts, K, config)|
    ensures ReplicateRows(stats, contrasts, K, config)[row] == StatsTables(stats, K, config)[m][j]
  {
    var s, c := StatsTables(stats, K, config), ContrastTables(contrasts, K, config);
    LeftBlock(s, c, 9 * K, m, j);
  }

  /** The contrast table of method m (element m of ContrastTables) follows every
      arm-statistics table, at row |stats|·9K + m·8(K−1). */
  lemma ReplicateContrastBlock(stats: seq<(string, Matrix)>, contrasts: seq<(string, Matrix)>,
                               K: nat, config: Config, m: nat, j: nat, row: nat)
    requires forall m :: 0 <= m < |stats| ==> HasShape(stats[m].1, 8, K)
    requires forall m :: 0 <= m < |contrasts| ==> HasShape(contrasts[m].1, 8, Pairs(K))
    requires m < |contrasts| && j < 8 * Pairs(K)
    requires row == |stats| * (9 * K) + m * (8 * Pairs(K)) + j
    ensures row < |ReplicateRows(stats, contrasts, K, config)|
    ensures ReplicateRows(stats, contrasts, K, config)[row] == ContrastTables(contrasts, K, config)[m][j]
  {
    var s, c := StatsTables(stats, K, config), ContrastTables(contrasts, K, config);
    RightBlock(s, 9 * K, c, 8 * Pairs(K), m, j);
  }

  /** Every row of the concatenated arm-statistics tables is an arm row. */
  lemma StatsRowsAreArms(stats: seq<(string, Matrix)>, K: nat, config: Config, i: nat)
    requires forall m :: 0 <= m < |stats| ==> HasShape(stats[m].1, 8, K)
    requires i < |Concat(StatsTables(stats, K, config))|
    ensures Concat(StatsTables(stats, K, config))[i].policy.Arm?
  {
    var s := StatsTables(stats, K, config);
    ConcatMember(s, i);
    var m, r :| 0 <= m < |s| && 0 <= r < |s[m]| && Concat(s)[i] == s[m][r];
    StatsTableLayout(stats[m].0, stats[m].1, K, config, r);
  }

  /** Every row of the concatenated contrast tables is a contrast row. */
  lemma ContrastRowsArePairs(contrasts: seq<(string, Matrix)>, K: nat, config: Config, i: nat)
    requires forall m :: 0 <= m < |contrasts| ==> HasShape(contrasts[m].1, 8, Pairs(K))
    requires i < |Concat(ContrastTables(contrasts, K, config))|
    ensures Concat(ContrastTables(contrasts, K, config))[i].policy.Pair?
  {
    var c := ContrastTables(contrasts, K, config);
    ConcatMember(c, i);
    var m, r :| 0 <= m < |c| && 0 <= r < |c[m]| && Concat(c)[i] == c[m][r];
    ContrastTableLayout(contrasts[m].0, contrasts[m].1, K, config, r);
  }

  /** Every arm row of the per-replicate table precedes every contrast row. */
  lemma ReplicateArmRowsFirst(stats: seq<(string, Matrix)>, contrasts: seq<(string, Matrix)>,
                              K: nat, config: Config, i: nat, j: nat)
    requires forall m :: 0 <= m < |stats| ==> HasShape(stats[m].1, 8, K)
    requires forall m :: 0 <= m < |contrasts| ==> HasShape(contrasts[m].1, 8, Pairs(K))
    requires i < j < |ReplicateRows(stats, contrasts, K, config)|
    ensures var df := ReplicateRows(stats, contrasts, K, config);
            df[i].policy.Pair? ==> df[j].policy.Pair?
  {
    var left, right := Concat(StatsTables(stats, K, config)), Concat(ContrastTables(contrasts, K, config));
    if i < |left| {
      StatsRowsAreArms(stats, K, config, i);
      assert (left + right)[i] == left[i];
    } else {
      ContrastRowsArePairs(contrasts, K, config, j - |left|);
      assert (left + right)[j] == right[j - |left|];
    }
  }
}
