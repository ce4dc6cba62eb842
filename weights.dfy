/** The two-point allocation-rate ratio of `adaptive_CI/weights.py`: a closed-form
    mixing coefficient λ for every round t (1-based) and arm, computed from the
    T×K propensity matrix e and the floor-decay exponent α.

    Dafny has no real exponentiation, so the model receives (t/T)^α as an input:
    `pw[t - 1]` stands for it on row t. For 0 ≤ α ≤ 1 and 0 < t/T ≤ 1 one has
    t/T ≤ (t/T)^α ≤ 1; `ValidPowers` states exactly that, and it is all the
    bound on λ needs. */
module Weights {
  import opened Arrays

  /** The failure raised by the two closing assertions of the computation. */
  datatype Failure = AssertionError

  /** `bad_denom` on row t, with `pw` standing for (t/T)^α: 1 + T·(t/T)^α − t. */
  function BadDenom(t: nat, T: nat, pw: real): real
  {
    1.0 + (T as real) * pw - (t as real)
  }

  /** `good_denom` on row t: 1 + T − t, which is at least 1 on rows 1..T. */
  function GoodDenom(t: nat, T: nat): (d: real)
    ensures t <= T ==> d >= 1.0
  {
    1.0 + (T as real) - (t as real)
  }

  /** λ for one entry e on row t (1-based), or None where numpy's division by a zero
      `bad_denom` yields inf or nan. */
  function Lambda(e: real, t: nat, T: nat, pw: real): Option<real>
    requires 1 <= t <= T
  {
    var bad := BadDenom(t, T, pw);
    if bad == 0.0 then None else Some((1.0 - e) / bad + e * e / GoodDenom(t, T))
  }

  /** λ at 0-based row i and arm k of `e`, with row i's power pw[i]. */
  function Entry(e: Matrix, pw: seq<real>, i: nat, k: nat): Option<real>
    requires |pw| == |e| && i < |e| && k < |e[i]|
  {
    Lambda(e[i][k], i + 1, |e|, pw[i])
  }

  /** A finite value that passes both `lamb >= 0` and `lamb <= 1`. */
  predicate InUnitInterval(x: Option<real>)
  {
    x.Some? && 0.0 <= x.value <= 1.0
  }

  /** `twopoint_stable_var_ratio(e, alpha)`: the matrix of λ, or the AssertionError
      raised when some entry is non-finite or outside [0, 1]. */
  function TwoPointRatio(e: Matrix, pw: seq<real>): (r: Result<Matrix, Failure>)
    requires |pw| == |e|
    ensures r.Ok? ==> |r.value| == |e| && forall i :: 0 <= i < |e| ==> |r.value[i]| == |e[i]|
    ensures r.Ok? ==> forall i, k :: 0 <= i < |e| && 0 <= k < |e[i]| ==> 0.0 <= r.value[i][k] <= 1.0
    ensures r.Ok? <==> forall i, k :: 0 <= i < |e| && 0 <= k < |e[i]| ==> InUnitInterval(Entry(e, pw, i, k))
  {
    if forall i, k :: 0 <= i < |e| && 0 <= k < |e[i]| ==> InUnitInterval(Entry(e, pw, i, k))
    then Ok(seq(|e|, i requires 0 <= i < |e| =>
              seq(|e[i]|, k requires 0 <= k < |e[i]| => Entry(e, pw, i, k).value)))
    else Err(AssertionError)
  }

  /** Reads entry [i, k] of a successful result. */
  lemma TwoPointRatioEntry(e: Matrix, pw: seq<real>, i: nat, k: nat)
    requires |pw| == |e| && TwoPointRatio(e, pw).Ok?
    requires i < |e| && k < |e[i]|
    ensures Entry(e, pw, i, k).Some?
    ensures TwoPointRatio(e, pw).value[i][k] == Entry(e, pw, i, k).value
  {
  }

  /** Every propensity lies in [0, 1]. */
  predicate ValidPropensities(e: Matrix)
  {
    forall i, k :: 0 <= i < |e| && 0 <= k < |e[i]| ==> 0.0 <= e[i][k] <= 1.0
  }

  /** pw[i] is a value of (t/T)^α with t = i + 1 and 0 ≤ α ≤ 1: t/T ≤ pw[i] ≤ 1. */
  predicate ValidPowers(pw: seq<real>)
  {
    forall i :: 0 <= i < |pw| ==> ((i + 1) as real) / (|pw| as real) <= pw[i] <= 1.0
  }

  /** `bad_denom` is at least 1 on rows 1..T when (t/T)^α ≥ t/T, and exactly 1 on row T. */
  lemma BadDenomAtLeastOne(t: nat, T: nat, pw: real)
    requires 1 <= t <= T
    requires (t as real) / (T as real) <= pw
    ensures BadDenom(t, T, pw) >= 1.0
    ensures t == T && pw == 1.0 ==> BadDenom(t, T, pw) == 1.0
  {
    var x, y := t as real, T as real;
    assert y * (x / y) == x;
    assert y * pw >= y * (x / y);
  }

  /** x / d lies between 0 and x when x ≥ 0 and d ≥ 1. */
  lemma DivideByAtLeastOne(x: real, d: real)
    requires x >= 0.0 && d >= 1.0
    ensures 0.0 <= x / d <= x
  {
    assert x / d * d == x;
    assert x / d * 1.0 <= x / d * d;
  }

  /** For 0 ≤ e ≤ 1 and t/T ≤ (t/T)^α ≤ 1, λ is finite and
      0 ≤ λ ≤ (1 − e) + e² ≤ 1. */
  lemma LambdaInUnitInterval(e: real, t: nat, T: nat, pw: real)
    requires 0.0 <= e <= 1.0
    requires 1 <= t <= T
    requires (t as real) / (T as real) <= pw
    ensures InUnitInterval(Lambda(e, t, T, pw))
    ensures Lambda(e, t, T, pw).value <= 1.0 - e + e * e
  {
    BadDenomAtLeastOne(t, T, pw);
    var bad, good := BadDenom(t, T, pw), GoodDenom(t, T);
    DivideByAtLeastOne(1.0 - e, bad);
    DivideByAtLeastOne(e * e, good);
    assert e * e <= e * 1.0;
  }

  /** The assertions in the source never fire on valid inputs. */
  lemma TwoPointRatioSucceeds(e: Matrix, pw: seq<real>)
    requires |pw| == |e|
    requires ValidPropensities(e) && ValidPowers(pw)
    ensures TwoPointRatio(e, pw).Ok?
  {
    forall i, k | 0 <= i < |e| && 0 <= k < |e[i]|
      ensures InUnitInterval(Entry(e, pw, i, k))
    {
      LambdaInUnitInterval(e[i][k], i + 1, |e|, pw[i]);
    }
  }

  /** Entry [i, k] of the result depends only on e[i][k], the row, T and the row's power:
      no other arm, and no other row, affects it. */
  lemma TwoPointRatioIsEntrywise(e1: Matrix, pw1: seq<real>, e2: Matrix, pw2: seq<real>, i: nat, k: nat)
    requires |pw1| == |e1| && |pw2| == |e2| && |e1| == |e2|
    requires TwoPointRatio(e1, pw1).Ok? && TwoPointRatio(e2, pw2).Ok?
    requires i < |e1| && k < |e1[i]| && k < |e2[i]|
    requires e1[i][k] == e2[i][k] && pw1[i] == pw2[i]
    ensures TwoPointRatio(e1, pw1).value[i][k] == TwoPointRatio(e2, pw2).value[i][k]
  {
  }

  /** On the final row, where (T/T)^α = 1, λ = 1 − e + e². */
  lemma LambdaFinalRow(e: real, T: nat)
    requires T >= 1
    ensures Lambda(e, T, T, 1.0) == Some(1.0 - e + e * e)
  {
    BadDenomAtLeastOne(T, T, 1.0);
  }

  /** At e = 1, λ = 1 / (T − t + 1), the constant-allocation ratio of row t. */
  lemma LambdaSaturated(t: nat, T: nat, pw: real)
    requires 1 <= t <= T
    requires (t as real) / (T as real) <= pw
    ensures Lambda(1.0, t, T, pw) == Some(1.0 / ((T - t + 1) as real))
  {
    BadDenomAtLeastOne(t, T, pw);
  }

  /** Below the floor the bound fails: with e = 0 on a row where (t/T)^α < t/T and
      `bad_denom` stays positive, λ = 1 / `bad_denom` is finite and exceeds 1. */
  lemma LambdaExceedsOneBelowFloor(t: nat, T: nat, pw: real)
    requires 1 <= t <= T
    requires pw < (t as real) / (T as real)
    requires BadDenom(t, T, pw) > 0.0
    ensures Lambda(0.0, t, T, pw).Some?
    ensures Lambda(0.0, t, T, pw).value > 1.0
  {
    var x, y := t as real, T as real;
    assert y * (x / y) == x;
    assert y * pw < y * (x / y);
    assert y * pw < x;
    var bad := BadDenom(t, T, pw);
    assert bad == 1.0 + y * pw - x;
    assert bad < 1.0;
    assert Lambda(0.0, t, T, pw).value == 1.0 / bad;
    assert (1.0 / bad) * bad == 1.0;
  }

  /** One arm with propensity 0 on such a row makes the whole computation fail. */
  lemma TwoPointRatioFailsBelowFloor(e: Matrix, pw: seq<real>, i: nat, k: nat)
    requires |pw| == |e| && i < |e| && k < |e[i]|
    requires e[i][k] == 0.0
    requires pw[i] < ((i + 1) as real) / (|e| as real)
    requires BadDenom(i + 1, |e|, pw[i]) > 0.0
    ensures TwoPointRatio(e, pw) == Err(AssertionError)
  {
    LambdaExceedsOneBelowFloor(i + 1, |e|, pw[i]);
    assert !InUnitInterval(Entry(e, pw, i, k));
  }

  /** Every α > 1 with T ≥ 2 puts round 1 below the floor: there 0 < (1/T)^α < 1/T,
      and `bad_denom` = T·(1/T)^α lies strictly between 0 and 1. */
  lemma SteepDecayFirstRow(T: nat, pw: real)
    requires T >= 2
    requires 0.0 < pw < 1.0 / (T as real)
    ensures 0.0 < BadDenom(1, T, pw) < 1.0
  {
    var y := T as real;
    assert y * (1.0 / y) == 1.0;
    assert y * pw < y * (1.0 / y);
  }

  /** Hence for every α > 1 and T ≥ 2, an arm with propensity 0 in round 1 makes
      the computation fail: λ > 1 there, so one of the two assertions fires. The
      whole-matrix check `lamb >= 0` runs first and fires whenever any entry is
      negative or NaN (NaN arises from 0/0 when `bad_denom` = 0 and e = 1). */
  lemma TwoPointRatioFailsForAnySteepDecay(e: Matrix, pw: seq<real>, k: nat)
    requires |pw| == |e| && |e| >= 2 && k < |e[0]|
    requires e[0][k] == 0.0
    requires 0.0 < pw[0] < 1.0 / (|e| as real)
    ensures TwoPointRatio(e, pw) == Err(AssertionError)
  {
    SteepDecayFirstRow(|e|, pw[0]);
    TwoPointRatioFailsBelowFloor(e, pw, 0, k);
  }

  /** A concrete instance: for T = 2 and α = 2, row 1 has (1/2)² = 1/4, and an arm
      with propensity 0 gets λ = 2, so the assertion `lamb <= 1` fires. */
  lemma TwoPointRatioFailsForSteepDecay()
    ensures Entry([[0.0], [0.0]], [0.25, 1.0], 0, 0) == Some(2.0)
    ensures TwoPointRatio([[0.0], [0.0]], [0.25, 1.0]) == Err(AssertionError)
  {
    assert !InUnitInterval(Entry([[0.0], [0.0]], [0.25, 1.0], 0, 0));
  }
}
