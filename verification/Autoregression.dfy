/**
 Regressions of a series on features of its own past, and rolling the fitted relation
 forward. Shared by the linear-regression and ARIMA forecasters.
 */
module Autoregression {
  import opened RealSums
  import opened LinearAlgebra
  import opened CholeskyFactor
  import opened LeastSquares
  import opened Ols

  datatype ForecastError =
    | ZeroHorizon
    | TooShort(needed: nat, got: nat)
    | LengthMismatch(a: nat, b: nat)
    | Regression
    | EmptySeries
    | InvalidPeriod(period: nat)
    | ParamOutOfRange(name: string, value: real)

  datatype ForecastPoint = ForecastPoint(step: nat, value: real)

  function Points(values: seq<real>): seq<ForecastPoint> {
    seq(|values|, i requires 0 <= i < |values| => ForecastPoint(i + 1, values[i]))
  }

  /** The features that predict the next entry, given everything before it. */
  type Features = seq<real> -> Vec

  /** beta[0] + beta[1] f_0 + beta[2] f_1 + ... on the features f of the history s. */
  function Predicted(beta: seq<real>, feat: Features, s: seq<real>): real
    requires |beta| > 0
  {
    beta[0] + Dot(AsVec(beta[1..]), feat(s), |beta| - 1)
  }

  /** From entry `from` on, every entry is the one predicted from those before it. */
  ghost predicate Follows(beta: seq<real>, feat: Features, s: seq<real>, from: nat)
    requires |beta| > 0
  {
    forall t: nat :: from <= t < |s| ==> s[t] == Predicted(beta, feat, s[..t])
  }

  /** Recursive multi-step forecast: each prediction joins the history of the next. */
  function Roll(beta: seq<real>, feat: Features, s: seq<real>, h: nat): (r: seq<real>)
    requires |beta| > 0
    ensures |r| == h
    decreases h
  {
    if h == 0 then []
    else
      var v := Predicted(beta, feat, s);
      [v] + Roll(beta, feat, s + [v], h - 1)
  }

  /** Rolling forward one more step appends one prediction. */
  lemma {:induction false} RollAppend(beta: seq<real>, feat: Features, s: seq<real>, h: nat)
    requires |beta| > 0
    ensures Roll(beta, feat, s, h + 1) ==
            Roll(beta, feat, s, h) + [Predicted(beta, feat, s + Roll(beta, feat, s, h))]
    decreases h
  {
    var v := Predicted(beta, feat, s);
    if h == 0 {
      assert s + [] == s;
      assert Roll(beta, feat, s + [v], 0) == [];
    } else {
      RollAppend(beta, feat, s + [v], h - 1);
      assert (s + [v]) + Roll(beta, feat, s + [v], h - 1) == s + Roll(beta, feat, s, h);
    }
  }

  /** A history that continues by the recurrence is continued by the forecast. */
  lemma {:induction false} RollIsContinuation(beta: seq<real>, feat: Features, s: seq<real>, future: seq<real>)
    requires |beta| > 0 && Follows(beta, feat, s + future, |s|)
    ensures Roll(beta, feat, s, |future|) == future
    decreases future
  {
    hide Predicted;
    if future != [] {
      var v := future[0];
      assert (s + future)[|s|] == v && (s + future)[..|s|] == s;
      assert (s + [v]) + future[1..] == s + future;
      RollIsContinuation(beta, feat, s + [v], future[1..]);
    }
  }

  /** The forecast itself follows the recurrence. */
  lemma {:induction false} RollFollows(beta: seq<real>, feat: Features, s: seq<real>, h: nat)
    requires |beta| > 0
    ensures Follows(beta, feat, s + Roll(beta, feat, s, h), |s|)
    decreases h
  {
    hide Predicted;
    if h > 0 {
      var v := Predicted(beta, feat, s);
      var all := s + Roll(beta, feat, s, h);
      RollFollows(beta, feat, s + [v], h - 1);
      assert (s + [v]) + Roll(beta, feat, s + [v], h - 1) == all;
      assert all[..|s|] == s && all[|s|] == v;
    }
  }

  // ---------- the regression behind it ----------

  /** The values of the columns in one row. */
  function ColumnsAt(columns: seq<seq<real>>, r: int): Vec {
    j => if 0 <= j < |columns| && 0 <= r < |columns[j]| then columns[j][r] else 0.0
  }

  lemma DotHead(u: Vec, v: Vec, n: nat)
    ensures Dot(u, v, n + 1) == u(0) * v(0) + Dot(Shift(u, 1), Shift(v, 1), n)
  {
    hide Sum;
    var f: Vec := k => u(k) * v(k);
    SumSplit(f, 1, n);
    FirstOfSum(f);
    forall k
      ensures Shift(f, 1)(k) == Shift(u, 1)(k) * Shift(v, 1)(k)
    {
      assert Shift(f, 1)(k) == At(f, 1 + k);
      assert Shift(u, 1)(k) == At(u, 1 + k) && Shift(v, 1)(k) == At(v, 1 + k);
    }
    SumCong(Shift(f, 1), k => Shift(u, 1)(k) * Shift(v, 1)(k), n);
  }

  /** A row of the design times the coefficients: intercept plus weighted column values. */
  lemma DesignRow(columns: seq<seq<real>>, beta: seq<real>, r: int)
    requires |beta| == |columns| + 1
    ensures MulVec(DesignMat(columns, true), AsVec(beta), |columns| + 1)(r) ==
            beta[0] + Dot(AsVec(beta[1..]), ColumnsAt(columns, r), |columns|)
  {
    hide Sum, Dot;
    var n, row, b := |columns|, Row(DesignMat(columns, true), r), AsVec(beta);
    DotHead(row, b, n);
    DotSym(Shift(row, 1), Shift(b, 1), n);
    forall k | 0 <= k < n
      ensures Shift(row, 1)(k) == ColumnsAt(columns, r)(k) && Shift(b, 1)(k) == AsVec(beta[1..])(k)
    {
      assert Shift(row, 1)(k) == At(row, 1 + k) && Shift(b, 1)(k) == At(b, 1 + k);
    }
    DotCong(Shift(b, 1), AsVec(beta[1..]), Shift(row, 1), ColumnsAt(columns, r), n);
  }

  /** Row r of the columns holds the features of the history before entry start + r. */
  ghost predicate Aligned(columns: seq<seq<real>>, feat: Features, s: seq<real>, start: nat) {
    forall r: nat :: r < |s| - start ==> Agree(ColumnsAt(columns, r), feat(s[..start + r]), |columns|)
  }

  /**
   When the history follows a recurrence exactly and the regression has a unique solution,
   the regression finds the coefficients of the recurrence.
   */
  lemma RecurrenceRecovered(s: seq<real>, start: nat, columns: seq<seq<real>>, feat: Features,
                            truth: seq<real>, fit: OlsSummary)
    requires start <= |s| && |truth| == |columns| + 1 && |columns| + 1 < |s| - start
    requires Aligned(columns, feat, s, start)
    requires Follows(truth, feat, s, start)
    requires IsFit(fit, AsVec(s[start..]), DesignMat(columns, true), |s| - start, |columns| + 1)
    requires Independent(DesignMat(columns, true), |s| - start, |columns| + 1)
    ensures EstimateSeq(fit.coefficients) == truth
  {
    hide Sum, Dot, NormalEquations, Independent, DesignMat, IsCoefficient, Rss, Tss;
    var n, k, x, y := |s| - start, |columns| + 1, DesignMat(columns, true), AsVec(s[start..]);
    forall r: nat | r < n
      ensures y(r) == MulVec(x, AsVec(truth), k)(r)
    {
      DesignRow(columns, truth, r);
      DotCong(AsVec(truth[1..]), AsVec(truth[1..]), ColumnsAt(columns, r), feat(s[..start + r]), |columns|);
      assert s[start + r] == Predicted(truth, feat, s[..start + r]);
    }
    var est := EstimateSeq(fit.coefficients);
    ExactFit(y, x, AsVec(est), AsVec(truth), n, k);
    forall i | 0 <= i < k
      ensures est[i] == truth[i]
    {
      assert AsVec(est)(i) == AsVec(truth)(i);
    }
  }

  // ---------- lags ----------

  /** The entry i + 1 steps before the end; nothing reaches before the start. */
  function Lag(s: seq<real>, i: int): real { if 0 <= i < |s| then s[|s| - 1 - i] else 0.0 }

  /** Column i of a lag design that starts at entry `start`. */
  function LagColumn(s: seq<real>, start: nat, i: nat): seq<real>
    requires i < start <= |s|
  {
    s[start - 1 - i..|s| - 1 - i]
  }
}
