/**
 The Granger-causality test as a comparison of two nested least-squares fits
 (crates/tdw-analytics-econometrics/src/granger.rs).
 */
module Granger {
  import opened Results
  import opened RealSums
  import opened LinearAlgebra
  import opened CholeskyFactor
  import opened LeastSquares
  import opened Ols

  datatype GrangerResult = GrangerResult(
    fStatistic: real,
    dfNumerator: nat,
    dfDenominator: nat,
    rssRestricted: real,
    rssUnrestricted: real)

  /** Column i holds the series shifted back by i + 1, aligned to observations lag, lag + 1, ... */
  function LagColumns(series: seq<real>, lag: nat): seq<seq<real>>
    requires lag <= |series|
  {
    seq(lag, i requires 0 <= i < lag => series[lag - 1 - i..|series| - 1 - i])
  }

  /** Every lagged column pairs observation t with observation t - (i + 1). */
  lemma LagColumnsAligned(series: seq<real>, lag: nat, i: nat, row: nat)
    requires i < lag <= |series| && row < |series| - lag
    ensures |LagColumns(series, lag)[i]| == |series| - lag
    ensures LagColumns(series, lag)[i][row] == series[(lag + row) - (i + 1)]
  {
  }

  function FStatistic(rssR: real, rssU: real, dfNum: nat, dfDen: nat): real
    requires dfNum > 0
  {
    if rssU > 0.0 && dfDen > 0 then ((rssR - rssU) / dfNum as real) / (rssU / dfDen as real) else 0.0
  }

  /** v is the least residual sum of squares any coefficients reach on this design. */
  ghost predicate IsLeastRss(y: Vec, x: Mat, n: nat, k: nat, v: real) {
    && (exists b: Vec :: v == Rss(y, x, b, n, k))
    && (forall b: Vec :: v <= Rss(y, x, b, n, k))
  }

  /** The residual sum of squares rebuilt from the columns and the fitted coefficients. */
  method ResidualSumOfSquares(response: seq<real>, columns: seq<seq<real>>, fit: OlsSummary) returns (rss: real)
    requires |fit.coefficients| == |columns| + 1
    requires forall j :: 0 <= j < |columns| ==> |columns[j]| == |response|
    ensures rss == Rss(AsVec(response), DesignMat(columns, true), Estimates(fit.coefficients),
                       |response|, |columns| + 1)
  {
    hide Sum, Dot, DesignEntry;
    var betas := EstimateSeq(fit.coefficients);
    var k := |columns| + 1;
    ghost var e := Resid(AsVec(response), DesignMat(columns, true), AsVec(betas), k);
    rss := 0.0;
    DotZero(e, e, 0);
    for row := 0 to |response|
      invariant rss == Dot(e, e, row)
    {
      var predicted := Predict(columns, betas, row);
      var resid := response[row] - predicted;
      assert resid == e(row);
      DotStep(e, e, row);
      rss := rss + resid * resid;
    }
  }

  /** The inner loop: intercept first, then each column at this row. */
  method Predict(columns: seq<seq<real>>, betas: seq<real>, row: nat) returns (predicted: real)
    requires |betas| == |columns| + 1
    requires forall j :: 0 <= j < |columns| ==> row < |columns[j]|
    ensures predicted == MulVec(DesignMat(columns, true), AsVec(betas), |columns| + 1)(row)
  {
    hide Sum, Dot;
    ghost var x, b := Row(DesignMat(columns, true), row), AsVec(betas);
    predicted := betas[0];
    DotZero(x, b, 0);
    DotStep(x, b, 0);
    for j := 0 to |columns|
      invariant predicted == Dot(x, b, j + 1)
    {
      DotStep(x, b, j + 1);
      predicted := predicted + betas[j + 1] * columns[j][row];
    }
  }

  // ---------- nesting ----------

  /** A model that adds columns never has a larger least residual sum of squares. */
  lemma NestedRss(y: Vec, x: Mat, x': Mat, n: nat, k: nat, k': nat, v: real, v': real)
    requires k <= k' && SameEntries(x, x', n, k)
    requires IsLeastRss(y, x, n, k, v) && IsLeastRss(y, x', n, k', v')
    ensures v' <= v
  {
    hide Rss;
    var b: Vec :| v == Rss(y, x, b, n, k);
    PaddedRss(y, x, x', b, n, k, k');
  }

  // ---------- the test ----------

  function Response(y: seq<real>, lag: nat): seq<real>
    requires lag <= |y|
  {
    y[lag..]
  }

  /** What a returned result says: both sums of squares are the least ones of their models. */
  ghost predicate IsGranger(g: GrangerResult, y: seq<real>, x: seq<real>, lag: nat)
    requires |y| == |x| && 0 < lag && 3 * lag + 1 < |y|
  {
    var rows := |y| - lag;
    var yr := AsVec(Response(y, lag));
    && IsLeastRss(yr, DesignMat(LagColumns(y, lag), true), rows, lag + 1, g.rssRestricted)
    && IsLeastRss(yr, DesignMat(LagColumns(y, lag) + LagColumns(x, lag), true), rows, 2 * lag + 1, g.rssUnrestricted)
    && g.dfNumerator == lag
    && g.dfDenominator == rows - (2 * lag + 1)
    && g.fStatistic == FStatistic(g.rssRestricted, g.rssUnrestricted, g.dfNumerator, g.dfDenominator)
  }

  ghost predicate GrangerOutcome(y: seq<real>, x: seq<real>, lag: nat, r: Result<GrangerResult, EconometricsError>) {
    if |y| != |x| then r == Err(LengthMismatch(|y|, |x|))
    else if lag == 0 then r == Err(EmptyDesign)
    else if |y| <= lag then r == Err(InsufficientRows(|y|, lag))
    else
      var rows := |y| - lag;
      if rows <= lag + 1 then r == Err(InsufficientRows(rows, lag + 1))
      else if !Independent(DesignMat(LagColumns(y, lag), true), rows, lag + 1) then r == Err(Singular)
      else if rows <= 2 * lag + 1 then r == Err(InsufficientRows(rows, 2 * lag + 1))
      else if !Independent(DesignMat(LagColumns(y, lag) + LagColumns(x, lag), true), rows, 2 * lag + 1)
      then r == Err(Singular)
      else r.Ok? && IsGranger(r.value, y, x, lag)
  }

  lemma FitIsLeast(s: OlsSummary, y: Vec, x: Mat, n: nat, k: nat, v: real)
    requires n > k && IsFit(s, y, x, n, k) && v == Rss(y, x, Estimates(s.coefficients), n, k)
    ensures IsLeastRss(y, x, n, k, v)
  {
    hide Rss, NormalEquations;
    forall b: Vec
      ensures v <= Rss(y, x, b, n, k)
    {
      LeastSquaresMinimum(y, x, Estimates(s.coefficients), b, n, k);
    }
  }

  /** A successful regression with an intercept, whose sum of squares has been recomputed, is least. */
  lemma RegressIsLeast(s: OlsSummary, y: seq<real>, columns: seq<seq<real>>, v: real)
    requires ColumnsOutcome(y, columns, true, Ok(s))
    requires v == Rss(AsVec(y), DesignMat(columns, true), Estimates(s.coefficients), |y|, |columns| + 1)
    ensures IsLeastRss(AsVec(y), DesignMat(columns, true), |y|, |columns| + 1, v)
  {
    hide Rss, Independent, NormalEquations, IsCoefficient, IsLeastRss;
    FitIsLeast(s, AsVec(y), DesignMat(columns, true), |y|, |columns| + 1, v);
  }

  method GrangerCausality(y: seq<real>, x: seq<real>, lag: nat, sqrt: real -> real)
    returns (r: Result<GrangerResult, EconometricsError>)
    requires IsSqrt(sqrt)
    ensures GrangerOutcome(y, x, lag, r)
  {
    hide Sum, Dot, Rss, Independent, NormalEquations, IsCoefficient, DesignMat, IsLeastRss, FStatistic;
    if |y| != |x| {
      return Err(LengthMismatch(|y|, |x|));
    }
    if lag == 0 {
      return Err(EmptyDesign);
    }
    var n := |y|;
    if n <= lag {
      return Err(InsufficientRows(n, lag));
    }
    var response := y[lag..];
    var yLags, xLags := LagColumns(y, lag), LagColumns(x, lag);
    var restricted := Regress(response, yLags, true, sqrt);
    if restricted.Err? {
      return Err(restricted.error);
    }
    var rssR := ResidualSumOfSquares(response, yLags, restricted.value);
    RegressIsLeast(restricted.value, response, yLags, rssR);
    var cols := yLags + xLags;
    var unrestricted := Regress(response, cols, true, sqrt);
    if unrestricted.Err? {
      return Err(unrestricted.error);
    }
    var rssU := ResidualSumOfSquares(response, cols, unrestricted.value);
    RegressIsLeast(unrestricted.value, response, cols, rssU);
    var dfDen := unrestricted.value.residualDof;
    r := Ok(GrangerResult(FStatistic(rssR, rssU, lag, dfDen), lag, dfDen, rssR, rssU));
  }

  /**
   The unrestricted model never fits worse than the restricted one it nests, so the F
   statistic is never negative.
   */
  lemma GrangerOrdersRss(y: seq<real>, x: seq<real>, lag: nat, r: Result<GrangerResult, EconometricsError>)
    requires GrangerOutcome(y, x, lag, r) && r.Ok?
    ensures 0.0 <= r.value.rssUnrestricted <= r.value.rssRestricted
    ensures r.value.fStatistic >= 0.0
  {
    hide Sum, Dot, Rss, Independent;
    var g, rows := r.value, |y| - lag;
    var yr := AsVec(Response(y, lag));
    var small, large := DesignMat(LagColumns(y, lag), true), DesignMat(LagColumns(y, lag) + LagColumns(x, lag), true);
    NestedRss(yr, small, large, rows, lag + 1, 2 * lag + 1, g.rssRestricted, g.rssUnrestricted);
    var b: Vec :| g.rssUnrestricted == Rss(yr, large, b, rows, 2 * lag + 1);
    RssNonneg(yr, large, b, rows, 2 * lag + 1);
  }
}
