/**
 Forecasting by a linear regression on lags and covariates
 (crates/tdw-analytics-forecast/src/linregr.rs).
 */
module LinRegr {
  import opened Results
  import opened RealSums
  import opened LinearAlgebra
  import opened CholeskyFactor
  import opened Ols
  import opened Autoregression

  /** The last `lags` entries, newest first, then each covariate at the time being predicted. */
  function LinFeatures(covariates: seq<seq<real>>, lags: nat): Features {
    (s: seq<real>) => FeatureVec(covariates, lags, s)
  }

  function FeatureVec(covariates: seq<seq<real>>, lags: nat, s: seq<real>): Vec {
    i => FeatureAt(covariates, lags, s, i)
  }

  function FeatureAt(covariates: seq<seq<real>>, lags: nat, s: seq<real>, i: int): real {
    if i < lags then Lag(s, i)
    else if i < lags + |covariates| && |s| < |covariates[i - lags]| then covariates[i - lags][|s|]
    else 0.0
  }

  /** The training columns: entries lags.. of every lag and of every covariate. */
  function LinColumns(y: seq<real>, covariates: seq<seq<real>>, lags: nat): seq<seq<real>>
    requires lags <= |y| && forall j :: 0 <= j < |covariates| ==> |y| <= |covariates[j]|
  {
    seq(lags, i requires 0 <= i < lags => LagColumn(y, lags, i)) +
    seq(|covariates|, j requires 0 <= j < |covariates| => covariates[j][lags..|y|])
  }

  lemma LinAligned(y: seq<real>, covariates: seq<seq<real>>, lags: nat)
    requires lags <= |y| && forall j :: 0 <= j < |covariates| ==> |y| <= |covariates[j]|
    ensures Aligned(LinColumns(y, covariates, lags), LinFeatures(covariates, lags), y, lags)
  {
    var cols, feat := LinColumns(y, covariates, lags), LinFeatures(covariates, lags);
    forall r: nat, i: nat | r < |y| - lags && i < |cols|
      ensures ColumnsAt(cols, r)(i) == feat(y[..lags + r])(i)
    {
      assert feat(y[..lags + r])(i) == FeatureAt(covariates, lags, y[..lags + r], i);
      if i < lags {
      } else {
        assert cols[i] == covariates[i - lags][lags..|y|];
      }
    }
  }

  /** Collect the training data one time step after another. */
  method TrainingData(y: seq<real>, covariates: seq<seq<real>>, lags: nat)
    returns (response: seq<real>, columns: seq<seq<real>>)
    requires lags <= |y| && forall j :: 0 <= j < |covariates| ==> |y| <= |covariates[j]|
    ensures response == y[lags..] && columns == LinColumns(y, covariates, lags)
  {
    response := [];
    var lagCols := seq(lags, _ => []);
    var covCols := seq(|covariates|, _ => []);
    for t := lags to |y|
      invariant response == y[lags..t]
      invariant |lagCols| == lags && forall i :: 0 <= i < lags ==> lagCols[i] == y[lags - 1 - i..t - 1 - i]
      invariant |covCols| == |covariates|
      invariant forall j :: 0 <= j < |covariates| ==> covCols[j] == covariates[j][lags..t]
    {
      response := response + [y[t]];
      lagCols := seq(lags, i requires 0 <= i < lags => lagCols[i] + [y[t - 1 - i]]);
      covCols := seq(|covariates|, j requires 0 <= j < |covariates| => covCols[j] + [covariates[j][t]]);
    }
    columns := lagCols + covCols;
  }

  /** One prediction: intercept, lag terms, covariate terms. */
  method Predict(beta: seq<real>, history: seq<real>, lags: nat, covariates: seq<seq<real>>) returns (value: real)
    requires |beta| == lags + |covariates| + 1 && lags <= |history|
    requires forall j :: 0 <= j < |covariates| ==> |history| < |covariates[j]|
    ensures value == Predicted(beta, LinFeatures(covariates, lags), history)
  {
    hide Sum, Dot;
    ghost var u, v := AsVec(beta[1..]), LinFeatures(covariates, lags)(history);
    value := beta[0];
    DotZero(u, v, 0);
    for i := 0 to lags
      invariant value == beta[0] + Dot(u, v, i)
    {
      DotStep(u, v, i);
      assert v(i) == FeatureAt(covariates, lags, history, i);
      value := value + beta[1 + i] * history[|history| - 1 - i];
    }
    for j := 0 to |covariates|
      invariant value == beta[0] + Dot(u, v, lags + j)
    {
      DotStep(u, v, lags + j);
      assert v(lags + j) == FeatureAt(covariates, lags, history, lags + j);
      value := value + beta[1 + lags + j] * covariates[j][|history|];
    }
  }

  ghost predicate WellShaped(y: seq<real>, horizon: nat, covariates: seq<seq<real>>) {
    forall j :: 0 <= j < |covariates| ==> |covariates[j]| == |y| + horizon
  }

  /** The forecast rolls a least-squares fit of the training data forward. */
  ghost predicate IsLinForecast(points: seq<ForecastPoint>, y: seq<real>, horizon: nat, lags: nat,
                                covariates: seq<seq<real>>, fit: OlsSummary)
    requires lags <= |y| && WellShaped(y, horizon, covariates)
  {
    && ColumnsOutcome(y[lags..], LinColumns(y, covariates, lags), true, Ok(fit))
    && |fit.coefficients| > 0
    && points == Points(Roll(EstimateSeq(fit.coefficients), LinFeatures(covariates, lags), y, horizon))
  }

  /** At least one lag is always used. */
  function EffectiveLags(lags: nat): nat { if lags < 1 then 1 else lags }

  ghost predicate LinOutcome(y: seq<real>, horizon: nat, lags0: nat, covariates: seq<seq<real>>,
                             r: Result<seq<ForecastPoint>, ForecastError>)
  {
    var lags := EffectiveLags(lags0);
    if horizon == 0 then r == Err(ZeroHorizon)
    else if |y| < lags + 2 then r == Err(TooShort(lags + 2, |y|))
    else if !WellShaped(y, horizon, covariates) then
      exists j :: 0 <= j < |covariates| && |covariates[j]| != |y| + horizon
        && WellShaped(y, horizon, covariates[..j]) && r == Err(ForecastError.LengthMismatch(|covariates[j]|, |y| + horizon))
    else match r
      case Ok(points) => exists fit: OlsSummary :: IsLinForecast(points, y, horizon, lags, covariates, fit)
      case Err(e) => e == Regression && exists why: EconometricsError ::
                       ColumnsOutcome(y[lags..], LinColumns(y, covariates, lags), true, Err(why))
  }

  method Linregr(y: seq<real>, horizon: nat, lags0: nat, covariates: seq<seq<real>>, sqrt: real -> real)
    returns (r: Result<seq<ForecastPoint>, ForecastError>)
    requires IsSqrt(sqrt)
    ensures LinOutcome(y, horizon, lags0, covariates, r)
  {
    hide IsFit, Independent, Predicted, LinFeatures, DesignMat;
    if horizon == 0 {
      return Err(ZeroHorizon);
    }
    var lags := EffectiveLags(lags0);
    var n := |y|;
    if n < lags + 2 {
      return Err(TooShort(lags + 2, n));
    }
    for j := 0 to |covariates|
      invariant WellShaped(y, horizon, covariates[..j])
    {
      if |covariates[j]| != n + horizon {
        return Err(ForecastError.LengthMismatch(|covariates[j]|, n + horizon));
      }
    }
    assert covariates[..|covariates|] == covariates;
    var response, columns := TrainingData(y, covariates, lags);
    var fitted := Regress(response, columns, true, sqrt);
    if fitted.Err? {
      return Err(Regression);
    }
    var beta := EstimateSeq(fitted.value.coefficients);
    BetaWidth(response, columns, fitted.value);
    var values := RollForward(beta, y, horizon, lags, covariates);
    r := Ok(Points(values));
    assert IsLinForecast(r.value, y, horizon, lags, covariates, fitted.value);
  }

  lemma BetaWidth(y: seq<real>, columns: seq<seq<real>>, fit: OlsSummary)
    requires ColumnsOutcome(y, columns, true, Ok(fit))
    ensures |EstimateSeq(fit.coefficients)| == |columns| + 1
  {
  }

  method RollForward(beta: seq<real>, y: seq<real>, horizon: nat, lags: nat, covariates: seq<seq<real>>)
    returns (values: seq<real>)
    requires |beta| == lags + |covariates| + 1 && lags <= |y| && WellShaped(y, horizon, covariates)
    ensures values == Roll(beta, LinFeatures(covariates, lags), y, horizon)
  {
    hide Predicted, LinFeatures;
    var history := y;
    values := [];
    for h := 0 to horizon
      invariant values == Roll(beta, LinFeatures(covariates, lags), y, h)
      invariant history == y + values
    {
      RollAppend(beta, LinFeatures(covariates, lags), y, h);
      var value := Predict(beta, history, lags, covariates);
      values := values + [value];
      history := history + [value];
    }
  }

  /**
   On a history that follows a linear recurrence with covariates exactly, a successful
   forecast is the recurrence's own continuation.
   */
  lemma LinregrContinues(y: seq<real>, horizon: nat, lags0: nat, covariates: seq<seq<real>>,
                         r: Result<seq<ForecastPoint>, ForecastError>, truth: seq<real>, future: seq<real>)
    requires LinOutcome(y, horizon, lags0, covariates, r) && r.Ok?
    requires |truth| == EffectiveLags(lags0) + |covariates| + 1 && |future| == horizon
    requires Follows(truth, LinFeatures(covariates, EffectiveLags(lags0)), y + future, EffectiveLags(lags0))
    ensures r.value == Points(future)
  {
    hide IsFit, Independent, Predicted, LinFeatures, DesignMat, Points;
    var lags := EffectiveLags(lags0);
    var fit: OlsSummary :| IsLinForecast(r.value, y, horizon, lags, covariates, fit);
    var feat, all := LinFeatures(covariates, lags), y + future;
    LinAligned(y, covariates, lags);
    forall t: nat | lags <= t < |y|
      ensures y[t] == Predicted(truth, feat, y[..t])
    {
      assert all[t] == y[t] && all[..t] == y[..t];
    }
    RecurrenceRecovered(y, lags, LinColumns(y, covariates, lags), feat, truth, fit);
    RollIsContinuation(truth, feat, y, future);
  }
}
