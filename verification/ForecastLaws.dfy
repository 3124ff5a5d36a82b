/**
 What the regression forecasters compute, term by term: which past entries, innovations and
 covariates enter a prediction, what their coefficients minimise, and how fits are scored
 (crates/tdw-analytics-forecast/src/arima.rs, crates/tdw-analytics-forecast/src/linregr.rs).
 */
module ForecastLaws {
  import opened Results
  import opened RealSums
  import opened LinearAlgebra
  import opened CholeskyFactor
  import opened LeastSquares
  import opened Ols
  import opened Differencing
  import opened Autoregression
  import opened Arima
  import opened LinRegr
  import opened Statistics

  // ---------- predictions ----------

  /** A prediction is the intercept plus the terms of its first and its second block of features. */
  lemma TwoBlocks(beta: seq<real>, f: Vec, a: nat, b: nat, u: Vec, v: Vec)
    requires |beta| == a + b + 1
    requires forall i :: 0 <= i < a ==> u(i) == beta[1 + i] * f(i)
    requires forall j: nat :: j < b ==> v(j) == beta[1 + a + j] * At(f, a + j)
    ensures Dot(AsVec(beta[1..]), f, a + b) == Sum(u, a) + Sum(v, b)
  {
    hide Sum;
    var all: Vec := k => AsVec(beta[1..])(k) * f(k);
    SumSplit(all, a, b);
    SumCong(all, u, a);
    forall j: nat | j < b
      ensures Shift(all, a)(j) == v(j)
    {
      assert Shift(all, a)(j) == At(all, a + j);
      assert beta[1..][a + j] == beta[1 + a + j];
    }
    SumCong(Shift(all, a), v, b);
  }

  /**
   The linear-regression forecast of the next value: the intercept, coefficient i times the value
   i + 1 steps back, and one coefficient times each covariate at the time being predicted.
   */
  lemma LinPredictionIs(beta: seq<real>, covariates: seq<seq<real>>, lags: nat, s: seq<real>, u: Vec, v: Vec)
    requires |beta| == lags + |covariates| + 1 && lags <= |s|
    requires forall j :: 0 <= j < |covariates| ==> |s| < |covariates[j]|
    requires forall i :: 0 <= i < lags ==> u(i) == beta[1 + i] * s[|s| - 1 - i]
    requires forall j :: 0 <= j < |covariates| ==> v(j) == beta[1 + lags + j] * covariates[j][|s|]
    ensures Predicted(beta, LinFeatures(covariates, lags), s) == beta[0] + Sum(u, lags) + Sum(v, |covariates|)
  {
    hide Sum, Dot;
    var f := LinFeatures(covariates, lags)(s);
    forall i | 0 <= i < lags
      ensures u(i) == beta[1 + i] * f(i)
    {
      assert f(i) == FeatureAt(covariates, lags, s, i) == s[|s| - 1 - i];
    }
    forall j: nat | j < |covariates|
      ensures v(j) == beta[1 + lags + j] * At(f, lags + j)
    {
      assert At(f, lags + j) == FeatureAt(covariates, lags, s, lags + j) == covariates[j][|s|];
    }
    TwoBlocks(beta, f, lags, |covariates|, u, v);
  }

  /**
   The ARIMA prediction of entry t = |s|: the intercept, AR coefficient i times entry t - 1 - i, and MA
   coefficient j times innovation t - 1 - j; what lies before the start or beyond the known
   innovations counts as zero.
   */
  lemma StagePredictionIs(m: ArimaFit, eps: seq<real>, s: seq<real>, u: Vec, v: Vec)
    requires forall i :: 0 <= i < |m.ar| ==> u(i) == if i < |s| then m.ar[i] * s[|s| - 1 - i] else 0.0
    requires forall j :: 0 <= j < |m.ma| ==> v(j) == if 0 <= |s| - 1 - j < |eps| then m.ma[j] * eps[|s| - 1 - j] else 0.0
    ensures Predicted(Coefficients(m), StageFeatures(eps, |m.ar|), s) == m.intercept + Sum(u, |m.ar|) + Sum(v, |m.ma|)
  {
    hide Sum, Dot;
    var p, beta, f := |m.ar|, Coefficients(m), StageFeatures(eps, |m.ar|)(s);
    forall i | 0 <= i < p
      ensures u(i) == beta[1 + i] * f(i)
    {
      assert f(i) == StageFeatureAt(eps, p, s, i) && beta[1 + i] == m.ar[i];
    }
    forall j: nat | j < |m.ma|
      ensures v(j) == beta[1 + p + j] * At(f, p + j)
    {
      assert At(f, p + j) == StageFeatureAt(eps, p, s, p + j) && beta[1 + p + j] == m.ma[j];
    }
    TwoBlocks(beta, f, p, |m.ma|, u, v);
  }

  // ---------- what the coefficients minimise ----------

  function ErrorAt(s: seq<real>, start: nat, feat: Features, beta: seq<real>, r: int): real
    requires |beta| > 0
  {
    if 0 <= r && start + r < |s| then s[start + r] - Predicted(beta, feat, s[..start + r]) else 0.0
  }

  /** The one-step errors from entry `start` on. */
  function OneStepErrors(s: seq<real>, start: nat, feat: Features, beta: seq<real>): Vec
    requires |beta| > 0
  {
    r => ErrorAt(s, start, feat, beta, r)
  }

  lemma ErrorsAreResiduals(s: seq<real>, start: nat, columns: seq<seq<real>>, feat: Features, beta: seq<real>)
    requires start <= |s| && |beta| == |columns| + 1 && Aligned(columns, feat, s, start)
    ensures var e := OneStepErrors(s, start, feat, beta);
      Rss(AsVec(s[start..]), DesignMat(columns, true), AsVec(beta), |s| - start, |beta|) == Dot(e, e, |s| - start)
  {
    hide Sum, Dot, Predicted, DesignMat, Aligned;
    var e, f := OneStepErrors(s, start, feat, beta), Resid(AsVec(s[start..]), DesignMat(columns, true), AsVec(beta), |beta|);
    forall r: nat | r < |s| - start
      ensures f(r) == e(r)
    {
      DesignRow(columns, beta, r);
      PredictedFromColumns(beta, columns, feat, s, start, r);
      assert e(r) == ErrorAt(s, start, feat, beta, r) && AsVec(s[start..])(r) == s[start + r];
    }
    DotCong(f, e, f, e, |s| - start);
  }

  /** A regression on features of the past has the least squared one-step errors of all coefficients. */
  lemma LeastOneStepErrors(s: seq<real>, start: nat, columns: seq<seq<real>>, feat: Features, beta: seq<real>, other: seq<real>)
    requires start <= |s| && |beta| == |other| == |columns| + 1 && Aligned(columns, feat, s, start)
    requires NormalEquations(AsVec(s[start..]), DesignMat(columns, true), AsVec(beta), |s| - start, |beta|)
    ensures var e, e' := OneStepErrors(s, start, feat, beta), OneStepErrors(s, start, feat, other);
      Dot(e, e, |s| - start) <= Dot(e', e', |s| - start)
  {
    hide Sum, Dot, Predicted, DesignMat, Aligned, NormalEquations, Rss, Independent;
    ErrorsAreResiduals(s, start, columns, feat, beta);
    ErrorsAreResiduals(s, start, columns, feat, other);
    LeastSquaresMinimum(AsVec(s[start..]), DesignMat(columns, true), AsVec(beta), AsVec(other), |s| - start, |beta|);
  }

  // ---------- the linear-regression forecast ----------

  /**
   With at least one lag: the forecast extends the series by the relation whose coefficients have
   the least squared one-step errors on it, for every other choice of coefficients.
   */
  lemma LinregrForecast(y: seq<real>, horizon: nat, lags0: nat, covariates: seq<seq<real>>,
                        r: Result<seq<ForecastPoint>, ForecastError>)
    requires LinOutcome(y, horizon, lags0, covariates, r) && r.Ok?
    ensures |r.value| == horizon
    ensures var lags := if lags0 == 0 then 1 else lags0;
      exists beta: seq<real>, values: seq<real> ::
        && |beta| == lags + |covariates| + 1 && |values| == horizon
        && (forall h :: 0 <= h < horizon ==> r.value[h] == ForecastPoint(h + 1, values[h]))
        && Follows(beta, LinFeatures(covariates, lags), y + values, |y|)
        && LeastErrors(y, lags, LinFeatures(covariates, lags), beta)
  {
    hide IsFit, Independent, Predicted, LinFeatures, DesignMat, LeastErrors, Follows;
    var lags := if lags0 == 0 then 1 else lags0;
    assert lags == EffectiveLags(lags0);
    var fit: OlsSummary :| IsLinForecast(r.value, y, horizon, lags, covariates, fit);
    var beta, feat, columns := EstimateSeq(fit.coefficients), LinFeatures(covariates, lags), LinColumns(y, covariates, lags);
    BetaWidth(y[lags..], columns, fit);
    var values := Roll(beta, feat, y, horizon);
    RollFollows(beta, feat, y, horizon);
    LinAligned(y, covariates, lags);
    OutcomeNormal(y[lags..], columns, fit);
    FitHasLeastErrors(y, lags, columns, feat, beta);
  }

  /** No coefficients have smaller squared one-step errors from entry `start` on. */
  ghost predicate LeastErrors(s: seq<real>, start: nat, feat: Features, beta: seq<real>)
    requires |beta| > 0 && start <= |s|
  {
    forall other: seq<real> :: |other| == |beta| ==>
      var e, e' := OneStepErrors(s, start, feat, beta), OneStepErrors(s, start, feat, other);
      Dot(e, e, |s| - start) <= Dot(e', e', |s| - start)
  }

  lemma FitHasLeastErrors(s: seq<real>, start: nat, columns: seq<seq<real>>, feat: Features, beta: seq<real>)
    requires start <= |s| && |beta| == |columns| + 1 && Aligned(columns, feat, s, start)
    requires NormalEquations(AsVec(s[start..]), DesignMat(columns, true), AsVec(beta), |s| - start, |beta|)
    ensures LeastErrors(s, start, feat, beta)
  {
    hide Sum, Dot, OneStepErrors, DesignMat, Aligned, NormalEquations;
    forall other: seq<real> | |other| == |beta|
      ensures var e, e' := OneStepErrors(s, start, feat, beta), OneStepErrors(s, start, feat, other);
        Dot(e, e, |s| - start) <= Dot(e', e', |s| - start)
    {
      LeastOneStepErrors(s, start, columns, feat, beta, other);
    }
  }

  lemma OutcomeNormal(y: seq<real>, columns: seq<seq<real>>, s: OlsSummary)
    requires ColumnsOutcome(y, columns, true, Ok(s))
    ensures NormalEquations(AsVec(y), DesignMat(columns, true), Estimates(s.coefficients), |y|, |columns| + 1)
  {
    hide Independent, NormalEquations, DesignMat;
  }

  // ---------- the ARIMA fit ----------

  /** Where the second stage starts: after the lags of both kinds, and after the long autoregression if there is one. */
  lemma StageStartIs(n: nat, p: nat, q: nat)
    ensures q == 0 ==> StageStart(n, p, q) == p
    ensures q > 0 ==> StageStart(n, p, q) >= p && StageStart(n, p, q) >= q && StageStart(n, p, q) >= LongArOrder(n, p, q)
    ensures q > 0 ==> StageStart(n, p, q) in {p, q, LongArOrder(n, p, q)}
  {
    hide LongArOrder;
  }

  /**
   The order of the long autoregression is the least that is at least p + q, at least 1 and at least
   the square root of the sample size, unless a third of the sample is less; it is never zero.
   */
  lemma LongArOrderIs(n: nat, p: nat, q: nat, o: nat)
    ensures LongArOrder(n, p, q) == o <==>
      && o >= 1
      && (o == 1 || 3 * o <= n)
      && (o == 1 || o <= p + q || (o - 1) * (o - 1) < n)
      && ((o >= p + q && o * o >= n) || 3 * (o + 1) > n)
  {
    var root := CeilSqrt(n);
    SquareMono(root, o);
    if o > 0 {
      SquareMono(root, o - 1);
    }
    if root > 0 {
      SquareMono(o, root - 1);
      SquareMono(o - 1, root - 1);
    }
  }

  lemma SquareMono(a: int, b: int)
    ensures 0 <= a <= b ==> a * a <= b * b
  {
  }

  /**
   The innovations of the first stage: zero while the long autoregression warms up, then its
   one-step errors, for the largest order that can be regressed at all and with the coefficients
   of least squared errors; or what is left of the series after its mean when none can.
   */
  lemma InnovationsAre(w: seq<real>, order: nat, full: seq<real>)
    requires IsInnovations(w, order, full)
    ensures |full| == |w|
    ensures if o :| 1 <= o <= order && ArFeasible(w, o)
      then exists ord: nat, beta: seq<real> ::
        && 1 <= ord <= order && ord <= |w| && ArFeasible(w, ord) && |beta| == ord + 1
        && (forall o :: ord < o <= order ==> !ArFeasible(w, o))
        && LeastErrors(w, ord, ArFeatures(ord), beta)
        && forall t: nat :: t < |w| ==> full[t] == if t < ord then 0.0 else w[t] - Predicted(beta, ArFeatures(ord), w[..t])
      else forall t: nat :: t < |w| ==> full[t] == w[t] - MeanOf(w)
  {
    hide Sum, Dot, Predicted, LeastErrors, Independent, NormalEquations, ArFeatures, DesignMat, Aligned;
    if exists o :: 1 <= o <= order && ArFeasible(w, o) {
      var ord: nat, beta: seq<real> :| 1 <= ord <= order && InnovationsFrom(w, ord, beta, full) && forall o :: ord < o <= order ==> !ArFeasible(w, o);
      ArAligned(w, ord);
      FitHasLeastErrors(w, ord, ArColumns(w, ord), ArFeatures(ord), beta);
      forall t: nat | t < |w|
        ensures full[t] == if t < ord then 0.0 else w[t] - Predicted(beta, ArFeatures(ord), w[..t])
      {
        if t >= ord {
          assert full[t] == StageResiduals(w, ArFeatures(ord), beta, ord)[t - ord];
          assert ord + (t - ord) == t;
        }
      }
    }
  }

  /** Which series are too short, in the order of the checks, and that nothing else but a dependent design is refused. */
  lemma ArimaRefuses(ln: real -> real, y: seq<real>, p: nat, d: nat, q: nat, r: Result<ArimaFit, ForecastError>)
    requires ArimaOutcome(ln, y, p, d, q, r)
    ensures var needed := 2 * (if p + q == 0 then 1 else p + q) + d + 4;
      if |y| < needed then r == Err(TooShort(needed, |y|))
      else
        var n := |y| - d;
        var start := StageStart(n, p, q);
        if n < start + p + q + 2 then r == Err(TooShort(start + p + q + 2, n))
        else r.Ok? || (r == Err(Regression) && p + q > 0)
  {
    hide StageStart;
    if |y| >= d {
      DiffLength(y, d);
    }
  }

  lemma StageAligned(w: seq<real>, eps: seq<real>, p: nat, q: nat, start: nat)
    requires p <= start && q <= start <= |w| == |eps|
    ensures Aligned(StageColumns(w, eps, p, q, start), StageFeatures(eps, p), w, start)
  {
    var columns, feat := StageColumns(w, eps, p, q, start), StageFeatures(eps, p);
    forall r: nat, i: nat | r < |w| - start && i < |columns|
      ensures ColumnsAt(columns, r)(i) == feat(w[..start + r])(i)
    {
      StageEntry(w, eps, p, q, start, r, i);
      assert feat(w[..start + r])(i) == StageFeatureAt(eps, p, w[..start + r], i);
    }
  }

  lemma StageEntry(w: seq<real>, eps: seq<real>, p: nat, q: nat, start: nat, r: nat, i: nat)
    requires p <= start && q <= start <= |w| == |eps| && r < |w| - start && i < p + q
    ensures ColumnsAt(StageColumns(w, eps, p, q, start), r)(i) == StageFeatureAt(eps, p, w[..start + r], i)
  {
    var columns, t := StageColumns(w, eps, p, q, start), start + r;
    assert |w[..t]| == t;
    if i < p {
      assert columns[i] == LagColumn(w, start, i);
      assert columns[i][r] == w[t - 1 - i] == w[..t][t - 1 - i];
    } else {
      assert columns[i] == LagColumn(eps, start, i - p);
      assert columns[i][r] == eps[t - 1 - (i - p)];
    }
  }

  /** The plain mean leaves errors that sum to zero, which is the normal equation of a lone intercept. */
  lemma MeanIsNormal(w: seq<real>, start: nat, b: real)
    requires start <= |w| && b * (|w| - start) as real == Sum(AsVec(w[start..]), |w| - start)
    ensures NormalEquations(AsVec(w[start..]), DesignMat([], true), AsVec([b]), |w| - start, 1)
  {
    hide Sum, Dot;
    var n, x, y := |w| - start, DesignMat([], true), AsVec(w[start..]);
    var e, constant: Vec := Resid(y, x, AsVec([b]), 1), i => b;
    forall r | 0 <= r < n
      ensures e(r) == 1.0 * y(r) + -1.0 * constant(r)
    {
      DotPick(Row(x, r), AsVec([b]), 0, 1);
    }
    SumLinear(1.0, y, -1.0, constant, e, n);
    SumConst(constant, b, n);
    var ones := Col(x, 0);
    DotCong(ones, Ones(), e, e, n);
    SumsAgainstOnes(e, n);
  }

  /**
   A fit: with the innovations of the first stage, its coefficients have the least squared one-step
   errors from the start of the second stage on, and its variance is their mean.
   */
  lemma ArimaFitIs(ln: real -> real, y: seq<real>, p: nat, d: nat, q: nat, m: ArimaFit)
    requires ArimaOutcome(ln, y, p, d, q, Ok(m))
    ensures m.p == p && m.d == d && m.q == q && |m.ar| == p && |m.ma| == q
    ensures var w := DiffN(y, d);
      var start := StageStart(|w|, p, q);
      && m.nObs == |w| - start && m.sigma >= 0.0
      && exists eps: seq<real> ::
           && |eps| == |w| && StageInnovations(w, p, q, eps)
           && LeastErrors(w, start, StageFeatures(eps, p), Coefficients(m))
           && var e := OneStepErrors(w, start, StageFeatures(eps, p), Coefficients(m));
              m.sigma * m.sigma * m.nObs as real == Dot(e, e, m.nObs)
  {
    hide Sum, Dot, HasCriteria, StageStart, StageInnovations, StageSingular, LeastErrors, StageFeatures, IsArimaFit, Predicted;
    var w := DiffN(y, d);
    var eps: seq<real> :| IsArimaFit(m, w, eps, p, d, q);
    LeastStageErrors(w, eps, p, d, q, m);
    StageVariance(w, eps, p, d, q, m);
  }

  lemma LeastStageErrors(w: seq<real>, eps: seq<real>, p: nat, d: nat, q: nat, m: ArimaFit)
    requires IsArimaFit(m, w, eps, p, d, q)
    ensures m.p == p && m.d == d && m.q == q && |m.ar| == p && |m.ma| == q && |eps| == |w| && StageInnovations(w, p, q, eps)
    ensures StageStart(|w|, p, q) <= |w|
    ensures LeastErrors(w, StageStart(|w|, p, q), StageFeatures(eps, p), Coefficients(m))
  {
    hide Sum, Dot, StageStart, StageInnovations, LeastErrors, StageFeatures, DesignMat, NormalEquations, Independent, Predicted;
    hide IsSigma, Aligned;
    var start, beta := StageStart(|w|, p, q), Coefficients(m);
    StageStartIs(|w|, p, q);
    StageAligned(w, eps, p, q, start);
    var columns := StageColumns(w, eps, p, q, start);
    if p + q == 0 {
      MeanIsNormal(w, start, m.intercept);
      assert columns == [] && beta == [m.intercept];
    }
    FitHasLeastErrors(w, start, columns, StageFeatures(eps, p), beta);
  }

  lemma StageVariance(w: seq<real>, eps: seq<real>, p: nat, d: nat, q: nat, m: ArimaFit)
    requires IsArimaFit(m, w, eps, p, d, q)
    ensures m.sigma >= 0.0 && StageStart(|w|, p, q) <= |w| && m.nObs == |w| - StageStart(|w|, p, q)
    ensures var e := OneStepErrors(w, StageStart(|w|, p, q), StageFeatures(eps, p), Coefficients(m));
      m.sigma * m.sigma * m.nObs as real == Dot(e, e, m.nObs)
  {
    hide Sum, Dot, StageStart, StageInnovations, StageFeatures, IsStageFit, Predicted;
    var start, feat, beta := StageStart(|w|, p, q), StageFeatures(eps, p), Coefficients(m);
    var e, f := OneStepErrors(w, start, feat, beta), AsVec(StageResiduals(w, feat, beta, start));
    forall r: nat | r < m.nObs
      ensures f(r) == e(r)
    {
      assert e(r) == ErrorAt(w, start, feat, beta, r);
    }
    DotCong(f, e, f, e, m.nObs);
  }

  // ---------- the criteria ----------

  /**
   The criteria in full: n (ln(2 pi sigma^2) + 1) + 2k for k = p + q + 2 parameters and n residuals, or
   2k - 100n for a perfect fit; k (ln n - 2) more for the Bayesian one; and a penalty of 2k(k + 1) over
   the n - k - 1 spare residuals more for the corrected one, which is infinite when none are spare.
   */
  lemma CriteriaAre(ln: real -> real, m: ArimaFit, n: real, k: real, v: real, misfit: real, spare: real, penalty: real)
    requires HasCriteria(ln, m)
    requires n == m.nObs as real && k == (m.p + m.q + 2) as real && v == m.sigma * m.sigma
    requires misfit == n * (ln(2.0 * 3.141592653589793 * v) + 1.0)
    requires spare == n - k - 1.0 && penalty == 2.0 * k * (k + 1.0)
    ensures m.aic == 2.0 * k + if v > 0.0 then misfit else -100.0 * n
    ensures m.bic == m.aic + k * (ln(n) - 2.0)
    ensures if spare > 0.0 then m.aicc.Finite? && (m.aicc.value - m.aic) * spare == penalty else m.aicc.Infinite?
  {
    hide LogLikelihood, Akaike, Corrected, Bayes, Times;
    TimesIs(m.sigma, m.sigma);
    var like := LogLikelihood(ln, v, m.nObs);
    LikelihoodIs(ln, v, m.nObs, n, misfit);
    AkaikeIs(k, like, m.aic);
    BayesIs(ln, k, like, m.nObs, n);
    CorrectedIs(k, m.aic, m.nObs, spare, penalty);
  }

  lemma LikelihoodIs(ln: real -> real, v: real, count: nat, n: real, misfit: real)
    requires n == count as real && misfit == n * (ln(2.0 * 3.141592653589793 * v) + 1.0)
    ensures -2.0 * LogLikelihood(ln, v, count) == if v > 0.0 then misfit else -100.0 * n
  {
    if v > 0.0 {
      Associate(-0.5, n, -0.5 * n, ln(2.0 * 3.141592653589793 * v) + 1.0);
    }
  }

  lemma AkaikeIs(k: real, like: real, aic: real)
    requires aic == Akaike(k, like)
    ensures aic == 2.0 * k + -2.0 * like
  {
  }

  lemma BayesIs(ln: real -> real, k: real, like: real, count: nat, n: real)
    requires n == count as real
    ensures Bayes(ln, k, like, count) == Akaike(k, like) + k * (ln(n) - 2.0)
  {
    Distribute(k, ln(n), -2.0, ln(n) - 2.0);
  }

  lemma CorrectedIs(k: real, aic: real, count: nat, spare: real, penalty: real)
    requires spare == count as real - k - 1.0 && penalty == 2.0 * k * (k + 1.0)
    ensures var c := Corrected(k, aic, count);
      if spare > 0.0 then c.Finite? && (c.value - aic) * spare == penalty else c.Infinite?
  {
    if spare > 0.0 {
      QuotientSign(penalty, spare, penalty / spare);
    }
  }

  /** Between fits with equally many parameters and residuals, every criterion prefers the smaller variance. */
  lemma CriteriaPreferBetterFits(ln: real -> real, a: ArimaFit, b: ArimaFit)
    requires HasCriteria(ln, a) && HasCriteria(ln, b) && a.nObs == b.nObs > 0 && a.p + a.q == b.p + b.q
    requires forall x, x' :: 0.0 < x < x' ==> ln(x) < ln(x')
    requires 0.0 < a.sigma < b.sigma
    ensures a.aic < b.aic && a.bic < b.bic
    ensures a.aicc.Finite? <==> b.aicc.Finite?
    ensures a.aicc.Finite? ==> a.aicc.value < b.aicc.value
  {
    hide HasCriteria;
    var n, k, u, v := a.nObs as real, (a.p + a.q + 2) as real, a.sigma * a.sigma, b.sigma * b.sigma;
    SquaresOrdered(a.sigma, b.sigma, u, v);
    var x, y := ln(2.0 * 3.141592653589793 * u), ln(2.0 * 3.141592653589793 * v);
    assert x < y;
    GrowsWith(n, x, y, n * (x + 1.0), n * (y + 1.0));
    Compared(ln, a, b, n, k, u, v, n * (x + 1.0), n * (y + 1.0), n - k - 1.0, 2.0 * k * (k + 1.0));
  }

  lemma Compared(ln: real -> real, a: ArimaFit, b: ArimaFit, n: real, k: real, u: real, v: real, misfitA: real, misfitB: real,
                 spare: real, penalty: real)
    requires HasCriteria(ln, a) && HasCriteria(ln, b)
    requires n == a.nObs as real == b.nObs as real && k == (a.p + a.q + 2) as real == (b.p + b.q + 2) as real
    requires u == a.sigma * a.sigma && v == b.sigma * b.sigma && 0.0 < u < v && spare == n - k - 1.0 && penalty == 2.0 * k * (k + 1.0)
    requires misfitA == n * (ln(2.0 * 3.141592653589793 * u) + 1.0) && misfitB == n * (ln(2.0 * 3.141592653589793 * v) + 1.0)
    requires misfitA < misfitB
    ensures a.aic < b.aic && a.bic < b.bic
    ensures a.aicc.Finite? <==> b.aicc.Finite?
    ensures a.aicc.Finite? ==> a.aicc.value < b.aicc.value
  {
    hide HasCriteria;
    CriteriaAre(ln, a, n, k, u, misfitA, spare, penalty);
    CriteriaAre(ln, b, n, k, v, misfitB, spare, penalty);
    Shifted(spare, a.aic, b.aic, a.aicc, b.aicc, penalty);
  }

  lemma SquaresOrdered(s: real, t: real, u: real, v: real)
    requires 0.0 < s < t && u == s * s && v == t * t
    ensures 0.0 < u < v
  {
    SquareSign(s, u);
    ProductSign(t - s, t + s, v - u);
  }

  lemma Shifted(spare: real, x: real, y: real, a: Score, b: Score, penalty: real)
    requires if spare > 0.0 then a.Finite? && (a.value - x) * spare == penalty else a.Infinite?
    requires if spare > 0.0 then b.Finite? && (b.value - y) * spare == penalty else b.Infinite?
    requires x < y
    ensures a.Finite? <==> b.Finite?
    ensures a.Finite? ==> a.value < b.value
  {
    if spare > 0.0 {
      Cancel(a.value - x, b.value - y, spare);
    }
  }

  lemma GrowsWith(n: real, x: real, y: real, p: real, q: real)
    requires n > 0.0 && x < y && p == n * (x + 1.0) && q == n * (y + 1.0)
    ensures p < q
  {
    ProductSign(n, y - x, q - p);
  }
}
