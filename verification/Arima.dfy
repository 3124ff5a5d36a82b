/**
 ARIMA(p, d, q) by two-stage least squares, and its forecasts
 (crates/tdw-analytics-forecast/src/arima.rs).
 */
module Arima {
  import opened Results
  import opened RealSums
  import opened LinearAlgebra
  import opened CholeskyFactor
  import opened LeastSquares
  import opened Ols
  import opened Differencing
  import opened Autoregression

  datatype ArimaFit = ArimaFit(
    p: nat,
    d: nat,
    q: nat,
    intercept: real,
    ar: seq<real>,
    ma: seq<real>,
    sigma: real,
    aic: real,
    aicc: Score,
    bic: real,
    nObs: nat)

  /** An information criterion; the corrected one is infinite on small samples. */
  datatype Score = Finite(value: real) | Infinite

  function Max(a: nat, b: nat): nat { if a >= b then a else b }

  function Min(a: nat, b: nat): nat { if a <= b then a else b }

  function Zeros(n: nat): seq<real> { seq(n, _ => 0.0) }

  // ---------- features ----------

  /** The innovation i + 1 steps before time t; unknown past and future innovations are zero. */
  function Innovation(eps: seq<real>, t: int, i: int): real {
    if 0 <= t - 1 - i < |eps| then eps[t - 1 - i] else 0.0
  }

  function StageFeatureAt(eps: seq<real>, p: nat, s: seq<real>, i: int): real {
    if i < p then Lag(s, i) else Innovation(eps, |s|, i - p)
  }

  function StageVec(eps: seq<real>, p: nat, s: seq<real>): Vec { i => StageFeatureAt(eps, p, s, i) }

  /** p own lags, then lagged innovations. */
  function StageFeatures(eps: seq<real>, p: nat): Features { (s: seq<real>) => StageVec(eps, p, s) }

  /** Stage-2 columns: p own lags and q lagged innovations, aligned to entries start, start + 1, ... */
  function StageColumns(w: seq<real>, eps: seq<real>, p: nat, q: nat, start: nat): seq<seq<real>>
    requires p <= start && q <= start <= |w| == |eps|
  {
    seq(p, i requires 0 <= i < p => LagColumn(w, start, i)) +
    seq(q, j requires 0 <= j < q => LagColumn(eps, start, j))
  }

  /** One-step errors of a relation on the entries from `start` on. */
  function StageResiduals(w: seq<real>, feat: Features, beta: seq<real>, start: nat): (r: seq<real>)
    requires |beta| > 0 && start <= |w|
    ensures |r| == |w| - start
  {
    seq(|w| - start, r requires 0 <= r < |w| - start => w[start + r] - Predicted(beta, feat, w[..start + r]))
  }

  // ---------- stage 1: a long autoregression ----------

  function ArColumns(w: seq<real>, order: nat): seq<seq<real>>
    requires order <= |w|
  {
    seq(order, i requires 0 <= i < order => LagColumn(w, order, i))
  }

  function ArFeatures(order: nat): Features { StageFeatures([], order) }

  /** An AR regression of this order has enough rows and a unique solution. */
  ghost predicate ArFeasible(w: seq<real>, order: nat) {
    && 0 < order && 2 * order + 1 < |w|
    && Independent(DesignMat(ArColumns(w, order), true), |w| - order, order + 1)
  }

  ghost predicate IsArFit(w: seq<real>, order: nat, beta: seq<real>)
    requires order <= |w|
  {
    && |beta| == order + 1
    && NormalEquations(AsVec(w[order..]), DesignMat(ArColumns(w, order), true), AsVec(beta), |w| - order, order + 1)
  }

  method FitAr(w: seq<real>, order: nat, sqrt: real -> real)
    returns (r: Result<(real, seq<real>, seq<real>), ForecastError>)
    requires IsSqrt(sqrt)
    ensures r.Ok? <==> ArFeasible(w, order)
    ensures r.Err? ==> r.error == Regression
    ensures r.Ok? ==>
      var beta := [r.value.0] + r.value.1;
      IsArFit(w, order, beta) && r.value.2 == StageResiduals(w, ArFeatures(order), beta, order)
  {
    hide IsCoefficient, NormalEquations, Independent, Predicted, DesignMat, Rss, Tss, Aligned, ArFeatures, StageResiduals;
    var n := |w|;
    if n <= order {
      return Err(Regression);
    }
    ArAligned(w, order);
    var response, columns := w[order..], ArColumns(w, order);
    var fitted := Regress(response, columns, true, sqrt);
    if fitted.Err? {
      return Err(Regression);
    }
    var beta := EstimateSeq(fitted.value.coefficients);
    var intercept, coeffs := beta[0], beta[1..];
    assert [intercept] + coeffs == beta;
    var residuals := RowResiduals(w, columns, ArFeatures(order), beta, order);
    r := Ok((intercept, coeffs, residuals));
  }

  lemma ArAligned(w: seq<real>, order: nat)
    requires order <= |w|
    ensures Aligned(ArColumns(w, order), ArFeatures(order), w, order)
  {
  }

  /** The residual loop of `fit_ar`: actual minus fitted, row by row. */
  method RowResiduals(w: seq<real>, columns: seq<seq<real>>, ghost feat: Features, beta: seq<real>, start: nat)
    returns (residuals: seq<real>)
    requires |beta| == |columns| + 1 && start <= |w| && Aligned(columns, feat, w, start)
    requires forall j :: 0 <= j < |columns| ==> |columns[j]| == |w| - start
    ensures residuals == StageResiduals(w, feat, beta, start)
  {
    hide Predicted, Aligned;
    residuals := [];
    for row := 0 to |w| - start
      invariant |residuals| == row
      invariant forall k :: 0 <= k < row ==>
        residuals[k] == w[start + k] - Predicted(beta, feat, w[..start + k])
    {
      var fitted := PredictRow(beta, columns, row);
      PredictedFromColumns(beta, columns, feat, w, start, row);
      residuals := residuals + [w[start + row] - fitted];
    }
  }

  /** Fitted value of one row: intercept plus weighted columns. */
  method PredictRow(beta: seq<real>, columns: seq<seq<real>>, row: nat) returns (fitted: real)
    requires |beta| == |columns| + 1 && forall j :: 0 <= j < |columns| ==> row < |columns[j]|
    ensures fitted == beta[0] + Dot(AsVec(beta[1..]), ColumnsAt(columns, row), |columns|)
  {
    hide Sum, Dot;
    ghost var u, v := AsVec(beta[1..]), ColumnsAt(columns, row);
    fitted := beta[0];
    DotZero(u, v, 0);
    for i := 0 to |columns|
      invariant fitted == beta[0] + Dot(u, v, i)
    {
      DotStep(u, v, i);
      fitted := fitted + beta[1 + i] * columns[i][row];
    }
  }

  lemma PredictedFromColumns(beta: seq<real>, columns: seq<seq<real>>, feat: Features, w: seq<real>, start: nat, row: nat)
    requires |beta| == |columns| + 1 && start <= |w| && row < |w| - start && Aligned(columns, feat, w, start)
    ensures Predicted(beta, feat, w[..start + row]) ==
            beta[0] + Dot(AsVec(beta[1..]), ColumnsAt(columns, row), |columns|)
  {
    hide Sum, Dot;
    DotCong(AsVec(beta[1..]), AsVec(beta[1..]), ColumnsAt(columns, row), feat(w[..start + row]), |columns|);
  }

  function Demeaned(w: seq<real>): seq<real> {
    seq(|w|, t requires 0 <= t < |w| => w[t] - MeanOf(w))
  }

  /** Zeros for the burn-in of the order that fitted, then that order's one-step errors. */
  ghost predicate InnovationsFrom(w: seq<real>, ord: nat, beta: seq<real>, full: seq<real>) {
    && ArFeasible(w, ord) && IsArFit(w, ord, beta)
    && full == Zeros(ord) + StageResiduals(w, ArFeatures(ord), beta, ord)
  }

  /** Innovations come from the largest feasible order up to `order`, or else from the mean. */
  ghost predicate IsInnovations(w: seq<real>, order: nat, full: seq<real>) {
    if exists o :: 1 <= o <= order && ArFeasible(w, o) then
      exists ord: nat, beta: seq<real> ::
        && 1 <= ord <= order
        && InnovationsFrom(w, ord, beta, full)
        && forall o :: ord < o <= order ==> !ArFeasible(w, o)
    else full == Demeaned(w)
  }

  method LongArInnovations(w: seq<real>, order: nat, sqrt: real -> real) returns (full: seq<real>)
    requires IsSqrt(sqrt)
    ensures |full| == |w| && IsInnovations(w, Max(order, 1), full)
  {
    hide ArFeasible, IsArFit, StageResiduals;
    var ord := Max(order, 1);
    while true
      invariant 1 <= ord <= Max(order, 1)
      invariant forall o :: ord < o <= Max(order, 1) ==> !ArFeasible(w, o)
      decreases ord
    {
      var fitted := FitAr(w, ord, sqrt);
      if fitted.Ok? {
        full := Zeros(ord) + fitted.value.2;
        assert InnovationsFrom(w, ord, [fitted.value.0] + fitted.value.1, full);
        return;
      }
      if ord == 1 {
        full := Demeaned(w);
        return;
      }
      ord := ord - 1;
    }
  }

  /** The least r with r * r >= n. */
  function CeilSqrt(n: nat): (r: nat)
    ensures r * r >= n && (r == 0 || (r - 1) * (r - 1) < n)
  {
    CeilSqrtFrom(n, 0)
  }

  function CeilSqrtFrom(n: nat, k: nat): (r: nat)
    requires k == 0 || (k - 1) * (k - 1) < n
    ensures r * r >= n && (r == 0 || (r - 1) * (r - 1) < n)
    decreases if k * k >= n then 0 else n - k
  {
    if k * k >= n then k else CeilSqrtFrom(n, k + 1)
  }

  /** The generous stage-1 order, bounded by a third of the sample. */
  function LongArOrder(n: nat, p: nat, q: nat): nat {
    Max(Min(Max(Max(p + q, CeilSqrt(n)), 1), n / 3), 1)
  }

  // ---------- stage 2 ----------

  function Coefficients(m: ArimaFit): (beta: seq<real>)
    ensures |beta| == |m.ar| + |m.ma| + 1
  {
    [m.intercept] + m.ar + m.ma
  }

  /** Innovations used at a given order: none without a moving-average part. */
  ghost predicate StageInnovations(w: seq<real>, p: nat, q: nat, eps: seq<real>) {
    if q > 0 then IsInnovations(w, LongArOrder(|w|, p, q), eps) else eps == Zeros(|w|)
  }

  function StageStart(n: nat, p: nat, q: nat): nat {
    Max(Max(if q > 0 then LongArOrder(n, p, q) else 0, p), q)
  }

  /** Smallest sample the program accepts before differencing. */
  function MinimumLength(p: nat, d: nat, q: nat): nat { Max(p + q, 1) * 2 + d + 4 }

  // ---------- information criteria ----------

  /** The circle constant to the digits of a double. */
  const PI: real := 3.141592653589793

  /** Estimated parameters: lags of both kinds, the intercept and the variance. */
  function Parameters(p: nat, q: nat): real { (p + q + 2) as real }

  /** The Gaussian log-likelihood, clamped to a large value for a perfect fit. */
  function LogLikelihood(ln: real -> real, variance: real, n: nat): real {
    if variance > 0.0 then -0.5 * n as real * (ln(2.0 * PI * variance) + 1.0) else n as real * 50.0
  }

  function Akaike(k: real, logLikelihood: real): real { 2.0 * k - 2.0 * logLikelihood }

  function Corrected(k: real, aic: real, n: nat): Score {
    var spare := n as real - k - 1.0;
    if spare > 0.0 then Finite(aic + 2.0 * k * (k + 1.0) / spare) else Infinite
  }

  function Bayes(ln: real -> real, k: real, logLikelihood: real, n: nat): real { k * ln(n as real) - 2.0 * logLikelihood }

  /** The three criteria of a fit are those of its order, its residual variance and its residual count. */
  ghost predicate HasCriteria(ln: real -> real, m: ArimaFit) {
    var k, like := Parameters(m.p, m.q), LogLikelihood(ln, Times(m.sigma, m.sigma), m.nObs);
    && m.aic == Akaike(k, like)
    && m.aicc == Corrected(k, m.aic, m.nObs)
    && m.bic == Bayes(ln, k, like, m.nObs)
  }

  /**
   The correction only ever raises the criterion, and makes it infinite exactly when fewer than
   p + q + 4 residuals are left; the Bayesian criterion is the smaller one exactly when ln n < 2.
   */
  lemma CriteriaOrder(ln: real -> real, m: ArimaFit)
    requires HasCriteria(ln, m)
    ensures m.aicc.Infinite? <==> m.nObs < m.p + m.q + 4
    ensures m.aicc.Finite? ==> m.aicc.value > m.aic
    ensures m.bic < m.aic <==> ln(m.nObs as real) < 2.0
  {
    hide LogLikelihood, Akaike, Corrected, Bayes;
    var k, like := Parameters(m.p, m.q), LogLikelihood(ln, Times(m.sigma, m.sigma), m.nObs);
    CorrectionRaises(k, m.aic, m.nObs);
    BayesBelowAkaike(ln, k, like, m.nObs);
  }

  lemma CorrectionRaises(k: real, aic: real, n: nat)
    requires k > 0.0
    ensures Corrected(k, aic, n).Infinite? <==> n as real <= k + 1.0
    ensures Corrected(k, aic, n).Finite? ==> Corrected(k, aic, n).value > aic
  {
    var spare, penalty := n as real - k - 1.0, 2.0 * k * (k + 1.0);
    if spare > 0.0 {
      ProductSign(2.0 * k, k + 1.0, penalty);
      QuotientSign(penalty, spare, penalty / spare);
    }
  }

  lemma BayesBelowAkaike(ln: real -> real, k: real, like: real, n: nat)
    requires k > 0.0
    ensures Bayes(ln, k, like, n) < Akaike(k, like) <==> ln(n as real) < 2.0
  {
    var gap := ln(n as real) - 2.0;
    Distribute(k, ln(n as real), -2.0, gap);
    ProductSign(k, gap, k * gap);
  }

  // ---------- what a fit is ----------

  /** The stage-2 coefficients: least squares, or the plain mean when there is nothing to regress on. */
  ghost predicate IsStageFit(beta: seq<real>, w: seq<real>, eps: seq<real>, p: nat, q: nat, start: nat)
    requires |beta| == p + q + 1 && p <= start && q <= start <= |w| == |eps|
  {
    var rows, k := |w| - start, p + q + 1;
    if k == 1 then rows > 0 && beta[0] * rows as real == Sum(AsVec(w[start..]), rows)
    else
      var x := DesignMat(StageColumns(w, eps, p, q, start), true);
      && NormalEquations(AsVec(w[start..]), x, AsVec(beta), rows, k)
      && Independent(x, rows, k)
  }

  /** The in-sample residual variance is the mean squared one-step error. */
  ghost predicate IsSigma(m: ArimaFit, w: seq<real>, eps: seq<real>, start: nat)
    requires start <= |w|
  {
    var e := StageResiduals(w, StageFeatures(eps, |m.ar|), Coefficients(m), start);
    && m.nObs == |e|
    && m.sigma >= 0.0
    && m.sigma * m.sigma * |e| as real == Dot(AsVec(e), AsVec(e), |e|)
  }

  ghost predicate IsArimaFit(m: ArimaFit, w: seq<real>, eps: seq<real>, p: nat, d: nat, q: nat)
  {
    var start := StageStart(|w|, p, q);
    && m.p == p && m.d == d && m.q == q && |m.ar| == p && |m.ma| == q
    && |eps| == |w| && start < |w|
    && StageInnovations(w, p, q, eps)
    && IsStageFit(Coefficients(m), w, eps, p, q, start)
    && IsSigma(m, w, eps, start)
  }

  ghost predicate StageSingular(w: seq<real>, p: nat, q: nat) {
    var start := StageStart(|w|, p, q);
    p + q > 0 && start <= |w| && exists eps: seq<real> ::
      && |eps| == |w| && StageInnovations(w, p, q, eps)
      && !Independent(DesignMat(StageColumns(w, eps, p, q, start), true), |w| - start, p + q + 1)
  }

  ghost predicate ArimaOutcome(ln: real -> real, y: seq<real>, p: nat, d: nat, q: nat, r: Result<ArimaFit, ForecastError>) {
    var w := DiffN(y, d);
    var n, start := |w|, StageStart(|w|, p, q);
    if |y| < MinimumLength(p, d, q) then r == Err(TooShort(MinimumLength(p, d, q), |y|))
    else if n < start + p + q + 2 then r == Err(TooShort(start + p + q + 2, n))
    else match r
      case Ok(m) => HasCriteria(ln, m) && exists eps: seq<real> :: IsArimaFit(m, w, eps, p, d, q)
      case Err(e) => e == Regression && StageSingular(w, p, q)
  }

  /** One more coefficient times its feature. */
  lemma StageTerm(u: Vec, v: Vec, k: nat, c: real, x: real)
    requires u(k) == c && v(k) == x
    ensures Dot(u, v, k + 1) == Dot(u, v, k) + c * x
    ensures x == 0.0 ==> Dot(u, v, k + 1) == Dot(u, v, k)
  {
    hide Sum, Dot;
    DotStep(u, v, k);
  }

  /** One fitted value or forecast step: intercept, own lags, lagged innovations, where they exist. */
  method PredictStage(intercept: real, ar: seq<real>, ma: seq<real>, w: seq<real>, eps: seq<real>)
    returns (value: real)
    requires |w| <= |eps|
    ensures value == Predicted([intercept] + ar + ma, StageFeatures(eps, |ar|), w)
  {
    hide Sum, Dot;
    var cur := |w|;
    var beta := [intercept] + ar + ma;
    ghost var u, v := AsVec(beta[1..]), StageFeatures(eps, |ar|)(w);
    assert beta[1..] == ar + ma;
    value := intercept;
    DotZero(u, v, 0);
    for i := 0 to |ar|
      invariant value == intercept + Dot(u, v, i)
    {
      StageTerm(u, v, i, ar[i], if cur > i then w[cur - 1 - i] else 0.0);
      if cur > i {
        value := value + ar[i] * w[cur - 1 - i];
      }
    }
    for j := 0 to |ma|
      invariant value == intercept + Dot(u, v, |ar| + j)
    {
      assert v(|ar| + j) == StageFeatureAt(eps, |ar|, w, |ar| + j);
      StageTerm(u, v, |ar| + j, ma[j], if cur > j then eps[cur - 1 - j] else 0.0);
      if cur > j {
        value := value + ma[j] * eps[cur - 1 - j];
      }
    }
  }

  /** Lag columns that hold the entries for times start up to t. */
  ghost predicate LagSlices(cols: seq<seq<real>>, s: seq<real>, start: nat, t: nat)
    requires |cols| <= start <= t <= |s|
  {
    forall i :: 0 <= i < |cols| ==> cols[i] == s[start - 1 - i..t - 1 - i]
  }

  lemma LagSlicesGrow(cols: seq<seq<real>>, s: seq<real>, start: nat, t: nat)
    requires |cols| <= start <= t < |s| && LagSlices(cols, s, start, t)
    ensures LagSlices(seq(|cols|, i requires 0 <= i < |cols| => cols[i] + [s[t - 1 - i]]), s, start, t + 1)
  {
  }

  /** Collect the stage-2 response and columns one time step after another. */
  method StageData(w: seq<real>, eps: seq<real>, p: nat, q: nat, start: nat)
    returns (response: seq<real>, columns: seq<seq<real>>)
    requires p <= start && q <= start <= |w| == |eps|
    ensures response == w[start..] && columns == StageColumns(w, eps, p, q, start)
  {
    response := [];
    var arCols, maCols := seq(p, _ => []), seq(q, _ => []);
    for t := start to |w|
      invariant response == w[start..t]
      invariant |arCols| == p && LagSlices(arCols, w, start, t)
      invariant |maCols| == q && LagSlices(maCols, eps, start, t)
    {
      response := response + [w[t]];
      LagSlicesGrow(arCols, w, start, t);
      LagSlicesGrow(maCols, eps, start, t);
      arCols := seq(p, i requires 0 <= i < p => arCols[i] + [w[t - 1 - i]]);
      maCols := seq(q, j requires 0 <= j < q => maCols[j] + [eps[t - 1 - j]]);
    }
    columns := arCols + maCols;
  }

  /** In-sample one-step errors of the stage-2 relation. */
  method StageErrors(intercept: real, ar: seq<real>, ma: seq<real>, w: seq<real>, eps: seq<real>, start: nat)
    returns (residuals: seq<real>)
    requires start <= |w| == |eps|
    ensures residuals == StageResiduals(w, StageFeatures(eps, |ar|), [intercept] + ar + ma, start)
  {
    hide Predicted, StageFeatures;
    residuals := [];
    for t := start to |w|
      invariant |residuals| == t - start
      invariant forall k :: 0 <= k < t - start ==>
        residuals[k] == w[start + k] - Predicted([intercept] + ar + ma, StageFeatures(eps, |ar|), w[..start + k])
    {
      var fitted := PredictStage(intercept, ar, ma, w[..t], eps);
      residuals := residuals + [w[t] - fitted];
    }
  }

  /** The standard deviation and the variance of the residuals. */
  method Sigma(e: seq<real>, sqrt: real -> real) returns (sigma: real, sigma2: real)
    requires IsSqrt(sqrt) && |e| > 0
    ensures sigma2 == Times(sigma, sigma)
    ensures sigma >= 0.0 && sigma * sigma * |e| as real == Dot(AsVec(e), AsVec(e), |e|)
  {
    hide Sum, Dot;
    var rss := Dot(AsVec(e), AsVec(e), |e|);
    DotSelf(AsVec(e), |e|);
    sigma2 := rss / |e| as real;
    QuotientSign(rss, |e| as real, sigma2);
    sigma := sqrt(if sigma2 >= 0.0 then sigma2 else 0.0);
    SquareTimes(sigma, sigma2, |e| as real, rss);
  }

  lemma SquareTimes(s: real, v: real, n: real, rss: real)
    requires s * s == v && v * n == rss
    ensures s * s * n == rss
  {
  }

  /** The stage-2 estimate: the plain mean, or the regression on lags and innovations. */
  method StageEstimate(w: seq<real>, eps: seq<real>, p: nat, q: nat, start: nat, sqrt: real -> real)
    returns (r: Result<(real, seq<real>, seq<real>), ForecastError>)
    requires IsSqrt(sqrt) && p <= start && q <= start && start + p + q + 2 <= |w| == |eps|
    ensures r.Err? ==>
      && r.error == Regression && p + q > 0
      && !Independent(DesignMat(StageColumns(w, eps, p, q, start), true), |w| - start, p + q + 1)
    ensures r.Ok? ==>
      && |r.value.1| == p && |r.value.2| == q
      && IsStageFit([r.value.0] + r.value.1 + r.value.2, w, eps, p, q, start)
  {
    hide IsCoefficient, NormalEquations, Independent, DesignMat, Rss, Tss, Sum;
    var response, columns := StageData(w, eps, p, q, start);
    if p + q == 0 {
      var mean := Sum(AsVec(response), |response|) / |response| as real;
      return Ok((mean, [], []));
    }
    var fitted := Regress(response, columns, true, sqrt);
    if fitted.Err? {
      return Err(Regression);
    }
    var beta := EstimateSeq(fitted.value.coefficients);
    var intercept, ar, ma := beta[0], beta[1..p + 1], beta[1 + p..];
    assert [intercept] + ar + ma == beta;
    r := Ok((intercept, ar, ma));
  }

  /** Both stages, on a differenced series long enough for the order. */
  method FitStages(w: seq<real>, p: nat, d: nat, q: nat, sqrt: real -> real, ln: real -> real)
    returns (r: Result<ArimaFit, ForecastError>)
    requires IsSqrt(sqrt) && |w| >= Max(p + q, 1) + 3
    ensures var start := StageStart(|w|, p, q);
      if |w| < start + p + q + 2 then r == Err(TooShort(start + p + q + 2, |w|))
      else match r
        case Ok(m) => HasCriteria(ln, m) && exists eps: seq<real> :: IsArimaFit(m, w, eps, p, d, q)
        case Err(e) => e == Regression && StageSingular(w, p, q)
  {
    hide IsStageFit, Independent, DesignMat, StageResiduals, StageFeatures, IsInnovations, LongArOrder, Dot, Sum, IsSqrt;
    hide LogLikelihood, Akaike, Corrected, Bayes, Times;
    var n := |w|;
    var eps, m := Zeros(n), 0;
    if q > 0 {
      m := LongArOrder(n, p, q);
      eps := LongArInnovations(w, m, sqrt);
      OrderPositive(n, p, q);
    }
    var start := Max(Max(m, p), q);
    var rows := n - start;
    if rows < p + q + 2 {
      return Err(TooShort(start + p + q + 2, n));
    }
    var estimate := StageEstimate(w, eps, p, q, start, sqrt);
    if estimate.Err? {
      return Err(estimate.error);
    }
    var (intercept, ar, ma) := estimate.value;
    var residuals := StageErrors(intercept, ar, ma, w, eps, start);
    var sigma, sigma2 := Sigma(residuals, sqrt);
    var k, like := Parameters(p, q), LogLikelihood(ln, sigma2, |residuals|);
    var aic := Akaike(k, like);
    var model := ArimaFit(p, d, q, intercept, ar, ma, sigma,
                          aic, Corrected(k, aic, |residuals|), Bayes(ln, k, like, |residuals|), |residuals|);
    assert Coefficients(model) == [intercept] + ar + ma;
    assert HasCriteria(ln, model);
    assert IsArimaFit(model, w, eps, p, d, q);
    r := Ok(model);
  }

  lemma OrderPositive(n: nat, p: nat, q: nat)
    ensures Max(LongArOrder(n, p, q), 1) == LongArOrder(n, p, q)
  {
  }

  /**
   Fit by the two-stage procedure. The second length check of the program can never fire
   after the first one has passed.
   */
  method Fit(y: seq<real>, p: nat, d: nat, q: nat, sqrt: real -> real, ln: real -> real)
    returns (r: Result<ArimaFit, ForecastError>)
    requires IsSqrt(sqrt)
    ensures ArimaOutcome(ln, y, p, d, q, r)
  {
    hide IsArimaFit, HasCriteria, StageSingular, LongArOrder, IsSqrt;
    var w, _ := Difference(y, d);
    DiffLength(y, d);
    if |y| < MinimumLength(p, d, q) {
      return Err(TooShort(MinimumLength(p, d, q), |y|));
    }
    if |w| < Max(p + q, 1) + 3 {
      assert false;
    }
    r := FitStages(w, p, d, q, sqrt, ln);
  }

  // ---------- forecasting ----------

  ghost predicate IsArimaForecast(points: seq<ForecastPoint>, m: ArimaFit, y: seq<real>, horizon: nat, eps: seq<real>) {
    var w := DiffN(y, m.d);
    && |eps| == |w| && StageInnovations(w, m.p, m.q, eps)
    && points == Points(Integral(Roll(Coefficients(m), StageFeatures(eps, |m.ar|), w, horizon), Anchors(y, m.d)))
  }

  ghost predicate ForecastOutcome(m: ArimaFit, y: seq<real>, horizon: nat, r: Result<seq<ForecastPoint>, ForecastError>) {
    if horizon == 0 then r == Err(ZeroHorizon)
    else r.Ok? && exists eps: seq<real> :: IsArimaForecast(r.value, m, y, horizon, eps)
  }

  /** Appending zero innovations does not change any prediction. */
  lemma FutureInnovationsAreZero(beta: seq<real>, eps: seq<real>, h: nat, p: nat, s: seq<real>)
    requires |beta| > 0
    ensures Predicted(beta, StageFeatures(eps + Zeros(h), p), s) == Predicted(beta, StageFeatures(eps, p), s)
  {
    hide Sum, Dot;
    var u, v := StageFeatures(eps + Zeros(h), p)(s), StageFeatures(eps, p)(s);
    forall i: nat | i < |beta| - 1
      ensures u(i) == v(i)
    {
      assert u(i) == StageFeatureAt(eps + Zeros(h), p, s, i) && v(i) == StageFeatureAt(eps, p, s, i);
    }
    DotCong(AsVec(beta[1..]), AsVec(beta[1..]), u, v, |beta| - 1);
  }

  method Forecast(m: ArimaFit, y: seq<real>, horizon: nat, sqrt: real -> real)
    returns (r: Result<seq<ForecastPoint>, ForecastError>)
    requires IsSqrt(sqrt)
    ensures ForecastOutcome(m, y, horizon, r)
  {
    hide Predicted, StageFeatures, IsInnovations, CeilSqrt;
    if horizon == 0 {
      return Err(ZeroHorizon);
    }
    var w, anchors := Difference(y, m.d);
    var n := |w|;
    var epsFull := Zeros(n);
    if m.q > 0 {
      epsFull := LongArInnovations(w, LongArOrder(n, m.p, m.q), sqrt);
    }
    ghost var beta, feat := Coefficients(m), StageFeatures(epsFull, |m.ar|);
    var extW, extEps, diffFc := w, epsFull, [];
    assert epsFull + Zeros(0) == epsFull;
    for k := 0 to horizon
      invariant diffFc == Roll(beta, feat, w, k)
      invariant extW == w + diffFc && extEps == epsFull + Zeros(k)
    {
      RollAppend(beta, feat, w, k);
      FutureInnovationsAreZero(beta, epsFull, k, |m.ar|, extW);
      var value := PredictStage(m.intercept, m.ar, m.ma, extW, extEps);
      diffFc := diffFc + [value];
      extW := extW + [value];
      extEps := extEps + [0.0];
      assert Zeros(k + 1) == Zeros(k) + [0.0];
    }
    var levels := Integrate(diffFc, anchors);
    r := Ok(Points(levels));
    assert IsArimaForecast(r.value, m, y, horizon, epsFull);
  }

  /** Fit and forecast in one call. */
  method FitAndForecast(y: seq<real>, p: nat, d: nat, q: nat, horizon: nat, sqrt: real -> real, ln: real -> real)
    returns (r: Result<seq<ForecastPoint>, ForecastError>)
    requires IsSqrt(sqrt)
    ensures horizon == 0 ==> r == Err(ZeroHorizon)
    ensures horizon > 0 && r.Err? ==> ArimaOutcome(ln, y, p, d, q, Err(r.error))
    ensures horizon > 0 && r.Ok? ==>
      exists m: ArimaFit :: ArimaOutcome(ln, y, p, d, q, Ok(m)) && ForecastOutcome(m, y, horizon, r)
  {
    hide ArimaOutcome, IsArimaForecast;
    if horizon == 0 {
      return Err(ZeroHorizon);
    }
    var fitted := Fit(y, p, d, q, sqrt, ln);
    if fitted.Err? {
      return Err(fitted.error);
    }
    r := Forecast(fitted.value, y, horizon, sqrt);
    assert ArimaOutcome(ln, y, p, d, q, Ok(fitted.value)) && ForecastOutcome(fitted.value, y, horizon, r);
  }

  // ---------- what forecasts mean ----------

  /** With no moving-average part, innovations do not enter any prediction. */
  lemma NoInnovations(beta: seq<real>, eps: seq<real>, p: nat, s: seq<real>)
    requires |beta| == p + 1
    ensures Predicted(beta, StageFeatures(eps, p), s) == Predicted(beta, ArFeatures(p), s)
  {
    hide Sum, Dot;
    var u, v := StageFeatures(eps, p)(s), ArFeatures(p)(s);
    forall i: nat | i < p
      ensures u(i) == v(i)
    {
      assert u(i) == StageFeatureAt(eps, p, s, i) && v(i) == StageFeatureAt([], p, s, i);
    }
    DotCong(AsVec(beta[1..]), AsVec(beta[1..]), u, v, p);
  }

  lemma FollowsAr(truth: seq<real>, eps: seq<real>, p: nat, s: seq<real>, from: nat)
    requires |truth| == p + 1 && Follows(truth, ArFeatures(p), s, from)
    ensures Follows(truth, StageFeatures(eps, p), s, from)
  {
    hide Predicted, StageFeatures, ArFeatures;
    forall t: nat | from <= t < |s|
      ensures s[t] == Predicted(truth, StageFeatures(eps, p), s[..t])
    {
      NoInnovations(truth, eps, p, s[..t]);
    }
  }

  lemma FollowsPrefix(truth: seq<real>, feat: Features, s: seq<real>, t: seq<real>, from: nat)
    requires |truth| > 0 && Follows(truth, feat, s + t, from)
    ensures Follows(truth, feat, s, from)
  {
    hide Predicted;
    forall i: nat | from <= i < |s|
      ensures s[i] == Predicted(truth, feat, s[..i])
    {
      assert (s + t)[i] == s[i] && (s + t)[..i] == s[..i];
    }
  }

  /** The mean of a series that never leaves k is k. */
  lemma ConstantMean(w: seq<real>, k: real, mean: real)
    requires |w| > 0 && (forall t :: 0 <= t < |w| ==> w[t] == k) && mean * |w| as real == Sum(AsVec(w), |w|)
    ensures mean == k
  {
    SumConst(AsVec(w), k, |w|);
    Cancel(mean, k, |w| as real);
  }

  /** On a differenced history that follows an autoregression exactly, the fit finds it. */
  lemma ArRecovered(m: ArimaFit, w: seq<real>, eps: seq<real>, p: nat, d: nat, truth: seq<real>)
    requires IsArimaFit(m, w, eps, p, d, 0) && |truth| == p + 1
    requires Follows(truth, ArFeatures(p), w, p)
    ensures Coefficients(m) == truth
  {
    hide NormalEquations, Independent, DesignMat, IsSigma, Sum, Dot;
    if p == 0 {
      forall t: nat | t < |w|
        ensures w[t] == truth[0]
      {
        assert w[t] == Predicted(truth, ArFeatures(0), w[..t]);
        DotZero(AsVec(truth[1..]), ArFeatures(0)(w[..t]), 0);
      }
      assert w[0..] == w;
      ConstantMean(w, truth[0], m.intercept);
      assert Coefficients(m) == [m.intercept];
    } else {
      hide Predicted, StageFeatures, ArFeatures;
      FollowsAr(truth, eps, p, w, p);
      var x := DesignMat(StageColumns(w, eps, p, 0, p), true);
      RecoverCoefficients(w, p, StageColumns(w, eps, p, 0, p), StageFeatures(eps, p), truth, Coefficients(m));
    }
  }

  /** Same as for a returned summary, for a bare coefficient vector. */
  lemma RecoverCoefficients(s: seq<real>, start: nat, columns: seq<seq<real>>, feat: Features,
                            truth: seq<real>, beta: seq<real>)
    requires start <= |s| && |truth| == |beta| == |columns| + 1
    requires Aligned(columns, feat, s, start) && Follows(truth, feat, s, start)
    requires NormalEquations(AsVec(s[start..]), DesignMat(columns, true), AsVec(beta), |s| - start, |columns| + 1)
    requires Independent(DesignMat(columns, true), |s| - start, |columns| + 1)
    ensures beta == truth
  {
    hide Sum, Dot, NormalEquations, Independent, DesignMat;
    var n, k, x, y := |s| - start, |columns| + 1, DesignMat(columns, true), AsVec(s[start..]);
    forall r: nat | r < n
      ensures y(r) == MulVec(x, AsVec(truth), k)(r)
    {
      DesignRow(columns, truth, r);
      PredictedFromColumns(truth, columns, feat, s, start, r);
      assert s[start + r] == Predicted(truth, feat, s[..start + r]);
    }
    ExactFit(y, x, AsVec(beta), AsVec(truth), n, k);
    forall i | 0 <= i < k
      ensures beta[i] == truth[i]
    {
      assert AsVec(beta)(i) == AsVec(truth)(i);
    }
  }

  /**
   ARIMA(p, d, 0) is exact on its own model: when the d-th difference of history and future
   follows an autoregression of order p (for p = 0, is constant), a successful fit finds its
   coefficients and the forecast is the future.
   */
  lemma ArimaContinues(ln: real -> real, y: seq<real>, p: nat, d: nat, m: ArimaFit, points: seq<ForecastPoint>,
                       truth: seq<real>, future: seq<real>)
    requires ArimaOutcome(ln, y, p, d, 0, Ok(m)) && ForecastOutcome(m, y, |future|, Ok(points)) && future != []
    requires |truth| == p + 1 && Follows(truth, ArFeatures(p), DiffN(y + future, d), p)
    ensures Coefficients(m) == truth
    ensures points == Points(future)
  {
    hide Predicted, StageFeatures, ArFeatures, IsStageFit, IsSigma, HasCriteria, Points;
    var w, g := DiffN(y, d), FutureDifferences(y, future, d);
    DiffLength(y, d);
    IntegralOfDifference(y, future, d);
    FollowsPrefix(truth, ArFeatures(p), w, g, p);
    var eps: seq<real> :| IsArimaFit(m, w, eps, p, d, 0);
    ArRecovered(m, w, eps, p, d, truth);
    var eps': seq<real> :| IsArimaForecast(points, m, y, |future|, eps');
    FollowsAr(truth, eps', p, w + g, p);
    RollIsContinuation(truth, StageFeatures(eps', p), w, g);
  }

  /** Differenced, the levels extend the history by the fitted relation with zero innovations. */
  ghost predicate ContinuesModel(m: ArimaFit, y: seq<real>, eps: seq<real>, levels: seq<real>) {
    var w, w' := DiffN(y, m.d), DiffN(y + levels, m.d);
    && w <= w'
    && StageInnovations(w, m.p, m.q, eps)
    && Follows(Coefficients(m), StageFeatures(eps, |m.ar|), w', |w|)
  }

  /**
   Any forecast, differenced d times after the history it continues, is the rolled relation:
   no information is lost or added by integrating it to levels.
   */
  lemma ForecastDifferences(m: ArimaFit, y: seq<real>, horizon: nat, points: seq<ForecastPoint>)
    requires horizon > 0 && |y| >= m.d && ForecastOutcome(m, y, horizon, Ok(points))
    ensures exists eps: seq<real>, levels: seq<real> :: points == Points(levels) && ContinuesModel(m, y, eps, levels)
  {
    hide Predicted, StageFeatures, IsInnovations;
    var w := DiffN(y, m.d);
    var eps: seq<real> :| IsArimaForecast(points, m, y, horizon, eps);
    var rolled := Roll(Coefficients(m), StageFeatures(eps, |m.ar|), w, horizon);
    var levels := Integral(rolled, Anchors(y, m.d));
    DifferenceOfIntegral(y, rolled, m.d);
    RollFollows(Coefficients(m), StageFeatures(eps, |m.ar|), w, horizon);
    assert points == Points(levels) && ContinuesModel(m, y, eps, levels);
  }
}
