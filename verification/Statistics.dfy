/**
 The reported statistics in terms of plain sums: every quotient is cleared, so each law reads off
 which sums and which degrees of freedom a statistic is made of.
 */
module Statistics {
  import opened Results
  import opened RealSums
  import opened LinearAlgebra
  import opened CholeskyFactor
  import opened LeastSquares
  import opened Ols
  import opened Granger
  import opened Correlation
  import opened Diagnostics
  import opened Autoregression

  // ---------- sums of squares ----------

  /** n times a sum of products of deviations, in raw sums. */
  lemma DeviationProducts(u: Vec, v: Vec, n: nat)
    requires n > 0
    ensures n as real * Dot(Centered(u, n), Centered(v, n), n) == n as real * Dot(u, v, n) - Sum(u, n) * Sum(v, n)
  {
    hide Sum, Dot, Mean;
    var cu, cv, one := Centered(u, n), Centered(v, n), Ones();
    var mu, mv := Mean(u, n), Mean(v, n);
    DotLinear(1.0, u, -mu, one, cu, cv, n);
    DotLinear(1.0, v, -mv, one, cv, u, n);
    DotLinear(1.0, v, -mv, one, cv, one, n);
    SumsAgainstOnes(u, n);
    SumsAgainstOnes(v, n);
    SumsAgainstOnes(one, n);
    SumConst(one, 1.0, n);
    MeanIs(v, n);
    var r, su, sv, p := n as real, Sum(u, n), Sum(v, n), Dot(u, v, n);
    var q := Dot(cu, cv, n);
    assert q == p - mv * su;
    Distribute(r, p, -(mv * su), q);
    Associate(r, mv, sv, su);
  }

  lemma SumsAgainstOnes(u: Vec, n: nat)
    ensures Dot(u, Ones(), n) == Sum(u, n) == Dot(Ones(), u, n)
  {
    hide Sum;
    SumCong(k => u(k) * Ones()(k), u, n);
    DotSym(u, Ones(), n);
  }

  lemma MeanIs(v: Vec, n: nat)
    requires n > 0
    ensures n as real * Mean(v, n) == Sum(v, n)
  {
    hide Sum;
    QuotientSign(Sum(v, n), n as real, Mean(v, n));
  }

  /** The total sum of squares in raw sums. */
  lemma TotalIs(y: Vec, n: nat)
    requires n > 0
    ensures n as real * Tss(y, n) == n as real * Dot(y, y, n) - Sum(y, n) * Sum(y, n)
  {
    hide Sum, Dot, Mean;
    DeviationProducts(y, y, n);
  }

  // ---------- the summary of a fit ----------

  /**
   Every statistic of a fit: R2, adjusted R2 and F as cleared quotients of the residual and the
   total sum of squares, and zero where the program defines them so.
   */
  lemma FitStatistics(s: OlsSummary, y: Vec, x: Mat, n: nat, k: nat)
    requires n > k && IsFit(s, y, x, n, k)
    ensures s.residualDof == n - k
    ensures var rss, tss := Rss(y, x, Estimates(s.coefficients), n, k), Tss(y, n);
      && (if tss > 0.0 then
            && s.rSquared * tss == tss - rss
            && (1.0 - s.adjRSquared) * (n - k) as real * tss == rss * (n - 1) as real
          else s.rSquared == 0.0 && s.adjRSquared == 0.0)
      && (if k >= 2 && rss > 0.0 then s.fStatistic * (k - 1) as real * rss == (tss - rss) * (n - k) as real
          else s.fStatistic == 0.0)
  {
    hide Sum, Dot, Rss, Tss, NormalEquations, IsCoefficient;
    var rss, tss := Rss(y, x, Estimates(s.coefficients), n, k), Tss(y, n);
    if tss > 0.0 {
      SharesCleared(rss, tss, n, n - k);
    }
    if k >= 2 && rss > 0.0 {
      RatioCleared(tss - rss, rss, (k - 1) as real, (n - k) as real, s.fStatistic);
    }
  }

  lemma SharesCleared(rss: real, tss: real, n: nat, dof: nat)
    requires tss > 0.0 && n > 0 && dof > 0
    ensures RSquaredOf(rss, tss) * tss == tss - rss
    ensures (1.0 - AdjRSquaredOf(RSquaredOf(rss, tss), tss, n, dof)) * dof as real * tss == rss * (n - 1) as real
  {
    var q, m := rss / tss, (n - 1) as real;
    QuotientSign(rss, tss, q);
    Distribute(tss, 1.0, -q, 1.0 - q);
    var p := q * m;
    QuotientSign(p, dof as real, p / dof as real);
    Associate(tss, q, rss, m);
    AdjustedGap(1.0 - q, tss, n, dof, q, m);
  }

  lemma AdjustedGap(r2: real, tss: real, n: nat, dof: nat, gap: real, m: real)
    requires tss > 0.0 && dof > 0 && gap == 1.0 - r2 && m == (n - 1) as real
    ensures 1.0 - AdjRSquaredOf(r2, tss, n, dof) == gap * m / dof as real
  {
    var p := (1.0 - r2) * (n as real - 1.0);
    assert p == gap * m;
  }

  lemma RatioCleared(p: real, q: real, a: real, b: real, f: real)
    requires q > 0.0 && a > 0.0 && b > 0.0 && f == (p / a) / (q / b)
    ensures f * a * q == p * b
  {
    var num, den := p / a, q / b;
    QuotientSign(p, a, num);
    QuotientSign(q, b, den);
    QuotientSign(num, den, f);
    Associate(f, den, num, b);
    assert f * (den * b) == num * b;
    Associate(a, num, p, b);
    Associate(a, f, a * f, q);
  }

  /**
   Standard errors and t statistics: with d the diagonal entry of the inverse of X^T X, the squared
   standard error times the degrees of freedom is the residual sum of squares times d.
   */
  lemma CoefficientStatistics(s: OlsSummary, y: Vec, x: Mat, n: nat, k: nat, j: nat)
    requires n > k && IsFit(s, y, x, n, k) && j < k
    ensures var c, rss := s.coefficients[j], Rss(y, x, Estimates(s.coefficients), n, k);
      && c.stdError >= 0.0
      && (exists d :: IsInverseEntry(GramOf(x, n), k, j, d) && d > 0.0 && c.stdError * c.stdError * (n - k) as real == rss * d)
      && (if c.stdError > 0.0 then c.tStat * c.stdError == c.estimate else c.tStat == 0.0)
  {
    hide Sum, Dot, Rss, Tss, NormalEquations, IsInverseEntry;
    var c, rss, dof := s.coefficients[j], Rss(y, x, Estimates(s.coefficients), n, k), (n - k) as real;
    var d :| IsInverseEntry(GramOf(x, n), k, j, d) && d > 0.0 && c.stdError * c.stdError == rss / dof * d;
    var q, v := rss / dof, c.stdError * c.stdError;
    QuotientSign(rss, dof, q);
    Associate(dof, q, rss, d);
    assert v * dof == rss * d;
  }

  /** Durbin-Watson: squared changes of the residuals over their squares. */
  lemma DurbinWatsonIs(s: OlsSummary, y: Vec, x: Mat, n: nat, k: nat, change: Vec)
    requires n > k && IsFit(s, y, x, n, k)
    requires var e := Resid(y, x, Estimates(s.coefficients), k); forall t :: 0 <= t < n - 1 ==> change(t) == e(t + 1) - e(t)
    ensures var rss := Rss(y, x, Estimates(s.coefficients), n, k);
      if n >= 2 && rss > 0.0 then s.durbinWatson * rss == Dot(change, change, n - 1)
      else s.durbinWatson == 0.0
  {
    hide Sum, Dot, Rss, Tss, Resid, NormalEquations, IsCoefficient, RSquaredOf, AdjRSquaredOf, FStatisticOf;
    var e, rss := Resid(y, x, Estimates(s.coefficients), k), Rss(y, x, Estimates(s.coefficients), n, k);
    RssNonneg(y, x, Estimates(s.coefficients), n, k);
    if n >= 2 && rss > 0.0 {
      forall t | 0 <= t < n - 1
        ensures Steps(e)(t) == change(t)
      {
        assert Steps(e)(t) == StepAt(e, t);
      }
      DotCong(Steps(e), change, Steps(e), change, n - 1);
      QuotientSign(Dot(Steps(e), Steps(e), n - 1), rss, s.durbinWatson);
    }
  }

  // ---------- Granger ----------

  /** The test statistic: the drop in the residual sum of squares per lag, over what is left per degree of freedom. */
  lemma GrangerStatistic(y: seq<real>, x: seq<real>, lag: nat, r: Result<GrangerResult, EconometricsError>)
    requires GrangerOutcome(y, x, lag, r) && r.Ok?
    ensures var g, rows := r.value, |y| - lag;
      && g.dfNumerator == lag && g.dfDenominator == rows - 2 * lag - 1
      && (if g.rssUnrestricted > 0.0
          then g.fStatistic * lag as real * g.rssUnrestricted ==
               (g.rssRestricted - g.rssUnrestricted) * (rows - 2 * lag - 1) as real
          else g.fStatistic == 0.0)
  {
    hide IsLeastRss;
    var g := r.value;
    if g.rssUnrestricted > 0.0 {
      RatioCleared(g.rssRestricted - g.rssUnrestricted, g.rssUnrestricted, lag as real, g.dfDenominator as real, g.fStatistic);
    }
  }

  // ---------- correlation ----------

  /** The correlation in raw sums: its square is the squared covariation over both variations, with its sign. */
  lemma CorrelationIs(a: Vec, b: Vec, n: nat, sqrt: real -> real, ab: real, aa: real, bb: real, r: real)
    requires IsSqrt(sqrt) && r == CorrelationOf(a, b, n, sqrt)
    requires ab == n as real * Dot(a, b, n) - Sum(a, n) * Sum(b, n)
    requires aa == n as real * Dot(a, a, n) - Sum(a, n) * Sum(a, n)
    requires bb == n as real * Dot(b, b, n) - Sum(b, n) * Sum(b, n)
    ensures if aa > 0.0 && bb > 0.0 then r * r * (aa * bb) == ab * ab && r * ab >= 0.0 else r == 0.0
  {
    hide Sum, Dot;
    if n > 0 {
      var u, v, m := Centered(a, n), Centered(b, n), n as real;
      DeviationProducts(a, b, n);
      DeviationProducts(a, a, n);
      DeviationProducts(b, b, n);
      DotSelf(u, n);
      DotSelf(v, n);
      CorrelationCleared(sqrt, m, Dot(u, v, n), Dot(u, u, n), Dot(v, v, n), ab, aa, bb, r);
    } else {
      DotZero(a, a, 0);
      SumZero(a, 0);
    }
  }

  lemma CorrelationCleared(sqrt: real -> real, m: real, c: real, p: real, q: real, ab: real, aa: real, bb: real, r: real)
    requires IsSqrt(sqrt) && m > 0.0 && p >= 0.0 && q >= 0.0 && ab == m * c && aa == m * p && bb == m * q
    requires var denom := sqrt(Times(p, q)); r == if denom == 0.0 then 0.0 else Ratio(c, denom)
    ensures if aa > 0.0 && bb > 0.0 then r * r * (aa * bb) == ab * ab && r * ab >= 0.0 else r == 0.0
  {
    var pq := p * q;
    ProductSign(m, p, aa);
    ProductSign(m, q, bb);
    ProductSign(p, q, pq);
    var denom := sqrt(Times(p, q));
    assert denom >= 0.0 && denom * denom == pq;
    SquareSign(denom, pq);
    if aa > 0.0 && bb > 0.0 {
      QuotientSign(c, denom, r);
      SquaresAgree(r, denom, c, p, q, m);
      ProductSign(r, c, r * c);
      ProductSign(m, r * c, m * (r * c));
      Associate(m, r, m * r, c);
    }
  }

  lemma SquaresAgree(r: real, denom: real, c: real, p: real, q: real, m: real)
    requires r * denom == c && denom * denom == p * q
    ensures r * r * ((m * p) * (m * q)) == (m * c) * (m * c)
  {
    assert (m * c) * (m * c) == m * m * (c * c);
    assert c * c == (r * denom) * (r * denom) == r * r * (denom * denom);
    assert (m * p) * (m * q) == m * m * (p * q);
  }

  // ---------- variance inflation ----------

  /** Leaving out one term leaves out that much of the sum. */
  lemma {:induction false} SumSkip(f: Vec, g: Vec, t: nat, n: nat)
    requires t < n && forall j :: 0 <= j < n - 1 ==> g(j) == f(if j < t then j else j + 1)
    ensures Sum(g, n - 1) == Sum(f, n) - f(t)
  {
    if t == n - 1 {
      SumCong(g, f, t);
    } else {
      SumSkip(f, g, t, n - 1);
    }
  }

  /** What the other columns with these weights and this constant leave of column t. */
  function MisfitAt(columns: seq<seq<real>>, t: nat, w: Vec, c: real, r: int): real
    requires t < |columns|
  {
    AsVec(columns[t])(r) - c - Dot(w, ColumnsAt(columns, r), |columns|)
  }

  function Misfit(columns: seq<seq<real>>, t: nat, w: Vec, c: real): Vec
    requires t < |columns|
  {
    r => MisfitAt(columns, t, w, c, r)
  }

  /** The coefficients of the auxiliary regression that these weights stand for. */
  ghost predicate StandFor(beta: seq<real>, t: nat, w: Vec, c: real) {
    && |beta| > 0 && beta[0] == c && w(t) == 0.0
    && forall i :: 0 < i < |beta| ==> beta[i] == w(if i - 1 < t then i - 1 else i)
  }

  lemma MisfitIsResidual(columns: seq<seq<real>>, t: nat, w: Vec, c: real, beta: seq<real>, r: int)
    requires t < |columns| == |beta| && StandFor(beta, t, w, c)
    ensures Resid(AsVec(columns[t]), DesignMat(Others(columns, t), true), AsVec(beta), |beta|)(r) == MisfitAt(columns, t, w, c, r)
  {
    hide Sum;
    var others, m := Others(columns, t), |columns|;
    DesignRow(others, beta, r);
    var f: Vec := k => w(k) * ColumnsAt(columns, r)(k);
    var g: Vec := k => AsVec(beta[1..])(k) * ColumnsAt(others, r)(k);
    forall j | 0 <= j < m - 1
      ensures g(j) == f(if j < t then j else j + 1)
    {
      assert others[j] == columns[if j < t then j else j + 1];
      assert beta[1..][j] == beta[j + 1];
    }
    SumSkip(f, g, t, m);
    assert Sum(f, m) == Dot(w, ColumnsAt(columns, r), m) && Sum(g, m - 1) == Dot(AsVec(beta[1..]), ColumnsAt(others, r), m - 1);
  }

  lemma MisfitIsRss(columns: seq<seq<real>>, t: nat, w: Vec, c: real, beta: seq<real>, n: nat)
    requires t < |columns| == |beta| && StandFor(beta, t, w, c)
    ensures Rss(AsVec(columns[t]), DesignMat(Others(columns, t), true), AsVec(beta), n, |beta|) ==
            Dot(Misfit(columns, t, w, c), Misfit(columns, t, w, c), n)
  {
    hide Sum, Dot, Resid, MisfitAt;
    var e, f := Resid(AsVec(columns[t]), DesignMat(Others(columns, t), true), AsVec(beta), |beta|), Misfit(columns, t, w, c);
    forall r | 0 <= r < n
      ensures e(r) == f(r)
    {
      MisfitIsResidual(columns, t, w, c, beta, r);
      assert f(r) == MisfitAt(columns, t, w, c, r);
    }
    DotCong(e, f, e, f, n);
  }

  /** The factor times the residual sum of squares of the auxiliary fit is the total one. */
  lemma VifTimesRss(columns: seq<seq<real>>, r: Result<seq<Vif>, EconometricsError>, t: nat) returns (fit: OlsSummary)
    requires VifOutcome(columns, r) && r.Ok? && t < |r.value| && r.value[t].Finite?
    ensures Auxiliary(columns, t, Ok(fit)) && |fit.coefficients| == |columns|
    ensures r.value[t].v * Rss(AsVec(columns[t]), DesignMat(Others(columns, t), true), Estimates(fit.coefficients), |columns[t]|, |columns|)
            == Tss(AsVec(columns[t]), |columns[t]|)
  {
    hide IsFit, Independent, Rss, Tss;
    VifAtLeastOne(columns, r, t);
    fit :| Auxiliary(columns, t, Ok(fit)) && r.value[t].v * (1.0 - fit.rSquared) == 1.0;
    var n, k, y, x := |columns[t]|, |columns|, AsVec(columns[t]), DesignMat(Others(columns, t), true);
    FitStatistics(fit, y, x, n, k);
    FitLength(fit, y, x, n, k);
    InterceptSpansConstant(Others(columns, t), n);
    InterceptDiagnostics(fit, y, x, n, k);
    RssNonneg(y, x, Estimates(fit.coefficients), n, k);
    InflatedRss(r.value[t].v, fit.rSquared, Rss(y, x, Estimates(fit.coefficients), n, k), Tss(y, n));
  }

  lemma FitLength(s: OlsSummary, y: Vec, x: Mat, n: nat, k: nat)
    requires n > k && IsFit(s, y, x, n, k)
    ensures |s.coefficients| == k
  {
  }

  lemma InflatedRss(v: real, r2: real, rss: real, tss: real)
    requires v * (1.0 - r2) == 1.0 && 0.0 <= rss <= tss && (tss > 0.0 ==> r2 * tss == tss - rss)
    ensures v * rss == tss
  {
    if tss > 0.0 {
      Distribute(tss, 1.0, -r2, 1.0 - r2);
      Associate(v, 1.0 - r2, 1.0, tss);
    }
  }

  /**
   The inflation factor of a column is the largest ratio of its total variation to what any
   affine combination of all other columns leaves of it.
   */
  lemma VifIsLargestRatio(columns: seq<seq<real>>, r: Result<seq<Vif>, EconometricsError>, t: nat, w: Vec, c: real)
    requires VifOutcome(columns, r) && r.Ok? && t < |r.value| && r.value[t].Finite? && w(t) == 0.0
    ensures Tss(AsVec(columns[t]), |columns[t]|) <=
            r.value[t].v * Dot(Misfit(columns, t, w, c), Misfit(columns, t, w, c), |columns[t]|)
  {
    hide Sum, Dot, Rss, Tss, IsFit, Independent;
    var fit := VifTimesRss(columns, r, t);
    var n, k, y, x := |columns[t]|, |columns|, AsVec(columns[t]), DesignMat(Others(columns, t), true);
    var beta := [c] + seq(k - 1, j requires 0 <= j < k - 1 => w(if j < t then j else j + 1));
    MisfitIsRss(columns, t, w, c, beta, n);
    FitIsMinimum(fit, y, x, n, k, AsVec(beta));
    VifAtLeastOne(columns, r, t);
    var least, other := Rss(y, x, Estimates(fit.coefficients), n, k), Rss(y, x, AsVec(beta), n, k);
    ProductMono(r.value[t].v, least, other, r.value[t].v * least, r.value[t].v * other);
  }

  /** Some combination attains that ratio. */
  lemma VifIsAttained(columns: seq<seq<real>>, r: Result<seq<Vif>, EconometricsError>, t: nat) returns (w: Vec, c: real)
    requires VifOutcome(columns, r) && r.Ok? && t < |r.value| && r.value[t].Finite?
    ensures w(t) == 0.0
    ensures Tss(AsVec(columns[t]), |columns[t]|) ==
            r.value[t].v * Dot(Misfit(columns, t, w, c), Misfit(columns, t, w, c), |columns[t]|)
  {
    hide Sum, Dot, Rss, Tss, IsFit, Independent;
    var fit := VifTimesRss(columns, r, t);
    var beta := EstimateSeq(fit.coefficients);
    w := i => if i == t then 0.0 else if i < t then AsVec(beta)(i + 1) else AsVec(beta)(i);
    c := beta[0];
    MisfitIsRss(columns, t, w, c, beta, |columns[t]|);
  }

  // ---------- Breusch-Godfrey ----------

  /** Column i of the lag block holds the residual i + 1 observations back, and zero before the sample. */
  lemma LaggedColumnsAre(e: seq<real>, lags: nat, i: nat, t: nat)
    requires i < lags && t < |e|
    ensures |LagBlock(e, lags)| == lags && |LagBlock(e, lags)[i]| == |e|
    ensures LagBlock(e, lags)[i][t] == if t >= i + 1 then e[t - (i + 1)] else 0.0
  {
  }

  /**
   The statistic: with e the residuals of the regression and v those of the auxiliary regression of
   e on the regressors and its own lags, LM times the variation of e is n times what v explains.
   */
  lemma BreuschGodfreyIs(y: seq<real>, columns: seq<seq<real>>, intercept: bool, lags: nat,
                         r: Result<ResidualAutocorrelation, EconometricsError>)
    requires BreuschGodfreyOutcome(y, columns, intercept, lags, r) && r.Ok?
    ensures r.value.df == lags
    ensures exists e: seq<real>, b: seq<real>, c: seq<real> ::
      && IsAuxiliary(y, columns, intercept, lags, e, b, c)
      && var x := DesignMat(columns + LagBlock(e, lags), intercept);
         var tss, rss := Tss(AsVec(e), |y|), Rss(AsVec(e), x, AsVec(c), |y|, DesignCols(columns, intercept) + lags);
         if tss > 0.0 then r.value.lmStatistic * tss == |y| as real * (tss - rss) else r.value.lmStatistic == 0.0
  {
    hide ColumnsOutcome, IsFit, Independent, NormalEquations, Rss, Tss;
    var primary: OlsSummary, aux: OlsSummary :| IsBreuschGodfrey(r.value, y, columns, intercept, lags, primary, aux);
    var e := ResidualsOf(y, columns, intercept, primary.coefficients);
    var b, c := EstimateSeq(primary.coefficients), EstimateSeq(aux.coefficients);
    OutcomeIsFit(y, columns, intercept, primary);
    OutcomeIsFit(e, columns + LagBlock(e, lags), intercept, aux);
    var x, n, k := DesignMat(columns + LagBlock(e, lags), intercept), |y|, DesignCols(columns, intercept) + lags;
    FitStatistics(aux, AsVec(e), x, n, k);
    assert IsAuxiliary(y, columns, intercept, lags, e, b, c);
    var tss, rss := Tss(AsVec(e), n), Rss(AsVec(e), x, AsVec(c), n, k);
    Associate(n as real, aux.rSquared, r.value.lmStatistic, tss);
  }

  lemma OutcomeIsFit(y: seq<real>, columns: seq<seq<real>>, intercept: bool, s: OlsSummary)
    requires ColumnsOutcome(y, columns, intercept, Ok(s))
    ensures |y| > DesignCols(columns, intercept) && IsFit(s, AsVec(y), DesignMat(columns, intercept), |y|, DesignCols(columns, intercept))
    ensures |s.coefficients| == DesignCols(columns, intercept)
    ensures NormalEquations(AsVec(y), DesignMat(columns, intercept), Estimates(s.coefficients), |y|, DesignCols(columns, intercept))
  {
    hide Independent, NormalEquations, Rss, Tss;
  }

  /** b is the least-squares fit of y, e are its residuals, and c is the least-squares fit of e with its lags added. */
  ghost predicate IsAuxiliary(y: seq<real>, columns: seq<seq<real>>, intercept: bool, lags: nat, e: seq<real>, b: seq<real>, c: seq<real>) {
    var k := DesignCols(columns, intercept);
    && |e| == |y| && |b| == k && |c| == k + lags
    && NormalEquations(AsVec(y), DesignMat(columns, intercept), AsVec(b), |y|, k)
    && (forall t :: 0 <= t < |y| ==> e[t] == y[t] - MulVec(DesignMat(columns, intercept), AsVec(b), k)(t))
    && NormalEquations(AsVec(e), DesignMat(columns + LagBlock(e, lags), intercept), AsVec(c), |y|, k + lags)
  }
}
