/**
 Ordinary least squares with its summary diagnostics
 (crates/tdw-analytics-econometrics/src/ols.rs).
 */
module Ols {
  import opened Results
  import opened RealSums
  import opened LinearAlgebra
  import opened CholeskyFactor
  import opened LeastSquares

  datatype Coefficient = Coefficient(estimate: real, stdError: real, tStat: real)

  datatype OlsSummary = OlsSummary(
    coefficients: seq<Coefficient>,
    rSquared: real,
    adjRSquared: real,
    fStatistic: real,
    durbinWatson: real,
    residualDof: nat)

  function EstimateSeq(cs: seq<Coefficient>): seq<real> {
    seq(|cs|, i requires 0 <= i < |cs| => cs[i].estimate)
  }

  /** The estimated coefficients as a vector. */
  function Estimates(cs: seq<Coefficient>): Vec { AsVec(EstimateSeq(cs)) }

  // ---------- diagnostics ----------

  function RSquaredOf(rss: real, tss: real): real {
    if tss > 0.0 then 1.0 - rss / tss else 0.0
  }

  function AdjRSquaredOf(r2: real, tss: real, n: nat, dof: nat): real
    requires dof > 0
  {
    if tss > 0.0 then 1.0 - (1.0 - r2) * (n as real - 1.0) / dof as real else 0.0
  }

  function FStatisticOf(rss: real, tss: real, k: nat, dof: nat): real
    requires dof > 0
  {
    if k >= 2 && rss > 0.0 then
      ((tss - rss) / (k as real - 1.0)) / (rss / dof as real)
    else 0.0
  }

  function StepAt(e: Vec, t: int): real { e(t + 1) - e(t) }

  /** First differences. */
  function Steps(e: Vec): Vec { t => StepAt(e, t) }

  function Ratio(p: real, q: real): real
    requires q != 0.0
  {
    p / q
  }

  function DurbinWatsonOf(e: Vec, n: nat, rss: real): real {
    if rss == 0.0 || n < 2 then 0.0 else Ratio(Dot(Steps(e), Steps(e), n - 1), rss)
  }

  // ---------- the fit ----------

  /** The standard error squares to the residual variance times entry (j, j) of (X^T X)^-1. */
  ghost predicate IsCoefficient(c: Coefficient, gram: Mat, k: nat, j: nat, sigma2: real) {
    && c.stdError >= 0.0
    && (exists d :: IsInverseEntry(gram, k, j, d) && d > 0.0 && c.stdError * c.stdError == sigma2 * d)
    && (if c.stdError > 0.0 then c.tStat * c.stdError == c.estimate else c.tStat == 0.0)
  }

  /** What a summary returned for the response y and the design x says about them. */
  ghost predicate IsFit(s: OlsSummary, y: Vec, x: Mat, n: nat, k: nat)
    requires n > k
  {
    var b := Estimates(s.coefficients);
    var rss, tss, dof := Rss(y, x, b, n, k), Tss(y, n), n - k;
    && |s.coefficients| == k
    && NormalEquations(y, x, b, n, k)
    && (forall j: nat :: j < k ==> IsCoefficient(s.coefficients[j], GramOf(x, n), k, j, rss / dof as real))
    && s.rSquared == RSquaredOf(rss, tss)
    && s.adjRSquared == AdjRSquaredOf(s.rSquared, tss, n, dof)
    && s.fStatistic == FStatisticOf(rss, tss, k, dof)
    && s.durbinWatson == DurbinWatsonOf(Resid(y, x, b, k), n, rss)
    && s.residualDof == dof
  }

  /** Every outcome of `ols`: which inputs are refused with which error, and what a fit is. */
  ghost predicate OlsOutcome(y: seq<real>, x: Matrix, r: Result<OlsSummary, EconometricsError>) {
    var n, k := x.rows, x.cols;
    if k == 0 then r == Err(EmptyDesign)
    else if |y| != n then r == Err(RowMismatch(|y|, n))
    else if n <= k then r == Err(InsufficientRows(n, k))
    else if !Independent(x.At(), n, k) then r == Err(Singular)
    else r.Ok? && IsFit(r.value, AsVec(y), x.At(), n, k)
  }

  method Fit(y: seq<real>, design: Matrix, sqrt: real -> real) returns (r: Result<OlsSummary, EconometricsError>)
    requires design.Valid() && IsSqrt(sqrt)
    ensures OlsOutcome(y, design, r)
  {
    hide Sum, Dot;
    var n, k := design.rows, design.cols;
    if k == 0 {
      return Err(EmptyDesign);
    }
    if |y| != n {
      return Err(RowMismatch(|y|, n));
    }
    if n <= k {
      return Err(InsufficientRows(n, k));
    }
    var gram := design.Gram();
    GramPositiveDefinite(design.At(), gram.At(), n, k);
    var factored := Factor(gram, sqrt);
    if factored.Err? {
      return Err(Singular);
    }
    var chol := factored.value;
    FactoredGram(design.At(), gram.At(), n, k, chol);
    var xty := design.TransposeMulVec(y);
    var beta := chol.Solve(xty);
    NormalFromSolve(AsVec(y), design.At(), n, k, chol, AsVec(beta), AsVec(xty));
    r := Summarise(y, design, beta, chol, sqrt);
  }

  lemma FactoredGram(x: Mat, gram: Mat, n: nat, k: nat, chol: Cholesky)
    requires IsGram(x, gram, n, k) && chol.n == k && chol.Factors(gram)
    ensures forall i, j :: 0 <= i < k && 0 <= j < k ==> Squared(chol.At(), k)(i, j) == GramOf(x, n)(i, j)
  {
    hide Sum, Dot;
    forall i, j | 0 <= i < k && 0 <= j < k
      ensures Squared(chol.At(), k)(i, j) == GramOf(x, n)(i, j)
    {
      DotSym(Col(x, i), Col(x, j), n);
    }
  }

  lemma SolvesCong(a: Mat, a': Mat, x: Vec, b: Vec, b': Vec, n: nat)
    requires forall i, j :: 0 <= i < n && 0 <= j < n ==> a(i, j) == a'(i, j)
    requires Agree(b, b', n) && SolvesSystem(a, x, b, n)
    ensures SolvesSystem(a', x, b', n)
  {
    hide Sum, Dot;
    forall i | 0 <= i < n
      ensures MulVec(a', x, n)(i) == b'(i)
    {
      DotCong(Row(a, i), Row(a', i), x, x, n);
      assert MulVec(a, x, n)(i) == b(i);
    }
  }

  lemma NormalFromSolve(y: Vec, x: Mat, n: nat, k: nat, chol: Cholesky, beta: Vec, xty: Vec)
    requires chol.n == k
    requires forall i, j :: 0 <= i < k && 0 <= j < k ==> Squared(chol.At(), k)(i, j) == GramOf(x, n)(i, j)
    requires SolvesSystem(Squared(chol.At(), k), beta, xty, k)
    requires forall c :: 0 <= c < k ==> xty(c) == Dot(Col(x, c), y, n)
    ensures NormalEquations(y, x, beta, n, k)
  {
    SolvesCong(Squared(chol.At(), k), GramOf(x, n), beta, xty, xty, k);
    SystemIsNormal(y, x, beta, xty, n, k);
  }

  /** The second half of `ols`: everything computed from the coefficients. */
  method Summarise(y: seq<real>, design: Matrix, beta: seq<real>, chol: Cholesky, sqrt: real -> real)
    returns (r: Result<OlsSummary, EconometricsError>)
    requires design.Valid() && IsSqrt(sqrt)
    requires |y| == design.rows && |beta| == design.cols && design.cols < design.rows
    requires chol.Valid() && chol.n == design.cols
    requires forall i, j :: 0 <= i < chol.n && 0 <= j < chol.n ==>
      Squared(chol.At(), chol.n)(i, j) == GramOf(design.At(), design.rows)(i, j)
    requires NormalEquations(AsVec(y), design.At(), AsVec(beta), design.rows, design.cols)
    ensures r.Ok? && IsFit(r.value, AsVec(y), design.At(), design.rows, design.cols)
  {
    hide Sum, Dot, Tss, Rss, Resid, RSquaredOf, AdjRSquaredOf, FStatisticOf, DurbinWatsonOf;
    hide MulVec, NormalEquations, IsCoefficient, MakeCoefficient, IsInverseEntry;
    var n, k := design.rows, design.cols;
    var fitted := design.MulVec(beta);
    var residuals := seq(n, i requires 0 <= i < n => y[i] - fitted[i]);
    var rss := Dot(AsVec(residuals), AsVec(residuals), n);
    var dof := n - k;
    var sigma2 := rss / dof as real;
    var invDiag := chol.InverseDiagonal();
    var coefficients := seq(k, j requires 0 <= j < k => MakeCoefficient(beta[j], invDiag[j], sigma2, sqrt));
    var tss := Tss(AsVec(y), n);
    var r2 := RSquaredOf(rss, tss);
    var s := OlsSummary(
      coefficients,
      r2,
      AdjRSquaredOf(r2, tss, n, dof),
      FStatisticOf(rss, tss, k, dof),
      DurbinWatsonOf(AsVec(residuals), n, rss),
      dof);
    assert EstimateSeq(coefficients) == beta;
    ResidualsAgree(y, design.At(), AsVec(beta), k, fitted, residuals, rss);
    DotSelf(AsVec(residuals), n);
    forall j: nat | j < k
      ensures IsCoefficient(coefficients[j], GramOf(design.At(), n), k, j, sigma2)
    {
      InverseEntryCong(Squared(chol.At(), k), GramOf(design.At(), n), k, j, invDiag[j]);
      MadeCoefficient(beta[j], invDiag[j], sigma2, sqrt, GramOf(design.At(), n), k, j);
    }
    r := Ok(s);
  }

  /** Sums over the residual buffer are sums over the residuals themselves. */
  lemma ResidualsAgree(y: seq<real>, x: Mat, b: Vec, k: nat, fitted: seq<real>, residuals: seq<real>, rss: real)
    requires |y| == |fitted| == |residuals|
    requires forall r :: 0 <= r < |y| ==> fitted[r] == MulVec(x, b, k)(r)
    requires forall r :: 0 <= r < |y| ==> residuals[r] == y[r] - fitted[r]
    ensures Dot(AsVec(residuals), AsVec(residuals), |y|) == Rss(AsVec(y), x, b, |y|, k)
    ensures DurbinWatsonOf(AsVec(residuals), |y|, rss) == DurbinWatsonOf(Resid(AsVec(y), x, b, k), |y|, rss)
  {
    hide Sum, Dot, DurbinWatsonOf, MulVec;
    var e, f := AsVec(residuals), Resid(AsVec(y), x, b, k);
    assert Agree(e, f, |y|);
    DotCong(e, f, e, f, |y|);
    DurbinWatsonCong(e, f, |y|, rss);
  }

  lemma DurbinWatsonCong(e: Vec, f: Vec, n: nat, rss: real)
    requires Agree(e, f, n)
    ensures DurbinWatsonOf(e, n, rss) == DurbinWatsonOf(f, n, rss)
  {
    hide Sum, Dot, Ratio;
    if n >= 2 {
      DotCong(Steps(e), Steps(f), Steps(e), Steps(f), n - 1);
    }
  }

  function MakeCoefficient(b: real, d: real, sigma2: real, sqrt: real -> real): (c: Coefficient)
    ensures c.estimate == b
  {
    var v := sigma2 * d;
    var se := if v > 0.0 then sqrt(v) else 0.0;
    Coefficient(b, se, if se > 0.0 then b / se else 0.0)
  }

  lemma MadeCoefficient(b: real, d: real, sigma2: real, sqrt: real -> real, gram: Mat, k: nat, j: nat)
    requires IsSqrt(sqrt) && sigma2 >= 0.0 && d > 0.0 && IsInverseEntry(gram, k, j, d)
    ensures IsCoefficient(MakeCoefficient(b, d, sigma2, sqrt), gram, k, j, sigma2)
  {
    hide Sum, Dot;
    var v := sigma2 * d;
    ProductSign(sigma2, d, v);
    var c := MakeCoefficient(b, d, sigma2, sqrt);
    var se := c.stdError;
    if v > 0.0 {
      ProductSign(se, se, v);
      assert c.tStat == b / se;
    }
  }

  lemma InverseEntryCong(a: Mat, a': Mat, n: nat, j: nat, d: real)
    requires forall p, q :: 0 <= p < n && 0 <= q < n ==> a(p, q) == a'(p, q)
    requires IsInverseEntry(a, n, j, d)
    ensures IsInverseEntry(a', n, j, d)
  {
    var col: Vec :| SolvesSystem(a, col, Unit(j), n) && d == col(j);
    SolvesCong(a, a', col, Unit(j), Unit(j), n);
  }

  // ---------- what a returned fit guarantees ----------

  /** The returned coefficients are the strict minimiser of the residual sum of squares. */
  lemma FitIsMinimum(s: OlsSummary, y: Vec, x: Mat, n: nat, k: nat, b': Vec)
    requires n > k && IsFit(s, y, x, n, k) && Independent(x, n, k)
    ensures Rss(y, x, Estimates(s.coefficients), n, k) <= Rss(y, x, b', n, k)
    ensures !Agree(Estimates(s.coefficients), b', k) ==>
      Rss(y, x, Estimates(s.coefficients), n, k) < Rss(y, x, b', n, k)
  {
    LeastSquaresMinimum(y, x, Estimates(s.coefficients), b', n, k);
  }

  /** Two fits of the same data have the same coefficients. */
  lemma FitUnique(s: OlsSummary, t: OlsSummary, y: Vec, x: Mat, n: nat, k: nat)
    requires n > k && Independent(x, n, k) && IsFit(s, y, x, n, k) && IsFit(t, y, x, n, k)
    ensures EstimateSeq(s.coefficients) == EstimateSeq(t.coefficients)
  {
    hide Sum, Dot;
    var b, b' := Estimates(s.coefficients), Estimates(t.coefficients);
    LeastSquaresMinimum(y, x, b, b', n, k);
    LeastSquaresMinimum(y, x, b', b, n, k);
    forall i | 0 <= i < k
      ensures EstimateSeq(s.coefficients)[i] == EstimateSeq(t.coefficients)[i]
    {
      assert b(i) == b'(i);
    }
  }

  lemma ProductMono(a: real, x: real, y: real, p: real, q: real)
    requires a >= 0.0 && x <= y && p == a * x && q == a * y
    ensures p <= q
  {
    ProductSign(a, y - x, q - p);
  }

  /** R^2 is at most 1, is non-negative exactly when the model beats the mean, and 1 for a perfect fit. */
  lemma RSquaredMeaning(rss: real, tss: real)
    requires rss >= 0.0 && tss > 0.0
    ensures RSquaredOf(rss, tss) <= 1.0
    ensures RSquaredOf(rss, tss) >= 0.0 <==> rss <= tss
    ensures RSquaredOf(rss, tss) == 1.0 <==> rss == 0.0
  {
    var d := rss / tss;
    QuotientSign(rss, tss, d);
    ProductSign(d - 1.0, tss, rss - tss);
  }

  lemma AdjNotAbove(r2: real, tss: real, n: nat, dof: nat)
    requires 0 < dof < n && r2 <= 1.0 && (tss <= 0.0 ==> r2 == 0.0)
    ensures AdjRSquaredOf(r2, tss, n, dof) <= r2
  {
    if tss > 0.0 {
      var gap, m, q := 1.0 - r2, n as real - 1.0, dof as real;
      var p := gap * m;
      ProductMono(gap, q, m, gap * q, p);
      QuotientAtLeast(gap, p, q, p / q);
    }
  }

  lemma QuotientAtLeast(g: real, p: real, q: real, d: real)
    requires q > 0.0 && d == p / q && g * q <= p
    ensures d >= g
  {
    QuotientSign(p, q, d);
    Distribute(q, d - g, g, d);
    ProductSign(q, d - g, q * (d - g));
  }

  lemma FStatisticSign(rss: real, tss: real, k: nat, dof: nat)
    requires dof > 0 && rss >= 0.0
    ensures rss <= tss ==> FStatisticOf(rss, tss, k, dof) >= 0.0
    ensures k >= 2 && rss > 0.0 && rss > tss ==> FStatisticOf(rss, tss, k, dof) < 0.0
  {
    if k >= 2 && rss > 0.0 {
      var num, den := (tss - rss) / (k as real - 1.0), rss / dof as real;
      QuotientSign(tss - rss, k as real - 1.0, num);
      QuotientSign(rss, dof as real, den);
      QuotientSign(num, den, num / den);
    }
  }

  /**
   A design whose columns span a constant (an intercept, say) explains a share of the
   variation between 0 and 1; adjusting for degrees of freedom never raises it, and the F
   statistic is never negative.
   */
  lemma InterceptDiagnostics(s: OlsSummary, y: Vec, x: Mat, n: nat, k: nat)
    requires n > k && k > 0 && IsFit(s, y, x, n, k) && SpansConstant(x, n, k)
    ensures 0.0 <= s.rSquared <= 1.0
    ensures s.adjRSquared <= s.rSquared
    ensures s.fStatistic >= 0.0
    ensures Rss(y, x, Estimates(s.coefficients), n, k) <= Tss(y, n)
  {
    hide Sum, Dot, Rss, Tss, RSquaredOf, AdjRSquaredOf, FStatisticOf;
    var b := Estimates(s.coefficients);
    var rss, tss := Rss(y, x, b, n, k), Tss(y, n);
    VariationSplits(y, x, b, n, k);
    DotSelf(Explained(y, x, b, n, k), n);
    RssNonneg(y, x, b, n, k);
    TssNonneg(y, n);
    RSquaredRange(rss, tss);
    AdjNotAbove(s.rSquared, tss, n, n - k);
    FStatisticSign(rss, tss, k, n - k);
  }

  lemma RSquaredRange(rss: real, tss: real)
    requires 0.0 <= rss <= tss
    ensures 0.0 <= RSquaredOf(rss, tss) <= 1.0
    ensures tss <= 0.0 ==> RSquaredOf(rss, tss) == 0.0
  {
    if tss > 0.0 { RSquaredMeaning(rss, tss); }
  }

  // ---------- Durbin-Watson ----------

  /** The Durbin-Watson statistic lies in [0, 4], for every residual series. */
  lemma DurbinWatsonRange(e: Vec, n: nat, rss: real)
    requires rss == Dot(e, e, n)
    ensures 0.0 <= DurbinWatsonOf(e, n, rss) <= 4.0
  {
    hide Sum, Dot;
    DotSelf(e, n);
    if rss != 0.0 && n >= 2 {
      var d := Dot(Steps(e), Steps(e), n - 1);
      DotSelf(Steps(e), n - 1);
      StepsBound(e, n);
      var w := d / rss;
      QuotientSign(d, rss, w);
      ProductSign(w - 4.0, rss, d - 4.0 * rss);
    }
  }

  lemma {:induction false} StepsBound(e: Vec, n: nat)
    requires n >= 1
    ensures Dot(Steps(e), Steps(e), n - 1) <= 4.0 * Dot(e, e, n) - 2.0 * e(n - 1) * e(n - 1)
    ensures Dot(Steps(e), Steps(e), n - 1) <= 4.0 * Dot(e, e, n)
  {
    hide Sum, Dot;
    var a := e(n - 1);
    SquareSign(a, a * a);
    DotStep(e, e, n - 1);
    DotSelf(e, n - 1);
    if n == 1 {
      DotZero(Steps(e), Steps(e), 0);
      DotZero(e, e, 0);
    } else {
      StepsBound(e, n - 1);
      DotStep(Steps(e), Steps(e), n - 2);
      var b := e(n - 2);
      assert Steps(e)(n - 2) == a - b;
      SquareSign(a + b, (a + b) * (a + b));
      assert (a - b) * (a - b) + (a + b) * (a + b) == 2.0 * (a * a) + 2.0 * (b * b);
    }
  }

  // ---------- designs from columns ----------

  ghost predicate RegularColumns(columns: seq<seq<real>>, n: nat) {
    |columns| > 0 && n > 0 && forall j :: 0 <= j < |columns| ==> |columns[j]| == n
  }

  /** Entry (r, c) of the design: the intercept first when there is one, then the columns. */
  function DesignEntry(columns: seq<seq<real>>, intercept: bool, r: int, c: int): real {
    var offset := if intercept then 1 else 0;
    if intercept && c == 0 then 1.0
    else if offset <= c < |columns| + offset && 0 <= r < |columns[c - offset]| then columns[c - offset][r]
    else 0.0
  }

  function DesignMat(columns: seq<seq<real>>, intercept: bool): Mat {
    (r, c) => DesignEntry(columns, intercept, r, c)
  }

  function DesignCols(columns: seq<seq<real>>, intercept: bool): nat {
    |columns| + if intercept then 1 else 0
  }

  ghost predicate Holds(data: seq<real>, columns: seq<seq<real>>, intercept: bool, k: nat, p: nat, q: nat) {
    Entry(data, k, p, q) == DesignEntry(columns, intercept, p, q)
  }

  /** The buffer holds every entry before row r, column c, in row-major order. */
  ghost predicate FilledUpTo(data: seq<real>, columns: seq<seq<real>>, intercept: bool, k: nat, r: nat, c: nat) {
    && |data| == r * k + c
    && forall p: nat, q: nat {:trigger Holds(data, columns, intercept, k, p, q)} ::
         q < k && (p < r || (p == r && q < c)) ==> Holds(data, columns, intercept, k, p, q)
  }

  lemma FillStep(data: seq<real>, columns: seq<seq<real>>, intercept: bool, k: nat, r: nat, c: nat, v: real)
    requires c < k && FilledUpTo(data, columns, intercept, k, r, c)
    requires v == DesignEntry(columns, intercept, r, c)
    ensures FilledUpTo(data + [v], columns, intercept, k, r, c + 1)
    ensures c + 1 == k ==> FilledUpTo(data + [v], columns, intercept, k, r + 1, 0)
  {
    var data' := data + [v];
    forall p: nat, q: nat | q < k && (p < r || (p == r && q < c + 1))
      ensures Holds(data', columns, intercept, k, p, q)
    {
      if p < r {
        FlatBefore(p, q, r, k);
        assert Holds(data, columns, intercept, k, p, q);
      } else if q < c {
        assert Holds(data, columns, intercept, k, p, q);
      }
    }
    if c + 1 == k {
      assert (r + 1) * k == r * k + k;
    }
  }

  method DesignFromColumns(columns: seq<seq<real>>, intercept: bool)
    returns (r: Result<Matrix, EconometricsError>)
    ensures r.Ok? <==> |columns| > 0 && RegularColumns(columns, |columns[0]|)
    ensures r.Err? ==> r.error == EmptyDesign
    ensures r.Ok? ==>
      && r.value.Valid() && r.value.rows == |columns[0]| && r.value.cols == DesignCols(columns, intercept)
      && forall p, q :: 0 <= p < r.value.rows && 0 <= q < r.value.cols ==>
           r.value.At()(p, q) == DesignMat(columns, intercept)(p, q)
  {
    if |columns| == 0 {
      return Err(EmptyDesign);
    }
    var n := |columns[0]|;
    if n == 0 || exists j :: 0 <= j < |columns| && |columns[j]| != n {
      return Err(EmptyDesign);
    }
    var k := DesignCols(columns, intercept);
    var offset := if intercept then 1 else 0;
    var data := [];
    for p := 0 to n
      invariant FilledUpTo(data, columns, intercept, k, p, 0)
    {
      if intercept {
        FillStep(data, columns, intercept, k, p, 0, 1.0);
        data := data + [1.0];
      }
      for j := 0 to |columns|
        invariant FilledUpTo(data, columns, intercept, k, p, j + offset)
        invariant j == |columns| ==> FilledUpTo(data, columns, intercept, k, p + 1, 0)
      {
        FillStep(data, columns, intercept, k, p, j + offset, columns[j][p]);
        data := data + [columns[j][p]];
      }
    }
    r := Ok(Matrix(n, k, data));
    forall p: nat, q: nat | p < n && q < k
      ensures Grid(data, k)(p, q) == DesignMat(columns, intercept)(p, q)
    {
      assert Holds(data, columns, intercept, k, p, q);
    }
  }

  // ---------- regressing on columns ----------

  lemma IndependentCong(x: Mat, x': Mat, n: nat, k: nat)
    requires SameEntries(x, x', n, k) && Independent(x, n, k)
    ensures Independent(x', n, k)
  {
    hide Sum, Dot, MulVec;
    forall v: Vec | AllZero(MulVec(x', v, k), n)
      ensures AllZero(v, k)
    {
      MulVecSame(x, x', v, n, k);
      assert AllZero(MulVec(x, v, k), n);
    }
  }

  lemma NormalCong(y: Vec, y': Vec, x: Mat, x': Mat, b: Vec, n: nat, k: nat)
    requires Agree(y, y', n) && SameEntries(x, x', n, k) && NormalEquations(y, x, b, n, k)
    ensures NormalEquations(y', x', b, n, k)
  {
    hide Sum, Dot, MulVec, Resid;
    ResidCong(y, y', x, x', b, b, n, k);
    forall c: nat | c < k
      ensures Dot(Col(x', c), Resid(y', x', b, k), n) == 0.0
    {
      DotCong(Col(x, c), Col(x', c), Resid(y, x, b, k), Resid(y', x', b, k), n);
    }
  }

  lemma TssCong(y: Vec, y': Vec, n: nat)
    requires n > 0 && Agree(y, y', n)
    ensures Tss(y, n) == Tss(y', n)
  {
    hide Sum, Dot;
    SumCong(y, y', n);
    DotCong(Centered(y, n), Centered(y', n), Centered(y, n), Centered(y', n), n);
  }

  lemma CoefficientCong(c: Coefficient, g: Mat, g': Mat, k: nat, j: nat, sigma2: real)
    requires SameEntries(g, g', k, k) && IsCoefficient(c, g, k, j, sigma2)
    ensures IsCoefficient(c, g', k, j, sigma2)
  {
    hide IsInverseEntry;
    var d :| IsInverseEntry(g, k, j, d) && d > 0.0 && c.stdError * c.stdError == sigma2 * d;
    InverseEntryCong(g, g', k, j, d);
  }

  /** A fit depends only on the first n responses and the n x k entries of the design. */
  lemma FitCong(s: OlsSummary, y: Vec, y': Vec, x: Mat, x': Mat, n: nat, k: nat)
    requires n > k && Agree(y, y', n) && SameEntries(x, x', n, k) && IsFit(s, y, x, n, k)
    ensures IsFit(s, y', x', n, k)
  {
    hide Sum, Dot, MulVec, Resid, Rss, Tss, NormalEquations, IsCoefficient;
    hide RSquaredOf, AdjRSquaredOf, FStatisticOf, DurbinWatsonOf;
    var b := Estimates(s.coefficients);
    NormalCong(y, y', x, x', b, n, k);
    RssCong(y, y', x, x', b, b, n, k);
    TssCong(y, y', n);
    ResidCong(y, y', x, x', b, b, n, k);
    DurbinWatsonCong(Resid(y, x, b, k), Resid(y', x', b, k), n, Rss(y, x, b, n, k));
    GramSame(x, x', n, k);
    forall j: nat | j < k
      ensures IsCoefficient(s.coefficients[j], GramOf(x', n), k, j, Rss(y', x', b, n, k) / (n - k) as real)
    {
      CoefficientCong(s.coefficients[j], GramOf(x, n), GramOf(x', n), k, j, Rss(y, x, b, n, k) / (n - k) as real);
    }
  }

  lemma GramSame(x: Mat, x': Mat, n: nat, k: nat)
    requires SameEntries(x, x', n, k)
    ensures SameEntries(GramOf(x, n), GramOf(x', n), k, k)
  {
    hide Sum, Dot;
    forall i, j | 0 <= i < k && 0 <= j < k
      ensures GramOf(x, n)(i, j) == GramOf(x', n)(i, j)
    {
      DotCong(Col(x, i), Col(x', i), Col(x, j), Col(x', j), n);
    }
  }

  /** Every outcome of building a design from columns and fitting it. */
  ghost predicate ColumnsOutcome(y: seq<real>, columns: seq<seq<real>>, intercept: bool,
                                 r: Result<OlsSummary, EconometricsError>)
  {
    if |columns| == 0 || !RegularColumns(columns, |columns[0]|) then r == Err(EmptyDesign)
    else
      var n, k, x := |columns[0]|, DesignCols(columns, intercept), DesignMat(columns, intercept);
      if |y| != n then r == Err(RowMismatch(|y|, n))
      else if n <= k then r == Err(InsufficientRows(n, k))
      else if !Independent(x, n, k) then r == Err(Singular)
      else r.Ok? && IsFit(r.value, AsVec(y), x, n, k)
  }

  /** `design_from_columns` followed by `ols`, the pair every estimator calls. */
  method Regress(y: seq<real>, columns: seq<seq<real>>, intercept: bool, sqrt: real -> real)
    returns (r: Result<OlsSummary, EconometricsError>)
    requires IsSqrt(sqrt)
    ensures ColumnsOutcome(y, columns, intercept, r)
  {
    hide Sum, Dot, MulVec, IsFit, Independent, DesignEntry, Entry;
    var built := DesignFromColumns(columns, intercept);
    if built.Err? {
      return Err(built.error);
    }
    var design := built.value;
    r := Fit(y, design, sqrt);
    var n, k := design.rows, design.cols;
    var x, x' := design.At(), DesignMat(columns, intercept);
    assert SameEntries(x, x', n, k) && SameEntries(x', x, n, k);
    if Independent(x, n, k) {
      IndependentCong(x, x', n, k);
    }
    if Independent(x', n, k) {
      IndependentCong(x', x, n, k);
    }
    if r.Ok? {
      FitCong(r.value, AsVec(y), AsVec(y), x, x', n, k);
    }
  }

  /** A design built with an intercept spans the constants. */
  lemma InterceptSpansConstant(columns: seq<seq<real>>, n: nat)
    ensures SpansConstant(DesignMat(columns, true), n, DesignCols(columns, true))
  {
    hide Sum, Dot;
    var x, k := DesignMat(columns, true), DesignCols(columns, true);
    forall r | 0 <= r < n
      ensures MulVec(x, Unit(0), k)(r) == 1.0
    {
      DotSym(Row(x, r), Unit(0), k);
      DotPick(Unit(0), Row(x, r), 0, k);
    }
    assert ConstantCombination(x, Unit(0), n, k);
  }

  /** No fit has an R^2 above 1, with or without an intercept. */
  lemma RSquaredAtMostOne(s: OlsSummary, y: Vec, x: Mat, n: nat, k: nat)
    requires n > k && IsFit(s, y, x, n, k)
    ensures s.rSquared <= 1.0
  {
    hide Sum, Dot, Rss, Tss;
    RssNonneg(y, x, Estimates(s.coefficients), n, k);
    if Tss(y, n) > 0.0 {
      RSquaredMeaning(Rss(y, x, Estimates(s.coefficients), n, k), Tss(y, n));
    }
  }
}
