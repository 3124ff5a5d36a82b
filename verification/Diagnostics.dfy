/**
 The Breusch-Godfrey test for residual autocorrelation
 (crates/tdw-analytics-econometrics/src/diagnostics.rs).
 */
module Diagnostics {
  import opened Results
  import opened RealSums
  import opened LinearAlgebra
  import opened CholeskyFactor
  import opened LeastSquares
  import opened Ols

  datatype ResidualAutocorrelation = ResidualAutocorrelation(
    lmStatistic: real,
    rSquared: real,
    df: nat,
    durbinWatson: real)

  /** y - X b, entry by entry. */
  function ResidualsOf(y: seq<real>, columns: seq<seq<real>>, intercept: bool, cs: seq<Coefficient>): (e: seq<real>)
    ensures |e| == |y|
  {
    var e := Resid(AsVec(y), DesignMat(columns, intercept), Estimates(cs), |cs|);
    seq(|y|, t requires 0 <= t < |y| => e(t))
  }

  /** Residuals lagged by i, with zeros before the sample. */
  function LaggedResiduals(e: seq<real>, i: nat): seq<real> {
    seq(|e|, t requires 0 <= t < |e| => if t >= i then e[t - i] else 0.0)
  }

  function LagBlock(e: seq<real>, lags: nat): seq<seq<real>> {
    seq(lags, i requires 0 <= i < lags => LaggedResiduals(e, i + 1))
  }

  /** A result combines a primary fit with the auxiliary fit of its residuals. */
  ghost predicate IsBreuschGodfrey(s: ResidualAutocorrelation, y: seq<real>, columns: seq<seq<real>>,
                                   intercept: bool, lags: nat, primary: OlsSummary, aux: OlsSummary)
  {
    var e := ResidualsOf(y, columns, intercept, primary.coefficients);
    && ColumnsOutcome(y, columns, intercept, Ok(primary))
    && ColumnsOutcome(e, columns + LagBlock(e, lags), intercept, Ok(aux))
    && s.lmStatistic == |y| as real * aux.rSquared
    && s.rSquared == aux.rSquared
    && s.df == lags
    && s.durbinWatson == primary.durbinWatson
  }

  ghost predicate BreuschGodfreyOutcome(y: seq<real>, columns: seq<seq<real>>, intercept: bool, lags: nat,
                                        r: Result<ResidualAutocorrelation, EconometricsError>)
  {
    if lags == 0 then r == Err(EmptyDesign)
    else match r
      case Ok(s) => |y| > lags && exists primary: OlsSummary, aux: OlsSummary ::
                      IsBreuschGodfrey(s, y, columns, intercept, lags, primary, aux)
      case Err(error) =>
        || ColumnsOutcome(y, columns, intercept, Err(error))
        || exists primary: OlsSummary :: ColumnsOutcome(y, columns, intercept, Ok(primary)) &&
             var e := ResidualsOf(y, columns, intercept, primary.coefficients);
             if |y| <= lags then error == InsufficientRows(|y|, lags)
             else ColumnsOutcome(e, columns + LagBlock(e, lags), intercept, Err(error))
  }

  method BreuschGodfrey(y: seq<real>, columns: seq<seq<real>>, intercept: bool, lags: nat, sqrt: real -> real)
    returns (r: Result<ResidualAutocorrelation, EconometricsError>)
    requires IsSqrt(sqrt)
    ensures BreuschGodfreyOutcome(y, columns, intercept, lags, r)
  {
    hide ColumnsOutcome, ResidualsOf;
    if lags == 0 {
      return Err(EmptyDesign);
    }
    var primary := Regress(y, columns, intercept, sqrt);
    if primary.Err? {
      return Err(primary.error);
    }
    var residuals := ResidualsOf(y, columns, intercept, primary.value.coefficients);
    var n := |y|;
    if n <= lags {
      return Err(InsufficientRows(n, lags));
    }
    var auxColumns := columns;
    for i := 1 to lags + 1
      invariant auxColumns == columns + LagBlock(residuals, i - 1)
    {
      assert LagBlock(residuals, i) == LagBlock(residuals, i - 1) + [LaggedResiduals(residuals, i)];
      auxColumns := auxColumns + [LaggedResiduals(residuals, i)];
    }
    var aux := Regress(residuals, auxColumns, intercept, sqrt);
    if aux.Err? {
      return Err(aux.error);
    }
    r := Ok(ResidualAutocorrelation(n as real * aux.value.rSquared, aux.value.rSquared, lags, primary.value.durbinWatson));
    assert IsBreuschGodfrey(r.value, y, columns, intercept, lags, primary.value, aux.value);
  }

  /**
   The LM statistic never exceeds n and the Durbin-Watson statistic stays in [0, 4]. When the
   regressors span a constant, as with an intercept, the LM statistic is also never negative.
   */
  lemma BreuschGodfreyRange(y: seq<real>, columns: seq<seq<real>>, intercept: bool, lags: nat,
                            r: Result<ResidualAutocorrelation, EconometricsError>)
    requires BreuschGodfreyOutcome(y, columns, intercept, lags, r) && r.Ok?
    ensures r.value.lmStatistic <= |y| as real
    ensures intercept || SpansConstant(DesignMat(columns, intercept), |y|, DesignCols(columns, intercept)) ==>
      0.0 <= r.value.lmStatistic
    ensures 0.0 <= r.value.durbinWatson <= 4.0
  {
    hide ColumnsOutcome, ResidualsOf, SpansConstant;
    var primary: OlsSummary, aux: OlsSummary :| IsBreuschGodfrey(r.value, y, columns, intercept, lags, primary, aux);
    var e := ResidualsOf(y, columns, intercept, primary.coefficients);
    FittedDiagnostics(y, columns, intercept, primary);
    FittedDiagnostics(e, columns + LagBlock(e, lags), intercept, aux);
    if intercept {
      InterceptSpansConstant(columns, |y|);
    }
    if SpansConstant(DesignMat(columns, intercept), |y|, DesignCols(columns, intercept)) {
      MoreColumnsSpan(columns, LagBlock(e, lags), intercept, |y|);
    }
  }

  lemma FittedDiagnostics(y: seq<real>, columns: seq<seq<real>>, intercept: bool, s: OlsSummary)
    requires ColumnsOutcome(y, columns, intercept, Ok(s))
    ensures s.rSquared <= 1.0
    ensures SpansConstant(DesignMat(columns, intercept), |y|, DesignCols(columns, intercept)) ==> 0.0 <= s.rSquared
    ensures 0.0 <= s.durbinWatson <= 4.0
  {
    hide SpansConstant, Independent, NormalEquations, IsCoefficient, Rss, Tss, DurbinWatsonOf, RSquaredOf;
    var n, k, x := |y|, DesignCols(columns, intercept), DesignMat(columns, intercept);
    RSquaredAtMostOne(s, AsVec(y), x, n, k);
    if SpansConstant(x, n, k) {
      InterceptDiagnostics(s, AsVec(y), x, n, k);
    }
    var b := Estimates(s.coefficients);
    RssIs(AsVec(y), x, b, n, k);
    DurbinWatsonRange(Resid(AsVec(y), x, b, k), n, Rss(AsVec(y), x, b, n, k));
  }

  lemma MoreColumnsSpan(columns: seq<seq<real>>, extra: seq<seq<real>>, intercept: bool, n: nat)
    requires SpansConstant(DesignMat(columns, intercept), n, DesignCols(columns, intercept))
    ensures SpansConstant(DesignMat(columns + extra, intercept), n, DesignCols(columns + extra, intercept))
  {
    hide SpansConstant;
    var x, x' := DesignMat(columns, intercept), DesignMat(columns + extra, intercept);
    SpansConstantNested(x, x', n, DesignCols(columns, intercept), DesignCols(columns + extra, intercept));
  }

  lemma RssIs(y: Vec, x: Mat, b: Vec, n: nat, k: nat)
    ensures Rss(y, x, b, n, k) == Dot(Resid(y, x, b, k), Resid(y, x, b, k), n)
  {
  }

  // ---------- without an intercept the LM statistic can be negative ----------

  lemma Dot2(u: Vec, v: Vec)
    ensures Dot(u, v, 1) == u(0) * v(0)
    ensures Dot(u, v, 2) == u(0) * v(0) + u(1) * v(1)
  {
    DotStep(u, v, 0);
    DotStep(u, v, 1);
  }

  lemma Dot4(u: Vec, v: Vec)
    ensures Dot(u, v, 4) == u(0) * v(0) + u(1) * v(1) + u(2) * v(2) + u(3) * v(3)
  {
    Dot2(u, v);
    DotStep(u, v, 2);
    DotStep(u, v, 3);
  }

  const EXAMPLE_Y: seq<real> := [0.0, 1.0, 1.0, 1.0]
  const EXAMPLE_X: seq<seq<real>> := [[1.0, 0.0, 0.0, 0.0]]
  const EXAMPLE_AUX: seq<seq<real>> := [[1.0, 0.0, 0.0, 0.0], [0.0, 0.0, 1.0, 1.0]]

  lemma ExamplePrimary(b: Vec)
    ensures Independent(DesignMat(EXAMPLE_X, false), 4, 1)
    ensures NormalEquations(AsVec(EXAMPLE_Y), DesignMat(EXAMPLE_X, false), b, 4, 1) ==>
      forall t :: 0 <= t < 4 ==> Resid(AsVec(EXAMPLE_Y), DesignMat(EXAMPLE_X, false), b, 1)(t) == EXAMPLE_Y[t]
  {
    hide Sum, Dot;
    var x := DesignMat(EXAMPLE_X, false);
    forall v: Vec | AllZero(MulVec(x, v, 1), 4)
      ensures AllZero(v, 1)
    {
      Dot2(Row(x, 0), v);
      assert MulVec(x, v, 1)(0) == 0.0;
    }
    var e := Resid(AsVec(EXAMPLE_Y), x, b, 1);
    Dot4(Col(x, 0), e);
    forall r | 0 <= r < 4
      ensures e(r) == EXAMPLE_Y[r] - x(r, 0) * b(0)
    {
      Dot2(Row(x, r), b);
    }
    if NormalEquations(AsVec(EXAMPLE_Y), x, b, 4, 1) {
      assert Dot(Col(x, 0), e, 4) == 0.0;
      assert e(0) == 0.0;
    }
  }

  lemma ExampleAuxIndependent()
    ensures Independent(DesignMat(EXAMPLE_AUX, false), 4, 2)
  {
    hide Sum, Dot;
    var x := DesignMat(EXAMPLE_AUX, false);
    forall v: Vec | AllZero(MulVec(x, v, 2), 4)
      ensures AllZero(v, 2)
    {
      Dot2(Row(x, 0), v);
      Dot2(Row(x, 2), v);
      assert MulVec(x, v, 2)(0) == 0.0 && MulVec(x, v, 2)(2) == 0.0;
    }
  }

  lemma ExampleAux(b: Vec)
    ensures Independent(DesignMat(EXAMPLE_AUX, false), 4, 2)
    ensures NormalEquations(AsVec(EXAMPLE_Y), DesignMat(EXAMPLE_AUX, false), b, 4, 2) ==>
      Rss(AsVec(EXAMPLE_Y), DesignMat(EXAMPLE_AUX, false), b, 4, 2) == 1.0
  {
    hide Sum, Dot;
    ExampleAuxIndependent();
    var x := DesignMat(EXAMPLE_AUX, false);
    var e := Resid(AsVec(EXAMPLE_Y), x, b, 2);
    Dot4(Col(x, 0), e);
    Dot4(Col(x, 1), e);
    Dot4(e, e);
    forall r | 0 <= r < 4
      ensures e(r) == EXAMPLE_Y[r] - (x(r, 0) * b(0) + x(r, 1) * b(1))
    {
      Dot2(Row(x, r), b);
    }
    if NormalEquations(AsVec(EXAMPLE_Y), x, b, 4, 2) {
      assert Dot(Col(x, 0), e, 4) == 0.0 && Dot(Col(x, 1), e, 4) == 0.0;
      assert e(0) == 0.0 && e(1) == 1.0;
      assert e(2) + e(3) == 0.0 && e(2) == e(3);
    }
  }

  lemma ExampleVariation()
    ensures Tss(AsVec(EXAMPLE_Y), 4) == 0.75
  {
    hide Dot;
    var y := AsVec(EXAMPLE_Y);
    assert Sum(y, 4) == 3.0;
    assert Mean(y, 4) == 0.75;
    var c := Centered(y, 4);
    Dot4(c, c);
  }

  /**
   A design that spans no constant can put the statistic below zero: on these four observations
   the program returns n * R^2 = -4/3.
   */
  lemma NegativeLmExample(r: Result<ResidualAutocorrelation, EconometricsError>)
    requires BreuschGodfreyOutcome(EXAMPLE_Y, EXAMPLE_X, false, 1, r)
    ensures r.Ok? && r.value.lmStatistic == -4.0 / 3.0
  {
    hide Sum, Dot, NormalEquations, Rss, Tss, Independent, DurbinWatsonOf;
    ExampleVariation();
    forall b: Vec
      ensures NormalEquations(AsVec(EXAMPLE_Y), DesignMat(EXAMPLE_X, false), b, 4, 1) ==>
        forall t :: 0 <= t < 4 ==> Resid(AsVec(EXAMPLE_Y), DesignMat(EXAMPLE_X, false), b, 1)(t) == EXAMPLE_Y[t]
    {
      ExamplePrimary(b);
    }
    ExamplePrimary(Unit(0));
    ExampleAux(Unit(0));
    forall primary: OlsSummary | ColumnsOutcome(EXAMPLE_Y, EXAMPLE_X, false, Ok(primary))
      ensures ResidualsOf(EXAMPLE_Y, EXAMPLE_X, false, primary.coefficients) == EXAMPLE_Y
    {
    }
    var l := LaggedResiduals(EXAMPLE_Y, 1);
    assert l == [l[0], l[1], l[2], l[3]] == [0.0, 0.0, 1.0, 1.0];
    assert LagBlock(EXAMPLE_Y, 1) == [l];
    assert EXAMPLE_X + LagBlock(EXAMPLE_Y, 1) == EXAMPLE_AUX;
    assert r.Ok?;
    var primary: OlsSummary, aux: OlsSummary :| IsBreuschGodfrey(r.value, EXAMPLE_Y, EXAMPLE_X, false, 1, primary, aux);
    ExampleAux(Estimates(aux.coefficients));
    assert aux.rSquared == RSquaredOf(1.0, 0.75);
  }
}
