/**
 Pearson correlation matrices and variance inflation factors
 (crates/tdw-analytics-econometrics/src/correlation.rs).
 */
module Correlation {
  import opened Results
  import opened RealSums
  import opened LinearAlgebra
  import opened CholeskyFactor
  import opened LeastSquares
  import opened Ols

  // ---------- Pearson correlation ----------

  /** Deviations from the mean; an empty series has none. */
  function Deviation(a: Vec, n: nat): Vec {
    if n == 0 then a else Centered(a, n)
  }

  function Variation(a: Vec, n: nat): real { Dot(Deviation(a, n), Deviation(a, n), n) }

  function CorrelationOf(a: Vec, b: Vec, n: nat, sqrt: real -> real): real {
    var denom := sqrt(Times(Variation(a, n), Variation(b, n)));
    if n == 0 || denom == 0.0 then 0.0 else Ratio(Dot(Deviation(a, n), Deviation(b, n), n), denom)
  }

  method Pearson(a: seq<real>, b: seq<real>, sqrt: real -> real) returns (r: real)
    requires |a| == |b|
    ensures r == CorrelationOf(AsVec(a), AsVec(b), |a|, sqrt)
  {
    hide Sum, Dot, Ratio, Times;
    var n := |a|;
    if n == 0 {
      return 0.0;
    }
    var meanA, meanB := Mean(AsVec(a), n), Mean(AsVec(b), n);
    ghost var u, v := Deviation(AsVec(a), n), Deviation(AsVec(b), n);
    var cov, varA, varB := 0.0, 0.0, 0.0;
    DotZero(u, v, 0);
    DotZero(u, u, 0);
    DotZero(v, v, 0);
    for i := 0 to n
      invariant cov == Dot(u, v, i) && varA == Dot(u, u, i) && varB == Dot(v, v, i)
    {
      var da, db := a[i] - meanA, b[i] - meanB;
      assert da == u(i) && db == v(i);
      DotStep(u, v, i);
      DotStep(u, u, i);
      DotStep(v, v, i);
      cov, varA, varB := cov + da * db, varA + da * da, varB + db * db;
    }
    var denom := sqrt(Times(varA, varB));
    r := if denom == 0.0 then 0.0 else Ratio(cov, denom);
  }

  method CorrelationCoefficient(a: seq<real>, b: seq<real>, sqrt: real -> real)
    returns (r: Result<real, EconometricsError>)
    ensures r == if |a| != |b| then Err(LengthMismatch(|a|, |b|))
                 else Ok(CorrelationOf(AsVec(a), AsVec(b), |a|, sqrt))
  {
    if |a| != |b| {
      return Err(LengthMismatch(|a|, |b|));
    }
    var c := Pearson(a, b, sqrt);
    r := Ok(c);
  }

  ghost predicate EqualLengths(columns: seq<seq<real>>) {
    |columns| > 0 && forall j :: 0 <= j < |columns| ==> |columns[j]| == |columns[0]|
  }

  /** Unit diagonal; every other entry is the correlation of its two columns. */
  function MatrixEntry(columns: seq<seq<real>>, i: nat, j: nat, sqrt: real -> real): real
    requires i < |columns| && j < |columns|
  {
    if i == j then 1.0
    else CorrelationOf(AsVec(columns[if i < j then i else j]), AsVec(columns[if i < j then j else i]),
                       |columns[0]|, sqrt)
  }

  ghost predicate IsSquare(m: seq<seq<real>>, n: nat) {
    |m| == n && forall i :: 0 <= i < n ==> |m[i]| == n
  }

  ghost predicate MatrixUpTo(m: seq<seq<real>>, columns: seq<seq<real>>, sqrt: real -> real, i: nat, j: nat) {
    && IsSquare(m, |columns|)
    && forall p: nat, q: nat :: p < |columns| && q < |columns| && MatrixDone(p, q, i, j) ==>
         m[p][q] == MatrixEntry(columns, p, q, sqrt)
  }

  predicate MatrixDone(p: nat, q: nat, i: nat, j: nat) {
    p < i || q < i || (p == i && q < j) || (q == i && p < j)
  }

  method CorrelationMatrix(columns: seq<seq<real>>, sqrt: real -> real)
    returns (r: Result<seq<seq<real>>, EconometricsError>)
    ensures r.Ok? <==> EqualLengths(columns)
    ensures r.Err? ==> r.error == EmptyDesign
    ensures r.Ok? ==> MatrixUpTo(r.value, columns, sqrt, |columns|, 0)
  {
    hide CorrelationOf;
    if |columns| == 0 {
      return Err(EmptyDesign);
    }
    var n := |columns[0]|;
    if exists j :: 0 <= j < |columns| && |columns[j]| != n {
      return Err(EmptyDesign);
    }
    var m := |columns|;
    var matrix := seq(m, _ => seq(m, _ => 0.0));
    for i := 0 to m
      invariant MatrixUpTo(matrix, columns, sqrt, i, i)
    {
      matrix := matrix[i := matrix[i][i := 1.0]];
      for j := i + 1 to m
        invariant MatrixUpTo(matrix, columns, sqrt, i, j)
      {
        var c := Pearson(columns[i], columns[j], sqrt);
        matrix := matrix[i := matrix[i][j := c]];
        matrix := matrix[j := matrix[j][i := c]];
      }
    }
    r := Ok(matrix);
  }

  // ---------- the matrix is a correlation matrix ----------

  /** The standardised column: unit length, or zero when the column does not vary. */
  function Standardised(a: Vec, n: nat, sqrt: real -> real): Vec {
    var s := sqrt(Variation(a, n));
    r => if s == 0.0 then 0.0 else Deviation(a, n)(r) / s
  }

  lemma VariationNonneg(a: Vec, n: nat)
    ensures Variation(a, n) >= 0.0
  {
    DotSelf(Deviation(a, n), n);
  }

  lemma RootZero(sqrt: real -> real, x: real)
    requires IsSqrt(sqrt) && x >= 0.0
    ensures sqrt(x) == 0.0 <==> x == 0.0
  {
    var s := sqrt(x);
    SquareSign(s, x);
  }

  /** s t <z, w> = <u, v> when u = s z and v = t w. */
  lemma ScaledDot(u: Vec, v: Vec, z: Vec, w: Vec, s: real, t: real, p: real, n: nat)
    requires forall r :: 0 <= r < n ==> u(r) == s * z(r) && v(r) == t * w(r)
    requires p == s * t
    ensures Dot(u, v, n) == p * Dot(z, w, n)
  {
    hide Sum, Dot;
    DotLinear(s, z, 0.0, z, u, v, n);
    DotLinear(t, w, 0.0, w, v, z, n);
    DotSym(z, v, n);
    DotSym(z, w, n);
    Associate(s, t, p, Dot(z, w, n));
  }

  /** Every correlation is the inner product of the standardised columns. */
  lemma CorrelationIsInnerProduct(a: Vec, b: Vec, n: nat, sqrt: real -> real)
    requires IsSqrt(sqrt)
    ensures CorrelationOf(a, b, n, sqrt) == Dot(Standardised(a, n, sqrt), Standardised(b, n, sqrt), n)
  {
    hide Sum, Dot, Variation, Deviation, Ratio;
    var va, vb := Variation(a, n), Variation(b, n);
    var z, w := Standardised(a, n, sqrt), Standardised(b, n, sqrt);
    VariationNonneg(a, n);
    VariationNonneg(b, n);
    SqrtMul(sqrt, va, vb);
    var s, t, denom := sqrt(va), sqrt(vb), sqrt(Times(va, vb));
    assert denom == s * t;
    ProductSign(s, t, denom);
    if s == 0.0 || t == 0.0 || n == 0 {
      DotZero(z, w, n);
    } else {
      forall r | 0 <= r < n
        ensures Deviation(a, n)(r) == s * z(r) && Deviation(b, n)(r) == t * w(r)
      {
      }
      ScaledDot(Deviation(a, n), Deviation(b, n), z, w, s, t, denom, n);
      var c, d := Dot(Deviation(a, n), Deviation(b, n), n), Dot(z, w, n);
      assert c == denom * d;
      DivideOut(c, denom, d);
    }
  }

  lemma DivideOut(p: real, q: real, d: real)
    requires q != 0.0 && p == q * d
    ensures Ratio(p, q) == d
  {
    var e := p / q;
    assert e * q == p;
    Cancel(e, d, q);
  }

  lemma StandardisedLength(a: Vec, n: nat, sqrt: real -> real)
    requires IsSqrt(sqrt)
    ensures Dot(Standardised(a, n, sqrt), Standardised(a, n, sqrt), n) ==
            if Variation(a, n) == 0.0 then 0.0 else 1.0
  {
    hide Sum, Dot, Deviation;
    var v, z := Variation(a, n), Standardised(a, n, sqrt);
    VariationNonneg(a, n);
    RootZero(sqrt, v);
    var s := sqrt(v);
    if v == 0.0 {
      DotZero(z, z, n);
    } else {
      forall r | 0 <= r < n
        ensures Deviation(a, n)(r) == s * z(r)
      {
      }
      ScaledDot(Deviation(a, n), Deviation(a, n), z, z, s, s, v, n);
      Cancel(Dot(z, z, n), 1.0, v);
    }
  }

  /** Correlations lie in [-1, 1]. */
  lemma CorrelationRange(a: Vec, b: Vec, n: nat, sqrt: real -> real)
    requires IsSqrt(sqrt)
    ensures -1.0 <= CorrelationOf(a, b, n, sqrt) <= 1.0
  {
    hide Sum, Dot, Variation, CorrelationOf, Standardised;
    var z, w := Standardised(a, n, sqrt), Standardised(b, n, sqrt);
    CorrelationIsInnerProduct(a, b, n, sqrt);
    StandardisedLength(a, n, sqrt);
    StandardisedLength(b, n, sqrt);
    var c := Dot(z, w, n);
    CauchySchwarz(z, w, n, Dot(z, z, n), Dot(w, w, n), c);
  }

  lemma CorrelationSym(a: Vec, b: Vec, n: nat, sqrt: real -> real)
    ensures CorrelationOf(a, b, n, sqrt) == CorrelationOf(b, a, n, sqrt)
  {
    hide Sum, Dot, Deviation, Variation, Ratio;
    DotSym(Deviation(a, n), Deviation(b, n), n);
    assert Variation(a, n) * Variation(b, n) == Variation(b, n) * Variation(a, n);
  }

  function AsMat(m: seq<seq<real>>): Mat {
    (i, j) => if 0 <= i < |m| && 0 <= j < |m[i]| then m[i][j] else 0.0
  }

  /** Columns of standardised data. */
  function StandardisedMat(columns: seq<seq<real>>, n: nat, sqrt: real -> real): Mat {
    (r, c) => if 0 <= c < |columns| then Standardised(AsVec(columns[c]), n, sqrt)(r) else 0.0
  }

  /** 1 for a column without variation, 0 otherwise. */
  function Flat(columns: seq<seq<real>>, n: nat): Vec {
    i => if 0 <= i < |columns| && Variation(AsVec(columns[i]), n) == 0.0 then 1.0 else 0.0
  }

  lemma EntryIsInnerProduct(columns: seq<seq<real>>, m: seq<seq<real>>, sqrt: real -> real, i: nat, j: nat)
    requires IsSqrt(sqrt) && EqualLengths(columns) && MatrixUpTo(m, columns, sqrt, |columns|, 0)
    requires i < |columns| && j < |columns|
    ensures var n := |columns[0]|;
      AsMat(m)(i, j) == Dot(Col(StandardisedMat(columns, n, sqrt), i), Col(StandardisedMat(columns, n, sqrt), j), n)
                        + if i == j then Flat(columns, n)(i) else 0.0
  {
    hide Sum, Dot, Variation, CorrelationOf, Standardised;
    var n := |columns[0]|;
    var a, b := AsVec(columns[i]), AsVec(columns[j]);
    var z := StandardisedMat(columns, n, sqrt);
    DotCong(Col(z, i), Standardised(a, n, sqrt), Col(z, j), Standardised(b, n, sqrt), n);
    assert MatrixDone(i, j, |columns|, 0);
    if i == j {
      StandardisedLength(a, n, sqrt);
    } else {
      CorrelationIsInnerProduct(a, b, n, sqrt);
      CorrelationSym(a, b, n, sqrt);
    }
  }

  /** Adding a non-negative diagonal to a Gram matrix keeps the quadratic form non-negative. */
  lemma GramPlusDiagonal(a: Mat, x: Mat, d: Vec, w: Vec, n: nat, k: nat)
    requires forall i, j :: 0 <= i < k && 0 <= j < k ==>
      a(i, j) == Dot(Col(x, i), Col(x, j), n) + if i == j then d(i) else 0.0
    requires forall i :: 0 <= i < k ==> d(i) >= 0.0
    ensures Quad(a, w, k) >= 0.0
  {
    hide Sum, Dot;
    var g := GramOf(x, n);
    var p, q := MulVec(a, w, k), MulVec(g, w, k);
    var extra: Vec := i => d(i) * w(i);
    forall i: nat | i < k
      ensures p(i) == 1.0 * q(i) + 1.0 * extra(i)
    {
      RowPlusDiagonal(a, g, d(i), w, k, i);
    }
    DotLinear(1.0, q, 1.0, extra, p, w, k);
    GramQuad(x, g, w, n, k);
    DotSelf(MulVec(x, w, k), n);
    WeightedSquares(d, w, extra, k);
  }

  lemma RowPlusDiagonal(a: Mat, g: Mat, s: real, w: Vec, k: nat, i: nat)
    requires i < k && forall j :: 0 <= j < k ==> a(i, j) == g(i, j) + if i == j then s else 0.0
    ensures MulVec(a, w, k)(i) == MulVec(g, w, k)(i) + s * w(i)
  {
    hide Sum, Dot;
    DotLinear(1.0, Row(g, i), s, Unit(i), Row(a, i), w, k);
    DotPick(Unit(i), w, i, k);
  }

  lemma WeightedSquare(s: real, v: real, t: real)
    requires s >= 0.0 && t == s * v
    ensures v * t >= 0.0
  {
    if s == 0.0 || v == 0.0 {
      assert t == 0.0;
    } else if v > 0.0 {
      assert t > 0.0;
    } else {
      assert t < 0.0;
    }
  }

  lemma {:induction false} WeightedSquares(d: Vec, w: Vec, extra: Vec, k: nat)
    requires forall i :: 0 <= i < k ==> d(i) >= 0.0 && extra(i) == d(i) * w(i)
    ensures Dot(w, extra, k) >= 0.0
  {
    hide Sum, Dot;
    if k == 0 {
      DotZero(w, extra, 0);
    } else {
      WeightedSquares(d, w, extra, k - 1);
      DotStep(w, extra, k - 1);
      var s, v, t := d(k - 1), w(k - 1), extra(k - 1);
      assert t == s * v;
      WeightedSquare(s, v, t);
    }
  }

  /**
   The returned matrix is symmetric with unit diagonal and entries in [-1, 1], and it is
   positive semidefinite, also when some columns do not vary or are empty.
   */
  lemma CorrelationMatrixIsPsd(columns: seq<seq<real>>, m: seq<seq<real>>, sqrt: real -> real, w: Vec)
    requires IsSqrt(sqrt) && EqualLengths(columns) && MatrixUpTo(m, columns, sqrt, |columns|, 0)
    ensures forall i :: 0 <= i < |columns| ==> m[i][i] == 1.0
    ensures forall i, j :: 0 <= i < |columns| && 0 <= j < |columns| ==> m[i][j] == m[j][i] && -1.0 <= m[i][j] <= 1.0
    ensures Quad(AsMat(m), w, |columns|) >= 0.0
  {
    hide Sum, Dot, Variation, CorrelationOf, Standardised, Quad;
    var n, k := |columns[0]|, |columns|;
    forall i: nat, j: nat | i < k && j < k
      ensures m[i][j] == MatrixEntry(columns, i, j, sqrt) && -1.0 <= m[i][j] <= 1.0
      ensures AsMat(m)(i, j) == Dot(Col(StandardisedMat(columns, n, sqrt), i), Col(StandardisedMat(columns, n, sqrt), j), n)
                                + if i == j then Flat(columns, n)(i) else 0.0
    {
      assert MatrixDone(i, j, k, 0);
      EntryIsInnerProduct(columns, m, sqrt, i, j);
      if i != j {
        CorrelationRange(AsVec(columns[if i < j then i else j]), AsVec(columns[if i < j then j else i]), n, sqrt);
      }
    }
    GramPlusDiagonal(AsMat(m), StandardisedMat(columns, n, sqrt), Flat(columns, n), w, n, k);
  }

  // ---------- variance inflation ----------

  datatype Vif = Finite(v: real) | Infinite

  /** The distance from 1 to the next double, the program's threshold for a perfect fit. */
  const EPSILON: real := 1.0 / 4503599627370496.0

  function VifOf(r2: real): Vif {
    var gap := 1.0 - r2;
    if -EPSILON < gap < EPSILON then Infinite else Finite(1.0 / gap)
  }

  function Others(columns: seq<seq<real>>, target: nat): seq<seq<real>>
    requires target < |columns|
  {
    columns[..target] + columns[target + 1..]
  }

  /** The auxiliary regression of one column on the others has outcome r. */
  ghost predicate Auxiliary(columns: seq<seq<real>>, target: nat, r: Result<OlsSummary, EconometricsError>)
    requires target < |columns|
  {
    ColumnsOutcome(columns[target], Others(columns, target), true, r)
  }

  ghost predicate VifFrom(columns: seq<seq<real>>, target: nat, v: Vif)
    requires target < |columns|
  {
    exists fit: OlsSummary :: Auxiliary(columns, target, Ok(fit)) && v == VifOf(fit.rSquared)
  }

  ghost predicate HasVif(columns: seq<seq<real>>, target: nat)
    requires target < |columns|
  {
    exists v: Vif :: VifFrom(columns, target, v)
  }

  ghost predicate VifOutcome(columns: seq<seq<real>>, r: Result<seq<Vif>, EconometricsError>) {
    if |columns| < 2 || !EqualLengths(columns) then r == Err(EmptyDesign)
    else match r
      case Ok(vs) => |vs| == |columns| && forall t: nat :: t < |columns| ==> VifFrom(columns, t, vs[t])
      case Err(e) => exists t: nat :: t < |columns| && Auxiliary(columns, t, Err(e))
                       && forall u: nat :: u < t ==> HasVif(columns, u)
  }

  method VarianceInflation(columns: seq<seq<real>>, sqrt: real -> real)
    returns (r: Result<seq<Vif>, EconometricsError>)
    requires IsSqrt(sqrt)
    ensures VifOutcome(columns, r)
  {
    hide ColumnsOutcome, VifOf;
    var m := |columns|;
    if m < 2 {
      return Err(EmptyDesign);
    }
    var n := |columns[0]|;
    if exists j :: 0 <= j < m && |columns[j]| != n {
      return Err(EmptyDesign);
    }
    var out := [];
    for target := 0 to m
      invariant |out| == target
      invariant forall t: nat :: t < target ==> VifFrom(columns, t, out[t])
    {
      var fit := Regress(columns[target], Others(columns, target), true, sqrt);
      assert Auxiliary(columns, target, fit);
      if fit.Err? {
        forall u: nat | u < target
          ensures HasVif(columns, u)
        {
          assert VifFrom(columns, u, out[u]);
        }
        return Err(fit.error);
      }
      out := out + [VifOf(fit.value.rSquared)];
    }
    r := Ok(out);
  }

  /** Every variance inflation factor is at least 1, and is 1 / (1 - R^2) when finite. */
  lemma VifAtLeastOne(columns: seq<seq<real>>, r: Result<seq<Vif>, EconometricsError>, t: nat)
    requires VifOutcome(columns, r) && r.Ok? && t < |r.value|
    ensures r.value[t].Finite? ==> r.value[t].v >= 1.0
    ensures exists fit: OlsSummary ::
      && Auxiliary(columns, t, Ok(fit))
      && 0.0 <= fit.rSquared <= 1.0
      && (r.value[t].Infinite? <==> 1.0 - fit.rSquared < 1.0 / 4503599627370496.0)
      && (r.value[t].Finite? ==> r.value[t].v * (1.0 - fit.rSquared) == 1.0)
  {
    hide IsFit, Independent, SpansConstant;
    assert VifFrom(columns, t, r.value[t]);
    var fit: OlsSummary :| Auxiliary(columns, t, Ok(fit)) && r.value[t] == VifOf(fit.rSquared);
    var others := Others(columns, t);
    var n, k, x := |others[0]|, DesignCols(others, true), DesignMat(others, true);
    InterceptSpansConstant(others, n);
    InterceptDiagnostics(fit, AsVec(columns[t]), x, n, k);
    InverseOfShare(fit.rSquared);
    assert Auxiliary(columns, t, Ok(fit)) && 0.0 <= fit.rSquared <= 1.0;
  }

  lemma InverseOfShare(r2: real)
    requires 0.0 <= r2 <= 1.0
    ensures VifOf(r2).Infinite? <==> 1.0 - r2 < EPSILON
    ensures VifOf(r2).Finite? ==> VifOf(r2).v * (1.0 - r2) == 1.0 && VifOf(r2).v >= 1.0
  {
    var gap := 1.0 - r2;
    if gap >= EPSILON {
      var v := 1.0 / gap;
      assert v * gap == 1.0;
      ProductSign(v - 1.0, gap, 1.0 - gap);
    }
  }
}
