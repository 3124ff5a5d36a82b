/**
 Sweeping out group means, and why that is the same as fitting one free intercept per group
 (the identity behind `fixed_effects`, crates/tdw-analytics-econometrics/src/panel.rs).
 */
module WithinTransform {
  import opened RealSums
  import opened CholeskyFactor
  import opened LeastSquares

  /** Which entity an observation belongs to. */
  type Labels = int -> int

  /** 1 on the observations of entity e, 0 elsewhere. */
  function Member(ent: Labels, e: int): Vec { i => if ent(i) == e then 1.0 else 0.0 }

  function GroupSum(ent: Labels, v: Vec, e: int, n: nat): real { Dot(Member(ent, e), v, n) }

  function GroupSize(ent: Labels, e: int, n: nat): real { GroupSum(ent, Ones(), e, n) }

  function GroupMean(ent: Labels, v: Vec, e: int, n: nat): real {
    var c := GroupSize(ent, e, n);
    if c == 0.0 then 0.0 else GroupSum(ent, v, e, n) / c
  }

  /** Deviations from the entity means. */
  function Within(ent: Labels, v: Vec, n: nat): Vec { i => v(i) - GroupMean(ent, v, ent(i), n) }

  function WithinMat(ent: Labels, x: Mat, n: nat): Mat { (i, j) => Within(ent, Col(x, j), n)(i) }

  /** Residuals of the panel model with intercept alpha(e) for entity e and slopes b. */
  function PanelResid(ent: Labels, y: Vec, x: Mat, alpha: int -> real, b: Vec, k: nat): Vec {
    i => y(i) - MulVec(x, b, k)(i) - alpha(ent(i))
  }

  function PanelRss(ent: Labels, y: Vec, x: Mat, alpha: int -> real, b: Vec, n: nat, k: nat): real {
    Dot(PanelResid(ent, y, x, alpha, b, k), PanelResid(ent, y, x, alpha, b, k), n)
  }

  /** The entity intercepts implied by slopes b: mean response minus mean prediction. */
  function Intercepts(ent: Labels, y: Vec, x: Mat, b: Vec, n: nat, k: nat): int -> real {
    e => GroupMean(ent, Resid(y, x, b, k), e, n)
  }

  // ---------- group means ----------

  lemma GroupSizePositive(ent: Labels, n: nat, i: nat)
    requires i < n
    ensures GroupSize(ent, ent(i), n) > 0.0
  {
    hide Sum, Dot;
    var m := Member(ent, ent(i));
    SquaresOfMember(ent, ent(i), n);
    DotSelf(m, n);
    assert m(i) != 0.0;
  }

  lemma SquaresOfMember(ent: Labels, e: int, n: nat)
    ensures GroupSize(ent, e, n) == Dot(Member(ent, e), Member(ent, e), n)
  {
    hide Sum;
    var m := Member(ent, e);
    forall k
      ensures m(k) * Ones()(k) == m(k) * m(k)
    {
      assert m(k) == 0.0 || m(k) == 1.0;
    }
    SumCong(k => m(k) * Ones()(k), k => m(k) * m(k), n);
  }

  lemma GroupMeanTimesSize(ent: Labels, v: Vec, n: nat, i: nat)
    requires i < n
    ensures GroupMean(ent, v, ent(i), n) * GroupSize(ent, ent(i), n) == GroupSum(ent, v, ent(i), n)
  {
    hide Sum, Dot;
    GroupSizePositive(ent, n, i);
  }

  /** A weight that depends on the entity only. */
  function PerGroup(ent: Labels, g: int -> real): Vec { i => g(ent(i)) }

  /** Every observation replaced by the mean of its entity. */
  function Means(ent: Labels, v: Vec, n: nat): Vec { i => GroupMean(ent, v, ent(i), n) }

  function Shares(ent: Labels, v: Vec, g: int -> real, n: nat): Mat { (i, j) => ShareOf(ent, v, g, n, i, j) }

  /** Replacing every entry of v by its group mean does not change a sum weighted per group. */
  lemma MeansPreserveSums(ent: Labels, v: Vec, g: int -> real, n: nat)
    ensures Dot(v, PerGroup(ent, g), n) == Dot(Means(ent, v, n), PerGroup(ent, g), n)
  {
    hide Sum, Dot;
    Fubini(Shares(ent, v, g, n), n, n);
    ShareRows(ent, v, g, n, RowSums(Shares(ent, v, g, n), n));
    ShareCols(ent, v, g, n, ColSums(Shares(ent, v, g, n), n));
  }

  lemma ShareRows(ent: Labels, v: Vec, g: int -> real, n: nat, rows: Vec)
    requires rows == RowSums(Shares(ent, v, g, n), n)
    ensures Sum(rows, n) == Dot(Means(ent, v, n), PerGroup(ent, g), n)
  {
    hide Sum, Dot, GroupMean, ShareOf, Means, PerGroup;
    forall i: nat | i < n
      ensures rows(i) == Means(ent, v, n)(i) * PerGroup(ent, g)(i)
    {
      ShareRow(ent, v, g, n, i, Shares(ent, v, g, n));
    }
    DotAsSum(Means(ent, v, n), PerGroup(ent, g), rows, n);
  }

  lemma ShareCols(ent: Labels, v: Vec, g: int -> real, n: nat, cols: Vec)
    requires cols == ColSums(Shares(ent, v, g, n), n)
    ensures Sum(cols, n) == Dot(v, PerGroup(ent, g), n)
  {
    hide Sum, Dot, GroupMean, ShareOf;
    forall j: nat | j < n
      ensures cols(j) == v(j) * PerGroup(ent, g)(j)
    {
      ShareCol(ent, v, g, n, j, Shares(ent, v, g, n));
    }
    DotAsSum(v, PerGroup(ent, g), cols, n);
  }

  lemma DotAsSum(u: Vec, v: Vec, p: Vec, n: nat)
    requires forall k :: 0 <= k < n ==> p(k) == u(k) * v(k)
    ensures Dot(u, v, n) == Sum(p, n)
  {
    hide Sum;
    SumCong(k => u(k) * v(k), p, n);
  }

  /** The part of v(j) g that observation i receives when v(j) is spread evenly over its group. */
  function ShareOf(ent: Labels, v: Vec, g: int -> real, n: nat, i: int, j: int): real {
    if ent(i) != ent(j) || GroupSize(ent, ent(j), n) == 0.0 then 0.0
    else g(ent(j)) * v(j) / GroupSize(ent, ent(j), n)
  }

  lemma ShareRow(ent: Labels, v: Vec, g: int -> real, n: nat, i: nat, f: Mat)
    requires i < n && forall p, q :: f(p, q) == ShareOf(ent, v, g, n, p, q)
    ensures Sum(Row(f, i), n) == Means(ent, v, n)(i) * PerGroup(ent, g)(i)
  {
    hide Sum, Dot, GroupSum, GroupSize;
    var e := ent(i);
    var c, m := GroupSize(ent, e, n), Member(ent, e);
    GroupSizePositive(ent, n, i);
    GroupMeanTimesSize(ent, v, n, i);
    var t := g(e) / c;
    assert t * c == g(e);
    forall j
      ensures Row(f, i)(j) == t * (m(j) * v(j))
    {
      SpreadOut(g(e), v(j), c, t, m(j));
    }
    SumScale(t, j => m(j) * v(j), Row(f, i), n);
    GroupSumIs(ent, v, e, n, m);
    ShareOfMean(GroupMean(ent, v, e, n), c, t, g(e));
  }

  /** A member receives its share, a stranger nothing. */
  lemma SpreadOut(g: real, v: real, c: real, t: real, m: real)
    requires c > 0.0 && t == g / c && (m == 0.0 || m == 1.0)
    ensures t * (m * v) == if m == 0.0 then 0.0 else g * v / c
  {
    if m == 1.0 {
      var d := g * v / c;
      assert t * c == g && d * c == g * v;
      assert (t * v) * c == g * v by { Associate(v, c, v * c, t); Associate(v, t, v * t, c); }
      Cancel(d, t * v, c);
    }
  }

  lemma ShareOfMean(mean: real, c: real, t: real, g: real)
    requires t * c == g
    ensures t * (mean * c) == mean * g
  {
    Associate(t, c, g, mean);
  }

  lemma GroupSumIs(ent: Labels, v: Vec, e: int, n: nat, m: Vec)
    requires m == Member(ent, e)
    ensures Sum(j => m(j) * v(j), n) == GroupSum(ent, v, e, n)
  {
  }

  lemma ShareCol(ent: Labels, v: Vec, g: int -> real, n: nat, j: nat, f: Mat)
    requires j < n && forall p, q :: f(p, q) == ShareOf(ent, v, g, n, p, q)
    ensures Sum(Col(f, j), n) == v(j) * g(ent(j))
  {
    hide Sum, Dot, GroupSum, GroupSize;
    var e := ent(j);
    var c, m := GroupSize(ent, e, n), Member(ent, e);
    GroupSizePositive(ent, n, j);
    var t := g(e) * v(j) / c;
    assert t * c == g(e) * v(j);
    forall i
      ensures Col(f, j)(i) == t * (m(i) * Ones()(i))
    {
    }
    SumScale(t, i => m(i) * Ones()(i), Col(f, j), n);
    GroupSumIs(ent, Ones(), e, n, m);
    GroupSizeIs(ent, e, n);
  }

  lemma GroupSizeIs(ent: Labels, e: int, n: nat)
    ensures GroupSize(ent, e, n) == GroupSum(ent, Ones(), e, n)
  {
  }

  /** Deviations from entity means are orthogonal to anything constant within entities. */
  lemma WithinOrthogonal(ent: Labels, v: Vec, g: int -> real, n: nat)
    ensures Dot(Within(ent, v, n), PerGroup(ent, g), n) == 0.0
  {
    hide Sum, Dot, GroupMean;
    MeansPreserveSums(ent, v, g, n);
    DotLinear(1.0, v, -1.0, Means(ent, v, n), Within(ent, v, n), PerGroup(ent, g), n);
  }

  // ---------- the within transform of a regression ----------

  function ColumnMeans(ent: Labels, x: Mat, e: int, n: nat): Vec { j => GroupMean(ent, Col(x, j), e, n) }

  /** The mean of the fitted values is the fitted value at the means. */
  lemma MeanOfFit(ent: Labels, x: Mat, b: Vec, n: nat, k: nat, i: nat)
    requires i < n
    ensures GroupMean(ent, MulVec(x, b, k), ent(i), n) ==
            Dot(ColumnMeans(ent, x, ent(i), n), b, k)
  {
    hide Sum, Dot, GroupSize, GroupSum;
    var e := ent(i);
    var m, c := Member(ent, e), GroupSize(ent, e, n);
    GroupSizePositive(ent, n, i);
    var means := ColumnMeans(ent, x, e, n);
    var sums := MulVec(Transpose(x), m, n);
    forall j
      ensures sums(j) == c * means(j)
    {
      SumOfColumn(ent, x, n, e, j);
      GroupMeanTimesSize(ent, Col(x, j), n, i);
    }
    Adjoint(x, b, m, n, k);
    DotLinear(c, means, 0.0, means, sums, b, k);
    DotSym(sums, b, k);
    SumOfFit(ent, x, b, n, k, e);
    GroupMeanTimesSize(ent, MulVec(x, b, k), n, i);
    Cancel(GroupMean(ent, MulVec(x, b, k), e, n), Dot(means, b, k), c);
  }

  lemma SumOfColumn(ent: Labels, x: Mat, n: nat, e: int, j: int)
    ensures MulVec(Transpose(x), Member(ent, e), n)(j) == GroupSum(ent, Col(x, j), e, n)
  {
    hide Sum, Dot;
    var m := Member(ent, e);
    DotCong(Row(Transpose(x), j), Col(x, j), m, m, n);
    DotSym(Col(x, j), m, n);
  }

  lemma SumOfFit(ent: Labels, x: Mat, b: Vec, n: nat, k: nat, e: int)
    ensures Dot(b, MulVec(Transpose(x), Member(ent, e), n), k) == GroupSum(ent, MulVec(x, b, k), e, n)
  {
    hide Sum, Dot;
    Adjoint(x, b, Member(ent, e), n, k);
    DotSym(MulVec(x, b, k), Member(ent, e), n);
  }

  lemma GroupMeanLinear(ent: Labels, u: Vec, v: Vec, w: Vec, n: nat, i: nat)
    requires i < n && forall r :: 0 <= r < n ==> w(r) == u(r) - v(r)
    ensures GroupMean(ent, w, ent(i), n) == GroupMean(ent, u, ent(i), n) - GroupMean(ent, v, ent(i), n)
  {
    hide Sum, Dot, GroupSize;
    var e := ent(i);
    GroupSizePositive(ent, n, i);
    DotLinear(1.0, u, -1.0, v, w, Member(ent, e), n);
    GroupMeanTimesSize(ent, u, n, i);
    GroupMeanTimesSize(ent, v, n, i);
    GroupMeanTimesSize(ent, w, n, i);
    Cancel(GroupMean(ent, w, e, n), GroupMean(ent, u, e, n) - GroupMean(ent, v, e, n), GroupSize(ent, e, n));
  }

  lemma WithinEntry(ent: Labels, x: Mat, n: nat, i: int, j: int)
    ensures Row(WithinMat(ent, x, n), i)(j) == Row(x, i)(j) - ColumnMeans(ent, x, ent(i), n)(j)
  {
    hide Sum, Dot, GroupMean;
    assert WithinMat(ent, x, n)(i, j) == Within(ent, Col(x, j), n)(i);
    assert ColumnMeans(ent, x, ent(i), n)(j) == GroupMean(ent, Col(x, j), ent(i), n);
  }

  /** Demeaning the response and the regressors demeans the residuals, for any slopes. */
  lemma WithinResid(ent: Labels, y: Vec, x: Mat, b: Vec, n: nat, k: nat, i: nat)
    requires i < n
    ensures Resid(Within(ent, y, n), WithinMat(ent, x, n), b, k)(i) == Within(ent, Resid(y, x, b, k), n)(i)
  {
    hide Sum, Dot, GroupMean, WithinMat, ColumnMeans;
    var means, row := ColumnMeans(ent, x, ent(i), n), Row(WithinMat(ent, x, n), i);
    forall j
      ensures row(j) == Row(x, i)(j) - means(j)
    {
      WithinEntry(ent, x, n, i, j);
    }
    MeanOfFit(ent, x, b, n, k, i);
    GroupMeanLinear(ent, y, MulVec(x, b, k), Resid(y, x, b, k), n, i);
    DotLinear(1.0, Row(x, i), -1.0, means, row, b, k);
    var fit, mean := MulVec(x, b, k)(i), Dot(means, b, k);
    assert MulVec(WithinMat(ent, x, n), b, k)(i) == fit - mean;
    assert Within(ent, Resid(y, x, b, k), n)(i) ==
           (y(i) - fit) - GroupMean(ent, Resid(y, x, b, k), ent(i), n);
  }

  /**
   The raw-panel residual sum of squares of any intercepts and slopes is the within residual
   sum of squares of the slopes plus what the intercepts miss.
   */
  lemma PanelDecomposition(ent: Labels, y: Vec, x: Mat, alpha: int -> real, b: Vec, n: nat, k: nat, miss: Vec)
    requires forall i :: 0 <= i < n ==> miss(i) == Intercepts(ent, y, x, b, n, k)(ent(i)) - alpha(ent(i))
    ensures PanelRss(ent, y, x, alpha, b, n, k) ==
            Rss(Within(ent, y, n), WithinMat(ent, x, n), b, n, k) + Dot(miss, miss, n)
  {
    hide Sum, Dot, GroupMean, MulVec;
    var u := Resid(y, x, b, k);
    var w, r := Within(ent, u, n), PanelResid(ent, y, x, alpha, b, k);
    var g: int -> real := e => GroupMean(ent, u, e, n) - alpha(e);
    var weights := PerGroup(ent, g);
    WithinOrthogonal(ent, u, g, n);
    DotCong(weights, miss, weights, miss, n);
    DotSquare(1.0, w, 1.0, weights, r, n);
    WithinRss(ent, y, x, b, n, k);
  }

  lemma WithinRss(ent: Labels, y: Vec, x: Mat, b: Vec, n: nat, k: nat)
    ensures var w := Within(ent, Resid(y, x, b, k), n);
      Rss(Within(ent, y, n), WithinMat(ent, x, n), b, n, k) == Dot(w, w, n)
  {
    hide Sum, Dot, GroupMean, MulVec;
    var w, e := Within(ent, Resid(y, x, b, k), n), Resid(Within(ent, y, n), WithinMat(ent, x, n), b, k);
    forall i: nat | i < n
      ensures e(i) == w(i)
    {
      WithinResid(ent, y, x, b, n, k, i);
    }
    DotCong(e, w, e, w, n);
  }

  /**
   Least squares with one free intercept per entity is least squares on the demeaned data:
   slopes that solve the demeaned problem, with the intercepts they imply, are at least as
   good as any other intercepts and slopes.
   */
  lemma WithinIsDummyVariables(ent: Labels, y: Vec, x: Mat, b: Vec, alpha': int -> real, b': Vec, n: nat, k: nat)
    requires NormalEquations(Within(ent, y, n), WithinMat(ent, x, n), b, n, k)
    ensures PanelRss(ent, y, x, Intercepts(ent, y, x, b, n, k), b, n, k) ==
            Rss(Within(ent, y, n), WithinMat(ent, x, n), b, n, k)
    ensures PanelRss(ent, y, x, alpha', b', n, k) >= Rss(Within(ent, y, n), WithinMat(ent, x, n), b, n, k)
  {
    hide Sum, Dot, GroupMean, MulVec, Rss, PanelRss;
    var zero: Vec := i => 0.0;
    PanelDecomposition(ent, y, x, Intercepts(ent, y, x, b, n, k), b, n, k, zero);
    DotZero(zero, zero, n);
    var miss: Vec := i => Intercepts(ent, y, x, b', n, k)(ent(i)) - alpha'(ent(i));
    PanelDecomposition(ent, y, x, alpha', b', n, k, miss);
    DotSelf(miss, n);
    LeastSquaresMinimum(Within(ent, y, n), WithinMat(ent, x, n), b, b', n, k);
  }

  /** When the demeaned columns are independent, no other slopes or intercepts do equally well. */
  lemma WithinUnique(ent: Labels, y: Vec, x: Mat, b: Vec, alpha': int -> real, b': Vec, n: nat, k: nat)
    requires NormalEquations(Within(ent, y, n), WithinMat(ent, x, n), b, n, k)
    requires Independent(WithinMat(ent, x, n), n, k)
    requires PanelRss(ent, y, x, alpha', b', n, k) <= Rss(Within(ent, y, n), WithinMat(ent, x, n), b, n, k)
    ensures Agree(b, b', k)
    ensures forall i :: 0 <= i < n ==> alpha'(ent(i)) == Intercepts(ent, y, x, b, n, k)(ent(i))
  {
    hide Sum, Dot, GroupMean, MulVec, Rss, PanelRss;
    var miss: Vec := i => Intercepts(ent, y, x, b', n, k)(ent(i)) - alpha'(ent(i));
    PanelDecomposition(ent, y, x, alpha', b', n, k, miss);
    DotSelf(miss, n);
    LeastSquaresMinimum(Within(ent, y, n), WithinMat(ent, x, n), b, b', n, k);
    forall i: nat | i < n
      ensures alpha'(ent(i)) == Intercepts(ent, y, x, b, n, k)(ent(i))
    {
      assert miss(i) == 0.0;
      assert Intercepts(ent, y, x, b', n, k)(ent(i)) == alpha'(ent(i));
      InterceptsSame(ent, y, x, b, b', n, k, ent(i));
    }
  }

  lemma InterceptsSame(ent: Labels, y: Vec, x: Mat, b: Vec, b': Vec, n: nat, k: nat, e: int)
    requires Agree(b, b', k)
    ensures Intercepts(ent, y, x, b, n, k)(e) == Intercepts(ent, y, x, b', n, k)(e)
  {
    hide Sum, Dot, GroupMean;
    ResidCong(y, y, x, x, b, b', n, k);
    GroupMeanCong(ent, Resid(y, x, b, k), Resid(y, x, b', k), e, n);
  }

  lemma GroupMeanCong(ent: Labels, u: Vec, v: Vec, e: int, n: nat)
    requires Agree(u, v, n)
    ensures GroupMean(ent, u, e, n) == GroupMean(ent, v, e, n)
  {
    hide Sum, Dot, GroupSize;
    DotCong(Member(ent, e), Member(ent, e), u, v, n);
  }
}
