/**
 Facts about least squares that hold for any design matrix: the normal equations describe
 the minimisers of the residual sum of squares, and which share of the variation a design
 containing a constant must explain.
 */
module LeastSquares {
  import opened RealSums
  import opened CholeskyFactor

  function Resid(y: Vec, x: Mat, b: Vec, k: nat): Vec { r => y(r) - MulVec(x, b, k)(r) }

  /** Residual sum of squares of the coefficients b. */
  function Rss(y: Vec, x: Mat, b: Vec, n: nat, k: nat): real {
    Dot(Resid(y, x, b, k), Resid(y, x, b, k), n)
  }

  /** The residuals of b are orthogonal to every column of the design. */
  ghost predicate NormalEquations(y: Vec, x: Mat, b: Vec, n: nat, k: nat) {
    forall c :: 0 <= c < k ==> Dot(Col(x, c), Resid(y, x, b, k), n) == 0.0
  }

  function GramOf(x: Mat, n: nat): Mat { (i, j) => Dot(Col(x, i), Col(x, j), n) }

  function Mean(y: Vec, n: nat): real
    requires n > 0
  {
    Sum(y, n) / n as real
  }

  function Centered(y: Vec, n: nat): Vec
    requires n > 0
  {
    var m := Mean(y, n);
    r => y(r) - m
  }

  /** Total sum of squares about the mean. */
  function Tss(y: Vec, n: nat): real
    requires n > 0
  {
    Dot(Centered(y, n), Centered(y, n), n)
  }

  /** Some combination of the columns is the constant 1, as when an intercept column is present. */
  ghost predicate SpansConstant(x: Mat, n: nat, k: nat) {
    exists u: Vec :: ConstantCombination(x, u, n, k)
  }

  ghost predicate ConstantCombination(x: Mat, u: Vec, n: nat, k: nat) {
    forall r :: 0 <= r < n ==> MulVec(x, u, k)(r) == 1.0
  }

  // ---------- normal equations ----------

  /** Component c of X^T (y - X b) is component c of X^T y - (X^T X) b. */
  lemma NormalComponent(y: Vec, x: Mat, b: Vec, n: nat, k: nat, c: nat)
    requires c < k
    ensures Dot(Col(x, c), Resid(y, x, b, k), n) == Dot(Col(x, c), y, n) - MulVec(GramOf(x, n), b, k)(c)
  {
    hide Sum;
    var w := MulVec(x, b, k);
    GramMulVec(x, GramOf(x, n), b, n, k, c);
    DotCong(Row(Transpose(x), c), Col(x, c), w, w, n);
    DotLinear(1.0, y, -1.0, w, Resid(y, x, b, k), Col(x, c), n);
  }

  /** Solving (X^T X) b = X^T y is the same as making the residuals orthogonal to the columns. */
  lemma SystemIsNormal(y: Vec, x: Mat, b: Vec, q: Vec, n: nat, k: nat)
    requires forall c :: 0 <= c < k ==> q(c) == Dot(Col(x, c), y, n)
    ensures SolvesSystem(GramOf(x, n), b, q, k) <==> NormalEquations(y, x, b, n, k)
  {
    hide Sum;
    var g := MulVec(GramOf(x, n), b, k);
    forall c: nat | c < k
      ensures Dot(Col(x, c), Resid(y, x, b, k), n) == 0.0 <==> g(c) == q(c)
    {
      NormalComponent(y, x, b, n, k, c);
    }
  }

  /** Residuals that satisfy the normal equations are orthogonal to the whole column space. */
  lemma NormalOrthogonal(y: Vec, x: Mat, b: Vec, d: Vec, n: nat, k: nat)
    requires NormalEquations(y, x, b, n, k)
    ensures Dot(MulVec(x, d, k), Resid(y, x, b, k), n) == 0.0
  {
    hide Sum;
    var e := Resid(y, x, b, k);
    Adjoint(x, d, e, n, k);
    var g := MulVec(Transpose(x), e, n);
    forall c | 0 <= c < k
      ensures g(c) == 0.0
    {
      DotCong(Row(Transpose(x), c), Col(x, c), e, e, n);
    }
    DotZero(d, g, k);
  }

  lemma ResidShift(y: Vec, x: Mat, b: Vec, b': Vec, d: Vec, k: nat, r: int)
    requires forall c :: 0 <= c < k ==> d(c) == b'(c) - b(c)
    ensures Resid(y, x, b', k)(r) == Resid(y, x, b, k)(r) - MulVec(x, d, k)(r)
  {
    hide Sum;
    MulVecLinear(x, 1.0, b', -1.0, b, d, k, r);
  }

  /** Moving away from a solution by d adds exactly |X d|^2 to the residual sum of squares. */
  lemma RssDecomposition(y: Vec, x: Mat, b: Vec, b': Vec, d: Vec, n: nat, k: nat)
    requires NormalEquations(y, x, b, n, k)
    requires forall c :: 0 <= c < k ==> d(c) == b'(c) - b(c)
    ensures Rss(y, x, b', n, k) == Rss(y, x, b, n, k) + Dot(MulVec(x, d, k), MulVec(x, d, k), n)
  {
    hide Sum;
    var e, e', w := Resid(y, x, b, k), Resid(y, x, b', k), MulVec(x, d, k);
    NormalOrthogonal(y, x, b, d, n, k);
    DotSym(e, w, n);
    forall r | 0 <= r < n
      ensures e'(r) == e(r) - w(r)
    {
      ResidShift(y, x, b, b', d, k, r);
    }
    Pythagoras(e, w, e', n);
  }

  lemma Pythagoras(e: Vec, w: Vec, e': Vec, n: nat)
    requires Dot(e, w, n) == 0.0
    requires forall r :: 0 <= r < n ==> e'(r) == e(r) - w(r)
    ensures Dot(e', e', n) == Dot(e, e, n) + Dot(w, w, n)
  {
    hide Sum;
    DotSquare(1.0, e, -1.0, w, e', n);
  }

  /**
   A solution of the normal equations minimises the residual sum of squares over all
   coefficient vectors; when the columns are independent it is the only minimiser.
   */
  lemma LeastSquaresMinimum(y: Vec, x: Mat, b: Vec, b': Vec, n: nat, k: nat)
    requires NormalEquations(y, x, b, n, k)
    ensures Rss(y, x, b, n, k) <= Rss(y, x, b', n, k)
    ensures Independent(x, n, k) && Rss(y, x, b', n, k) <= Rss(y, x, b, n, k) ==> Agree(b, b', k)
  {
    hide Sum;
    var d: Vec := c => b'(c) - b(c);
    RssDecomposition(y, x, b, b', d, n, k);
    var w := MulVec(x, d, k);
    DotSelf(w, n);
    if Independent(x, n, k) && Rss(y, x, b', n, k) <= Rss(y, x, b, n, k) {
      assert AllZero(w, n);
      forall c | 0 <= c < k
        ensures b(c) == b'(c)
      {
        assert d(c) == 0.0;
      }
    }
  }

  /** Independent columns and an exact linear relation: least squares recovers its coefficients. */
  lemma ExactFit(y: Vec, x: Mat, b: Vec, t: Vec, n: nat, k: nat)
    requires NormalEquations(y, x, b, n, k) && Independent(x, n, k)
    requires forall r :: 0 <= r < n ==> y(r) == MulVec(x, t, k)(r)
    ensures Agree(b, t, k) && Rss(y, x, b, n, k) == 0.0
  {
    hide Sum;
    var e := Resid(y, x, t, k);
    DotZero(e, e, n);
    DotSelf(Resid(y, x, b, k), n);
    LeastSquaresMinimum(y, x, b, t, n, k);
  }

  // ---------- equal and nested designs ----------

  ghost predicate SameEntries(x: Mat, x': Mat, n: nat, k: nat) {
    forall r, c :: 0 <= r < n && 0 <= c < k ==> x(r, c) == x'(r, c)
  }

  lemma MulVecSame(x: Mat, x': Mat, b: Vec, n: nat, k: nat)
    requires SameEntries(x, x', n, k)
    ensures Agree(MulVec(x, b, k), MulVec(x', b, k), n)
  {
    hide Sum, Dot;
    forall r | 0 <= r < n
      ensures MulVec(x, b, k)(r) == MulVec(x', b, k)(r)
    {
      DotCong(Row(x, r), Row(x', r), b, b, k);
    }
  }

  lemma ResidCong(y: Vec, y': Vec, x: Mat, x': Mat, b: Vec, b': Vec, n: nat, k: nat)
    requires Agree(y, y', n) && SameEntries(x, x', n, k) && Agree(b, b', k)
    ensures Agree(Resid(y, x, b, k), Resid(y', x', b', k), n)
  {
    hide Sum, Dot;
    forall r | 0 <= r < n
      ensures Resid(y, x, b, k)(r) == Resid(y', x', b', k)(r)
    {
      DotCong(Row(x, r), Row(x', r), b, b', k);
      assert MulVec(x, b, k)(r) == MulVec(x', b', k)(r);
    }
  }

  lemma RssCong(y: Vec, y': Vec, x: Mat, x': Mat, b: Vec, b': Vec, n: nat, k: nat)
    requires Agree(y, y', n) && SameEntries(x, x', n, k) && Agree(b, b', k)
    ensures Rss(y, x, b, n, k) == Rss(y', x', b', n, k)
  {
    hide Sum, Resid;
    ResidCong(y, y', x, x', b, b', n, k);
    var e, e' := Resid(y, x, b, k), Resid(y', x', b', k);
    DotCong(e, e', e, e', n);
  }

  /** Coefficients of the smaller model, with zero weight on the extra columns. */
  function Padded(b: Vec, k: nat): Vec { c => if 0 <= c < k then b(c) else 0.0 }

  /** Padded coefficients combine the columns of the smaller design. */
  lemma PaddedMulVec(x: Mat, x': Mat, b: Vec, n: nat, k: nat, k': nat)
    requires k <= k' && SameEntries(x, x', n, k)
    ensures Agree(MulVec(x', Padded(b, k), k'), MulVec(x, b, k), n)
  {
    hide Sum, Dot;
    forall r | 0 <= r < n
      ensures MulVec(x', Padded(b, k), k')(r) == MulVec(x, b, k)(r)
    {
      DotTail(Row(x', r), Padded(b, k), k, k');
      DotCong(Row(x, r), Row(x', r), b, Padded(b, k), k);
    }
  }

  lemma PaddedRss(y: Vec, x: Mat, x': Mat, b: Vec, n: nat, k: nat, k': nat)
    requires k <= k' && SameEntries(x, x', n, k)
    ensures Rss(y, x', Padded(b, k), n, k') == Rss(y, x, b, n, k)
  {
    hide Sum, Dot, MulVec;
    PaddedMulVec(x, x', b, n, k, k');
    var e, e' := Resid(y, x, b, k), Resid(y, x', Padded(b, k), k');
    forall r | 0 <= r < n
      ensures e(r) == e'(r)
    {
      assert MulVec(x', Padded(b, k), k')(r) == MulVec(x, b, k)(r);
    }
    DotCong(e, e', e, e', n);
  }

  /** More columns still span a constant. */
  lemma SpansConstantNested(x: Mat, x': Mat, n: nat, k: nat, k': nat)
    requires k <= k' && SameEntries(x, x', n, k) && SpansConstant(x, n, k)
    ensures SpansConstant(x', n, k')
  {
    hide MulVec;
    var u: Vec :| ConstantCombination(x, u, n, k);
    PaddedMulVec(x, x', u, n, k, k');
    assert ConstantCombination(x', Padded(u, k), n, k');
  }

  // ---------- total, explained and residual variation ----------

  /** What the fitted values add to the mean. */
  function Explained(y: Vec, x: Mat, b: Vec, n: nat, k: nat): Vec
    requires n > 0
  {
    var m := Mean(y, n);
    r => MulVec(x, b, k)(r) - m
  }

  /** With a constant in the column space, total variation is explained plus residual variation. */
  lemma VariationSplits(y: Vec, x: Mat, b: Vec, n: nat, k: nat)
    requires n > 0 && NormalEquations(y, x, b, n, k) && SpansConstant(x, n, k)
    ensures Tss(y, n) == Rss(y, x, b, n, k) + Dot(Explained(y, x, b, n, k), Explained(y, x, b, n, k), n)
  {
    hide Sum, Dot, Resid, Rss, Tss, NormalEquations;
    var u: Vec :| ConstantCombination(x, u, n, k);
    var m := Mean(y, n);
    var b': Vec := c => m * u(c);
    var d: Vec := c => b'(c) - b(c);
    RssDecomposition(y, x, b, b', d, n, k);
    ConstantFit(y, x, u, b', n, k, m);
    ExplainedShift(y, x, u, b, b', d, n, k, m);
  }

  lemma ExplainedShift(y: Vec, x: Mat, u: Vec, b: Vec, b': Vec, d: Vec, n: nat, k: nat, m: real)
    requires n > 0 && m == Mean(y, n) && ConstantCombination(x, u, n, k)
    requires forall c :: 0 <= c < k ==> b'(c) == m * u(c) && d(c) == b'(c) - b(c)
    ensures Dot(MulVec(x, d, k), MulVec(x, d, k), n) ==
            Dot(Explained(y, x, b, n, k), Explained(y, x, b, n, k), n)
  {
    hide Sum, Dot;
    var w, v := Explained(y, x, b, n, k), MulVec(x, d, k);
    forall r | 0 <= r < n
      ensures w(r) == -1.0 * v(r) + 0.0 * v(r)
    {
      MulVecLinear(x, 1.0, b', -1.0, b, d, k, r);
      ConstantFitAt(x, u, b', k, m, r);
      assert MulVec(x, u, k)(r) == 1.0;
    }
    DotSquare(-1.0, v, 0.0, v, w, n);
  }

  lemma ConstantFitAt(x: Mat, u: Vec, b: Vec, k: nat, m: real, r: int)
    requires forall c :: 0 <= c < k ==> b(c) == m * u(c)
    ensures MulVec(x, b, k)(r) == m * MulVec(x, u, k)(r)
  {
    hide Sum;
    MulVecLinear(x, m, u, 0.0, u, b, k, r);
  }

  lemma ConstantFit(y: Vec, x: Mat, u: Vec, b: Vec, n: nat, k: nat, m: real)
    requires n > 0 && m == Mean(y, n) && ConstantCombination(x, u, n, k)
    requires forall c :: 0 <= c < k ==> b(c) == m * u(c)
    ensures Rss(y, x, b, n, k) == Tss(y, n)
  {
    hide Sum;
    var e, w := Resid(y, x, b, k), Centered(y, n);
    forall r | 0 <= r < n
      ensures e(r) == w(r)
    {
      ConstantFitAt(x, u, b, k, m, r);
      assert MulVec(x, u, k)(r) == 1.0;
    }
    DotCong(e, w, e, w, n);
  }

  lemma TssNonneg(y: Vec, n: nat)
    requires n > 0
    ensures Tss(y, n) >= 0.0
  {
    hide Sum;
    DotSelf(Centered(y, n), n);
  }

  lemma RssNonneg(y: Vec, x: Mat, b: Vec, n: nat, k: nat)
    ensures Rss(y, x, b, n, k) >= 0.0
  {
    hide Sum;
    DotSelf(Resid(y, x, b, k), n);
  }

  // ---------- the normal equations can always be solved ----------

  /** Any response can be projected on any columns, dependent or not. */
  lemma {:induction false} Project(y: Vec, x: Mat, n: nat, k: nat) returns (b: Vec)
    ensures NormalEquations(y, x, b, n, k)
  {
    hide Sum, Dot;
    if k == 0 {
      b := c => 0.0;
    } else {
      var m := k - 1;
      var a := Project(y, x, n, m);
      var g := Project(Col(x, m), x, n, m);
      b := ProjectStep(y, x, n, m, a, g);
    }
  }

  lemma ProjectStep(y: Vec, x: Mat, n: nat, k: nat, a: Vec, g: Vec) returns (b: Vec)
    requires NormalEquations(y, x, a, n, k) && NormalEquations(Col(x, k), x, g, n, k)
    ensures NormalEquations(y, x, b, n, k + 1)
  {
    hide Sum, Dot;
    var e, f := Resid(y, x, a, k), Resid(Col(x, k), x, g, k);
    var q, s := Dot(f, f, n), Dot(e, f, n);
    DotSelf(f, n);
    var t := if q == 0.0 then 0.0 else s / q;
    if q == 0.0 { DotZero(e, f, n); }
    assert s == t * q;
    b := c => if c == k then t else a(c) - t * g(c);
    var e' := Resid(y, x, b, k + 1);
    forall r | 0 <= r < n
      ensures e'(r) == 1.0 * e(r) + (-t) * f(r)
    {
      ProjectResid(y, x, k, a, g, b, t, r);
    }
    forall c: nat | c < k + 1
      ensures Dot(Col(x, c), e', n) == 0.0
    {
      DotLinear(1.0, e, -t, f, e', Col(x, c), n);
      if c == k {
        LastColumn(x, n, k, g, e);
        LastColumn(x, n, k, g, f);
        DotSym(e, f, n);
      }
    }
  }

  lemma ProjectResid(y: Vec, x: Mat, k: nat, a: Vec, g: Vec, b: Vec, t: real, r: int)
    requires forall c :: 0 <= c < k ==> b(c) == a(c) - t * g(c)
    requires b(k) == t
    ensures Resid(y, x, b, k + 1)(r) == Resid(y, x, a, k)(r) - t * Resid(Col(x, k), x, g, k)(r)
  {
    hide Sum, Dot;
    DotStep(Row(x, r), b, k);
    DotLinear(1.0, a, -t, g, b, Row(x, r), k);
    var z, p, q := x(r, k), MulVec(x, g, k)(r), MulVec(x, a, k)(r);
    assert Resid(Col(x, k), x, g, k)(r) == z - p;
    assert MulVec(x, b, k + 1)(r) == q - t * p + z * t;
    assert t * (z - p) == z * t - t * p;
  }

  /** For a vector orthogonal to the first k columns, column k acts like its own residual. */
  lemma LastColumn(x: Mat, n: nat, k: nat, g: Vec, e: Vec)
    requires forall c :: 0 <= c < k ==> Dot(Col(x, c), e, n) == 0.0
    ensures Dot(Col(x, k), e, n) == Dot(Resid(Col(x, k), x, g, k), e, n)
  {
    hide Sum, Dot;
    var w := MulVec(x, g, k);
    DotLinear(1.0, Col(x, k), -1.0, w, Resid(Col(x, k), x, g, k), e, n);
    Adjoint(x, g, e, n, k);
    var h := MulVec(Transpose(x), e, n);
    forall c | 0 <= c < k
      ensures h(c) == 0.0
    {
      DotCong(Row(Transpose(x), c), Col(x, c), e, e, n);
    }
    DotZero(g, h, k);
  }
}
