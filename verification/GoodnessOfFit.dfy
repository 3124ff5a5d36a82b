/**
 When the reported R^2, adjusted R^2 and F statistic mean what their names say.

 The program computes the total sum of squares about the mean whether or not the design
 can represent a mean. This module gives the exact condition under which R^2 is a share.
 */
module GoodnessOfFit {
  import opened RealSums
  import opened LeastSquares
  import opened Ols

  /** The series that differs from the constant c only in its first entry. */
  function Bumped(c: real): Vec { r => if r == 0 then c + 1.0 else c }

  /** Adding a constant to a series does not change its variation, which is positive for a bump. */
  lemma BumpedVariation(c: real, n: nat)
    requires n >= 2
    ensures Tss(Bumped(c), n) == Tss(Bumped(0.0), n) > 0.0
  {
    hide Sum, Dot;
    var y, z := Bumped(c), Bumped(0.0);
    SumConst(r => c, c, n);
    SumLinear(1.0, z, 1.0, r => c, y, n);
    var u, v := Centered(y, n), Centered(z, n);
    DotCong(u, v, u, v, n);
    DotSelf(v, n);
    assert v(0) != v(1);
  }

  /** What the residual of the constant series sees of the response. */
  lemma ResidualAgainstOnes(y: Vec, x: Mat, b: Vec, g: Vec, n: nat, k: nat)
    requires NormalEquations(y, x, b, n, k) && NormalEquations(Ones(), x, g, n, k)
    ensures Dot(Resid(y, x, b, k), Resid(Ones(), x, g, k), n) == Dot(y, Resid(Ones(), x, g, k), n)
  {
    hide Sum, Dot;
    var e, f, w := Resid(y, x, b, k), Resid(Ones(), x, g, k), MulVec(x, b, k);
    NormalOrthogonal(Ones(), x, g, b, n, k);
    DotLinear(1.0, y, -1.0, w, e, f, n);
  }

  /** <bumped(c), f> = c <1, f> + f(0), and <1, f> = |f|^2 for the residual f of the constant. */
  lemma BumpedAgainst(c: real, x: Mat, g: Vec, n: nat, k: nat, f: Vec)
    requires n > 0 && NormalEquations(Ones(), x, g, n, k) && f == Resid(Ones(), x, g, k)
    ensures Dot(Bumped(c), f, n) == c * Dot(f, f, n) + f(0)
  {
    hide Sum, Dot;
    var u: Vec := r => if r == 0 then 1.0 else 0.0;
    ResidualAgainstOnes(Ones(), x, g, g, n, k);
    DotLinear(c, Ones(), 1.0, u, Bumped(c), f, n);
    DotPick(u, f, 0, n);
  }

  /** Columns that do not span a constant fit some response worse than its own mean does. */
  lemma NegativeRSquared(x: Mat, n: nat, k: nat) returns (y: Vec, b: Vec)
    requires n >= 2 && !SpansConstant(x, n, k)
    ensures NormalEquations(y, x, b, n, k)
    ensures Tss(y, n) > 0.0 && Rss(y, x, b, n, k) > Tss(y, n)
  {
    hide Sum, Dot, Tss, Centered, NormalEquations;
    var g := Project(Ones(), x, n, k);
    var f := Resid(Ones(), x, g, k);
    var q, t := Dot(f, f, n), Tss(Bumped(0.0), n);
    BumpedVariation(0.0, n);
    DotSelf(f, n);
    if AllZero(f, n) {
      ConstantIsSpanned(x, g, n, k);
      assert false;
    }
    // Choose c so large that <y, f> = m with m^2 > t q.
    var m := t * q + 1.0;
    var c := (m - f(0)) / q;
    assert c * q == m - f(0);
    y := Bumped(c);
    BumpedVariation(c, n);
    b := Project(y, x, n, k);
    BumpedAgainst(c, x, g, n, k, f);
    ResidualAgainstOnes(y, x, b, g, n, k);
    var e := Resid(y, x, b, k);
    assert Dot(e, f, n) == m;
    CauchySchwarz(e, f, n, Rss(y, x, b, n, k), q, m);
    OutgrowsVariation(Rss(y, x, b, n, k), t, q, m);
  }

  lemma ConstantIsSpanned(x: Mat, g: Vec, n: nat, k: nat)
    requires AllZero(Resid(Ones(), x, g, k), n)
    ensures SpansConstant(x, n, k)
  {
    hide Sum, Dot;
    var f := Resid(Ones(), x, g, k);
    forall r | 0 <= r < n
      ensures MulVec(x, g, k)(r) == 1.0
    {
      assert f(r) == 0.0;
    }
    assert ConstantCombination(x, g, n, k);
  }

  lemma OutgrowsVariation(rss: real, t: real, q: real, m: real)
    requires q > 0.0 && t > 0.0 && m == t * q + 1.0 && m * m <= rss * q
    ensures rss > t
  {
    var p := t * q;
    ProductSign(t, q, p);
    ProductMono(m, 1.0, m, m, m * m);
    assert rss * q > t * q;
    if rss <= t {
      ProductMono(q, rss, t, rss * q, t * q);
    }
  }

  /**
   R^2 is a non-negative share of the variation for every response exactly when the columns
   of the design span a constant.
   */
  lemma RSquaredNonnegativeIff(x: Mat, n: nat, k: nat)
    requires n >= 2
    ensures SpansConstant(x, n, k) <==>
      forall y: Vec, b: Vec :: NormalEquations(y, x, b, n, k) ==>
        RSquaredOf(Rss(y, x, b, n, k), Tss(y, n)) >= 0.0
  {
    hide Sum, Dot, Tss, Rss, RSquaredOf, NormalEquations, SpansConstant;
    if SpansConstant(x, n, k) {
      forall y: Vec, b: Vec | NormalEquations(y, x, b, n, k)
        ensures RSquaredOf(Rss(y, x, b, n, k), Tss(y, n)) >= 0.0
      {
        VariationSplits(y, x, b, n, k);
        DotSelf(Explained(y, x, b, n, k), n);
        RssNonneg(y, x, b, n, k);
        RSquaredRange(Rss(y, x, b, n, k), Tss(y, n));
      }
    } else {
      var y, b := NegativeRSquared(x, n, k);
      RSquaredMeaning(Rss(y, x, b, n, k), Tss(y, n));
    }
  }
}
