/**
 The Cholesky factorisation used as a definiteness test and as a solver
 (crates/tdw-analytics-econometrics/src/linalg.rs).

 `Factor` succeeds exactly on positive definite matrices. For a Gram matrix X^T X that
 means: exactly when the columns of X are linearly independent.
 */
module CholeskyFactor {
  import opened Results
  import opened RealSums
  import opened LinearAlgebra

  // ---------- what the factor promises ----------

  /** The symmetric matrix described by the lower triangle of a, the only part ever read. */
  function SymLower(a: Mat): Mat { (i, j) => if j <= i then a(i, j) else a(j, i) }

  ghost predicate PositiveDefinite(a: Mat, n: nat) {
    forall v: Vec :: !AllZero(v, n) ==> Quad(a, v, n) > 0.0
  }

  /** No combination of the columns of x vanishes except the trivial one. */
  ghost predicate Independent(x: Mat, rows: nat, cols: nat) {
    forall v: Vec :: AllZero(MulVec(x, v, cols), rows) ==> AllZero(v, cols)
  }

  ghost predicate LowerTriangular(l: Mat, n: nat) {
    forall p, q :: 0 <= p < q < n ==> l(p, q) == 0.0
  }

  ghost predicate PositiveDiagonal(l: Mat, n: nat) {
    forall p :: 0 <= p < n ==> l(p, p) > 0.0
  }

  /** L L^T. */
  function Squared(l: Mat, n: nat): Mat { (i, j) => Dot(Row(l, i), Row(l, j), n) }

  ghost predicate SolvesSystem(a: Mat, x: Vec, b: Vec, n: nat) {
    forall i :: 0 <= i < n ==> MulVec(a, x, n)(i) == b(i)
  }

  function Unit(j: int): Vec { i => if i == j then 1.0 else 0.0 }

  /** The lower-triangular factor, stored densely. */
  datatype Cholesky = Cholesky(n: nat, l: seq<real>) {
    function At(): Mat { Grid(l, n) }

    ghost predicate Valid() {
      |l| == n * n && LowerTriangular(At(), n) && PositiveDiagonal(At(), n)
    }

    /** L L^T equals the symmetric matrix given by the lower triangle of a. */
    ghost predicate Factors(a: Mat) {
      && Valid()
      && forall i, j :: 0 <= i < n && 0 <= j < n ==> Squared(At(), n)(i, j) == SymLower(a)(i, j)
    }

    /** Forward then back substitution: L y = b, then L^T x = y. */
    method Solve(b: seq<real>) returns (x: seq<real>)
      requires Valid() && |b| == n
      ensures |x| == n
      ensures SolvesSystem(Squared(At(), n), AsVec(x), AsVec(b), n)
    {
      var y := Forward(b);
      x := Back(y);
      SubstitutionSolves(At(), AsVec(x), AsVec(y), AsVec(b), n);
    }

    method Forward(b: seq<real>) returns (y: seq<real>)
      requires Valid() && |b| == n
      ensures |y| == n
      ensures ForwardUpTo(At(), n, b, y, n)
    {
      ghost var m := At();
      var res := new real[n](_ => 0.0);
      for i := 0 to n
        invariant ForwardUpTo(m, n, b, res[..], i)
      {
        var sum := ForwardSum(b, res[..], i);
        FlatIndex(i, i, n, n);
        var pivot := l[i * n + i];
        assert pivot == m(i, i) > 0.0;
        ForwardStep(m, n, b, res[..], i, sum, pivot);
        ghost var before := res[..];
        res[i] := sum / pivot;
        assert res[..] == before[i := sum / pivot];
      }
      y := res[..];
    }

    method ForwardSum(b: seq<real>, y: seq<real>, i: nat) returns (sum: real)
      requires Valid() && |b| == n && |y| == n && i < n
      ensures sum == b[i] - Dot(Row(At(), i), AsVec(y), i)
    {
      hide Sum, Dot;
      sum := b[i];
      DotZero(Row(At(), i), AsVec(y), 0);
      for k := 0 to i
        invariant sum == b[i] - Dot(Row(At(), i), AsVec(y), k)
      {
        FlatIndex(i, k, n, n);
        DotStep(Row(At(), i), AsVec(y), k);
        assert l[i * n + k] == Row(At(), i)(k);
        sum := sum - l[i * n + k] * y[k];
      }
    }

    method Back(y: seq<real>) returns (x: seq<real>)
      requires Valid() && |y| == n
      ensures |x| == n
      ensures BackUpTo(At(), n, y, x, 0)
    {
      ghost var m := At();
      var res := new real[n](_ => 0.0);
      for i := n downto 0
        invariant BackUpTo(m, n, y, res[..], i)
      {
        var sum := BackSum(y, res[..], i);
        FlatIndex(i, i, n, n);
        var pivot := l[i * n + i];
        assert pivot == m(i, i) > 0.0;
        BackStep(m, n, y, res[..], i, sum, pivot);
        ghost var before := res[..];
        res[i] := sum / pivot;
        assert res[..] == before[i := sum / pivot];
      }
      x := res[..];
    }

    method BackSum(y: seq<real>, x: seq<real>, i: nat) returns (sum: real)
      requires Valid() && |y| == n && |x| == n && i < n
      requires forall p :: 0 <= p <= i ==> x[p] == 0.0
      ensures sum == y[i] - Dot(Col(At(), i), AsVec(x), n)
    {
      hide Sum, Dot;
      sum := y[i];
      DotZero(Col(At(), i), AsVec(x), i + 1);
      for k := i + 1 to n
        invariant sum == y[i] - Dot(Col(At(), i), AsVec(x), k)
      {
        FlatIndex(k, i, n, n);
        DotStep(Col(At(), i), AsVec(x), k);
        assert l[k * n + i] == Col(At(), i)(k);
        sum := sum - l[k * n + i] * x[k];
      }
    }

    /** The diagonal of the inverse of L L^T, one unit-vector solve per entry. */
    method InverseDiagonal() returns (diag: seq<real>)
      requires Valid()
      ensures |diag| == n
      ensures forall j :: 0 <= j < n ==> IsInverseEntry(Squared(At(), n), n, j, diag[j])
      ensures forall j :: 0 <= j < n ==> diag[j] > 0.0
    {
      var res := new real[n](_ => 0.0);
      for j := 0 to n
        invariant forall p :: 0 <= p < j ==>
          IsInverseEntry(Squared(At(), n), n, p, res[p]) && res[p] > 0.0
      {
        var e := seq(n, _ => 0.0);
        e := e[j := 1.0];
        var col := Solve(e);
        res[j] := col[j];
        forall i | 0 <= i < n
          ensures MulVec(Squared(At(), n), AsVec(col), n)(i) == Unit(j)(i)
        {
        }
        assert SolvesSystem(Squared(At(), n), AsVec(col), Unit(j), n);
        SquaredPositiveDefinite(At(), n);
        InverseEntryPositive(Squared(At(), n), n, j, AsVec(col));
      }
      diag := res[..];
    }
  }

  /** d is entry (j, j) of the inverse of a: component j of a solution of a x = e_j. */
  ghost predicate IsInverseEntry(a: Mat, n: nat, j: nat, d: real) {
    exists col: Vec :: SolvesSystem(a, col, Unit(j), n) && d == col(j)
  }

  /** The first i equations of L y = b hold, and the rest of y is still zero. */
  ghost predicate ForwardUpTo(m: Mat, n: nat, b: seq<real>, y: seq<real>, i: nat) {
    && |b| == n && |y| == n
    && (forall p :: 0 <= p < n && p < i ==> Dot(Row(m, p), AsVec(y), n) == b[p])
    && (forall p :: i <= p < n ==> y[p] == 0.0)
  }

  /** The equations of L^T x = y from i on hold, and the earlier part of x is still zero. */
  ghost predicate BackUpTo(m: Mat, n: nat, y: seq<real>, x: seq<real>, i: nat) {
    && |y| == n && |x| == n
    && (forall p :: i <= p < n ==> Dot(Col(m, p), AsVec(x), n) == y[p])
    && (forall p :: 0 <= p < n && p < i ==> x[p] == 0.0)
  }

  lemma ForwardStep(m: Mat, n: nat, b: seq<real>, y: seq<real>, i: nat, sum: real, pivot: real)
    requires i < n && LowerTriangular(m, n) && ForwardUpTo(m, n, b, y, i)
    requires pivot == m(i, i) > 0.0
    requires sum == b[i] - Dot(Row(m, i), AsVec(y), i)
    ensures ForwardUpTo(m, n, b, y[i := sum / pivot], i + 1)
  {
    hide Sum;
    var q := sum / pivot;
    assert q * pivot == sum;
    var u, v := AsVec(y), AsVec(y[i := q]);
    forall p | 0 <= p <= i
      ensures Dot(Row(m, p), v, n) == b[p]
    {
      SumUpdate(k => Row(m, p)(k) * u(k), k => Row(m, p)(k) * v(k), i, n);
      if p == i {
        SumTail(k => Row(m, p)(k) * u(k), i, n);
      }
    }
  }

  lemma BackStep(m: Mat, n: nat, y: seq<real>, x: seq<real>, i: nat, sum: real, pivot: real)
    requires i < n && LowerTriangular(m, n) && BackUpTo(m, n, y, x, i + 1)
    requires pivot == m(i, i) > 0.0
    requires sum == y[i] - Dot(Col(m, i), AsVec(x), n)
    ensures BackUpTo(m, n, y, x[i := sum / pivot], i)
  {
    hide Sum;
    var q := sum / pivot;
    assert q * pivot == sum;
    var u, v := AsVec(x), AsVec(x[i := q]);
    forall p | i <= p < n
      ensures Dot(Col(m, p), v, n) == y[p]
    {
      SumUpdate(k => Col(m, p)(k) * u(k), k => Col(m, p)(k) * v(k), i, n);
    }
  }

  /** L y = b and L^T x = y give (L L^T) x = b. */
  lemma SubstitutionSolves(l: Mat, x: Vec, y: Vec, b: Vec, n: nat)
    requires forall i :: 0 <= i < n ==> Dot(Row(l, i), y, n) == b(i)
    requires forall i :: 0 <= i < n ==> Dot(Col(l, i), x, n) == y(i)
    ensures SolvesSystem(Squared(l, n), x, b, n)
  {
    hide Sum;
    var t := Transpose(l);
    SquaredIsGram(l, n);
    forall i | 0 <= i < n
      ensures MulVec(Squared(l, n), x, n)(i) == b(i)
    {
      GramMulVec(t, Squared(l, n), x, n, n, i);
      forall r | 0 <= r < n
        ensures MulVec(t, x, n)(r) == y(r)
      {
        DotCong(Row(t, r), Col(l, r), x, x, n);
      }
      DotCong(Row(Transpose(t), i), Row(l, i), MulVec(t, x, n), y, n);
    }
  }

  /** L L^T is the Gram matrix of the columns of L^T. */
  lemma SquaredIsGram(l: Mat, n: nat)
    ensures IsGram(Transpose(l), Squared(l, n), n, n)
  {
    hide Sum;
    forall i, j | 0 <= i < n && 0 <= j < n
      ensures Squared(l, n)(i, j) == Dot(Col(Transpose(l), i), Col(Transpose(l), j), n)
    {
      DotCong(Row(l, i), Col(Transpose(l), i), Row(l, j), Col(Transpose(l), j), n);
    }
  }

  // ---------- definiteness ----------

  lemma AllZeroDot(u: Vec, n: nat)
    requires !AllZero(u, n)
    ensures Dot(u, u, n) > 0.0
  {
    DotSelf(u, n);
  }

  /** A lower-triangular matrix with positive diagonal has a trivial kernel from the left. */
  lemma {:induction false} TriangularKernel(l: Mat, v: Vec, m: nat, n: nat)
    requires m <= n && LowerTriangular(l, n) && PositiveDiagonal(l, n)
    requires forall k :: 0 <= k < n ==> Dot(Col(l, k), v, n) == 0.0
    requires forall k :: m <= k < n ==> v(k) == 0.0
    ensures AllZero(v, n)
  {
    if m > 0 {
      var p := m - 1;
      var f: Vec := k => Col(l, p)(k) * v(k);
      SumTail(f, m, n);
      SumZero(f, p);
      assert l(p, p) * v(p) == 0.0;
      ProductSign(l(p, p), v(p), l(p, p) * v(p));
      TriangularKernel(l, v, p, n);
    }
  }

  /** v^T (L L^T) v = |L^T v|^2. */
  lemma SquaredQuad(l: Mat, v: Vec, n: nat, w: Vec)
    requires forall k :: 0 <= k < n ==> w(k) == Dot(Col(l, k), v, n)
    ensures Quad(Squared(l, n), v, n) == Dot(w, w, n)
  {
    hide Sum;
    var t := Transpose(l);
    SquaredIsGram(l, n);
    GramQuad(t, Squared(l, n), v, n, n);
    forall k | 0 <= k < n
      ensures MulVec(t, v, n)(k) == w(k)
    {
      DotCong(Row(t, k), Col(l, k), v, v, n);
    }
    DotCong(MulVec(t, v, n), w, MulVec(t, v, n), w, n);
  }

  lemma SquaredPositiveDefinite(l: Mat, n: nat)
    requires LowerTriangular(l, n) && PositiveDiagonal(l, n)
    ensures PositiveDefinite(Squared(l, n), n)
  {
    hide Sum;
    forall v: Vec | !AllZero(v, n)
      ensures Quad(Squared(l, n), v, n) > 0.0
    {
      var w: Vec := k => Dot(Col(l, k), v, n);
      SquaredQuad(l, v, n, w);
      if AllZero(w, n) {
        assert forall k :: 0 <= k < n ==> w(k) == Dot(Col(l, k), v, n);
        TriangularKernel(l, v, n, n);
      } else {
        AllZeroDot(w, n);
      }
    }
  }

  lemma PositiveDefiniteCong(a: Mat, b: Mat, n: nat)
    requires forall i, j :: 0 <= i < n && 0 <= j < n ==> a(i, j) == b(i, j)
    requires PositiveDefinite(a, n)
    ensures PositiveDefinite(b, n)
  {
    hide Sum;
    forall v: Vec | !AllZero(v, n)
      ensures Quad(b, v, n) > 0.0
    {
      QuadCong(a, b, v, n);
    }
  }

  /** A positive definite system has at most one solution. */
  lemma SolutionUnique(a: Mat, x: Vec, y: Vec, b: Vec, n: nat)
    requires PositiveDefinite(a, n) && SolvesSystem(a, x, b, n) && SolvesSystem(a, y, b, n)
    ensures Agree(x, y, n)
  {
    hide Sum;
    var d: Vec := k => x(k) - y(k);
    forall i | 0 <= i < n
      ensures MulVec(a, d, n)(i) == 0.0
    {
      MulVecLinear(a, 1.0, x, -1.0, y, d, n, i);
    }
    DotZero(d, MulVec(a, d, n), n);
    assert Quad(a, d, n) == 0.0;
    assert AllZero(d, n);
    forall k | 0 <= k < n
      ensures x(k) == y(k)
    {
      assert d(k) == 0.0;
    }
  }

  /** Entry (j, j) of the inverse of a positive definite matrix is positive. */
  lemma InverseEntryPositive(a: Mat, n: nat, j: nat, col: Vec)
    requires j < n && PositiveDefinite(a, n) && SolvesSystem(a, col, Unit(j), n)
    ensures col(j) > 0.0
  {
    hide Sum;
    var e := Unit(j);
    var r := MulVec(a, col, n)(j);
    assert r == 1.0;
    if AllZero(col, n) {
      DotZero(Row(a, j), col, n);
      assert false;
    }
    DotCong(col, col, MulVec(a, col, n), e, n);
    SumUpdate(k => 0.0, k => col(k) * e(k), j, n);
    SumZero(k => 0.0, n);
  }

  /** Positive definiteness of a Gram matrix is linear independence of the columns. */
  lemma GramPositiveDefinite(x: Mat, a: Mat, rows: nat, cols: nat)
    requires IsGram(x, a, rows, cols)
    ensures PositiveDefinite(a, cols) <==> Independent(x, rows, cols)
    ensures PositiveDefinite(SymLower(a), cols) <==> Independent(x, rows, cols)
  {
    hide Sum;
    forall v: Vec
      ensures Quad(a, v, cols) > 0.0 <==> !AllZero(MulVec(x, v, cols), rows)
    {
      GramQuad(x, a, v, rows, cols);
      DotSelf(MulVec(x, v, cols), rows);
    }
    forall v: Vec | AllZero(v, cols)
      ensures AllZero(MulVec(x, v, cols), rows)
    {
      forall r | 0 <= r < rows
        ensures MulVec(x, v, cols)(r) == 0.0
      {
        DotZero(Row(x, r), v, cols);
      }
    }
    forall i, j | 0 <= i < cols && 0 <= j < cols
      ensures a(i, j) == SymLower(a)(i, j)
    {
      DotSym(Col(x, i), Col(x, j), rows);
    }
    if PositiveDefinite(a, cols) {
      PositiveDefiniteCong(a, SymLower(a), cols);
    }
    if PositiveDefinite(SymLower(a), cols) {
      PositiveDefiniteCong(SymLower(a), a, cols);
    }
  }

  // ---------- the factorisation ----------

  /** Rows before i of the factor are final, and so are the first j entries of row i. */
  predicate FactorFinal(p: nat, q: nat, i: nat, j: nat) {
    q <= p && (p < i || (p == i && q < j))
  }

  ghost predicate Reproduces(l: Mat, a: Mat, p: int, q: nat) {
    Dot(Row(l, p), Row(l, q), q + 1) == a(p, q)
  }

  ghost predicate FactorUpTo(l: Mat, a: Mat, n: nat, i: nat, j: nat) {
    && (forall p: nat, q: nat {:trigger Reproduces(l, a, p, q)} ::
          p < n && q < n && FactorFinal(p, q, i, j) ==> Reproduces(l, a, p, q))
    && (forall p :: 0 <= p < n && FactorFinal(p, p, i, j) ==> l(p, p) > 0.0)
    && (forall p, q :: 0 <= p < n && 0 <= q < n && !FactorFinal(p, q, i, j) ==> l(p, q) == 0.0)
  }

  lemma PivotPositive(l: Mat, a: Mat, n: nat, i: nat, j: nat)
    requires j < i < n && FactorUpTo(l, a, n, i, j)
    ensures l(j, j) > 0.0
  {
    assert FactorFinal(j, j, i, j);
  }

  lemma FactorStep(data: seq<real>, a: Mat, n: nat, i: nat, j: nat, v: real)
    requires |data| == n * n && j <= i < n && FactorUpTo(Grid(data, n), a, n, i, j)
    requires i == j ==> v > 0.0
    requires v * (if i == j then v else Grid(data, n)(j, j)) ==
             a(i, j) - Dot(Row(Grid(data, n), i), Row(Grid(data, n), j), j)
    ensures i * n + j < |data|
    ensures FactorUpTo(Grid(data[i * n + j := v], n), a, n, i, j + 1)
  {
    hide Sum, Dot, FactorUpTo, Entry;
    GridUpdate(data, n, n, i, j, v);
    var l, l' := Grid(data, n), Grid(data[i * n + j := v], n);
    forall p, q | 0 <= p < n && 0 <= q < n
      ensures l'(p, q) == if p == i && q == j then v else l(p, q)
    {
      assert l'(p, q) == Entry(data[i * n + j := v], n, p, q) && l(p, q) == Entry(data, n, p, q);
    }
    FactorStepEntries(l, l', a, n, i, j, v);
  }

  lemma FactorStepEntries(l: Mat, l': Mat, a: Mat, n: nat, i: nat, j: nat, v: real)
    requires j <= i < n && FactorUpTo(l, a, n, i, j)
    requires i == j ==> v > 0.0
    requires v * (if i == j then v else l(j, j)) == a(i, j) - Dot(Row(l, i), Row(l, j), j)
    requires forall p, q :: 0 <= p < n && 0 <= q < n ==> l'(p, q) == if p == i && q == j then v else l(p, q)
    ensures FactorUpTo(l', a, n, i, j + 1)
  {
    hide Sum, Dot;
    forall p: nat, q: nat | p < n && q < n && FactorFinal(p, q, i, j + 1)
      ensures Reproduces(l', a, p, q)
    {
      if FactorFinal(p, q, i, j) {
        assert Reproduces(l, a, p, q);
        DotCong(Row(l, p), Row(l', p), Row(l, q), Row(l', q), q + 1);
      } else {
        var pivot := if i == j then v else l(j, j);
        DotCong(Row(l, i), Row(l', i), Row(l, j), Row(l', j), j);
        DotStep(Row(l', i), Row(l', j), j);
        assert Row(l', i)(j) == v && Row(l', j)(j) == pivot;
        assert Dot(Row(l', i), Row(l', j), j + 1) == Dot(Row(l, i), Row(l, j), j) + v * pivot;
      }
    }
  }

  lemma FactorComplete(l: Mat, a: Mat, n: nat)
    requires FactorUpTo(l, a, n, n, 0)
    ensures LowerTriangular(l, n) && PositiveDiagonal(l, n)
    ensures forall i, j :: 0 <= i < n && 0 <= j < n ==> Squared(l, n)(i, j) == SymLower(a)(i, j)
  {
    hide Sum;
    forall i, j | 0 <= i < n && 0 <= j < n
      ensures Squared(l, n)(i, j) == SymLower(a)(i, j)
    {
      var p, q := if j <= i then i else j, if j <= i then j else i;
      assert Reproduces(l, a, p, q);
      SumTail(k => Row(l, p)(k) * Row(l, q)(k), q + 1, n);
      DotSym(Row(l, i), Row(l, j), n);
    }
  }

  lemma DotUpdate(u: Vec, w: Vec, v: Vec, j: nat, n: nat, p: real)
    requires j < n && w(j) == 0.0 && (forall k :: 0 <= k < n && k != j ==> v(k) == w(k)) && p == u(j) * v(j)
    ensures Dot(u, v, n) == Dot(u, w, n) + p
  {
    hide Sum;
    SumUpdate(k => u(k) * w(k), k => u(k) * v(k), j, n);
  }

  /** A vector with v(i) = 1, zero past i, annihilated by columns j..i-1 of the unfinished factor. */
  lemma {:induction false} NullVector(l: Mat, i: nat, j: nat) returns (v: Vec)
    requires j <= i
    requires forall k :: 0 <= k < i ==> l(k, k) > 0.0
    requires forall p, k :: 0 <= p < k <= i ==> l(p, k) == 0.0
    ensures v(i) == 1.0
    ensures forall k :: k < j || k > i ==> v(k) == 0.0
    ensures forall k :: j <= k < i ==> Dot(Col(l, k), v, i + 1) == 0.0
    decreases i - j
  {
    hide Sum, Dot;
    if j == i {
      v := k => if k == i then 1.0 else 0.0;
    } else {
      var w := NullVector(l, i, j + 1);
      var d, s := l(j, j), Dot(Col(l, j), w, i + 1);
      var c := -s / d;
      assert c * d == -s;
      v := k => if k == j then c else w(k);
      forall k | j <= k < i
        ensures Dot(Col(l, k), v, i + 1) == 0.0
      {
        DotUpdate(Col(l, k), w, v, j, i + 1, l(j, k) * c);
        ProductSign(l(j, k), c, l(j, k) * c);
      }
    }
  }

  /** Zero entries of v past m do not contribute to the quadratic form. */
  lemma QuadTail(a: Mat, v: Vec, m: nat, n: nat)
    requires m <= n
    requires forall k :: m <= k < n ==> v(k) == 0.0
    ensures Quad(a, v, n) == Quad(a, v, m)
  {
    hide Sum;
    forall i | 0 <= i < m
      ensures MulVec(a, v, n)(i) == MulVec(a, v, m)(i)
    {
      SumTail(k => Row(a, i)(k) * v(k), m, n);
    }
    SumTail(k => v(k) * MulVec(a, v, n)(k), m, n);
    DotCong(v, v, MulVec(a, v, n), MulVec(a, v, m), m);
  }

  /** Adding s to entry (i, i) adds s v(i)^2 to the quadratic form. */
  lemma QuadCorner(a: Mat, b: Mat, v: Vec, s: real, i: nat)
    requires forall p, q :: 0 <= p <= i && 0 <= q <= i && !(p == i && q == i) ==> a(p, q) == b(p, q)
    requires a(i, i) == b(i, i) + s && v(i) == 1.0
    ensures Quad(a, v, i + 1) == Quad(b, v, i + 1) + s
  {
    hide Sum;
    var f, g := MulVec(a, v, i + 1), MulVec(b, v, i + 1);
    forall p: nat | p < i
      ensures f(p) == g(p)
    {
      DotCong(Row(a, p), Row(b, p), v, v, i + 1);
    }
    SumUpdate(k => Row(b, i)(k) * v(k), k => Row(a, i)(k) * v(k), i, i + 1);
    SumUpdate(k => v(k) * g(k), k => v(k) * f(k), i, i + 1);
  }

  /** A non-positive pivot exhibits a non-zero vector on which the quadratic form is the pivot. */
  lemma FailedPivot(l: Mat, a: Mat, n: nat, i: nat)
    requires i < n && FactorUpTo(l, a, n, i, i)
    requires a(i, i) - Dot(Row(l, i), Row(l, i), i) <= 0.0
    ensures !PositiveDefinite(SymLower(a), n)
  {
    hide Sum;
    var s := a(i, i) - Dot(Row(l, i), Row(l, i), i);
    var v := NullVector(l, i, 0);
    LeadingBlock(l, a, n, i);
    NullVectorQuad(l, v, i);
    QuadCorner(SymLower(a), Squared(l, i), v, s, i);
    QuadTail(SymLower(a), v, i + 1, n);
    assert !AllZero(v, n);
  }

  /** Up to the pivot being computed, the leading block already equals L L^T. */
  lemma LeadingBlock(l: Mat, a: Mat, n: nat, i: nat)
    requires i < n && FactorUpTo(l, a, n, i, i)
    ensures forall p, q :: 0 <= p <= i && 0 <= q <= i && !(p == i && q == i) ==>
      SymLower(a)(p, q) == Squared(l, i)(p, q)
  {
    hide Sum;
    forall p, q | 0 <= p <= i && 0 <= q <= i && !(p == i && q == i)
      ensures SymLower(a)(p, q) == Squared(l, i)(p, q)
    {
      var h, g := if q <= p then p else q, if q <= p then q else p;
      assert Reproduces(l, a, h, g);
      SumTail(k => Row(l, h)(k) * Row(l, g)(k), g + 1, i);
      DotSym(Row(l, p), Row(l, q), i);
    }
  }

  lemma NullVectorQuad(l: Mat, v: Vec, i: nat)
    requires forall k :: 0 <= k < i ==> Dot(Col(l, k), v, i + 1) == 0.0
    ensures Quad(Squared(l, i), v, i + 1) == 0.0
  {
    hide Sum;
    var t := Transpose(l);
    forall p, q | 0 <= p < i + 1 && 0 <= q < i + 1
      ensures Squared(l, i)(p, q) == Dot(Col(t, p), Col(t, q), i)
    {
      DotCong(Row(l, p), Col(t, p), Row(l, q), Col(t, q), i);
    }
    GramQuad(t, Squared(l, i), v, i, i + 1);
    var w := MulVec(t, v, i + 1);
    forall r | 0 <= r < i
      ensures w(r) == 0.0
    {
      DotCong(Row(t, r), Col(l, r), v, v, i + 1);
    }
    DotZero(w, w, i);
  }

  /**
   Factor the symmetric matrix given by the lower triangle of a as L L^T. The result is a
   factor exactly when that matrix is positive definite, and `Singular` otherwise.
   */
  method Factor(a: Matrix, sqrt: real -> real) returns (r: Result<Cholesky, EconometricsError>)
    requires a.Valid() && a.rows == a.cols && IsSqrt(sqrt)
    ensures r.Ok? <==> PositiveDefinite(SymLower(a.At()), a.rows)
    ensures r.Ok? ==> r.value.n == a.rows && r.value.Factors(a.At())
    ensures r.Err? ==> r.error == Singular
  {
    hide Sum;
    var n := a.rows;
    ghost var m := a.At();
    var l := new real[n * n](_ => 0.0);
    for i := 0 to n
      invariant |l[..]| == n * n && FactorUpTo(Grid(l[..], n), m, n, i, 0)
    {
      for j := 0 to i + 1
        invariant FactorUpTo(Grid(l[..], n), m, n, i, j)
      {
        var sum := PivotSum(a, l[..], i, j);
        if i == j && sum <= 0.0 {
          FailedPivot(Grid(l[..], n), m, n, i);
          return Err(Singular);
        }
        var at := i * n + j;
        var v := FactorEntry(a, l[..], i, j, at, sum, sqrt);
        ghost var before := l[..];
        l[at] := v;
        assert l[..] == before[at := v];
      }
    }
    FactorComplete(Grid(l[..], n), m, n);
    SquaredPositiveDefinite(Grid(l[..], n), n);
    PositiveDefiniteCong(Squared(Grid(l[..], n), n), SymLower(m), n);
    r := Ok(Cholesky(n, l[..]));
  }

  /** The branch of `Factor` that turns the remaining sum into an entry of the factor. */
  method FactorEntry(a: Matrix, l: seq<real>, i: nat, j: nat, at: int, sum: real, sqrt: real -> real)
    returns (v: real)
    requires at == i * a.rows + j
    requires a.Valid() && |l| == a.rows * a.rows && j <= i < a.rows && IsSqrt(sqrt)
    requires FactorUpTo(Grid(l, a.rows), a.At(), a.rows, i, j)
    requires i == j ==> sum > 0.0
    requires sum == a.At()(i, j) - Dot(Row(Grid(l, a.rows), i), Row(Grid(l, a.rows), j), j)
    ensures 0 <= at < |l|
    ensures FactorUpTo(Grid(l[at := v], a.rows), a.At(), a.rows, i, j + 1)
  {
    hide Sum, Dot, FactorUpTo;
    var n := a.rows;
    if i == j {
      v := sqrt(sum);
      ProductSign(v, v, sum);
    } else {
      FlatIndex(j, j, n, n);
      var pivot := l[j * n + j];
      assert pivot == Grid(l, n)(j, j);
      PivotPositive(Grid(l, n), a.At(), n, i, j);
      v := sum / pivot;
      QuotientSign(sum, pivot, v);
    }
    FactorStep(l, a.At(), n, i, j, v);
  }

  /** The innermost loop of `Factor`: a(i, j) minus the products already accounted for. */
  method PivotSum(a: Matrix, l: seq<real>, i: nat, j: nat) returns (sum: real)
    requires a.Valid() && a.rows == a.cols && |l| == a.rows * a.rows && j <= i < a.rows
    ensures sum == a.At()(i, j) - Dot(Row(Grid(l, a.rows), i), Row(Grid(l, a.rows), j), j)
  {
    hide Sum, Dot;
    var n := a.rows;
    ghost var u, w := Row(Grid(l, n), i), Row(Grid(l, n), j);
    DotZero(u, w, 0);
    sum := a.Get(i, j);
    for k := 0 to j
      invariant sum == a.At()(i, j) - Dot(u, w, k)
    {
      FlatIndex(i, k, n, n);
      FlatIndex(j, k, n, n);
      DotStep(u, w, k);
      assert l[i * n + k] == u(k) && l[j * n + k] == w(k);
      sum := sum - l[i * n + k] * l[j * n + k];
    }
  }
}
