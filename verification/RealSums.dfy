/**
 Finite sums, dot products and matrix-vector products over exact reals.

 Vectors and matrices are total functions of their indices; how many entries count is
 passed as a separate bound, so a prefix of a vector needs no slicing.
 */
module RealSums {
  type Vec = int -> real
  type Mat = (int, int) -> real

  function Sum(f: Vec, n: nat): real {
    if n == 0 then 0.0 else Sum(f, n - 1) + f(n - 1)
  }

  function Row(a: Mat, i: int): Vec { j => a(i, j) }

  function Col(a: Mat, j: int): Vec { i => a(i, j) }

  function Transpose(a: Mat): Mat { (i, j) => a(j, i) }

  function Dot(u: Vec, v: Vec, n: nat): real { Sum(k => u(k) * v(k), n) }

  function MulVec(a: Mat, x: Vec, n: nat): Vec { i => Dot(Row(a, i), x, n) }

  /** The quadratic form x^T a x. */
  function Quad(a: Mat, x: Vec, n: nat): real { Dot(x, MulVec(a, x, n), n) }

  function RowSums(f: Mat, n: nat): Vec { i => Sum(Row(f, i), n) }

  function ColSums(f: Mat, m: nat): Vec { j => Sum(Col(f, j), m) }

  function Ones(): Vec { i => 1.0 }

  function LineAt(a: real, b: real, t: int): real { a + b * t as real }

  ghost predicate AllZero(v: Vec, n: nat) {
    forall k :: 0 <= k < n ==> v(k) == 0.0
  }

  ghost predicate Agree(u: Vec, v: Vec, n: nat) {
    forall k :: 0 <= k < n ==> u(k) == v(k)
  }

  // ---------- signs of products ----------

  /** The product is a named argument, so that callers compare single numbers. */
  lemma ProductSign(x: real, y: real, p: real)
    requires p == x * y
    ensures x > 0.0 && y > 0.0 ==> p > 0.0
    ensures x < 0.0 && y < 0.0 ==> p > 0.0
    ensures x > 0.0 && y < 0.0 ==> p < 0.0
    ensures x < 0.0 && y > 0.0 ==> p < 0.0
    ensures x == 0.0 || y == 0.0 ==> p == 0.0
  {
  }

  lemma SquareSign(x: real, q: real)
    requires q == x * x
    ensures q >= 0.0
    ensures q == 0.0 <==> x == 0.0
  {
    ProductSign(x, x, q);
  }

  lemma Cancel(x: real, y: real, a: real)
    requires a != 0.0 && x * a == y * a
    ensures x == y
  {
    ProductSign(x - y, a, x * a - y * a);
  }

  /** The sum is a named argument, so that callers multiply single numbers. */
  lemma Distribute(a: real, x: real, y: real, z: real)
    requires z == x + y
    ensures a * z == a * x + a * y
  {
  }

  lemma Associate(a: real, b: real, p: real, x: real)
    requires p == a * b
    ensures a * (b * x) == p * x
  {
  }

  lemma QuotientSign(p: real, q: real, d: real)
    requires q > 0.0 && d == p / q
    ensures d * q == p
    ensures (d < 0.0 <==> p < 0.0) && (d == 0.0 <==> p == 0.0)
  {
    ProductSign(d, q, p);
  }

  // ---------- straight lines ----------

  lemma LineStart(a: real, b: real)
    ensures LineAt(a, b, 0) == a
  {
  }

  lemma LineAhead(a: real, b: real, t: int, h: int)
    ensures LineAt(a, b, t + h) == LineAt(a, b, t) + h as real * b
  {
    Distribute(b, t as real, h as real, (t + h) as real);
  }

  lemma LineStep(a: real, b: real, t: int)
    ensures LineAt(a, b, t + 1) == LineAt(a, b, t) + b
  {
    LineAhead(a, b, t, 1);
  }

  lemma FlatLine(a: real, b: real, t: int)
    requires b == 0.0
    ensures LineAt(a, b, t) == a
  {
  }

  // ---------- sums ----------

  lemma {:induction false} SumCong(f: Vec, g: Vec, n: nat)
    requires Agree(f, g, n)
    ensures Sum(f, n) == Sum(g, n)
  {
    if n > 0 { SumCong(f, g, n - 1); }
  }

  lemma {:induction false} SumLinear(a: real, f: Vec, b: real, g: Vec, h: Vec, n: nat)
    requires forall k :: 0 <= k < n ==> h(k) == a * f(k) + b * g(k)
    ensures Sum(h, n) == a * Sum(f, n) + b * Sum(g, n)
  {
    if n > 0 {
      SumLinear(a, f, b, g, h, n - 1);
      Distribute(a, Sum(f, n - 1), f(n - 1), Sum(f, n));
      Distribute(b, Sum(g, n - 1), g(n - 1), Sum(g, n));
    }
  }

  lemma SumScale(a: real, f: Vec, h: Vec, n: nat)
    requires forall k :: 0 <= k < n ==> h(k) == a * f(k)
    ensures Sum(h, n) == a * Sum(f, n)
  {
    hide Sum;
    SumLinear(a, f, 0.0, f, h, n);
  }

  lemma {:induction false} SumZero(f: Vec, n: nat)
    requires AllZero(f, n)
    ensures Sum(f, n) == 0.0
  {
    if n > 0 { SumZero(f, n - 1); }
  }

  lemma {:induction false} SumConst(f: Vec, c: real, n: nat)
    requires forall k :: 0 <= k < n ==> f(k) == c
    ensures Sum(f, n) == n as real * c
  {
    if n > 0 {
      SumConst(f, c, n - 1);
      Distribute(c, (n - 1) as real, 1.0, n as real);
    }
  }

  /** Entries past m that are all zero do not change a sum. */
  lemma {:induction false} SumTail(f: Vec, m: nat, n: nat)
    requires m <= n
    requires forall k :: m <= k < n ==> f(k) == 0.0
    ensures Sum(f, n) == Sum(f, m)
  {
    if m < n { SumTail(f, m, n - 1); }
  }

  lemma {:induction false} SumMono(f: Vec, g: Vec, n: nat)
    requires forall k :: 0 <= k < n ==> f(k) <= g(k)
    ensures Sum(f, n) <= Sum(g, n)
  {
    if n > 0 { SumMono(f, g, n - 1); }
  }

  /** Changing one entry of a vector changes its sum by exactly the change of that entry. */
  lemma {:induction false} SumUpdate(f: Vec, g: Vec, p: nat, n: nat)
    requires p < n
    requires forall k :: 0 <= k < n && k != p ==> f(k) == g(k)
    ensures Sum(g, n) == Sum(f, n) + g(p) - f(p)
  {
    if p == n - 1 {
      SumCong(f, g, n - 1);
    } else {
      SumUpdate(f, g, p, n - 1);
    }
  }

  lemma FirstOfSum(f: Vec)
    ensures Sum(f, 1) == f(0)
  {
  }

  function At(f: Vec, i: int): real { f(i) }

  /** The vector that starts at entry m of f. */
  function Shift(f: Vec, m: int): Vec { k => At(f, m + k) }

  /** A sum over m + n entries splits into its first m and the n that follow. */
  lemma {:induction false} SumSplit(f: Vec, m: nat, n: nat)
    ensures Sum(f, m + n) == Sum(f, m) + Sum(Shift(f, m), n)
  {
    if n > 0 {
      SumSplit(f, m, n - 1);
      var i := n - 1;
      assert m + n - 1 == m + i;
      assert Shift(f, m)(i) == At(f, m + i);
    }
  }

  /** Summing a table by rows or by columns gives the same total. */
  lemma {:induction false} Fubini(f: Mat, m: nat, n: nat)
    ensures Sum(RowSums(f, n), m) == Sum(ColSums(f, m), n)
  {
    if m == 0 {
      SumZero(ColSums(f, 0), n);
    } else {
      Fubini(f, m - 1, n);
      forall j
        ensures ColSums(f, m)(j) == 1.0 * ColSums(f, m - 1)(j) + 1.0 * Row(f, m - 1)(j)
      {
        assert Sum(Col(f, j), m) == Sum(Col(f, j), m - 1) + Col(f, j)(m - 1);
      }
      SumLinear(1.0, ColSums(f, m - 1), 1.0, Row(f, m - 1), ColSums(f, m), n);
    }
  }

  // ---------- dot products ----------

  lemma DotCong(u: Vec, u': Vec, v: Vec, v': Vec, n: nat)
    requires Agree(u, u', n) && Agree(v, v', n)
    ensures Dot(u, v, n) == Dot(u', v', n)
  {
    hide Sum;
    SumCong(k => u(k) * v(k), k => u'(k) * v'(k), n);
  }

  lemma DotSym(u: Vec, v: Vec, n: nat)
    ensures Dot(u, v, n) == Dot(v, u, n)
  {
    hide Sum;
    SumCong(k => u(k) * v(k), k => v(k) * u(k), n);
  }

  lemma DotLinear(a: real, u: Vec, b: real, v: Vec, w: Vec, x: Vec, n: nat)
    requires forall k :: 0 <= k < n ==> w(k) == a * u(k) + b * v(k)
    ensures Dot(w, x, n) == a * Dot(u, x, n) + b * Dot(v, x, n)
    ensures Dot(x, w, n) == a * Dot(x, u, n) + b * Dot(x, v, n)
  {
    hide Sum;
    forall k | 0 <= k < n
      ensures w(k) * x(k) == a * (u(k) * x(k)) + b * (v(k) * x(k))
    {
      assert w(k) * x(k) == (a * u(k) + b * v(k)) * x(k);
    }
    SumLinear(a, k => u(k) * x(k), b, k => v(k) * x(k), k => w(k) * x(k), n);
    DotSym(w, x, n);
    DotSym(u, x, n);
    DotSym(v, x, n);
  }

  lemma DotStep(u: Vec, v: Vec, n: nat)
    ensures Dot(u, v, n + 1) == Dot(u, v, n) + u(n) * v(n)
  {
  }

  lemma DotZero(u: Vec, v: Vec, n: nat)
    requires forall k :: 0 <= k < n ==> u(k) == 0.0 || v(k) == 0.0
    ensures Dot(u, v, n) == 0.0
  {
    hide Sum;
    SumZero(k => u(k) * v(k), n);
  }

  lemma {:induction false} DotSelf(u: Vec, n: nat)
    ensures Dot(u, u, n) >= 0.0
    ensures Dot(u, u, n) == 0.0 <==> AllZero(u, n)
  {
    if n > 0 {
      DotSelf(u, n - 1);
      var x := u(n - 1);
      var q := x * x;
      SquareSign(x, q);
      assert Dot(u, u, n) == Dot(u, u, n - 1) + q;
    }
  }

  /** A vector with a single 1 picks out one entry. */
  lemma DotPick(u: Vec, v: Vec, p: nat, n: nat)
    requires p < n && u(p) == 1.0 && forall k :: 0 <= k < n && k != p ==> u(k) == 0.0
    ensures Dot(u, v, n) == v(p)
  {
    hide Sum;
    SumUpdate(k => 0.0, k => u(k) * v(k), p, n);
    SumZero(k => 0.0, n);
  }

  lemma DotTail(u: Vec, v: Vec, m: nat, n: nat)
    requires m <= n && forall k :: m <= k < n ==> v(k) == 0.0
    ensures Dot(u, v, n) == Dot(u, v, m)
  {
    SumTail(k => u(k) * v(k), m, n);
  }

  /** |a u + b v|^2 = a^2 |u|^2 + 2ab <u,v> + b^2 |v|^2. */
  lemma DotSquare(a: real, u: Vec, b: real, v: Vec, w: Vec, n: nat)
    requires forall k :: 0 <= k < n ==> w(k) == a * u(k) + b * v(k)
    ensures Dot(w, w, n) == a * a * Dot(u, u, n) + 2.0 * a * b * Dot(u, v, n) + b * b * Dot(v, v, n)
  {
    hide Sum;
    DotLinear(a, u, b, v, w, w, n);
    DotLinear(a, u, b, v, w, u, n);
    DotLinear(a, u, b, v, w, v, n);
    DotSym(u, v, n);
    var p, q, s := Dot(u, u, n), Dot(u, v, n), Dot(v, v, n);
    assert a * (a * p + b * q) == a * a * p + a * b * q;
    assert b * (a * q + b * s) == a * b * q + b * b * s;
  }

  /** Cauchy-Schwarz, with the three inner products named. */
  lemma CauchySchwarz(u: Vec, v: Vec, n: nat, p: real, q: real, s: real)
    requires p == Dot(u, u, n) && q == Dot(v, v, n) && s == Dot(u, v, n)
    ensures s * s <= p * q
  {
    hide Sum;
    DotSelf(v, n);
    if q == 0.0 {
      DotZero(u, v, n);
    } else {
      var w: Vec := k => q * u(k) + (-s) * v(k);
      DotSquare(q, u, -s, v, w, n);
      DotSelf(w, n);
      var gap := p * q - s * s;
      assert Dot(w, w, n) == q * gap;
      ProductSign(q, gap, Dot(w, w, n));
    }
  }

  // ---------- matrix-vector products ----------

  lemma MulVecLinear(m: Mat, a: real, u: Vec, b: real, v: Vec, w: Vec, n: nat, i: int)
    requires forall k :: 0 <= k < n ==> w(k) == a * u(k) + b * v(k)
    ensures MulVec(m, w, n)(i) == a * MulVec(m, u, n)(i) + b * MulVec(m, v, n)(i)
  {
    hide Sum;
    DotLinear(a, u, b, v, w, Row(m, i), n);
  }

  /** <v, X^T w> = <X v, w>. */
  lemma Adjoint(x: Mat, v: Vec, w: Vec, rows: nat, cols: nat)
    ensures Dot(v, MulVec(Transpose(x), w, rows), cols) == Dot(MulVec(x, v, cols), w, rows)
  {
    hide Sum;
    var f: Mat := (r, c) => x(r, c) * v(c) * w(r);
    Fubini(f, rows, cols);
    AdjointRows(x, v, w, f, rows, cols);
    AdjointCols(x, v, w, f, rows, cols);
  }

  lemma AdjointRows(x: Mat, v: Vec, w: Vec, f: Mat, rows: nat, cols: nat)
    requires forall r, c :: f(r, c) == x(r, c) * v(c) * w(r)
    ensures Sum(RowSums(f, cols), rows) == Dot(MulVec(x, v, cols), w, rows)
  {
    hide Sum;
    forall r
      ensures RowSums(f, cols)(r) == MulVec(x, v, cols)(r) * w(r)
    {
      SumScale(w(r), k => Row(x, r)(k) * v(k), Row(f, r), cols);
    }
    SumCong(RowSums(f, cols), k => MulVec(x, v, cols)(k) * w(k), rows);
  }

  lemma AdjointCols(x: Mat, v: Vec, w: Vec, f: Mat, rows: nat, cols: nat)
    requires forall r, c :: f(r, c) == x(r, c) * v(c) * w(r)
    ensures Sum(ColSums(f, rows), cols) == Dot(v, MulVec(Transpose(x), w, rows), cols)
  {
    hide Sum;
    forall c
      ensures ColSums(f, rows)(c) == v(c) * MulVec(Transpose(x), w, rows)(c)
    {
      SumScale(v(c), k => Row(Transpose(x), c)(k) * w(k), Col(f, c), rows);
    }
    SumCong(ColSums(f, rows), k => v(k) * MulVec(Transpose(x), w, rows)(k), cols);
  }

  /** a is the Gram matrix X^T X on its first `cols` rows and columns. */
  ghost predicate IsGram(x: Mat, a: Mat, rows: nat, cols: nat) {
    forall i, j :: 0 <= i < cols && 0 <= j < cols ==> a(i, j) == Dot(Col(x, i), Col(x, j), rows)
  }

  /** (X^T X) v = X^T (X v), one component at a time. */
  lemma GramMulVec(x: Mat, a: Mat, v: Vec, rows: nat, cols: nat, i: nat)
    requires i < cols && IsGram(x, a, rows, cols)
    ensures MulVec(a, v, cols)(i) == MulVec(Transpose(x), MulVec(x, v, cols), rows)(i)
  {
    hide Sum;
    var xt := Transpose(x);
    forall j | 0 <= j < cols
      ensures Row(a, i)(j) == MulVec(xt, Col(x, i), rows)(j)
    {
      DotSym(Col(x, i), Col(x, j), rows);
      DotCong(Row(xt, j), Col(x, j), Col(x, i), Col(x, i), rows);
    }
    DotCong(Row(a, i), MulVec(xt, Col(x, i), rows), v, v, cols);
    DotSym(MulVec(xt, Col(x, i), rows), v, cols);
    Adjoint(x, v, Col(x, i), rows, cols);
    DotSym(MulVec(x, v, cols), Col(x, i), rows);
    DotCong(Row(xt, i), Col(x, i), MulVec(x, v, cols), MulVec(x, v, cols), rows);
  }

  /** v^T (X^T X) v = |X v|^2. */
  lemma GramQuad(x: Mat, a: Mat, v: Vec, rows: nat, cols: nat)
    requires IsGram(x, a, rows, cols)
    ensures Quad(a, v, cols) == Dot(MulVec(x, v, cols), MulVec(x, v, cols), rows)
  {
    hide Sum;
    var w := MulVec(x, v, cols);
    forall i | 0 <= i < cols
      ensures MulVec(a, v, cols)(i) == MulVec(Transpose(x), w, rows)(i)
    {
      GramMulVec(x, a, v, rows, cols, i);
    }
    DotCong(v, v, MulVec(a, v, cols), MulVec(Transpose(x), w, rows), cols);
    Adjoint(x, v, w, rows, cols);
  }

  /** The quadratic form depends only on the leading n x n block. */
  lemma QuadCong(a: Mat, b: Mat, v: Vec, n: nat)
    requires forall i, j :: 0 <= i < n && 0 <= j < n ==> a(i, j) == b(i, j)
    ensures Quad(a, v, n) == Quad(b, v, n)
  {
    hide Sum;
    forall i | 0 <= i < n
      ensures MulVec(a, v, n)(i) == MulVec(b, v, n)(i)
    {
      DotCong(Row(a, i), Row(b, i), v, v, n);
    }
    DotCong(v, v, MulVec(a, v, n), MulVec(b, v, n), n);
  }

  // ---------- square roots ----------

  /**
   What is assumed of the platform's `sqrt` on non-negative arguments. Every member that
   needs a square root takes it as a parameter and requires exactly this.
   */
  ghost predicate IsSqrt(sqrt: real -> real) {
    forall x :: x >= 0.0 ==> sqrt(x) >= 0.0 && sqrt(x) * sqrt(x) == x
  }

  lemma RootUnique(s: real, t: real)
    requires s >= 0.0 && t >= 0.0 && s * s == t * t
    ensures s == t
  {
    if s != t {
      ProductSign(s - t, s + t, s * s - t * t);
    }
  }

  /** A product as a named term, for use under another function. */
  function Times(x: real, y: real): real { x * y }

  lemma TimesIs(x: real, y: real)
    ensures Times(x, y) == x * y
  {
  }

  lemma SqrtMul(sqrt: real -> real, x: real, y: real)
    requires IsSqrt(sqrt) && x >= 0.0 && y >= 0.0
    ensures sqrt(Times(x, y)) == sqrt(x) * sqrt(y)
  {
    var s, t, p := sqrt(x), sqrt(y), Times(x, y);
    ProductSign(x, y, p);
    ProductSign(s, t, s * t);
    assert p == s * s * t * t == (s * t) * (s * t);
    RootUnique(sqrt(p), s * t);
  }
}
