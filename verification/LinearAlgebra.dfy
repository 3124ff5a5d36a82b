/**
 The dense normal-equations solver: Gram matrix, Cholesky factor, triangular solves and
 the diagonal of the inverse, over exact reals (crates/tdw-analytics-econometrics/src/linalg.rs).

 Matrices are stored flat and row-major, as in the program. `Grid` reads such a buffer as
 a function of its two indices, which is what the contracts speak about.
 */
module LinearAlgebra {
  import opened RealSums

  datatype EconometricsError =
    | RowMismatch(y: nat, x: nat)
    | EmptyDesign
    | InsufficientRows(rows: nat, cols: nat)
    | Singular
    | LengthMismatch(first: nat, second: nat)

  // ---------- flat row-major storage ----------

  function Entry(data: seq<real>, cols: nat, r: int, c: int): real {
    if 0 <= r && 0 <= c < cols && 0 <= r * cols + c < |data| then data[r * cols + c] else 0.0
  }

  function Grid(data: seq<real>, cols: nat): Mat { (r, c) => Entry(data, cols, r, c) }

  function AsVec(v: seq<real>): Vec { i => if 0 <= i < |v| then v[i] else 0.0 }

  /** The mean, zero for an empty series. */
  function MeanOf(s: seq<real>): real { Sum(AsVec(s), |s|) / (if |s| == 0 then 1 else |s|) as real }

  lemma FlatIndex(r: nat, c: nat, rows: nat, cols: nat)
    requires r < rows && c < cols
    ensures r * cols + c < rows * cols
  {
    assert (r + 1) * cols <= rows * cols;
  }

  lemma FlatBefore(r: nat, c: nat, r': nat, cols: nat)
    requires r < r' && c < cols
    ensures r * cols + c < r' * cols
  {
    assert (r + 1) * cols <= r' * cols;
  }

  lemma FlatInjective(r: nat, c: nat, r': nat, c': nat, cols: nat)
    requires c < cols && c' < cols && r * cols + c == r' * cols + c'
    ensures r == r' && c == c'
  {
    if r < r' {
      FlatBefore(r, c, r', cols);
    } else if r' < r {
      FlatBefore(r', c', r, cols);
    }
  }

  lemma SmallMod(i: nat, m: nat)
    requires i < m
    ensures i % m == i
  {
  }

  lemma ModPeriod(k: nat, m: nat)
    requires m > 0
    ensures (k + m) % m == k % m
  {
    var q, r := k / m, k % m;
    assert k + m == (q + 1) * m + r;
    var x := k + m;
    FlatInjective(x / m, x % m, q + 1, r, m);
  }

  /** Writing one slot of a flat buffer changes exactly one entry of the matrix it stores. */
  lemma GridUpdate(data: seq<real>, rows: nat, cols: nat, r: nat, c: nat, v: real)
    requires |data| == rows * cols && r < rows && c < cols
    ensures r * cols + c < |data|
    ensures forall a, b :: 0 <= a < rows && 0 <= b < cols ==>
      Entry(data[r * cols + c := v], cols, a, b) == if a == r && b == c then v else Entry(data, cols, a, b)
  {
    FlatIndex(r, c, rows, cols);
    var data' := data[r * cols + c := v];
    forall a, b | 0 <= a < rows && 0 <= b < cols
      ensures Entry(data', cols, a, b) == if a == r && b == c then v else Entry(data, cols, a, b)
    {
      FlatIndex(a, b, rows, cols);
      if a * cols + b == r * cols + c {
        FlatInjective(a, b, r, c, cols);
      }
    }
  }

  /** Rows and columns before i are final, and so are row and column i before j. */
  predicate GramFinal(a: nat, b: nat, i: nat, j: nat) {
    a < i || b < i || (a == i && b < j) || (b == i && a < j)
  }

  ghost predicate IsProduct(x: Mat, g: Mat, rows: nat, a: nat, b: nat) {
    g(a, b) == Dot(Col(x, a), Col(x, b), rows)
  }

  ghost predicate GramUpTo(x: Mat, rows: nat, k: nat, g: Mat, i: nat, j: nat) {
    forall a: nat, b: nat {:trigger IsProduct(x, g, rows, a, b)} ::
      a < k && b < k && GramFinal(a, b, i, j) ==> IsProduct(x, g, rows, a, b)
  }

  lemma GramStep(x: Mat, rows: nat, k: nat, out: seq<real>, i: nat, j: nat, upper: int, lower: int, acc: real)
    requires i <= j < k && |out| == k * k && GramUpTo(x, rows, k, Grid(out, k), i, j)
    requires upper == i * k + j && lower == j * k + i
    requires acc == Dot(Col(x, i), Col(x, j), rows)
    ensures 0 <= upper < |out| && 0 <= lower < |out|
    ensures GramUpTo(x, rows, k, Grid(out[upper := acc][lower := acc], k), i, j + 1)
  {
    hide Sum, Dot;
    GridUpdate(out, k, k, i, j, acc);
    GridUpdate(out[upper := acc], k, k, j, i, acc);
    GramStepEntries(x, rows, k, Grid(out, k), Grid(out[upper := acc][lower := acc], k), i, j, acc);
  }

  lemma GramStepEntries(x: Mat, rows: nat, k: nat, g: Mat, g': Mat, i: nat, j: nat, acc: real)
    requires i <= j < k && GramUpTo(x, rows, k, g, i, j)
    requires acc == Dot(Col(x, i), Col(x, j), rows)
    requires forall a, b :: 0 <= a < k && 0 <= b < k ==>
      g'(a, b) == if (a == i && b == j) || (a == j && b == i) then acc else g(a, b)
    ensures GramUpTo(x, rows, k, g', i, j + 1)
  {
    hide Sum, Dot;
    forall a: nat, b: nat | a < k && b < k && GramFinal(a, b, i, j + 1)
      ensures IsProduct(x, g', rows, a, b)
    {
      if GramFinal(a, b, i, j) {
        assert IsProduct(x, g, rows, a, b);
      }
      DotSym(Col(x, i), Col(x, j), rows);
    }
  }

  /** A dense row-major matrix. */
  datatype Matrix = Matrix(rows: nat, cols: nat, data: seq<real>) {
    ghost predicate Valid() { |data| == rows * cols }

    function Get(r: nat, c: nat): (v: real)
      requires Valid() && r < rows && c < cols
      ensures v == At()(r, c)
    {
      FlatIndex(r, c, rows, cols);
      data[r * cols + c]
    }

    function At(): Mat { Grid(data, cols) }

    /** The innermost loop of `Gram`: the inner product of two columns. */
    method ColumnProduct(i: nat, j: nat) returns (acc: real)
      requires Valid() && i < cols && j < cols
      ensures acc == Dot(Col(At(), i), Col(At(), j), rows)
    {
      acc := 0.0;
      for r := 0 to rows
        invariant acc == Dot(Col(At(), i), Col(At(), j), r)
      {
        acc := acc + Get(r, i) * Get(r, j);
      }
    }

    /** The Gram matrix X^T X; only the upper triangle is computed, then mirrored. */
    method Gram() returns (g: Matrix)
      requires Valid()
      ensures g.Valid() && g.rows == cols && g.cols == cols
      ensures IsGram(At(), g.At(), rows, cols)
    {
      hide Sum;
      var k := cols;
      ghost var x := At();
      var out := new real[k * k](_ => 0.0);
      for i := 0 to k
        invariant GramUpTo(x, rows, k, Grid(out[..], k), i, i)
      {
        for j := i to k
          invariant GramUpTo(x, rows, k, Grid(out[..], k), i, j)
        {
          var acc := ColumnProduct(i, j);
          var upper, lower := i * k + j, j * k + i;
          GramStep(x, rows, k, out[..], i, j, upper, lower, acc);
          ghost var before := out[..];
          out[upper] := acc;
          out[lower] := acc;
          assert out[..] == before[upper := acc][lower := acc];
        }
      }
      g := Matrix(k, k, out[..]);
      forall a: nat, b: nat | a < k && b < k
        ensures g.At()(a, b) == Dot(Col(x, a), Col(x, b), rows)
      {
        assert IsProduct(x, g.At(), rows, a, b);
      }
    }

    /** X^T v, accumulated row by row. */
    method TransposeMulVec(v: seq<real>) returns (out: seq<real>)
      requires Valid() && |v| == rows
      ensures |out| == cols
      ensures forall c :: 0 <= c < cols ==> out[c] == Dot(Col(At(), c), AsVec(v), rows)
    {
      hide Sum, Dot;
      var acc := new real[cols](_ => 0.0);
      forall c | 0 <= c < cols
        ensures Dot(Col(At(), c), AsVec(v), 0) == 0.0
      {
        DotZero(Col(At(), c), AsVec(v), 0);
      }
      for r := 0 to rows
        invariant forall c :: 0 <= c < cols ==> acc[c] == Dot(Col(At(), c), AsVec(v), r)
      {
        for c := 0 to cols
          invariant forall d :: 0 <= d < cols ==>
            acc[d] == Dot(Col(At(), d), AsVec(v), if d < c then r + 1 else r)
        {
          DotStep(Col(At(), c), AsVec(v), r);
          acc[c] := acc[c] + Get(r, c) * v[r];
        }
      }
      out := acc[..];
    }

    /** X v. */
    method MulVec(v: seq<real>) returns (out: seq<real>)
      requires Valid() && |v| == cols
      ensures |out| == rows
      ensures forall r :: 0 <= r < rows ==> out[r] == RealSums.MulVec(At(), AsVec(v), cols)(r)
    {
      var res := new real[rows](_ => 0.0);
      for r := 0 to rows
        invariant forall q :: 0 <= q < r ==> res[q] == Dot(Row(At(), q), AsVec(v), cols)
      {
        var acc := 0.0;
        for c := 0 to cols
          invariant acc == Dot(Row(At(), r), AsVec(v), c)
        {
          acc := acc + Get(r, c) * v[c];
        }
        res[r] := acc;
      }
      out := res[..];
    }
  }
}
