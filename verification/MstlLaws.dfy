/**
 What the three parts of a decomposition are, for every series: window means inside, straight
 edges, and a season that leaves equal means in every phase
 (crates/tdw-analytics-forecast/src/mstl.rs).
 */
module MstlLaws {
  import opened RealSums
  import opened LinearAlgebra
  import opened Autoregression
  import opened Mstl

  /**
   Inside, the trend is the mean over one period centred at t: of the m values around t when m is
   odd; when m is even, the m - 1 values around t count fully and the next one on either side half.
   */
  lemma TrendInside(y: Vec, n: nat, m: nat, t: nat, window: Vec, trend: real)
    requires m >= 2 && m / 2 <= t && t + m / 2 < n && trend == TrendAt(y, n, m, t)
    requires m % 2 == 1 ==> forall j :: 0 <= j < m ==> window(j) == At(y, t - m / 2 + j)
    requires m % 2 == 0 ==> forall j :: 0 <= j < m - 1 ==> window(j) == At(y, t - m / 2 + 1 + j)
    ensures m % 2 == 1 ==> trend * m as real == Sum(window, m)
    ensures m % 2 == 0 ==> trend * (2 * m) as real == y(t - m / 2) + y(t + m / 2) + 2.0 * Sum(window, m - 1)
  {
    hide Sum;
    var h := m / 2;
    assert trend == WindowMean(y, m, t);
    if m % 2 == 1 {
      var w := Shift(y, t - h);
      forall j | 0 <= j < m
        ensures w(j) == window(j)
      {
        assert w(j) == At(y, t - h + j);
      }
      SumCong(w, window, m);
      QuotientSign(Sum(w, m), m as real, trend);
    } else {
      var w := Shift(y, t - h + 1);
      forall j | 0 <= j < m - 1
        ensures w(j) == window(j)
      {
        assert w(j) == At(y, t - h + 1 + j);
      }
      SumCong(w, window, m - 1);
      var total := 0.5 * (y(t - h) + y(t + h)) + Sum(w, m - 1);
      QuotientSign(total, m as real, trend);
      Distribute(trend, m as real, m as real, (2 * m) as real);
    }
  }

  /** Towards both ends the trend is straight: it keeps the slope of the outermost two inner points. */
  lemma TrendEdges(y: Vec, n: nat, m: nat, t: nat)
    requires m >= 2 && n >= 2 * m && t + 1 < n
    ensures t < m / 2 ==> TrendAt(y, n, m, t + 1) - TrendAt(y, n, m, t) == TrendAt(y, n, m, m / 2 + 1) - TrendAt(y, n, m, m / 2)
    ensures t >= n - 1 - m / 2 ==>
      TrendAt(y, n, m, t + 1) - TrendAt(y, n, m, t) == TrendAt(y, n, m, n - 1 - m / 2) - TrendAt(y, n, m, n - 2 - m / 2)
  {
    hide WindowMean, Times;
    var first, last := m / 2, n - 1 - m / 2;
    if t < first {
      NextMultiple((first - t - 1) as real, (first - t) as real, WindowMean(y, m, first + 1) - WindowMean(y, m, first));
    } else if t >= last {
      NextMultiple((t - last) as real, (t + 1 - last) as real, WindowMean(y, m, last) - WindowMean(y, m, last - 1));
    }
  }

  lemma NextMultiple(a: real, b: real, slope: real)
    requires b == a + 1.0
    ensures Times(b, slope) == Times(a, slope) + slope
    ensures a == 0.0 ==> Times(a, slope) == 0.0
  {
  }

  /**
   The parts of every decomposition: they add up to the series; the season repeats with its period
   and sums to zero over one; and what remains has the same mean in every phase.
   */
  lemma DecompositionIs(y: seq<real>, m: nat, r: Decomposition) returns (c: real)
    requires m >= 2 && |y| >= 2 * m && IsDecomposition(r, y, m)
    ensures |r.trend| == |r.seasonal| == |r.residual| == |y| && r.period == m
    ensures forall t :: 0 <= t < |y| ==> r.trend[t] + r.seasonal[t] + r.residual[t] == y[t]
    ensures forall t :: 0 <= t < |y| ==> r.seasonal[t] == r.seasonal[t % m]
    ensures Sum(AsVec(r.seasonal), m) == 0.0
    ensures forall p :: 0 <= p < m ==>
      Sum(OfPhase(AsVec(r.residual), m, p), |y|) == c * Sum(OfPhase(Ones(), m, p), |y|)
  {
    hide Sum, TrendAt, PhaseMean;
    SeasonalSumsToZero(y, m, r);
    var n := |y|;
    var d := Detrended(AsVec(y), n, m);
    c := Sum(PhaseMeans(d, n, m), m) / m as real;
    forall t: nat | t < n
      ensures r.seasonal[t] == r.seasonal[t % m]
    {
      SmallMod(t % m, m);
      SeasonalKeepsPhase(d, n, m, t);
    }
    forall p: nat | p < m
      ensures Sum(OfPhase(AsVec(r.residual), m, p), n) == c * Sum(OfPhase(Ones(), m, p), n)
    {
      ResidualPhase(y, m, r, p, d, c);
    }
  }

  lemma SeasonalKeepsPhase(d: Vec, n: nat, m: nat, t: nat)
    requires m > 0 && t % m % m == t % m
    ensures SeasonalAt(d, n, m, t) == SeasonalAt(d, n, m, t % m)
  {
    hide Sum, PhaseMean;
  }

  lemma ResidualPhase(y: seq<real>, m: nat, r: Decomposition, p: nat, d: Vec, c: real)
    requires m >= 2 && |y| >= 2 * m && IsDecomposition(r, y, m) && p < m
    requires d == Detrended(AsVec(y), |y|, m) && c == Sum(PhaseMeans(d, |y|, m), m) / m as real
    ensures Sum(OfPhase(AsVec(r.residual), m, p), |y|) == c * Sum(OfPhase(Ones(), m, p), |y|)
  {
    hide Sum, TrendAt, PhaseMean;
    var n, mean := |y|, PhaseMean(d, |y|, m, p);
    var e, f, g := OfPhase(AsVec(r.residual), m, p), OfPhase(d, m, p), OfPhase(Ones(), m, p);
    forall t: nat | t < n
      ensures e(t) == 1.0 * f(t) + -(mean - c) * g(t)
    {
      assert d(t) == y[t] - r.trend[t];
      if t % m == p {
        assert r.seasonal[t] == mean - c;
      }
    }
    SumLinear(1.0, f, -(mean - c), g, e, n);
    PhaseMeanTimes(d, n, m, p);
    Distribute(Sum(g, n), mean, -c, mean - c);
  }

  lemma PhaseMeanTimes(d: Vec, n: nat, m: nat, p: nat)
    requires m > 0 && p < m && n >= m
    ensures PhaseMean(d, n, m, p) * Sum(OfPhase(Ones(), m, p), n) == Sum(OfPhase(d, m, p), n)
  {
    hide Sum;
    PhaseCountPositive(m, p, n);
    QuotientSign(Sum(OfPhase(d, m, p), n), Sum(OfPhase(Ones(), m, p), n), PhaseMean(d, n, m, p));
  }
}
