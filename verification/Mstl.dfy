/**
 Moving-average seasonal decomposition (crates/tdw-analytics-forecast/src/mstl.rs).
 */
module Mstl {
  import opened Results
  import opened RealSums
  import opened LinearAlgebra
  import opened Autoregression

  datatype Decomposition = Decomposition(trend: seq<real>, seasonal: seq<real>, residual: seq<real>, period: nat)

  // ---------- the trend ----------

  /** The centred window around t fits inside a series of length n. */
  predicate Interior(n: nat, m: nat, t: int) { m / 2 <= t && t + m / 2 < n }

  /** Mean over one period centred at t; for an even period the two end points count half. */
  function WindowMean(y: Vec, m: nat, t: int): real
    requires m > 0
  {
    var h := m / 2;
    if m % 2 == 0 then (0.5 * (y(t - h) + y(t + h)) + Sum(Shift(y, t - h + 1), 2 * h - 1)) / m as real
    else Sum(Shift(y, t - h), 2 * h + 1) / m as real
  }

  /** The trend: window means inside, continued along straight lines at both edges. */
  function TrendAt(y: Vec, n: nat, m: nat, t: int): real
    requires m > 0
  {
    var first, last := m / 2, n - 1 - m / 2;
    if last < first then 0.0
    else if t < first then
      if last > first then
        WindowMean(y, m, first) - Times((first - t) as real, WindowMean(y, m, first + 1) - WindowMean(y, m, first))
      else WindowMean(y, m, first)
    else if t > last then
      if last > first then
        WindowMean(y, m, last) + Times((t - last) as real, WindowMean(y, m, last) - WindowMean(y, m, last - 1))
      else WindowMean(y, m, last)
    else WindowMean(y, m, t)
  }

  method WindowValue(y: seq<real>, m: nat, t: nat) returns (value: real)
    requires m > 0 && Interior(|y|, m, t)
    ensures value == WindowMean(AsVec(y), m, t)
  {
    var h := m / 2;
    if m % 2 == 0 {
      var sum := 0.5 * (y[t - h] + y[t + h]);
      ghost var f, base := Shift(AsVec(y), t - h + 1), sum;
      for i := t - h + 1 to t + h
        invariant sum == base + Sum(f, i - (t - h + 1))
      {
        assert f(i - (t - h + 1)) == At(AsVec(y), (t - h + 1) + (i - (t - h + 1))) == y[i];
        sum := sum + y[i];
      }
      value := sum / m as real;
    } else {
      var sum := 0.0;
      ghost var f := Shift(AsVec(y), t - h);
      for i := t - h to t + h + 1
        invariant sum == Sum(f, i - (t - h))
      {
        assert f(i - (t - h)) == At(AsVec(y), (t - h) + (i - (t - h))) == y[i];
        sum := sum + y[i];
      }
      value := sum / m as real;
    }
  }

  method CenteredMovingAverage(y: seq<real>, m: nat) returns (trend: seq<real>)
    requires m > 0
    ensures |trend| == |y| && forall t :: 0 <= t < |y| ==> trend[t] == TrendAt(AsVec(y), |y|, m, t)
  {
    hide WindowMean, TrendAt;
    var n, h := |y|, m / 2;
    var buffer := new real[n](_ => 0.0);
    var firstDefined, lastDefined := None, 0;
    for t := 0 to n
      invariant MeansUpTo(buffer[..], AsVec(y), m, t)
      invariant firstDefined == if t > h && h + h < n then Some(h) else None
      invariant t > h && h + h < n ==> lastDefined == if t + h <= n then t - 1 else n - 1 - h
    {
      if !(t < h || t + h >= n) {
        var value := WindowValue(y, m, t);
        ghost var before := buffer[..];
        buffer[t] := value;
        assert buffer[..] == before[t := value];
        if firstDefined.None? {
          firstDefined := Some(t);
        }
        lastDefined := t;
      }
    }
    ghost var means := buffer[..];
    ExtrapolateEdges(buffer, firstDefined, lastDefined);
    trend := buffer[..];
    TrendFromMeans(AsVec(y), n, m, means, trend);
  }

  /** Window means at the interior points before t, zero everywhere else. */
  ghost predicate MeansUpTo(v: seq<real>, y: Vec, m: nat, t: nat)
    requires m > 0
  {
    forall k :: 0 <= k < |v| ==> v[k] == if k < t && Interior(|v|, m, k) then WindowMean(y, m, k) else 0.0
  }

  lemma TrendFromMeans(y: Vec, n: nat, m: nat, means: seq<real>, trend: seq<real>)
    requires m > 0 && |means| == |trend| == n && MeansUpTo(means, y, m, n)
    requires n <= 2 * (m / 2) ==> trend == means
    requires n > 2 * (m / 2) ==> forall t :: 0 <= t < n ==> trend[t] == Extrapolated(means, m / 2, n - 1 - m / 2, t)
    ensures forall t :: 0 <= t < n ==> trend[t] == TrendAt(y, n, m, t)
  {
    hide WindowMean, Times;
  }

  /** Fill both edges by continuing the outermost two defined points, or flat from a single one. */
  method ExtrapolateEdges(trend: array<real>, firstDefined: Option<nat>, lastDefined: nat)
    requires firstDefined.Some? ==> firstDefined.value <= lastDefined < trend.Length
    modifies trend
    ensures firstDefined.None? ==> trend[..] == old(trend[..])
    ensures firstDefined.Some? ==> forall t :: 0 <= t < trend.Length ==>
      trend[t] == Extrapolated(old(trend[..]), firstDefined.value, lastDefined, t)
  {
    if firstDefined.None? {
      return;
    }
    var first, n := firstDefined.value, trend.Length;
    ghost var before := trend[..];
    var lead := if lastDefined > first then trend[first + 1] - trend[first] else 0.0;
    var anchor := trend[first];
    for t := 0 to first
      invariant forall k :: 0 <= k < t ==> trend[k] == Extrapolated(before, first, lastDefined, k)
      invariant forall k :: t <= k < n ==> trend[k] == before[k]
    {
      trend[t] := if lastDefined > first then (first - t) as real * -lead + anchor else anchor;
    }
    var tail := if lastDefined > first then trend[lastDefined] - trend[lastDefined - 1] else 0.0;
    anchor := trend[lastDefined];
    for t := lastDefined + 1 to n
      invariant forall k :: 0 <= k < first || lastDefined < k < t ==> trend[k] == Extrapolated(before, first, lastDefined, k)
      invariant forall k :: first <= k <= lastDefined || t <= k < n ==> trend[k] == before[k]
    {
      trend[t] := if lastDefined > first then (t - lastDefined) as real * tail + anchor else anchor;
    }
  }

  function Extrapolated(v: seq<real>, first: nat, last: nat, t: nat): real
    requires first <= last < |v| && t < |v|
  {
    if t < first then
      if last > first then v[first] - Times((first - t) as real, v[first + 1] - v[first]) else v[first]
    else if t > last then
      if last > first then v[last] + Times((t - last) as real, v[last] - v[last - 1]) else v[last]
    else v[t]
  }

  // ---------- the seasonal component ----------

  /** Entries of phase p, with zeros elsewhere. */
  function OfPhase(d: Vec, m: nat, p: int): Vec
    requires m > 0
  {
    t => if t % m == p then d(t) else 0.0
  }

  /** Mean of the entries of phase p among the first n. */
  function PhaseMean(d: Vec, n: nat, m: nat, p: int): real
    requires m > 0
  {
    var c := Sum(OfPhase(Ones(), m, p), n);
    if c > 0.0 then Sum(OfPhase(d, m, p), n) / c else 0.0
  }

  function PhaseMeans(d: Vec, n: nat, m: nat): Vec
    requires m > 0
  {
    p => PhaseMean(d, n, m, p)
  }

  /** Phase means, centred to sum to zero over a period. */
  function SeasonalAt(d: Vec, n: nat, m: nat, t: int): real
    requires m > 0
  {
    PhaseMean(d, n, m, t % m) - Sum(PhaseMeans(d, n, m), m) / m as real
  }

  /** What remains after the trend. */
  function Detrended(y: Vec, n: nat, m: nat): Vec
    requires m > 0
  {
    t => y(t) - TrendAt(y, n, m, t)
  }

  /** Per-phase totals and counts of the first t entries. */
  ghost predicate TotalsUpTo(sums: seq<real>, counts: seq<nat>, d: Vec, m: nat, t: nat)
    requires m > 0
  {
    && |sums| == |counts| == m
    && forall p :: 0 <= p < m ==>
         sums[p] == Sum(OfPhase(d, m, p), t) && counts[p] as real == Sum(OfPhase(Ones(), m, p), t)
  }

  lemma TotalsStep(sums: seq<real>, counts: seq<nat>, d: Vec, m: nat, t: nat)
    requires m > 0 && TotalsUpTo(sums, counts, d, m, t)
    ensures TotalsUpTo(sums[t % m := sums[t % m] + d(t)], counts[t % m := counts[t % m] + 1], d, m, t + 1)
  {
    var sums', counts' := sums[t % m := sums[t % m] + d(t)], counts[t % m := counts[t % m] + 1];
    forall p | 0 <= p < m
      ensures sums'[p] == Sum(OfPhase(d, m, p), t + 1)
      ensures counts'[p] as real == Sum(OfPhase(Ones(), m, p), t + 1)
    {
      assert Sum(OfPhase(d, m, p), t + 1) == Sum(OfPhase(d, m, p), t) + OfPhase(d, m, p)(t);
      assert Sum(OfPhase(Ones(), m, p), t + 1) == Sum(OfPhase(Ones(), m, p), t) + OfPhase(Ones(), m, p)(t);
    }
  }

  lemma TotalsStart(sums: seq<real>, counts: seq<nat>, d: Vec, m: nat)
    requires m > 0 && |sums| == |counts| == m
    requires forall p :: 0 <= p < m ==> sums[p] == 0.0 && counts[p] == 0
    ensures TotalsUpTo(sums, counts, d, m, 0)
  {
  }

  method PhaseAverages(y: seq<real>, trend: seq<real>, m: nat) returns (means: seq<real>)
    requires m > 0 && |trend| == |y|
    requires forall t :: 0 <= t < |y| ==> trend[t] == TrendAt(AsVec(y), |y|, m, t)
    ensures |means| == m
    ensures forall p :: 0 <= p < m ==> means[p] == PhaseMean(Detrended(AsVec(y), |y|, m), |y|, m, p)
  {
    hide TrendAt, Sum;
    ghost var d := Detrended(AsVec(y), |y|, m);
    var phaseSum, phaseCount := new real[m](_ => 0.0), new nat[m](_ => 0);
    TotalsStart(phaseSum[..], phaseCount[..], d, m);
    for t := 0 to |y|
      invariant TotalsUpTo(phaseSum[..], phaseCount[..], d, m, t)
    {
      var phase := t % m;
      assert d(t) == y[t] - trend[t];
      TotalsStep(phaseSum[..], phaseCount[..], d, m, t);
      ghost var sums, counts := phaseSum[..], phaseCount[..];
      phaseSum[phase] := phaseSum[phase] + (y[t] - trend[t]);
      phaseCount[phase] := phaseCount[phase] + 1;
      assert phaseSum[..] == sums[phase := sums[phase] + d(t)];
      assert phaseCount[..] == counts[phase := counts[phase] + 1];
    }
    means := AveragesOf(phaseSum[..], phaseCount[..], d, |y|, m);
  }

  method AveragesOf(sums: seq<real>, counts: seq<nat>, ghost d: Vec, ghost n: nat, m: nat) returns (means: seq<real>)
    requires m > 0 && TotalsUpTo(sums, counts, d, m, n)
    ensures |means| == m && forall p :: 0 <= p < m ==> means[p] == PhaseMean(d, n, m, p)
  {
    hide Sum;
    means := seq(m, p requires 0 <= p < m => if counts[p] > 0 then sums[p] / counts[p] as real else 0.0);
  }

  ghost predicate IsDecomposition(s: Decomposition, y: seq<real>, m: nat)
    requires m > 0
  {
    var n, v := |y|, AsVec(y);
    && |s.trend| == |s.seasonal| == |s.residual| == n && s.period == m
    && forall t :: 0 <= t < n ==>
         && s.trend[t] == TrendAt(v, n, m, t)
         && s.seasonal[t] == SeasonalAt(Detrended(v, n, m), n, m, t)
         && s.residual[t] == y[t] - s.trend[t] - s.seasonal[t]
  }

  method Decompose(y: seq<real>, m: nat) returns (r: Result<Decomposition, ForecastError>)
    ensures m < 2 ==> r == Err(InvalidPeriod(m))
    ensures m >= 2 && |y| < 2 * m ==> r == Err(TooShort(2 * m, |y|))
    ensures m >= 2 && |y| >= 2 * m ==> r.Ok? && IsDecomposition(r.value, y, m)
  {
    hide TrendAt, PhaseMean;
    if m < 2 {
      return Err(InvalidPeriod(m));
    }
    var n := |y|;
    if n < 2 * m {
      return Err(TooShort(2 * m, n));
    }
    var trend := CenteredMovingAverage(y, m);
    var means := PhaseAverages(y, trend, m);
    ghost var d := Detrended(AsVec(y), n, m);
    SumCong(AsVec(means), PhaseMeans(d, n, m), m);
    var offset := Sum(AsVec(means), m) / m as real;
    means := seq(m, p requires 0 <= p < m => means[p] - offset);
    var seasonal := seq(n, t requires 0 <= t < n => means[t % m]);
    var residual := seq(n, t requires 0 <= t < n => y[t] - trend[t] - seasonal[t]);
    r := Ok(Decomposition(trend, seasonal, residual, m));
  }

  // ---------- a line plus a periodic season ----------

  function SeasonAt(s: Vec, m: nat, t: int): real
    requires m > 0
  {
    s(t % m)
  }

  function Season(s: Vec, m: nat): Vec
    requires m > 0
  {
    t => SeasonAt(s, m, t)
  }

  /** y_t = a + b t + s[t mod m]. */
  function LineWithSeason(a: real, b: real, s: Vec, m: nat): Vec
    requires m > 0
  {
    t => LineAt(a, b, t) + SeasonAt(s, m, t)
  }

  /** Twice the sum of the first k entries of a line, to stay clear of division. */
  lemma {:induction false} LineSum(a: real, b: real, f: Vec, k: nat)
    requires forall t :: 0 <= t < k ==> f(t) == LineAt(a, b, t)
    ensures 2.0 * Sum(f, k) == 2.0 * a * k as real + b * (k as real) * (k as real - 1.0)
  {
    if k > 0 {
      LineSum(a, b, f, k - 1);
      var r := k as real;
      assert (k - 1) as real == r - 1.0;
    }
  }

  lemma SeasonPeriodic(s: Vec, m: nat, k: nat)
    requires m > 0
    ensures SeasonAt(s, m, k + m) == SeasonAt(s, m, k)
  {
    ModPeriod(k, m);
  }

  lemma FirstPeriod(s: Vec, m: nat)
    requires m > 0
    ensures Sum(Season(s, m), m) == Sum(s, m)
  {
    hide Sum;
    forall k: nat | k < m
      ensures Season(s, m)(k) == s(k)
    {
      SmallMod(k, m);
      assert Season(s, m)(k) == SeasonAt(s, m, k);
    }
    SumCong(Season(s, m), s, m);
  }

  /** Every stretch of m entries of the season has the same sum. */
  lemma {:induction false} SeasonPrefix(s: Vec, m: nat, k: nat)
    requires m > 0
    ensures Sum(Season(s, m), k + m) == Sum(Season(s, m), k) + Sum(s, m)
  {
    hide SeasonAt, Sum;
    var f := Season(s, m);
    if k == 0 {
      FirstPeriod(s, m);
      SumZero(f, 0);
    } else {
      SeasonPrefix(s, m, k - 1);
      SeasonPeriodic(s, m, k - 1);
      SumStep(f, k - 1);
      SumStep(f, k - 1 + m);
    }
  }

  lemma SumStep(f: Vec, n: nat)
    ensures Sum(f, n + 1) == Sum(f, n) + f(n)
  {
  }

  /** Twice the sum of any window of one period. */
  lemma WindowSum(a: real, b: real, s: Vec, m: nat, k: nat)
    requires m > 0 && Sum(s, m) == 0.0
    ensures 2.0 * Sum(Shift(LineWithSeason(a, b, s, m), k), m) ==
            2.0 * a * m as real + b * (m as real) * (2.0 * k as real + m as real - 1.0)
  {
    hide Sum, SeasonAt, Shift;
    var g := LineWithSeason(a, b, s, m);
    SumSplit(g, k, m);
    var x, y := k as real, m as real;
    assert (k + m) as real == x + y;
    var z := x + y;
    PrefixSum(a, b, s, m, k, x);
    PrefixSum(a, b, s, m, k + m, z);
    SeasonPrefix(s, m, k);
    var lo, hi := Sum(g, k) - Sum(Season(s, m), k), Sum(g, k + m) - Sum(Season(s, m), k + m);
    LineWindow(a, b, x, y, z, lo, hi, Sum(Shift(g, k), m));
  }

  lemma PrefixSum(a: real, b: real, s: Vec, m: nat, k: nat, x: real)
    requires m > 0 && x == k as real
    ensures 2.0 * (Sum(LineWithSeason(a, b, s, m), k) - Sum(Season(s, m), k)) == 2.0 * a * x + b * x * (x - 1.0)
  {
    hide Sum, SeasonAt, LineAt;
    var line: Vec := t => LineAt(a, b, t);
    SumLinear(1.0, line, 1.0, Season(s, m), LineWithSeason(a, b, s, m), k);
    LineSum(a, b, line, k);
  }

  lemma LineWindow(a: real, b: real, x: real, y: real, z: real, lo: real, hi: real, w: real)
    requires 2.0 * lo == 2.0 * a * x + b * x * (x - 1.0)
    requires z == x + y && 2.0 * hi == 2.0 * a * z + b * z * (z - 1.0)
    requires w == hi - lo
    ensures 2.0 * w == 2.0 * a * y + b * y * (2.0 * x + y - 1.0)
  {
  }

  /** Inside the series the window mean removes the season and keeps the line. */
  lemma WindowMeanIsLine(a: real, b: real, s: Vec, m: nat, y: Vec, n: nat, t: nat)
    requires m > 0 && Sum(s, m) == 0.0 && Interior(n, m, t)
    requires Agree(y, LineWithSeason(a, b, s, m), n)
    ensures WindowMean(y, m, t) == LineAt(a, b, t)
  {
    if m % 2 == 0 {
      EvenWindow(a, b, s, m, y, n, t, m / 2);
    } else {
      OddWindow(a, b, s, m, y, n, t, m / 2);
    }
  }

  lemma OddWindow(a: real, b: real, s: Vec, m: nat, y: Vec, n: nat, t: nat, h: nat)
    requires m == 2 * h + 1 && Sum(s, m) == 0.0 && h <= t && t + h < n
    requires Agree(y, LineWithSeason(a, b, s, m), n)
    ensures Sum(Shift(y, t - h), m) / m as real == LineAt(a, b, t)
  {
    hide Sum, SeasonAt, Shift;
    var g, k := LineWithSeason(a, b, s, m), t - h;
    WindowSum(a, b, s, m, k);
    ShiftAgree(y, g, k, n, m);
    var x, r := k as real, m as real;
    assert t as real == x + 0.5 * (r - 1.0);
    var total := Sum(Shift(y, k), m);
  }

  lemma EvenWindow(a: real, b: real, s: Vec, m: nat, y: Vec, n: nat, t: nat, h: nat)
    requires m == 2 * h && h > 0 && Sum(s, m) == 0.0 && h <= t && t + h < n
    requires Agree(y, LineWithSeason(a, b, s, m), n)
    ensures (0.5 * (y(t - h) + y(t + h)) + Sum(Shift(y, t - h + 1), m - 1)) / m as real == LineAt(a, b, t)
  {
    hide Sum, SeasonAt, Shift;
    var g, k := LineWithSeason(a, b, s, m), t - h;
    WindowSum(a, b, s, m, k);
    WindowHead(g, k, y, n, m - 1);
    SeasonPeriodic(s, m, k);
    var x, r, c := k as real, m as real, SeasonAt(s, m, k);
    assert t as real == x + 0.5 * r && (k + m) as real == x + r;
    var first, last, inner := y(k), y(k + m), Sum(Shift(y, k + 1), m - 1);
    assert first == g(k) == LineAt(a, b, k) + c;
    assert last == g(k + m) == LineAt(a, b, k + m) + c;
  }

  /** A window is its first entry and the rest. */
  lemma WindowHead(g: Vec, k: nat, y: Vec, n: nat, len: nat)
    requires Agree(y, g, n) && k + 1 + len <= n
    ensures Sum(Shift(g, k), len + 1) == g(k) + Sum(Shift(y, k + 1), len)
  {
    hide Sum;
    SumSplit(Shift(g, k), 1, len);
    FirstOfSum(Shift(g, k));
    assert Shift(g, k)(0) == At(g, k + 0) == g(k);
    ShiftTwice(g, k, y, n, len);
  }

  lemma ShiftAgree(y: Vec, g: Vec, k: nat, n: nat, len: nat)
    requires Agree(y, g, n) && k + len <= n
    ensures Sum(Shift(y, k), len) == Sum(Shift(g, k), len)
  {
    hide Sum;
    forall i | 0 <= i < len
      ensures Shift(y, k)(i) == Shift(g, k)(i)
    {
      assert Shift(y, k)(i) == At(y, k + i) && Shift(g, k)(i) == At(g, k + i);
    }
    SumCong(Shift(y, k), Shift(g, k), len);
  }

  lemma ShiftTwice(g: Vec, k: nat, y: Vec, n: nat, len: nat)
    requires Agree(y, g, n) && k + 1 + len <= n
    ensures Sum(Shift(Shift(g, k), 1), len) == Sum(Shift(y, k + 1), len)
  {
    hide Sum;
    forall i | 0 <= i < len
      ensures Shift(Shift(g, k), 1)(i) == Shift(y, k + 1)(i)
    {
      assert Shift(Shift(g, k), 1)(i) == At(Shift(g, k), 1 + i) == At(g, k + (1 + i));
      assert Shift(y, k + 1)(i) == At(y, (k + 1) + i);
      assert k + (1 + i) == (k + 1) + i;
    }
    SumCong(Shift(Shift(g, k), 1), Shift(y, k + 1), len);
  }

  // ---------- the decomposition of a line with a season ----------

  /** The trend is the line at every index, edges included. */
  lemma TrendIsLine(a: real, b: real, s: Vec, m: nat, y: Vec, n: nat, t: nat)
    requires m >= 2 && n >= 2 * m && t < n && Sum(s, m) == 0.0
    requires Agree(y, LineWithSeason(a, b, s, m), n)
    ensures TrendAt(y, n, m, t) == LineAt(a, b, t)
  {
    hide WindowMean;
    var first, last := m / 2, n - 1 - m / 2;
    assert first < last;
    WindowMeanIsLine(a, b, s, m, y, n, first);
    WindowMeanIsLine(a, b, s, m, y, n, first + 1);
    WindowMeanIsLine(a, b, s, m, y, n, last);
    WindowMeanIsLine(a, b, s, m, y, n, last - 1);
    if first <= t <= last {
      WindowMeanIsLine(a, b, s, m, y, n, t);
    } else if t < first {
      var f, r := first as real, t as real;
      assert (first - t) as real == f - r && (first + 1) as real == f + 1.0;
    } else {
      var f, r := last as real, t as real;
      assert (t - last) as real == r - f && (last - 1) as real == f - 1.0;
    }
  }

  lemma {:induction false} PhaseCountPositive(m: nat, p: nat, n: nat)
    requires p < m && p < n
    ensures Sum(OfPhase(Ones(), m, p), n) > 0.0
    decreases n
  {
    hide Sum;
    var f := OfPhase(Ones(), m, p);
    SumStep(f, n - 1);
    if n == p + 1 {
      SumNonneg(f, p);
      assert p % m == p && f(p) == 1.0;
    } else {
      PhaseCountPositive(m, p, n - 1);
      assert f(n - 1) >= 0.0;
    }
  }

  lemma {:induction false} SumNonneg(f: Vec, n: nat)
    requires forall k :: 0 <= k < n ==> f(k) >= 0.0
    ensures Sum(f, n) >= 0.0
  {
    if n > 0 { SumNonneg(f, n - 1); }
  }

  /** Averaging a series that only depends on the phase gives back its phase values. */
  lemma PhaseMeanOfSeason(d: Vec, s: Vec, n: nat, m: nat, p: nat)
    requires p < m <= n && Agree(d, Season(s, m), n)
    ensures PhaseMean(d, n, m, p) == s(p)
  {
    hide Sum;
    PhaseCountPositive(m, p, n);
    var ones := OfPhase(Ones(), m, p);
    forall t | 0 <= t < n
      ensures OfPhase(d, m, p)(t) == s(p) * ones(t)
    {
      assert d(t) == SeasonAt(s, m, t);
    }
    SumScale(s(p), ones, OfPhase(d, m, p), n);
    var c, mean := Sum(ones, n), PhaseMean(d, n, m, p);
    assert mean * c == s(p) * c;
    Cancel(mean, s(p), c);
  }

  /**
   Decomposition is exact on a line plus a season that sums to zero over its period: the
   trend is the line everywhere, the seasonal component is the season, nothing is left over.
   */
  lemma DecompositionRecovers(a: real, b: real, s: Vec, m: nat, y: seq<real>, r: Decomposition)
    requires m >= 2 && |y| >= 2 * m && Sum(s, m) == 0.0
    requires forall t :: 0 <= t < |y| ==> y[t] == a + b * t as real + s(t % m)
    requires IsDecomposition(r, y, m)
    ensures forall t :: 0 <= t < |y| ==>
      r.trend[t] == a + b * t as real && r.seasonal[t] == s(t % m) && r.residual[t] == 0.0
  {
    hide Sum, TrendAt, PhaseMean;
    var n, v := |y|, AsVec(y);
    var d := Detrended(v, n, m);
    forall t: nat | t < n
      ensures r.trend[t] == a + b * t as real && d(t) == Season(s, m)(t)
    {
      TrendIsLine(a, b, s, m, v, n, t);
    }
    var means := PhaseMeans(d, n, m);
    forall p: nat | p < m
      ensures means(p) == s(p)
    {
      PhaseMeanOfSeason(d, s, n, m, p);
    }
    SumCong(means, s, m);
    forall t: nat | t < n
      ensures r.seasonal[t] == s(t % m)
    {
      assert means(t % m) == s(t % m);
    }
  }

  /** For every series, the seasonal component sums to zero over the first period. */
  lemma SeasonalSumsToZero(y: seq<real>, m: nat, r: Decomposition)
    requires m >= 2 && |y| >= 2 * m && IsDecomposition(r, y, m)
    ensures Sum(AsVec(r.seasonal), m) == 0.0
  {
    hide Sum, TrendAt, PhaseMean;
    var n := |y|;
    var means := PhaseMeans(Detrended(AsVec(y), n, m), n, m);
    var offset := Sum(means, m) / m as real;
    SumConst(t => offset, offset, m);
    forall t: nat | t < m
      ensures AsVec(r.seasonal)(t) == 1.0 * means(t) + -1.0 * offset
    {
      assert t % m == t;
    }
    SumLinear(1.0, means, -1.0, t => offset, AsVec(r.seasonal), m);
    assert offset * m as real == Sum(means, m);
  }
}
