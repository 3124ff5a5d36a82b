/**
 Exponential smoothing: additive Holt-Winters and the ETS grid selector
 (crates/tdw-analytics-forecast/src/expo.rs).
 */
module Expo {
  import opened Results
  import opened RealSums
  import opened LinearAlgebra
  import opened Autoregression

  datatype HoltWintersFit = HoltWintersFit(
    level: real,
    trend: real,
    seasonal: seq<real>,
    period: nat,
    n: nat,
    sse: real)

  /** Smoothing coefficients and seasonal period of one candidate. */
  datatype Params = Params(alpha: real, beta: real, gamma: real, period: nat)

  /** The recursion's state between observations. */
  datatype Smoothing = Smoothing(level: real, trend: real, seasonal: seq<real>, sse: real)

  predicate UnitInterval(x: real) { 0.0 <= x <= 1.0 }

  // ---------- the recursion ----------

  predicate Seasonal(p: Params) { p.period >= 2 }

  function Start(p: Params): nat { if Seasonal(p) then p.period else 1 }

  predicate LongEnough(y: seq<real>, p: Params) {
    |y| > 0 && (Seasonal(p) ==> |y| >= 2 * p.period)
  }

  function Initial(y: seq<real>, p: Params): (s: Smoothing)
    requires LongEnough(y, p)
    ensures Seasonal(p) ==> |s.seasonal| == p.period
  {
    if Seasonal(p) then
      var m := p.period;
      var l0 := MeanOf(y[..m]);
      Smoothing(l0, (MeanOf(y[m..2 * m]) - l0) / m as real,
                seq(m, i requires 0 <= i < m => y[i] - l0), 0.0)
    else
      Smoothing(y[0], if |y| >= 2 && p.beta > 0.0 then y[1] - y[0] else 0.0, [], 0.0)
  }

  function SeasonTerm(s: Smoothing, p: Params, t: nat): real
    requires Seasonal(p) ==> |s.seasonal| == p.period
  {
    if Seasonal(p) then s.seasonal[t % p.period] else 0.0
  }

  /** Weighted average of a new value and what was there before. */
  function Blend(w: real, x: real, prev: real): real { w * x + (1.0 - w) * prev }

  lemma BlendSame(w: real, x: real)
    ensures Blend(w, x, x) == x
  {
  }

  function Step(s: Smoothing, p: Params, t: nat, yt: real): (r: Smoothing)
    requires Seasonal(p) ==> |s.seasonal| == p.period
    ensures Seasonal(p) ==> |r.seasonal| == p.period
  {
    var prev := SeasonTerm(s, p, t);
    var err := yt - (s.level + s.trend + prev);
    var level := Blend(p.alpha, yt - prev, s.level + s.trend);
    var trend := Blend(p.beta, level - s.level, s.trend);
    var seasonal :=
      if Seasonal(p) then s.seasonal[t % p.period := Blend(p.gamma, yt - level, prev)] else s.seasonal;
    Smoothing(level, trend, seasonal, s.sse + Times(err, err))
  }

  /** The state after the observations before t. */
  function Run(y: seq<real>, p: Params, t: nat): (s: Smoothing)
    requires LongEnough(y, p) && Start(p) <= t <= |y|
    ensures Seasonal(p) ==> |s.seasonal| == p.period
    decreases t
  {
    if t == Start(p) then Initial(y, p) else Step(Run(y, p, t - 1), p, t - 1, y[t - 1])
  }

  /** The fit of one candidate, or why it cannot be fitted. */
  function FitOf(y: seq<real>, p: Params): Result<HoltWintersFit, ForecastError> {
    if y == [] then Err(EmptySeries)
    else if !UnitInterval(p.alpha) then Err(ParamOutOfRange("alpha", p.alpha))
    else if !UnitInterval(p.beta) then Err(ParamOutOfRange("beta", p.beta))
    else if !UnitInterval(p.gamma) then Err(ParamOutOfRange("gamma", p.gamma))
    else if !LongEnough(y, p) then Err(TooShort(2 * p.period, |y|))
    else
      var s := Run(y, p, |y|);
      Ok(HoltWintersFit(s.level, s.trend, s.seasonal, p.period, |y|, s.sse))
  }

  method Fit(y: seq<real>, p: Params) returns (r: Result<HoltWintersFit, ForecastError>)
    ensures r == FitOf(y, p)
  {
    hide Initial, Step, Sum;
    if |y| == 0 {
      return Err(EmptySeries);
    }
    if !(0.0 <= p.alpha <= 1.0) {
      return Err(ParamOutOfRange("alpha", p.alpha));
    }
    if !(0.0 <= p.beta <= 1.0) {
      return Err(ParamOutOfRange("beta", p.beta));
    }
    if !(0.0 <= p.gamma <= 1.0) {
      return Err(ParamOutOfRange("gamma", p.gamma));
    }
    var seasonalOn, n, m := p.period >= 2, |y|, p.period;
    if seasonalOn && n < 2 * m {
      return Err(TooShort(2 * m, n));
    }
    var init := Initial(y, p);
    var level, trend, seasonal, sse := init.level, init.trend, init.seasonal, 0.0;
    InitialError(y, p);
    var start := if seasonalOn then m else 1;
    for t := start to n
      invariant seasonalOn ==> |seasonal| == m
      invariant Smoothing(level, trend, seasonal, sse) == Run(y, p, t)
    {
      level, trend, seasonal, sse := Update(level, trend, seasonal, sse, p, t, y[t]);
    }
    r := Ok(HoltWintersFit(level, trend, seasonal, m, n, sse));
  }

  /** The loop body of `fit`: one observation. */
  method Update(level0: real, trend0: real, seasonal0: seq<real>, sse0: real, p: Params, t: nat, yt: real)
    returns (level: real, trend: real, seasonal: seq<real>, sse: real)
    requires Seasonal(p) ==> |seasonal0| == p.period
    ensures Smoothing(level, trend, seasonal, sse) == Step(Smoothing(level0, trend0, seasonal0, sse0), p, t, yt)
  {
    hide Blend, Times;
    var sPrev := if p.period >= 2 then seasonal0[t % p.period] else 0.0;
    var err := yt - (level0 + trend0 + sPrev);
    sse := sse0 + Times(err, err);
    level := Blend(p.alpha, yt - sPrev, level0 + trend0);
    trend := Blend(p.beta, level - level0, trend0);
    seasonal := seasonal0;
    if p.period >= 2 {
      seasonal := seasonal[t % p.period := Blend(p.gamma, yt - level, sPrev)];
    }
  }

  lemma InitialError(y: seq<real>, p: Params)
    requires LongEnough(y, p)
    ensures Initial(y, p).sse == 0.0
  {
  }

  ghost predicate WellFormed(f: HoltWintersFit) {
    f.n > 0 && (f.period >= 2 ==> |f.seasonal| == f.period)
  }

  /** The h-step forecast: the seasonal index continues from absolute time n - 1. */
  function ForecastAt(f: HoltWintersFit, h: nat): real
    requires WellFormed(f)
  {
    f.level + h as real * f.trend + if f.period >= 2 then f.seasonal[(f.n - 1 + h) % f.period] else 0.0
  }

  function Project(f: HoltWintersFit, horizon: nat): seq<ForecastPoint>
    requires WellFormed(f)
  {
    seq(horizon, i requires 0 <= i < horizon => ForecastPoint(i + 1, ForecastAt(f, i + 1)))
  }

  method HoltWinters(y: seq<real>, horizon: nat, p: Params) returns (r: Result<seq<ForecastPoint>, ForecastError>)
    ensures horizon == 0 ==> r == Err(ZeroHorizon)
    ensures horizon > 0 && FitOf(y, p).Err? ==> r == Err(FitOf(y, p).error)
    ensures horizon > 0 && FitOf(y, p).Ok? ==> WellFormed(FitOf(y, p).value) && r == Ok(Project(FitOf(y, p).value, horizon))
  {
    if horizon == 0 {
      return Err(ZeroHorizon);
    }
    var fitted := Fit(y, p);
    if fitted.Err? {
      return Err(fitted.error);
    }
    r := Ok(Project(fitted.value, horizon));
  }

  // ---------- exactness ----------

  ghost predicate IsLine(y: seq<real>, a: real, b: real) {
    forall t :: 0 <= t < |y| ==> y[t] == LineAt(a, b, t)
  }

  ghost predicate IsPeriodic(y: seq<real>, s: Vec, m: nat)
    requires m > 0
  {
    forall t :: 0 <= t < |y| ==> y[t] == s(t % m)
  }

  /** The accumulated error never decreases. */
  lemma {:induction false} ErrorGrows(y: seq<real>, p: Params, u: nat, t: nat)
    requires LongEnough(y, p) && Start(p) <= u <= t <= |y|
    ensures 0.0 <= Run(y, p, u).sse <= Run(y, p, t).sse
    decreases t
  {
    hide Sum, Initial, Step;
    InitialError(y, p);
    if u < t {
      ErrorGrows(y, p, u, t - 1);
      StepError(Run(y, p, t - 1), p, t - 1, y[t - 1]);
    } else if u > Start(p) {
      ErrorGrows(y, p, u - 1, t - 1);
      StepError(Run(y, p, t - 1), p, t - 1, y[t - 1]);
    }
  }

  /** A step adds the squared one-step error, which vanishes only on an exact prediction. */
  lemma StepError(s: Smoothing, p: Params, t: nat, yt: real)
    requires Seasonal(p) ==> |s.seasonal| == p.period
    ensures Step(s, p, t, yt).sse >= s.sse
    ensures Step(s, p, t, yt).sse == s.sse <==> yt == s.level + s.trend + SeasonTerm(s, p, t)
  {
    var err := yt - (s.level + s.trend + SeasonTerm(s, p, t));
    SquareSign(err, Times(err, err));
  }

  /** After an exact prediction, level and trend move straight on and the season stays. */
  lemma ExactStep(s: Smoothing, p: Params, t: nat, yt: real)
    requires Seasonal(p) ==> |s.seasonal| == p.period
    requires yt == s.level + s.trend + SeasonTerm(s, p, t)
    ensures Step(s, p, t, yt).level == s.level + s.trend
    ensures Step(s, p, t, yt).trend == s.trend
    ensures Seasonal(p) && s.trend == 0.0 ==> Step(s, p, t, yt).seasonal == s.seasonal
    ensures !Seasonal(p) ==> Step(s, p, t, yt).seasonal == s.seasonal
  {
    hide Blend, Times;
    var next, prev := s.level + s.trend, SeasonTerm(s, p, t);
    assert yt - prev == next && next - s.level == s.trend;
    BlendSame(p.alpha, next);
    BlendSame(p.beta, s.trend);
    BlendSame(p.gamma, prev);
  }

  /** Without a season, a fit with no in-sample error has seen a straight line. */
  lemma {:induction false} NoErrorMeansLine(y: seq<real>, p: Params, t: nat)
    requires LongEnough(y, p) && !Seasonal(p) && 1 <= t <= |y| && Run(y, p, t).sse == 0.0
    ensures var i := Initial(y, p);
      && Run(y, p, t).level == LineAt(i.level, i.trend, t - 1)
      && Run(y, p, t).trend == i.trend
      && forall u :: 0 <= u < t ==> y[u] == LineAt(i.level, i.trend, u)
    decreases t
  {
    hide Step, Sum, LineAt;
    var i := Initial(y, p);
    LineStart(i.level, i.trend);
    if t > 1 {
      ErrorGrows(y, p, t - 1, t);
      ErrorGrows(y, p, 1, t - 1);
      NoErrorMeansLine(y, p, t - 1);
      LineStep(i.level, i.trend, t - 2);
      var s := Run(y, p, t - 1);
      StepError(s, p, t - 1, y[t - 1]);
      ExactStep(s, p, t - 1, y[t - 1]);
    }
  }

  /** On a straight line the recursion with a trend never errs. */
  lemma {:induction false} LineRun(y: seq<real>, p: Params, a: real, b: real, t: nat)
    requires LongEnough(y, p) && !Seasonal(p) && 1 <= t <= |y| && IsLine(y, a, b)
    requires |y| >= 2 ==> p.beta > 0.0 || b == 0.0
    ensures Run(y, p, t).sse == 0.0
    ensures Run(y, p, t).level == LineAt(a, b, t - 1)
    ensures |y| >= 2 ==> Run(y, p, t).trend == b
    decreases t
  {
    hide Step, Sum, LineAt;
    if t > 1 {
      LineRun(y, p, a, b, t - 1);
      LineStep(a, b, t - 2);
      var s := Run(y, p, t - 1);
      StepError(s, p, t - 1, y[t - 1]);
      ExactStep(s, p, t - 1, y[t - 1]);
    } else {
      LineStep(a, b, 0);
    }
  }

  /**
   On an arithmetic progression of at least two entries, the non-seasonal fit has zero error
   exactly when it smooths a trend or there is none to follow; its forecast is then the
   progression's continuation.
   */
  lemma LineExactIff(y: seq<real>, p: Params, a: real, b: real, h: nat)
    requires |y| >= 2 && !Seasonal(p) && IsLine(y, a, b) && FitOf(y, p).Ok?
    ensures FitOf(y, p).value.sse == 0.0 <==> p.beta > 0.0 || b == 0.0
    ensures p.beta > 0.0 || b == 0.0 ==> ForecastAt(FitOf(y, p).value, h) == LineAt(a, b, |y| - 1 + h)
  {
    hide Step, Sum, LineAt;
    var n := |y|;
    LineStep(a, b, 0);
    if p.beta > 0.0 || b == 0.0 {
      LineRun(y, p, a, b, n);
      LineAhead(a, b, n - 1, h);
    } else if Run(y, p, n).sse == 0.0 {
      NoErrorMeansLine(y, p, n);
      var i := Initial(y, p);
      LineStep(i.level, i.trend, 0);
      assert false;
    }
  }

  /** Two equal seasons give a flat start: no trend, and the season's deviations from its mean. */
  lemma PeriodicStart(y: seq<real>, p: Params, s: Vec)
    requires Seasonal(p) && LongEnough(y, p) && IsPeriodic(y, s, p.period)
    ensures Initial(y, p).trend == 0.0
    ensures forall i :: 0 <= i < p.period ==> Initial(y, p).level + Initial(y, p).seasonal[i] == s(i)
  {
    hide MeanOf, IsPeriodic;
    TwoPeriods(y, s, p.period);
  }

  lemma TwoPeriods(y: seq<real>, s: Vec, m: nat)
    requires m > 0 && |y| >= 2 * m && IsPeriodic(y, s, m)
    ensures y[..m] == y[m..2 * m]
    ensures forall i :: 0 <= i < m ==> y[i] == s(i)
  {
    forall i: nat | i < m
      ensures y[i] == s(i) && y[m + i] == s(i)
    {
      ModPeriod(i, m);
      SmallMod(i, m);
      assert y[m + i] == s((i + m) % m);
    }
  }

  /** On a periodic series the seasonal recursion never errs, whatever the coefficients. */
  lemma {:induction false} PeriodicRun(y: seq<real>, p: Params, s: Vec, t: nat)
    requires Seasonal(p) && LongEnough(y, p) && IsPeriodic(y, s, p.period) && p.period <= t <= |y|
    ensures Run(y, p, t) == Initial(y, p) && Run(y, p, t).sse == 0.0
    decreases t
  {
    hide Step, Initial, Sum;
    InitialError(y, p);
    if t > p.period {
      PeriodicStart(y, p, s);
      PeriodicRun(y, p, s, t - 1);
      var i := Initial(y, p);
      assert y[t - 1] == s((t - 1) % p.period) == i.level + i.seasonal[(t - 1) % p.period];
      StepError(i, p, t - 1, y[t - 1]);
      ExactStep(i, p, t - 1, y[t - 1]);
    }
  }

  /** A seasonal fit of a periodic series has no error and forecasts the right phase. */
  lemma PeriodicExact(y: seq<real>, p: Params, s: Vec, h: nat)
    requires Seasonal(p) && IsPeriodic(y, s, p.period) && FitOf(y, p).Ok?
    ensures FitOf(y, p).value.sse == 0.0
    ensures ForecastAt(FitOf(y, p).value, h) == s((|y| - 1 + h) % p.period)
  {
    hide Step, Initial, Sum;
    PeriodicRun(y, p, s, |y|);
    PeriodicStart(y, p, s);
    var i := Initial(y, p);
    assert i.level + i.seasonal[(|y| - 1 + h) % p.period] == s((|y| - 1 + h) % p.period);
  }

  /** A non-seasonal fit without error on a periodic series means the series is constant. */
  lemma PeriodicLineIsConstant(y: seq<real>, q: Params, s: Vec, m: nat, h: nat)
    requires m >= 2 && |y| >= 2 * m && IsPeriodic(y, s, m)
    requires !Seasonal(q) && FitOf(y, q).Ok? && FitOf(y, q).value.sse == 0.0
    ensures ForecastAt(FitOf(y, q).value, h) == s((|y| - 1 + h) % m)
  {
    hide Step, Initial, Sum, Run, IsPeriodic;
    var n := |y|;
    NoErrorMeansLine(y, q, n);
    var i := Initial(y, q);
    TwoPeriods(y, s, m);
    assert y[m] == y[m..2 * m][0];
    LevelOnly(y, i.level, i.trend, m);
    var k := (n - 1 + h) % m;
    assert y[k] == s(k);
  }

  lemma LevelOnly(y: seq<real>, a: real, b: real, m: nat)
    requires 0 < m < |y| && y[m] == y[0]
    requires forall u :: 0 <= u < |y| ==> y[u] == LineAt(a, b, u)
    ensures b == 0.0 && forall u :: 0 <= u < |y| ==> y[u] == a
  {
    hide LineAt;
    LineAhead(a, b, 0, m);
    ProductSign(m as real, b, m as real * b);
    forall u | 0 <= u < |y|
      ensures y[u] == a
    {
      FlatLine(a, b, u);
    }
  }

  // ---------- the selector ----------

  const GRID: seq<real> := [0.1, 0.2, 0.3, 0.4, 0.5, 0.6, 0.7, 0.8, 0.9]

  /** Keep the candidate when it fits and has a strictly smaller error. */
  function Consider(best: Option<HoltWintersFit>, candidate: Result<HoltWintersFit, ForecastError>): Option<HoltWintersFit> {
    if candidate.Ok? && (best.None? || candidate.value.sse < best.value.sse) then Some(candidate.value) else best
  }

  /** The best candidate of a list, first come first kept. */
  function Best(y: seq<real>, ps: seq<Params>): Option<HoltWintersFit> {
    if ps == [] then None
    else Consider(Best(y, ps[..|ps| - 1]), FitOf(y, ps[|ps| - 1]))
  }

  function SeasonalGrid(a: real, b: real, m: nat, k: nat): seq<Params>
    requires k <= |GRID|
  {
    if k == 0 then [] else SeasonalGrid(a, b, m, k - 1) + [Params(a, b, GRID[k - 1], m)]
  }

  function TrendGrid(a: real, m: nat, seasonalOk: bool, j: nat): seq<Params>
    requires j <= |GRID|
  {
    if j == 0 then []
    else TrendGrid(a, m, seasonalOk, j - 1) + [Params(a, GRID[j - 1], 0.0, 1)] +
         (if seasonalOk then SeasonalGrid(a, GRID[j - 1], m, |GRID|) else [])
  }

  /** All candidates in the order they are tried. */
  function FullGrid(m: nat, seasonalOk: bool, i: nat): seq<Params>
    requires i <= |GRID|
  {
    if i == 0 then []
    else FullGrid(m, seasonalOk, i - 1) + [Params(GRID[i - 1], 0.0, 0.0, 1)] +
         TrendGrid(GRID[i - 1], m, seasonalOk, |GRID|)
  }

  lemma BestStep(y: seq<real>, ps: seq<Params>, p: Params)
    ensures Best(y, ps + [p]) == Consider(Best(y, ps), FitOf(y, p))
  {
    var qs := ps + [p];
    assert qs[..|qs| - 1] == ps;
  }

  predicate SeasonalOk(y: seq<real>, m: nat) { m >= 2 && |y| >= 2 * m }

  ghost predicate EtsOutcome(y: seq<real>, horizon: nat, m: nat, r: Result<seq<ForecastPoint>, ForecastError>) {
    if horizon == 0 then r == Err(ZeroHorizon)
    else if y == [] then r == Err(EmptySeries)
    else
      var best := Best(y, FullGrid(m, SeasonalOk(y, m), |GRID|));
      best.Some? && WellFormed(best.value) && r == Ok(Project(best.value, horizon))
  }

  method Ets(y: seq<real>, horizon: nat, m: nat) returns (r: Result<seq<ForecastPoint>, ForecastError>)
    ensures EtsOutcome(y, horizon, m, r)
  {
    hide FitOf, Best;
    if horizon == 0 {
      return Err(ZeroHorizon);
    }
    if |y| == 0 {
      return Err(EmptySeries);
    }
    var seasonalOk := m >= 2 && |y| >= 2 * m;
    var best: Option<HoltWintersFit> := None;
    ghost var tried: seq<Params> := [];
    EmptyBest(y);
    for i := 0 to |GRID|
      invariant tried == FullGrid(m, seasonalOk, i) && best == Best(y, tried)
    {
      var a := GRID[i];
      var fitted := Fit(y, Params(a, 0.0, 0.0, 1));
      BestStep(y, tried, Params(a, 0.0, 0.0, 1));
      best := Consider(best, fitted);
      tried := tried + [Params(a, 0.0, 0.0, 1)];
      best := ConsiderTrends(y, a, m, seasonalOk, best, tried);
      tried := tried + TrendGrid(a, m, seasonalOk, |GRID|);
    }
    GridHasBest(y, m, seasonalOk);
    r := Ok(Project(best.value, horizon));
  }

  /** The two inner loops of the grid. */
  method ConsiderTrends(y: seq<real>, a: real, m: nat, seasonalOk: bool, best0: Option<HoltWintersFit>, ghost tried0: seq<Params>)
    returns (best: Option<HoltWintersFit>)
    requires best0 == Best(y, tried0)
    ensures best == Best(y, tried0 + TrendGrid(a, m, seasonalOk, |GRID|))
  {
    hide FitOf, Best;
    best := best0;
    ghost var tried := tried0;
    assert tried0 + [] == tried0;
    for j := 0 to |GRID|
      invariant tried == tried0 + TrendGrid(a, m, seasonalOk, j) && best == Best(y, tried)
    {
      var b := GRID[j];
      ghost var start := tried;
      var fitted := Fit(y, Params(a, b, 0.0, 1));
      BestStep(y, tried, Params(a, b, 0.0, 1));
      best := Consider(best, fitted);
      tried := tried + [Params(a, b, 0.0, 1)];
      if seasonalOk {
        best := ConsiderSeasons(y, a, b, m, best, tried);
        tried := tried + SeasonalGrid(a, b, m, |GRID|);
      }
    }
  }

  method ConsiderSeasons(y: seq<real>, a: real, b: real, m: nat, best0: Option<HoltWintersFit>, ghost tried0: seq<Params>)
    returns (best: Option<HoltWintersFit>)
    requires best0 == Best(y, tried0)
    ensures best == Best(y, tried0 + SeasonalGrid(a, b, m, |GRID|))
  {
    hide FitOf, Best;
    best := best0;
    ghost var tried := tried0;
    assert tried0 + [] == tried0;
    for k := 0 to |GRID|
      invariant tried == tried0 + SeasonalGrid(a, b, m, k) && best == Best(y, tried)
    {
      var fitted := Fit(y, Params(a, b, GRID[k], m));
      BestStep(y, tried, Params(a, b, GRID[k], m));
      best := Consider(best, fitted);
      tried := tried + [Params(a, b, GRID[k], m)];
    }
  }

  lemma EmptyBest(y: seq<real>)
    ensures Best(y, []) == None
  {
  }

  // ---------- what the selection means ----------

  lemma {:induction false} BestIsFit(y: seq<real>, ps: seq<Params>)
    ensures Best(y, ps).Some? ==> WellFormed(Best(y, ps).value) && exists i :: 0 <= i < |ps| && FitOf(y, ps[i]) == Ok(Best(y, ps).value)
    ensures forall i :: 0 <= i < |ps| && FitOf(y, ps[i]).Ok? ==>
      Best(y, ps).Some? && Best(y, ps).value.sse <= FitOf(y, ps[i]).value.sse
  {
    if ps != [] {
      var init, last := ps[..|ps| - 1], ps[|ps| - 1];
      BestIsFit(y, init);
      FitWellFormed(y, last);
      if Best(y, ps).Some? && Best(y, ps) != Best(y, init) {
        assert FitOf(y, ps[|ps| - 1]) == Ok(Best(y, ps).value);
      } else if Best(y, ps).Some? {
        var i :| 0 <= i < |init| && FitOf(y, init[i]) == Ok(Best(y, init).value);
        assert FitOf(y, ps[i]) == Ok(Best(y, ps).value);
      }
    }
  }

  lemma FitWellFormed(y: seq<real>, p: Params)
    ensures FitOf(y, p).Ok? ==> WellFormed(FitOf(y, p).value) && FitOf(y, p).value.sse >= 0.0
  {
    if FitOf(y, p).Ok? {
      ErrorGrows(y, p, Start(p), |y|);
    }
  }

  /** Every candidate is non-seasonal, or seasonal with the requested period. */
  ghost predicate GridMember(p: Params, m: nat, seasonalOk: bool) {
    p.period == 1 || (seasonalOk && p.period == m)
  }

  lemma {:induction false} SeasonalGridMembers(a: real, b: real, m: nat, k: nat)
    requires k <= |GRID|
    ensures forall p <- SeasonalGrid(a, b, m, k) :: GridMember(p, m, true)
  {
    if k > 0 {
      SeasonalGridMembers(a, b, m, k - 1);
    }
  }

  lemma {:induction false} TrendGridMembers(a: real, m: nat, seasonalOk: bool, j: nat)
    requires j <= |GRID|
    ensures forall p <- TrendGrid(a, m, seasonalOk, j) :: GridMember(p, m, seasonalOk)
    ensures j > 0 ==> |TrendGrid(a, m, seasonalOk, j)| > 0 && TrendGrid(a, m, seasonalOk, j)[0] == Params(a, GRID[0], 0.0, 1)
  {
    hide SeasonalGrid;
    if j > 0 {
      TrendGridMembers(a, m, seasonalOk, j - 1);
      SeasonalGridMembers(a, GRID[j - 1], m, |GRID|);
    }
  }

  /** The first two candidates are the level-only fit and the level-and-trend fit at 0.1. */
  lemma {:induction false} FullGridMembers(m: nat, seasonalOk: bool, i: nat)
    requires i <= |GRID|
    ensures forall p <- FullGrid(m, seasonalOk, i) :: GridMember(p, m, seasonalOk)
    ensures i > 0 ==>
      && |FullGrid(m, seasonalOk, i)| >= 2
      && FullGrid(m, seasonalOk, i)[0] == Params(0.1, 0.0, 0.0, 1)
      && FullGrid(m, seasonalOk, i)[1] == Params(0.1, 0.1, 0.0, 1)
  {
    hide TrendGrid;
    if i > 0 {
      FullGridMembers(m, seasonalOk, i - 1);
      TrendGridMembers(GRID[i - 1], m, seasonalOk, |GRID|);
    }
  }

  /** The level-only candidate always fits, so a non-empty series always has a best fit. */
  lemma GridHasBest(y: seq<real>, m: nat, seasonalOk: bool)
    requires y != []
    ensures Best(y, FullGrid(m, seasonalOk, |GRID|)).Some?
    ensures WellFormed(Best(y, FullGrid(m, seasonalOk, |GRID|)).value)
  {
    hide FullGrid, Best, Run;
    FullGridMembers(m, seasonalOk, |GRID|);
    var ps := FullGrid(m, seasonalOk, |GRID|);
    BestIsFit(y, ps);
    assert FitOf(y, ps[0]).Ok?;
  }

  /**
   `ets` projects a grid candidate's fit, and no grid candidate fits with a smaller error.
   */
  lemma EtsIsMinimum(y: seq<real>, horizon: nat, m: nat, r: Result<seq<ForecastPoint>, ForecastError>)
    requires y != [] && horizon > 0 && EtsOutcome(y, horizon, m, r)
    ensures exists p ::
      && p in FullGrid(m, SeasonalOk(y, m), |GRID|)
      && FitOf(y, p).Ok?
      && WellFormed(FitOf(y, p).value)
      && r == Ok(Project(FitOf(y, p).value, horizon))
      && forall q :: q in FullGrid(m, SeasonalOk(y, m), |GRID|) && FitOf(y, q).Ok? ==> FitOf(y, p).value.sse <= FitOf(y, q).value.sse
  {
    hide FullGrid, Best, FitOf, Project;
    var ps := FullGrid(m, SeasonalOk(y, m), |GRID|);
    GridHasBest(y, m, SeasonalOk(y, m));
    BestIsFit(y, ps);
    var i :| 0 <= i < |ps| && FitOf(y, ps[i]) == Ok(Best(y, ps).value);
    assert ps[i] in ps;
    forall q | q in ps && FitOf(y, q).Ok?
      ensures FitOf(y, ps[i]).value.sse <= FitOf(y, q).value.sse
    {
      var j :| 0 <= j < |ps| && ps[j] == q;
    }
  }

  // ---------- the selector inherits exactness ----------

  /** Two consecutive windows of a line have means one window apart. */
  lemma LineWindowMeans(y: seq<real>, a: real, b: real, m: nat)
    requires 0 < m && |y| >= 2 * m && IsLine(y, a, b)
    ensures MeanOf(y[m..2 * m]) == MeanOf(y[..m]) + m as real * b
  {
    hide Sum, LineAt;
    var u, v, rise := y[..m], y[m..2 * m], m as real * b;
    forall k: nat | k < m
      ensures v[k] == u[k] + rise
    {
      LineAhead(a, b, k, m);
      assert v[k] == y[k + m];
    }
    SumRises(u, v, rise, m);
    MeanRises(m as real, Sum(AsVec(u), m), rise, Sum(AsVec(v), m));
  }

  lemma MeanRises(r: real, total: real, rise: real, total': real)
    requires r > 0.0 && total' == total + r * rise
    ensures total' / r == total / r + rise
  {
  }

  lemma SumRises(u: seq<real>, v: seq<real>, rise: real, m: nat)
    requires |u| == |v| == m && forall k :: 0 <= k < m ==> v[k] == u[k] + rise
    ensures Sum(AsVec(v), m) == Sum(AsVec(u), m) + m as real * rise
  {
    hide Sum;
    var c := (k: int) => rise;
    SumConst(c, rise, m);
    SumLinear(1.0, AsVec(u), 1.0, c, AsVec(v), m);
  }

  /** The seasonal model, started from window means, errs on every sloping line. */
  lemma SeasonalLineIsFlat(y: seq<real>, p: Params, a: real, b: real)
    requires Seasonal(p) && IsLine(y, a, b) && FitOf(y, p).Ok? && FitOf(y, p).value.sse == 0.0
    ensures b == 0.0
  {
    hide Step, Sum, MeanOf, LineAt;
    var m := p.period;
    InitialError(y, p);
    ErrorGrows(y, p, m + 1, |y|);
    ErrorGrows(y, p, m, m + 1);
    var i := Initial(y, p);
    assert Run(y, p, m + 1) == Step(i, p, m, y[m]);
    StepError(i, p, m, y[m]);
    ModPeriod(0, m);
    assert SeasonTerm(i, p, m) == y[0] - i.level;
    LineWindowMeans(y, a, b, m);
    LineAhead(a, b, 0, m);
    OneStepOfMany(b, m as real, i.trend, MeanOf(y[..m]), MeanOf(y[m..2 * m]));
  }

  /** A window-mean slope predicts one step where the season repeats after m. */
  lemma OneStepOfMany(b: real, r: real, trend: real, first: real, second: real)
    requires r >= 2.0 && second == first + r * b && trend == (second - first) / r && trend == r * b
    ensures b == 0.0
  {
    Cancel(trend, b, r);
    ProductSign(b, r - 1.0, b * (r - 1.0));
  }

  /** On an arithmetic progression of at least two entries `ets` returns its continuation. */
  lemma EtsContinuesLine(y: seq<real>, horizon: nat, m: nat, r: Result<seq<ForecastPoint>, ForecastError>, a: real, b: real)
    requires |y| >= 2 && IsLine(y, a, b) && horizon > 0 && EtsOutcome(y, horizon, m, r)
    ensures r.Ok? && |r.value| == horizon
    ensures forall i :: 0 <= i < horizon ==> r.value[i] == ForecastPoint(i + 1, LineAt(a, b, |y| + i))
  {
    hide FullGrid, Best, FitOf, ForecastAt, LineAt;
    FullGridMembers(m, SeasonalOk(y, m), |GRID|);
    EtsIsMinimum(y, horizon, m, r);
    var ps := FullGrid(m, SeasonalOk(y, m), |GRID|);
    var p :| p in ps && FitOf(y, p).Ok? && WellFormed(FitOf(y, p).value)
      && r == Ok(Project(FitOf(y, p).value, horizon))
      && forall q :: q in ps && FitOf(y, q).Ok? ==> FitOf(y, p).value.sse <= FitOf(y, q).value.sse;
    TrendFits(y);
    assert ps[1] in ps;
    LineExactIff(y, ps[1], a, b, 0);
    FitWellFormed(y, p);
    if Seasonal(p) {
      SeasonalLineIsFlat(y, p, a, b);
    }
    forall h: nat | 1 <= h <= horizon
      ensures ForecastAt(FitOf(y, p).value, h) == LineAt(a, b, |y| - 1 + h)
    {
      if Seasonal(p) {
        FlatIsPeriodic(y, a, b, p.period);
        FlatLine(a, b, |y| - 1 + h);
        PeriodicExact(y, p, k => a, h);
      } else {
        LineExactIff(y, p, a, b, h);
      }
    }
  }

  lemma FlatIsPeriodic(y: seq<real>, a: real, b: real, m: nat)
    requires m > 0 && b == 0.0 && IsLine(y, a, b)
    ensures IsPeriodic(y, k => a, m)
  {
    hide LineAt;
    forall t: nat | t < |y|
      ensures y[t] == a
    {
      FlatLine(a, b, t);
    }
  }

  lemma TrendFits(y: seq<real>)
    requires y != []
    ensures FitOf(y, Params(0.1, 0.1, 0.0, 1)).Ok?
  {
    hide Run;
  }

  /** On two or more whole periods of a periodic series `ets` returns its continuation. */
  lemma EtsContinuesPeriod(y: seq<real>, horizon: nat, m: nat, r: Result<seq<ForecastPoint>, ForecastError>, s: Vec)
    requires SeasonalOk(y, m) && IsPeriodic(y, s, m) && horizon > 0 && EtsOutcome(y, horizon, m, r)
    ensures r.Ok? && |r.value| == horizon
    ensures forall i :: 0 <= i < horizon ==> r.value[i] == ForecastPoint(i + 1, s((|y| + i) % m))
  {
    hide FullGrid, Best, FitOf, ForecastAt;
    FullGridMembers(m, SeasonalOk(y, m), |GRID|);
    EtsIsMinimum(y, horizon, m, r);
    var ps := FullGrid(m, SeasonalOk(y, m), |GRID|);
    var p :| p in ps && FitOf(y, p).Ok? && WellFormed(FitOf(y, p).value)
      && r == Ok(Project(FitOf(y, p).value, horizon))
      && forall q :: q in ps && FitOf(y, q).Ok? ==> FitOf(y, p).value.sse <= FitOf(y, q).value.sse;
    SeasonalCandidate(y, m);
    var q := Params(0.1, 0.1, 0.1, m);
    PeriodicExact(y, q, s, 0);
    FitWellFormed(y, p);
    forall h: nat | 1 <= h <= horizon
      ensures ForecastAt(FitOf(y, p).value, h) == s((|y| - 1 + h) % m)
    {
      if Seasonal(p) {
        PeriodicExact(y, p, s, h);
      } else {
        PeriodicLineIsConstant(y, p, s, m, h);
      }
    }
  }

  /** When the series spans two periods, the grid holds a seasonal candidate and it fits. */
  lemma SeasonalCandidate(y: seq<real>, m: nat)
    requires SeasonalOk(y, m)
    ensures Params(0.1, 0.1, 0.1, m) in FullGrid(m, true, |GRID|)
    ensures FitOf(y, Params(0.1, 0.1, 0.1, m)).Ok?
  {
    hide Run;
    SeasonalFirst(0.1, 0.1, m, |GRID|);
    TrendKeeps(0.1, m, |GRID|);
    FullKeeps(m, |GRID|);
  }

  lemma {:induction false} SeasonalFirst(a: real, b: real, m: nat, k: nat)
    requires 1 <= k <= |GRID|
    ensures Params(a, b, 0.1, m) in SeasonalGrid(a, b, m, k)
  {
    if k > 1 {
      SeasonalFirst(a, b, m, k - 1);
    }
  }

  lemma {:induction false} TrendKeeps(a: real, m: nat, j: nat)
    requires 1 <= j <= |GRID|
    ensures forall p <- SeasonalGrid(a, 0.1, m, |GRID|) :: p in TrendGrid(a, m, true, j)
  {
    hide SeasonalGrid;
    if j > 1 {
      TrendKeeps(a, m, j - 1);
    }
  }

  lemma {:induction false} FullKeeps(m: nat, i: nat)
    requires 1 <= i <= |GRID|
    ensures forall p <- TrendGrid(0.1, m, true, |GRID|) :: p in FullGrid(m, true, i)
  {
    hide TrendGrid;
    if i > 1 {
      FullKeeps(m, i - 1);
    }
  }
}
