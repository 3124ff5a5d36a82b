/**
 What additive Holt-Winters does with its forecast errors, and which candidate the ETS selector
 takes (crates/tdw-analytics-forecast/src/expo.rs).
 */
module ExpoLaws {
  import opened Results
  import opened RealSums
  import opened LinearAlgebra
  import opened Autoregression
  import opened Expo

  // ---------- one step ----------

  lemma BlendMoves(w: real, x: real, e: real)
    ensures Blend(w, x + e, x) == x + w * e
  {
    var z := x + e;
    Distribute(w, x, e, z);
    assert Blend(w, z, x) == w * z + (1.0 - w) * x;
    Distribute(x, w, 1.0 - w, 1.0);
  }

  /**
   Error correction: with e the one-step error, a step moves the level by alpha e beyond where it
   was heading, the trend by alpha beta e and the season of the moment by gamma times the part of e that the level did not take.
   */
  lemma ErrorCorrection(s: Smoothing, p: Params, t: nat, yt: real, e: real)
    requires p.period >= 2 ==> |s.seasonal| == p.period
    requires e == yt - (s.level + s.trend + if p.period >= 2 then s.seasonal[t % p.period] else 0.0)
    ensures Step(s, p, t, yt).level == s.level + s.trend + p.alpha * e
    ensures Step(s, p, t, yt).trend == s.trend + p.beta * (p.alpha * e)
    ensures Step(s, p, t, yt).sse == s.sse + e * e
    ensures p.period < 2 ==> Step(s, p, t, yt).seasonal == s.seasonal
    ensures p.period >= 2 ==> |Step(s, p, t, yt).seasonal| == p.period && forall k :: 0 <= k < p.period ==>
      Step(s, p, t, yt).seasonal[k] == s.seasonal[k] + if k == t % p.period then p.gamma * (e - p.alpha * e) else 0.0
  {
    hide Blend, Times;
    TimesIs(e, e);
    var prev := if p.period >= 2 then s.seasonal[t % p.period] else 0.0;
    BlendMoves(p.alpha, s.level + s.trend, e);
    assert yt - prev == s.level + s.trend + e;
    var next := Step(s, p, t, yt);
    assert next.sse == s.sse + Times(e, e);
    assert next.level - s.level == s.trend + p.alpha * e;
    BlendMoves(p.beta, s.trend, p.alpha * e);
    assert yt - next.level == prev + (e - p.alpha * e);
    BlendMoves(p.gamma, prev, e - p.alpha * e);
    if p.period >= 2 {
      assert next.seasonal == s.seasonal[t % p.period := Blend(p.gamma, yt - next.level, prev)];
    }
  }

  // ---------- the start ----------

  /** Where the recursion starts, written out. */
  lemma InitialIs(y: seq<real>, p: Params)
    requires LongEnough(y, p)
    ensures var i, m := Initial(y, p), p.period;
      && i.sse == 0.0
      && (m < 2 ==> i.level == y[0] && i.seasonal == [] && i.trend == if |y| >= 2 && p.beta > 0.0 then y[1] - y[0] else 0.0)
      && (m >= 2 ==>
            && i.level * m as real == Sum(AsVec(y[..m]), m)
            && i.trend * m as real * m as real == Sum(AsVec(y[m..2 * m]), m) - Sum(AsVec(y[..m]), m)
            && |i.seasonal| == m && forall k :: 0 <= k < m ==> i.seasonal[k] == y[k] - i.level)
  {
    hide Sum;
    if p.period >= 2 {
      var m := p.period;
      MeanTimes(y[..m]);
      MeanTimes(y[m..2 * m]);
      var first, second, i := MeanOf(y[..m]), MeanOf(y[m..2 * m]), Initial(y, p);
      QuotientTimes(second - first, m as real, i.trend);
      Distribute(m as real, second - first, first, second);
    }
  }

  lemma MeanTimes(s: seq<real>)
    requires s != []
    ensures MeanOf(s) * |s| as real == Sum(AsVec(s), |s|)
  {
    hide Sum;
    QuotientTimes(Sum(AsVec(s), |s|), |s| as real, MeanOf(s));
  }

  lemma QuotientTimes(p: real, q: real, d: real)
    requires q > 0.0 && d == p / q
    ensures d * q == p
  {
  }

  /** Which inputs are refused, with which error, and what a fit carries besides its state. */
  lemma FitRefuses(y: seq<real>, p: Params)
    ensures FitOf(y, p).Ok? <==>
      && |y| > 0 && 0.0 <= p.alpha <= 1.0 && 0.0 <= p.beta <= 1.0 && 0.0 <= p.gamma <= 1.0
      && (p.period >= 2 ==> |y| >= 2 * p.period)
    ensures FitOf(y, p).Ok? || FitOf(y, p).error == (
      if |y| == 0 then EmptySeries
      else if !(0.0 <= p.alpha <= 1.0) then ParamOutOfRange("alpha", p.alpha)
      else if !(0.0 <= p.beta <= 1.0) then ParamOutOfRange("beta", p.beta)
      else if !(0.0 <= p.gamma <= 1.0) then ParamOutOfRange("gamma", p.gamma)
      else TooShort(2 * p.period, |y|))
    ensures FitOf(y, p).Ok? ==> FitOf(y, p).value.n == |y| && FitOf(y, p).value.period == p.period
  {
    hide Run;
  }

  // ---------- one more observation ----------

  lemma {:induction false} RunPrefix(y: seq<real>, v: real, p: Params, t: nat)
    requires LongEnough(y, p) && Start(p) <= t <= |y| && (Seasonal(p) || |y| >= 2 || p.beta == 0.0)
    ensures LongEnough(y + [v], p) && Run(y + [v], p, t) == Run(y, p, t)
    decreases t
  {
    hide Step, Sum;
    if t == Start(p) {
      if Seasonal(p) {
        assert (y + [v])[..p.period] == y[..p.period];
        assert (y + [v])[p.period..2 * p.period] == y[p.period..2 * p.period];
      }
    } else {
      RunPrefix(y, v, p, t - 1);
    }
  }

  /**
   The innovations law, for every series, candidate and horizon: a new observation that misses the
   one-step forecast by e adds e^2 to the accumulated error and moves the forecast h steps beyond
   it by alpha e + h alpha beta e, and in its own phase by gamma (e - alpha e) more. In particular an
   observation equal to the forecast changes no later forecast.
   */
  lemma OneMoreObservation(y: seq<real>, p: Params, v: real, h: nat, e: real)
    requires FitOf(y, p).Ok? && (p.period >= 2 || |y| >= 2 || p.beta == 0.0)
    requires e == v - ForecastAt(FitOf(y, p).value, 1)
    ensures FitOf(y + [v], p).Ok?
    ensures FitOf(y + [v], p).value.sse == FitOf(y, p).value.sse + e * e
    ensures ForecastAt(FitOf(y + [v], p).value, h) ==
      ForecastAt(FitOf(y, p).value, h + 1) + p.alpha * e + h as real * (p.beta * (p.alpha * e)) +
      if p.period >= 2 && (|y| + h) % p.period == |y| % p.period then p.gamma * (e - p.alpha * e) else 0.0
  {
    hide Step, Initial, Sum;
    var n, s := |y|, Run(y, p, |y|);
    RunPrefix(y, v, p, n);
    assert (y + [v])[n] == v && Run(y + [v], p, n + 1) == Step(s, p, n, v);
    ErrorCorrection(s, p, n, v, e);
    var f, g := FitOf(y, p).value, FitOf(y + [v], p).value;
    MovedForecast(f.level, f.trend, h, p.alpha * e, p.beta * (p.alpha * e));
  }

  lemma MovedForecast(level: real, trend: real, h: nat, up: real, steeper: real)
    ensures (level + trend + up) + h as real * (trend + steeper) == level + (h + 1) as real * trend + up + h as real * steeper
  {
    Distribute(h as real, trend, steeper, trend + steeper);
    Distribute(trend, h as real, 1.0, (h + 1) as real);
  }

  // ---------- the whole run of the level-only fit ----------

  function Power(x: real, n: nat): real { if n == 0 then 1.0 else x * Power(x, n - 1) }

  /** The weight of observation i in the level after t observations. */
  function Weight(alpha: real, t: nat, i: int): real {
    if i == 0 && t > 0 then Power(1.0 - alpha, t - 1)
    else if 0 < i < t then alpha * Power(1.0 - alpha, t - 1 - i)
    else 0.0
  }

  function WeightedAt(y: seq<real>, alpha: real, t: nat, i: int): real { Weight(alpha, t, i) * AsVec(y)(i) }

  function Weighted(y: seq<real>, alpha: real, t: nat): Vec { i => WeightedAt(y, alpha, t, i) }

  /** Without trend and season the level is the geometrically weighted sum of all observations. */
  lemma {:induction false} LevelIsGeometric(y: seq<real>, p: Params, t: nat)
    requires LongEnough(y, p) && p.period < 2 && p.beta == 0.0 && 1 <= t <= |y|
    ensures Run(y, p, t).level == Sum(Weighted(y, p.alpha, t), t) && Run(y, p, t).trend == 0.0
    decreases t
  {
    hide Sum, Step;
    var w := Weighted(y, p.alpha, t);
    if t == 1 {
      FirstOfSum(w);
      assert w(0) == WeightedAt(y, p.alpha, 1, 0) == 1.0 * y[0];
    } else {
      var s, yt := Run(y, p, t - 1), y[t - 1];
      LevelIsGeometric(y, p, t - 1);
      ErrorCorrection(s, p, t - 1, yt, yt - s.level);
      var before, keep := Weighted(y, p.alpha, t - 1), 1.0 - p.alpha;
      forall i | 0 <= i < t - 1
        ensures w(i) == keep * before(i)
      {
        WeightShrinks(y, p.alpha, t, i);
      }
      SumScale(keep, before, w, t - 1);
      LastWeight(y, p.alpha, t);
      SumLast(w, t - 1);
      var level := s.level;
      Distribute(p.alpha, yt, -level, yt - level);
      Distribute(level, 1.0, -p.alpha, keep);
    }
  }

  lemma SumLast(f: Vec, n: nat)
    ensures Sum(f, n + 1) == Sum(f, n) + f(n)
  {
  }

  lemma WeightShrinks(y: seq<real>, alpha: real, t: nat, i: nat)
    requires i < t - 1
    ensures Weighted(y, alpha, t)(i) == (1.0 - alpha) * Weighted(y, alpha, t - 1)(i)
  {
    var keep, yi := 1.0 - alpha, AsVec(y)(i);
    assert Weighted(y, alpha, t)(i) == WeightedAt(y, alpha, t, i);
    assert Weighted(y, alpha, t - 1)(i) == WeightedAt(y, alpha, t - 1, i);
    var w, w' := Weight(alpha, t - 1, i), Weight(alpha, t, i);
    if i == 0 {
      assert w' == keep * w;
    } else {
      var q := Power(keep, t - 2 - i);
      assert w' == alpha * (keep * q) == keep * (alpha * q);
    }
    Associate(keep, w, w', yi);
  }

  lemma LastWeight(y: seq<real>, alpha: real, t: nat)
    requires 1 < t <= |y|
    ensures Weighted(y, alpha, t)(t - 1) == alpha * y[t - 1]
  {
    assert Weighted(y, alpha, t)(t - 1) == WeightedAt(y, alpha, t, t - 1);
    assert Weight(alpha, t, t - 1) == alpha * 1.0;
  }

  // ---------- the grid ----------

  function TenthsOf(i: int): real { i as real / 10.0 }

  /** A coefficient of the grid: one to nine tenths. */
  ghost predicate Tenth(x: real) { exists i :: 1 <= i <= 9 && x == TenthsOf(i) }

  lemma GridTenths()
    ensures forall k :: 0 <= k < |GRID| ==> GRID[k] == TenthsOf(k + 1)
    ensures |GRID| == 9
  {
  }

  /** The candidates before position k of a list of tenths. */
  ghost predicate TenthUpTo(x: real, k: nat) { exists i :: 1 <= i <= k && x == TenthsOf(i) }

  lemma {:induction false} SeasonalGridIs(a: real, b: real, m: nat, k: nat, q: Params)
    requires k <= |GRID|
    ensures q in SeasonalGrid(a, b, m, k) <==> q.alpha == a && q.beta == b && q.period == m && TenthUpTo(q.gamma, k)
  {
    if k > 0 {
      GridTenths();
      SeasonalGridIs(a, b, m, k - 1, q);
    }
  }

  lemma {:induction false} TrendGridIs(a: real, m: nat, seasonalOk: bool, j: nat, q: Params)
    requires j <= |GRID|
    ensures q in TrendGrid(a, m, seasonalOk, j) <==>
      && q.alpha == a && TenthUpTo(q.beta, j)
      && ((q.gamma == 0.0 && q.period == 1) || (seasonalOk && q.period == m && Tenth(q.gamma)))
  {
    hide SeasonalGrid;
    if j > 0 {
      GridTenths();
      TrendGridIs(a, m, seasonalOk, j - 1, q);
      SeasonalGridIs(a, GRID[j - 1], m, |GRID|, q);
    }
  }

  lemma {:induction false} FullGridIs(m: nat, seasonalOk: bool, i: nat, q: Params)
    requires i <= |GRID|
    ensures q in FullGrid(m, seasonalOk, i) <==>
      && TenthUpTo(q.alpha, i)
      && ((q.beta == 0.0 && q.gamma == 0.0 && q.period == 1)
          || (Tenth(q.beta) && ((q.gamma == 0.0 && q.period == 1) || (seasonalOk && q.period == m && Tenth(q.gamma)))))
  {
    hide TrendGrid;
    if i > 0 {
      GridTenths();
      FullGridIs(m, seasonalOk, i - 1, q);
      TrendGridIs(GRID[i - 1], m, seasonalOk, |GRID|, q);
    }
  }

  // ---------- which candidate is taken ----------

  /** By level, then trend, then seasonal coefficient. */
  predicate Smaller(p: Params, q: Params) {
    p.alpha < q.alpha || (p.alpha == q.alpha && (p.beta < q.beta || (p.beta == q.beta && p.gamma < q.gamma)))
  }

  predicate Ordered(ps: seq<Params>) { forall i, j :: 0 <= i < j < |ps| ==> Smaller(ps[i], ps[j]) }

  lemma JoinOrdered(ps: seq<Params>, qs: seq<Params>)
    requires Ordered(ps) && Ordered(qs) && forall p, q :: p in ps && q in qs ==> Smaller(p, q)
    ensures Ordered(ps + qs)
  {
    hide Smaller;
    var r := ps + qs;
    forall i, j | 0 <= i < j < |r|
      ensures Smaller(r[i], r[j])
    {
      if i < |ps| <= j {
        assert r[i] == ps[i] && r[j] == qs[j - |ps|];
        assert ps[i] in ps && qs[j - |ps|] in qs;
      }
    }
  }

  lemma LaterTenths(x: real, k: nat)
    requires TenthUpTo(x, k)
    ensures 0.0 < x < TenthsOf(k + 1)
  {
  }

  lemma {:induction false} SeasonalGridOrdered(a: real, b: real, m: nat, k: nat)
    requires k <= |GRID|
    ensures Ordered(SeasonalGrid(a, b, m, k))
  {
    if k > 0 {
      GridTenths();
      SeasonalGridOrdered(a, b, m, k - 1);
      var before, last := SeasonalGrid(a, b, m, k - 1), Params(a, b, GRID[k - 1], m);
      forall q | q in before
        ensures Smaller(q, last)
      {
        SeasonalGridIs(a, b, m, k - 1, q);
        LaterTenths(q.gamma, k - 1);
      }
      JoinOrdered(before, [last]);
    }
  }

  lemma {:induction false} TrendGridOrdered(a: real, m: nat, seasonalOk: bool, j: nat)
    requires j <= |GRID|
    ensures Ordered(TrendGrid(a, m, seasonalOk, j))
  {
    hide SeasonalGrid;
    if j > 0 {
      GridTenths();
      TrendGridOrdered(a, m, seasonalOk, j - 1);
      var b := GRID[j - 1];
      var before, plain := TrendGrid(a, m, seasonalOk, j - 1), Params(a, b, 0.0, 1);
      var seasons := if seasonalOk then SeasonalGrid(a, b, m, |GRID|) else [];
      forall q | q in before
        ensures q.alpha == a && q.beta < b
      {
        TrendGridIs(a, m, seasonalOk, j - 1, q);
        LaterTenths(q.beta, j - 1);
      }
      forall q | q in seasons
        ensures q.alpha == a && q.beta == b && q.gamma > 0.0
      {
        SeasonalGridIs(a, b, m, |GRID|, q);
        LaterTenths(q.gamma, |GRID|);
      }
      SeasonalGridOrdered(a, b, m, |GRID|);
      JoinOrdered(before, [plain]);
      JoinOrdered(before + [plain], seasons);
    }
  }

  lemma {:induction false} FullGridOrdered(m: nat, seasonalOk: bool, i: nat)
    requires i <= |GRID|
    ensures Ordered(FullGrid(m, seasonalOk, i))
  {
    hide TrendGrid;
    if i > 0 {
      GridTenths();
      FullGridOrdered(m, seasonalOk, i - 1);
      var a := GRID[i - 1];
      var before, flat, trends := FullGrid(m, seasonalOk, i - 1), Params(a, 0.0, 0.0, 1), TrendGrid(a, m, seasonalOk, |GRID|);
      forall q | q in before
        ensures q.alpha < a
      {
        FullGridIs(m, seasonalOk, i - 1, q);
        LaterTenths(q.alpha, i - 1);
      }
      forall q | q in trends
        ensures q.alpha == a && q.beta > 0.0
      {
        TrendGridIs(a, m, seasonalOk, |GRID|, q);
        LaterTenths(q.beta, |GRID|);
      }
      TrendGridOrdered(a, m, seasonalOk, |GRID|);
      JoinOrdered(before, [flat]);
      JoinOrdered(before + [flat], trends);
    }
  }

  /** The candidate at i has the least error of the list, and every earlier one has a greater error. */
  ghost predicate Earliest(y: seq<real>, ps: seq<Params>, i: int) {
    && 0 <= i < |ps| && FitOf(y, ps[i]).Ok?
    && forall j :: 0 <= j < |ps| && FitOf(y, ps[j]).Ok? ==>
         if j < i then FitOf(y, ps[i]).value.sse < FitOf(y, ps[j]).value.sse
         else FitOf(y, ps[i]).value.sse <= FitOf(y, ps[j]).value.sse
  }

  lemma {:induction false} BestIsEarliest(y: seq<real>, ps: seq<Params>)
    ensures Best(y, ps).None? ==> forall j :: 0 <= j < |ps| ==> FitOf(y, ps[j]).Err?
    ensures Best(y, ps).Some? ==> exists i :: Earliest(y, ps, i) && FitOf(y, ps[i]) == Ok(Best(y, ps).value)
  {
    hide FitOf;
    if ps != [] {
      var n := |ps| - 1;
      var init, last := ps[..n], ps[n];
      BestIsEarliest(y, init);
      if Best(y, ps).Some? {
        if Best(y, ps) == Best(y, init) {
          var i :| Earliest(y, init, i) && FitOf(y, init[i]) == Ok(Best(y, init).value);
          assert ps[i] == init[i];
          assert Earliest(y, ps, i);
        } else {
          assert Earliest(y, ps, n);
        }
      }
    }
  }

  /**
   The selector's choice, for every series, horizon and period. The candidates are level-only,
   level and trend, and, when two periods fit, level, trend and season, with every coefficient
   one to nine tenths. The forecast is that of the candidate with the least accumulated
   error, and among equal errors of the one with the smallest coefficients, level first.
   */
  lemma EtsChoice(y: seq<real>, horizon: nat, m: nat, r: Result<seq<ForecastPoint>, ForecastError>)
    requires y != [] && horizon > 0 && EtsOutcome(y, horizon, m, r)
    ensures exists p ::
      && Candidate(y, m, p) && FitOf(y, p).Ok? && WellFormed(FitOf(y, p).value)
      && r == Ok(Project(FitOf(y, p).value, horizon))
      && forall q :: Candidate(y, m, q) && FitOf(y, q).Ok? && q != p ==>
           || FitOf(y, p).value.sse < FitOf(y, q).value.sse
           || (FitOf(y, p).value.sse == FitOf(y, q).value.sse && Smaller(p, q))
  {
    hide FitOf, FullGrid, Best, Smaller, Candidate, Project;
    var ok := SeasonalOk(y, m);
    var ps := FullGrid(m, ok, |GRID|);
    GridHasBest(y, m, ok);
    BestIsEarliest(y, ps);
    FullGridOrdered(m, ok, |GRID|);
    var i :| Earliest(y, ps, i) && FitOf(y, ps[i]) == Ok(Best(y, ps).value);
    CandidatesAre(y, m, ps[i]);
    forall q | Candidate(y, m, q) && FitOf(y, q).Ok? && q != ps[i]
      ensures FitOf(y, ps[i]).value.sse < FitOf(y, q).value.sse || (FitOf(y, ps[i]).value.sse == FitOf(y, q).value.sse && Smaller(ps[i], q))
    {
      CandidatesAre(y, m, q);
      var j :| 0 <= j < |ps| && ps[j] == q;
    }
  }

  /** The candidates, written out. */
  ghost predicate Candidate(y: seq<real>, m: nat, p: Params) {
    && Tenth(p.alpha)
    && ((p.beta == 0.0 && p.gamma == 0.0 && p.period == 1)
        || (Tenth(p.beta) && p.gamma == 0.0 && p.period == 1)
        || (Tenth(p.beta) && Tenth(p.gamma) && p.period == m && m >= 2 && |y| >= 2 * m))
  }

  lemma CandidatesAre(y: seq<real>, m: nat, p: Params)
    ensures Candidate(y, m, p) <==> p in FullGrid(m, SeasonalOk(y, m), |GRID|)
  {
    hide FullGrid;
    GridTenths();
    FullGridIs(m, SeasonalOk(y, m), |GRID|, p);
  }
}
