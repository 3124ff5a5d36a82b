/**
 What the order search prefers, over its whole course, and when a series is differenced
 (crates/tdw-analytics-forecast/src/autoarima.rs).
 */
module SelectionLaws {
  import opened Results
  import opened RealSums
  import opened LinearAlgebra
  import opened CholeskyFactor
  import opened LeastSquares
  import opened Statistics
  import opened Differencing
  import opened Autoregression
  import opened Arima
  import opened AutoArima

  // ---------- the champion as a fold over the attempts ----------

  /** The incumbent after all attempts, each compared with the one before it. */
  function Folded(score: ArimaFit -> Score, log: seq<Attempt>): Option<ArimaFit> {
    if log == [] then None else Pick(score, Folded(score, log[..|log| - 1]), log[|log| - 1].fit)
  }

  lemma FoldedAppend(score: ArimaFit -> Score, log: seq<Attempt>, a: Attempt)
    ensures Folded(score, log + [a]) == Pick(score, Folded(score, log), a.fit)
  {
    assert (log + [a])[..|log|] == log;
  }

  ghost predicate IsFolded(score: ArimaFit -> Score, w: Walk) { w.best == Folded(score, w.log) }

  lemma TryFolds(f: Fits, score: ArimaFit -> Score, w: Walk, o: Order)
    requires IsFolded(score, w)
    ensures IsFolded(score, Try(f, score, w, o))
  {
    FoldedAppend(score, w.log, Attempt(o, f(o)));
  }

  lemma {:induction false} SeedWalkFolds(f: Fits, score: ArimaFit -> Score, pMax: nat, qMax: nat, k: nat)
    requires k <= |SEEDS|
    ensures IsFolded(score, SeedWalk(f, score, pMax, qMax, k))
  {
    hide Try, IsFolded;
    if k == 0 {
      assert IsFolded(score, Walk(None, [])) by { NothingFolded(score); }
    } else {
      SeedWalkFolds(f, score, pMax, qMax, k - 1);
      TryFolds(f, score, SeedWalk(f, score, pMax, qMax, k - 1), SEEDS[k - 1]);
    }
  }

  lemma NothingFolded(score: ArimaFit -> Score)
    ensures IsFolded(score, Walk(None, []))
  {
  }

  lemma {:induction false} RoundWalkFolds(f: Fits, score: ArimaFit -> Score, moves: seq<(Order, bool)>, w: Walk, k: nat)
    requires k <= |moves| && IsFolded(score, w)
    ensures IsFolded(score, RoundWalk(f, score, moves, w, k))
  {
    hide Try, IsFolded;
    if k > 0 {
      RoundWalkFolds(f, score, moves, w, k - 1);
      TryFolds(f, score, RoundWalk(f, score, moves, w, k - 1), moves[k - 1].0);
    }
  }

  lemma {:induction false} LoopWalkFolds(f: Fits, score: ArimaFit -> Score, pMax: nat, qMax: nat, w: Walk, rounds: nat)
    requires IsFolded(score, w)
    ensures IsFolded(score, LoopWalk(f, score, pMax, qMax, w, rounds))
    decreases rounds
  {
    hide IsFolded, RoundWalk, Moves;
    if rounds > 0 && w.best.Some? {
      var moves := Moves(w.best.value.p, w.best.value.q, pMax, qMax);
      RoundWalkFolds(f, score, moves, w, |moves|);
      LoopWalkFolds(f, score, pMax, qMax, RoundWalk(f, score, moves, w, |moves|), rounds - 1);
    }
  }

  /** The fit that the log records for an order. */
  function Recorded(log: seq<Attempt>, o: Order): Option<ArimaFit> {
    if log == [] then None
    else if log[|log| - 1].order == o then log[|log| - 1].fit
    else Recorded(log[..|log| - 1], o)
  }

  lemma {:induction false} RecordedIs(log: seq<Attempt>, i: nat)
    requires EachOnce(log) && i < |log|
    ensures Recorded(log, log[i].order) == log[i].fit
  {
    if i < |log| - 1 {
      RecordedIs(log[..|log| - 1], i);
    }
  }

  /** The result of a search is the fold over its attempts. */
  lemma SearchFolds(ln: real -> real, y: seq<real>, d: nat, pMax: nat, qMax: nat, score: ArimaFit -> Score,
                    log: seq<Attempt>, best: Option<ArimaFit>)
    requires SearchOutcome(ln, y, d, pMax, qMax, score, log, best)
    ensures best == Folded(score, log)
  {
    hide SeedWalk, LoopWalk, Champion, Attempted, SurroundedBy;
    var f: Fits := (o: Order) => Recorded(log, o);
    RecordedAnswers(ln, y, d, pMax, qMax, score, log, best);
    assert Answers(f, log) && WholeWalk(f, score, pMax, qMax) == Walk(best, log);
    SeedWalkFolds(f, score, pMax, qMax, |SEEDS|);
    LoopWalkFolds(f, score, pMax, qMax, SeedWalk(f, score, pMax, qMax, |SEEDS|), 100);
  }

  // ---------- what is preferred ----------

  lemma {:induction false} FoldedIsAttempted(score: ArimaFit -> Score, log: seq<Attempt>)
    ensures Folded(score, log).None? ==> forall i :: 0 <= i < |log| ==> log[i].fit.None?
    ensures Folded(score, log).Some? ==> exists i :: 0 <= i < |log| && log[i].fit == Folded(score, log)
  {
    hide Better;
    if log != [] {
      var n := |log| - 1;
      FoldedIsAttempted(score, log[..n]);
      if Folded(score, log) != log[n].fit && Folded(score, log).Some? {
        var i :| 0 <= i < n && log[..n][i].fit == Folded(score, log);
        assert log[i].fit == Folded(score, log);
      }
    }
  }

  /** Attempt i was fitted with a finite criterion that every other attempt misses by more than 1e-9. */
  ghost predicate ClearWinner(score: ArimaFit -> Score, log: seq<Attempt>, i: int) {
    && 0 <= i < |log| && log[i].fit.Some? && score(log[i].fit.value).Finite?
    && forall j :: 0 <= j < |log| && j != i && log[j].fit.Some? && score(log[j].fit.value).Finite? ==>
         score(log[j].fit.value).value > score(log[i].fit.value).value + 0.000000001
  }

  lemma {:induction false} ClearWinnerFolds(score: ArimaFit -> Score, log: seq<Attempt>, i: int)
    requires ClearWinner(score, log, i)
    ensures Folded(score, log) == log[i].fit
  {
    var n := |log| - 1;
    var init := log[..n];
    if i == n {
      FoldedIsAttempted(score, init);
      if Folded(score, init).Some? {
        var j :| 0 <= j < n && init[j].fit == Folded(score, init);
        assert log[j].fit == Folded(score, init);
      }
    } else {
      assert ClearWinner(score, init, i);
      ClearWinnerFolds(score, init, i);
    }
  }

  /** No two fitted attempts differ in their criterion by more than 1e-9. */
  ghost predicate AllTied(score: ArimaFit -> Score, log: seq<Attempt>) {
    forall i, j :: 0 <= i < |log| && 0 <= j < |log| && log[i].fit.Some? && log[j].fit.Some? ==>
      match (score(log[i].fit.value), score(log[j].fit.value))
      case (Finite(x), Finite(y)) => x - y <= 0.000000001
      case (Infinite, Infinite) => true
      case _ => false
  }

  lemma TiedBetter(score: ArimaFit -> Score, log: seq<Attempt>, i: nat, j: nat)
    requires AllTied(score, log) && i < |log| && j < |log| && log[i].fit.Some? && log[j].fit.Some?
    ensures Better(score, log[i].fit.value, log[j].fit.value) <==> Simpler(log[i].fit.value, log[j].fit.value)
  {
  }

  /** Fewer coefficients, or as many and no more autoregressive ones. */
  predicate NoLarger(a: ArimaFit, b: ArimaFit) {
    a.p + a.q < b.p + b.q || (a.p + a.q == b.p + b.q && a.p <= b.p)
  }

  lemma SimplerIsNoLarger(a: ArimaFit, b: ArimaFit, c: ArimaFit)
    ensures if Simpler(a, b) then NoLarger(a, b) else NoLarger(b, a)
    ensures NoLarger(a, a)
    ensures NoLarger(a, b) && NoLarger(b, c) ==> NoLarger(a, c)
  {
  }

  lemma {:induction false} TiedFolds(score: ArimaFit -> Score, log: seq<Attempt>, j: nat)
    requires AllTied(score, log) && j < |log| && log[j].fit.Some?
    ensures Folded(score, log).Some? && NoLarger(Folded(score, log).value, log[j].fit.value)
  {
    hide Better, Simpler, NoLarger;
    var n := |log| - 1;
    var init, last := log[..n], log[n].fit;
    TiedPrefix(score, log, n);
    FoldedIsAttempted(score, init);
    if Folded(score, init).Some? {
      var i :| 0 <= i < n && init[i].fit == Folded(score, init);
      assert log[i].fit == Folded(score, init);
      if last.Some? {
        TiedBetter(score, log, n, i);
        SimplerIsNoLarger(last.value, log[i].fit.value, log[j].fit.value);
      }
    }
    if j < n {
      TiedFolds(score, init, j);
    } else {
      SimplerIsNoLarger(last.value, last.value, last.value);
    }
  }

  lemma TiedPrefix(score: ArimaFit -> Score, log: seq<Attempt>, n: nat)
    requires AllTied(score, log) && n <= |log|
    ensures AllTied(score, log[..n])
  {
    forall i, j | 0 <= i < n && 0 <= j < n && log[..n][i].fit.Some? && log[..n][j].fit.Some?
      ensures match (score(log[..n][i].fit.value), score(log[..n][j].fit.value))
              case (Finite(x), Finite(y)) => x - y <= 0.000000001
              case (Infinite, Infinite) => true
              case _ => false
    {
      assert log[..n][i] == log[i] && log[..n][j] == log[j];
    }
  }

  /**
   Over the whole search: a model whose criterion beats all others tried by more than 1e-9 is the
   result, wherever in the search it was tried; and when all are within 1e-9 of each other the
   result has the fewest coefficients, and among those the fewest autoregressive ones.
   */
  lemma SearchPrefers(ln: real -> real, y: seq<real>, d: nat, pMax: nat, qMax: nat, score: ArimaFit -> Score,
                      log: seq<Attempt>, best: Option<ArimaFit>)
    requires SearchOutcome(ln, y, d, pMax, qMax, score, log, best)
    ensures forall i :: ClearWinner(score, log, i) ==> best == log[i].fit
    ensures AllTied(score, log) ==> forall a :: a in log && a.fit.Some? ==>
      best.Some? && (best.value.p + best.value.q < a.fit.value.p + a.fit.value.q
                     || (best.value.p + best.value.q == a.fit.value.p + a.fit.value.q && best.value.p <= a.fit.value.p))
    ensures forall p, q :: (p, q) in {(0, 0), (1, 0), (0, 1), (1, 1), (2, 2)} && p <= pMax && q <= qMax ==>
      exists a :: a in log && a.order == (p, q)
  {
    hide AllTied, Searching, Reproducible, SurroundedBy;
    SearchFolds(ln, y, d, pMax, qMax, score, log, best);
    forall i | ClearWinner(score, log, i)
      ensures best == log[i].fit
    {
      ClearWinnerFolds(score, log, i);
    }
    forall a | AllTied(score, log) && a in log && a.fit.Some?
      ensures best.Some?
      ensures best.value.p + best.value.q < a.fit.value.p + a.fit.value.q
              || (best.value.p + best.value.q == a.fit.value.p + a.fit.value.q && best.value.p <= a.fit.value.p)
    {
      var j :| 0 <= j < |log| && log[j] == a;
      TiedFolds(score, log, j);
    }
    forall p: nat, q: nat | (p, q) in {(0, 0), (1, 0), (0, 1), (1, 1), (2, 2)} && p <= pMax && q <= qMax
      ensures exists a :: a in log && a.order == (p, q)
    {
      InGrid((p, q), pMax, qMax);
      assert SEEDS[0] in SEEDS && SEEDS[1] in SEEDS && SEEDS[2] in SEEDS && SEEDS[3] in SEEDS && SEEDS[4] in SEEDS;
      assert (p, q) in Orders(log);
    }
  }

  // ---------- the order of the attempts ----------

  lemma {:induction false} RoundExtends(f: Fits, score: ArimaFit -> Score, moves: seq<(Order, bool)>, w: Walk, k: nat)
    requires k <= |moves|
    ensures w.log <= RoundWalk(f, score, moves, w, k).log
  {
    if k > 0 {
      RoundExtends(f, score, moves, w, k - 1);
    }
  }

  lemma {:induction false} LoopExtends(f: Fits, score: ArimaFit -> Score, pMax: nat, qMax: nat, w: Walk, rounds: nat)
    ensures w.log <= LoopWalk(f, score, pMax, qMax, w, rounds).log
    decreases rounds
  {
    hide RoundWalk, Moves;
    if rounds > 0 && w.best.Some? {
      var moves := Moves(w.best.value.p, w.best.value.q, pMax, qMax);
      RoundExtends(f, score, moves, w, |moves|);
      LoopExtends(f, score, pMax, qMax, RoundWalk(f, score, moves, w, |moves|), rounds - 1);
    }
  }

  /** The orders of the log, in sequence. */
  function OrderList(log: seq<Attempt>): seq<Order> {
    seq(|log|, i requires 0 <= i < |log| => log[i].order)
  }

  lemma {:induction false} SeedOrders(f: Fits, score: ArimaFit -> Score, pMax: nat, qMax: nat, k: nat)
    requires k <= |SEEDS|
    ensures OrderList(SeedWalk(f, score, pMax, qMax, k).log) == Inside(SEEDS[..k], pMax, qMax)
  {
    hide Pick;
    if k > 0 {
      SeedOrders(f, score, pMax, qMax, k - 1);
      var w, o := SeedWalk(f, score, pMax, qMax, k - 1), SEEDS[k - 1];
      assert SEEDS[..k][..k - 1] == SEEDS[..k - 1];
      if o in Orders(w.log) {
        var a :| a in w.log && a.order == o;
        var i :| 0 <= i < |w.log| && w.log[i] == a;
        assert OrderList(w.log)[i] == o;
        InsideMembers(SEEDS[..k - 1], pMax, qMax);
        SeedsDiffer(k - 1);
        assert false;
      }
    }
  }

  lemma SeedsDiffer(k: nat)
    requires k < |SEEDS|
    ensures SEEDS[k] !in SEEDS[..k]
  {
    forall j | 0 <= j < k
      ensures SEEDS[j] != SEEDS[k]
    {
      assert SEEDS == [(0, 0), (1, 0), (0, 1), (1, 1), (2, 2)];
    }
  }

  function Inside(orders: seq<Order>, pMax: nat, qMax: nat): seq<Order> {
    if orders == [] then []
    else
      var n := |orders| - 1;
      Inside(orders[..n], pMax, qMax) + if orders[n].0 <= pMax && orders[n].1 <= qMax then [orders[n]] else []
  }

  lemma {:induction false} InsideMembers(orders: seq<Order>, pMax: nat, qMax: nat)
    ensures forall o :: o in Inside(orders, pMax, qMax) ==> o in orders
  {
    if orders != [] {
      InsideMembers(orders[..|orders| - 1], pMax, qMax);
    }
  }

  /** The search begins with the seeds that lie in the grid, in this order; moves try less before more, and p before q. */
  lemma AttemptOrder(ln: real -> real, y: seq<real>, d: nat, pMax: nat, qMax: nat, score: ArimaFit -> Score,
                     log: seq<Attempt>, best: Option<ArimaFit>, p: nat, q: nat)
    requires SearchOutcome(ln, y, d, pMax, qMax, score, log, best)
    ensures Inside([(0, 0), (1, 0), (0, 1), (1, 1), (2, 2)], pMax, qMax) <= OrderList(log)
    ensures forall k :: 0 <= k < |Moves(p, q, pMax, qMax)| && Moves(p, q, pMax, qMax)[k].1 ==>
      Moves(p, q, pMax, qMax)[k].0 == if k == 0 then (p - 1, q) else if k == 1 then (p + 1, q) else if k == 2 then (p, q - 1) else (p, q + 1)
  {
    hide LoopWalk, SeedWalk, Searching, SurroundedBy, Inside;
    var f: Fits := (o: Order) => Recorded(log, o);
    RecordedAnswers(ln, y, d, pMax, qMax, score, log, best);
    assert Answers(f, log) && WholeWalk(f, score, pMax, qMax) == Walk(best, log);
    var seeds := SeedWalk(f, score, pMax, qMax, |SEEDS|);
    LoopExtends(f, score, pMax, qMax, seeds, 100);
    SeedOrders(f, score, pMax, qMax, |SEEDS|);
    assert SEEDS[..|SEEDS|] == [(0, 0), (1, 0), (0, 1), (1, 1), (2, 2)];
    assert OrderList(seeds.log) <= OrderList(log);
  }

  lemma RecordedAnswers(ln: real -> real, y: seq<real>, d: nat, pMax: nat, qMax: nat, score: ArimaFit -> Score,
                        log: seq<Attempt>, best: Option<ArimaFit>)
    requires SearchOutcome(ln, y, d, pMax, qMax, score, log, best)
    ensures forall a :: a in log ==> Recorded(log, a.order) == a.fit
  {
    hide Champion, Attempted, SurroundedBy, Reproducible;
    forall a | a in log
      ensures Recorded(log, a.order) == a.fit
    {
      var i :| 0 <= i < |log| && log[i] == a;
      RecordedIs(log, i);
    }
  }

  /** Which number the search compares and reports. */
  lemma ReportedCriterion(y: seq<real>, horizon: nat, pMax: nat, qMax: nat, dMax: nat, c: Criterion, ln: real -> real,
                          r: Result<AutoArimaResult, ForecastError>)
    requires AutoOutcome(y, horizon, pMax, qMax, dMax, c, ln, r) && r.Ok?
    ensures c.AkaikeCriterion? ==> r.value.criterion == Finite(r.value.fit.aic)
    ensures c.CorrectedCriterion? ==> r.value.criterion == r.value.fit.aicc
    ensures c.BayesCriterion? ==> r.value.criterion == Finite(r.value.fit.bic)
  {
    hide SearchOutcome, SelectedOrder, ForecastOutcome;
  }

  // ---------- differencing ----------

  /** The variance is the population one, in raw sums. */
  lemma VarianceIs(x: seq<real>, n: real)
    requires x != [] && n == |x| as real
    ensures Variance(x) * n * n == n * Dot(AsVec(x), AsVec(x), |x|) - Sum(AsVec(x), |x|) * Sum(AsVec(x), |x|)
  {
    hide Sum, Dot, Tss, Mean;
    var v := AsVec(x);
    TotalIs(v, |x|);
    VarianceTimes(x);
  }

  lemma VarianceTimes(x: seq<real>)
    requires x != []
    ensures Variance(x) * |x| as real == Tss(AsVec(x), |x|)
  {
    hide Sum, Dot;
    var n, v, e := |x|, AsVec(x), AsVec(Demeaned(x));
    assert MeanOf(x) == Mean(v, n);
    DotCong(e, Centered(v, n), e, Centered(v, n), n);
    QuotientSign(Tss(v, n), n as real, Variance(x));
  }

  /**
   The series is differenced exactly while more than three values are left and one more difference
   takes more than a tenth off a positive variance, up to the given bound.
   */
  lemma DifferencingRule(y: seq<real>, dMax: nat, d: nat)
    requires SelectedOrder(y, dMax, d)
    ensures d <= dMax
    ensures forall k :: 0 <= k < d ==>
      |DiffN(y, k)| > 3 && Variance(DiffN(y, k)) > 0.0 && 10.0 * Variance(DiffN(y, k + 1)) < 9.0 * Variance(DiffN(y, k))
    ensures d < dMax && |DiffN(y, d)| > 3 && Variance(DiffN(y, d)) > 0.0 ==>
      10.0 * Variance(DiffN(y, d + 1)) >= 9.0 * Variance(DiffN(y, d))
  {
    hide Variance, Diff, DiffN;
    DiffOfDiffN(y, d);
    forall k: nat | k < d
      ensures |DiffN(y, k)| > 3 && Variance(DiffN(y, k)) > 0.0 && 10.0 * Variance(DiffN(y, k + 1)) < 9.0 * Variance(DiffN(y, k))
    {
      DiffOfDiffN(y, k);
      assert StillShrinks(DiffN(y, k));
    }
  }
}
