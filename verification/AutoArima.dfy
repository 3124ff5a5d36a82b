/**
 Automatic ARIMA order selection: how often to difference, and the stepwise walk over (p, q)
 (crates/tdw-analytics-forecast/src/autoarima.rs).
 */
module AutoArima {
  import opened Results
  import opened Sets
  import opened RealSums
  import opened LinearAlgebra
  import opened Differencing
  import opened Autoregression
  import opened Arima

  // ---------- criteria ----------

  /** Which information criterion drives the search. */
  datatype Criterion = AkaikeCriterion | CorrectedCriterion | BayesCriterion

  function Value(c: Criterion, m: ArimaFit): Score {
    match c
    case AkaikeCriterion => Finite(m.aic)
    case CorrectedCriterion => m.aicc
    case BayesCriterion => Finite(m.bic)
  }

  function ScoreBy(c: Criterion): ArimaFit -> Score { (m: ArimaFit) => Value(c, m) }

  /** Criteria closer than this are a tie. */
  const TIE: real := 0.000000001

  predicate Simpler(c: ArimaFit, i: ArimaFit) {
    if c.p + c.q != i.p + i.q then c.p + c.q < i.p + i.q
    else if c.p != i.p then c.p < i.p
    else c.q < i.q
  }

  predicate Better(score: ArimaFit -> Score, c: ArimaFit, i: ArimaFit) {
    match (score(c), score(i))
    case (Finite(x), Finite(y)) => if x - y > TIE || y - x > TIE then x < y else Simpler(c, i)
    case (Finite(_), Infinite) => true
    case (Infinite, Finite(_)) => false
    case (Infinite, Infinite) => Simpler(c, i)
  }

  function Pick(score: ArimaFit -> Score, best: Option<ArimaFit>, candidate: Option<ArimaFit>): Option<ArimaFit> {
    if candidate.Some? && (best.None? || Better(score, candidate.value, best.value)) then candidate else best
  }

  // ---------- the record of a search ----------

  type Order = (nat, nat)

  datatype Attempt = Attempt(order: Order, fit: Option<ArimaFit>)

  ghost predicate Attempted(ln: real -> real, y: seq<real>, d: nat, a: Attempt) {
    match a.fit
    case Some(m) => ArimaOutcome(ln, y, a.order.0, d, a.order.1, Ok(m))
    case None => exists e: ForecastError :: ArimaOutcome(ln, y, a.order.0, d, a.order.1, Err(e))
  }

  function Orders(log: seq<Attempt>): set<Order> { set a | a in log :: a.order }

  ghost predicate EachOnce(log: seq<Attempt>) {
    forall i, j :: 0 <= i < j < |log| ==> log[i].order != log[j].order
  }

  function Slack(k: nat): real { k as real * TIE }

  /** The criterion of best is finite and exceeds x by at most k ties. */
  ghost predicate Within(score: ArimaFit -> Score, best: Option<ArimaFit>, x: real, k: nat) {
    best.Some? && score(best.value).Finite? && score(best.value).value <= x + Slack(k)
  }

  /**
   What holds of the incumbent: it is one of the fits, and each finite criterion seen is missed
   by at most one tie per attempt since.
   */
  ghost predicate Champion(score: ArimaFit -> Score, log: seq<Attempt>, best: Option<ArimaFit>) {
    && (best.Some? ==> exists i :: 0 <= i < |log| && log[i].fit == best)
    && (best.None? ==> forall i :: 0 <= i < |log| ==> log[i].fit.None?)
    && forall i :: 0 <= i < |log| && log[i].fit.Some? && score(log[i].fit.value).Finite? ==>
         Within(score, best, score(log[i].fit.value).value, |log| - i)
  }

  lemma PickWithin(score: ArimaFit -> Score, best: Option<ArimaFit>, candidate: Option<ArimaFit>, x: real, k: nat)
    requires Within(score, best, x, k)
    ensures Within(score, Pick(score, best, candidate), x, k + 1)
  {
    assert Slack(k + 1) == Slack(k) + TIE;
  }

  lemma ChampionStep(score: ArimaFit -> Score, log: seq<Attempt>, best: Option<ArimaFit>, a: Attempt)
    requires Champion(score, log, best)
    ensures Champion(score, log + [a], Pick(score, best, a.fit))
  {
    hide Within, Better;
    var log', best' := log + [a], Pick(score, best, a.fit);
    if best' == best {
      if best.Some? {
        var i :| 0 <= i < |log| && log[i].fit == best;
        assert log'[i].fit == best';
      }
    } else {
      assert log'[|log|].fit == best';
    }
    forall i | 0 <= i < |log'| && log'[i].fit.Some? && score(log'[i].fit.value).Finite?
      ensures Within(score, best', score(log'[i].fit.value).value, |log'| - i)
    {
      if i < |log| {
        PickWithin(score, best, a.fit, score(log[i].fit.value).value, |log| - i);
      } else {
        NewWithin(score, best, a.fit.value);
      }
    }
  }

  lemma NewWithin(score: ArimaFit -> Score, best: Option<ArimaFit>, c: ArimaFit)
    requires score(c).Finite?
    ensures Within(score, Pick(score, best, Some(c)), score(c).value, 1)
  {
  }

  function Grid(pMax: nat, qMax: nat): set<Order> {
    set p: nat, q: nat | 0 <= p <= pMax && 0 <= q <= qMax :: (p, q)
  }

  lemma InGrid(o: Order, pMax: nat, qMax: nat)
    ensures o in Grid(pMax, qMax) <==> o.0 <= pMax && o.1 <= qMax
  {
  }

  function GridRow(p: nat, qMax: nat): set<Order> {
    set q: nat | 0 <= q <= qMax :: (p, q)
  }

  lemma {:induction false} GridRowSize(p: nat, qMax: nat)
    ensures |GridRow(p, qMax)| == qMax + 1
  {
    if qMax == 0 {
      assert GridRow(p, 0) == {(p, 0)};
    } else {
      GridRowSize(p, qMax - 1);
      assert GridRow(p, qMax) == GridRow(p, qMax - 1) + {(p, qMax)};
    }
  }

  lemma {:induction false} GridSize(pMax: nat, qMax: nat)
    ensures |Grid(pMax, qMax)| == (pMax + 1) * (qMax + 1)
  {
    GridRowSize(pMax, qMax);
    hide Grid, GridRow;
    if pMax == 0 {
      FirstRow(qMax);
    } else {
      GridSize(pMax - 1, qMax);
      GridGrows(pMax, qMax);
    }
  }

  lemma FirstRow(qMax: nat)
    ensures Grid(0, qMax) == GridRow(0, qMax)
  {
  }

  lemma GridGrows(pMax: nat, qMax: nat)
    requires pMax > 0
    ensures |Grid(pMax, qMax)| == |Grid(pMax - 1, qMax)| + |GridRow(pMax, qMax)|
  {
    var g, r := Grid(pMax - 1, qMax), GridRow(pMax, qMax);
    forall o: Order
      ensures o in Grid(pMax, qMax) <==> o in g || o in r
    {
    }
    assert Grid(pMax, qMax) == g + r;
    assert g * r == {};
  }

  /** The state of a search: every order in the log was fitted once, and best is its champion. */
  ghost predicate Searching(ln: real -> real, y: seq<real>, d: nat, pMax: nat, qMax: nat, score: ArimaFit -> Score,
                            log: seq<Attempt>, visited: set<Order>, best: Option<ArimaFit>)
  {
    && (forall a :: a in log ==> Attempted(ln, y, d, a))
    && EachOnce(log)
    && visited == Orders(log) && |visited| == |log|
    && visited <= Grid(pMax, qMax)
    && Champion(score, log, best)
  }

  lemma SearchStep(ln: real -> real, y: seq<real>, d: nat, pMax: nat, qMax: nat, score: ArimaFit -> Score,
                   log: seq<Attempt>, visited: set<Order>, best: Option<ArimaFit>, a: Attempt)
    requires Searching(ln, y, d, pMax, qMax, score, log, visited, best)
    requires Attempted(ln, y, d, a) && a.order !in visited && a.order in Grid(pMax, qMax)
    ensures Searching(ln, y, d, pMax, qMax, score, log + [a], visited + {a.order}, Pick(score, best, a.fit))
  {
    hide Champion, Attempted, Grid, Pick;
    ChampionStep(score, log, best, a);
    var log' := log + [a];
    forall o | o in Orders(log')
      ensures o in visited + {a.order}
    {
      var b :| b in log' && b.order == o;
      assert b in log || b == a;
    }
    forall o | o in visited + {a.order}
      ensures o in Orders(log')
    {
      if o in visited {
        var b :| b in log && b.order == o;
        assert b in log';
      } else {
        assert a in log';
      }
    }
    assert Orders(log') == visited + {a.order};
    forall i | 0 <= i < |log|
      ensures log[i].order in visited
    {
      assert log[i] in log;
    }
  }

  /** The incumbent misses the best finite criterion fitted by at most one tie per fit. */
  lemma NearlyBest(score: ArimaFit -> Score, log: seq<Attempt>, best: Option<ArimaFit>, a: Attempt)
    requires Champion(score, log, best) && a in log && a.fit.Some? && score(a.fit.value).Finite?
    ensures best.Some? && score(best.value).Finite?
    ensures score(best.value).value <= score(a.fit.value).value + |log| as real * TIE
  {
    var i :| 0 <= i < |log| && log[i] == a;
    assert (|log| - i) as real <= |log| as real;
  }

  // ---------- the walk ----------

  const SEEDS: seq<Order> := [(0, 0), (1, 0), (0, 1), (1, 1), (2, 2)]

  /** Candidate moves from (p, q) in the order they are tried, each with whether it is allowed. */
  function Moves(p: nat, q: nat, pMax: nat, qMax: nat): seq<(Order, bool)> {
    [((if p >= 1 then p - 1 else 0, q), p >= 1),
     ((p + 1, q), p < pMax),
     ((p, if q >= 1 then q - 1 else 0), q >= 1),
     ((p, q + 1), q < qMax)]
  }

  predicate Neighbour(o: Order, n: Order) {
    (o.1 == n.1 && (o.0 == n.0 + 1 || n.0 == o.0 + 1)) || (o.0 == n.0 && (o.1 == n.1 + 1 || n.1 == o.1 + 1))
  }

  /** The allowed moves are exactly the neighbours inside the grid. */
  lemma MovesAreNeighbours(o: Order, pMax: nat, qMax: nat, n: Order)
    requires o in Grid(pMax, qMax)
    ensures Neighbour(o, n) && n in Grid(pMax, qMax) <==> (n, true) in Moves(o.0, o.1, pMax, qMax)
  {
    var ms := Moves(o.0, o.1, pMax, qMax);
    assert ms[0] in ms && ms[1] in ms && ms[2] in ms && ms[3] in ms;
  }

  function OrderOf(m: ArimaFit): Order { (m.p, m.q) }

  ghost predicate SurroundedBy(visited: set<Order>, best: ArimaFit, pMax: nat, qMax: nat) {
    forall n: Order :: Neighbour(OrderOf(best), n) && n in Grid(pMax, qMax) ==> n in visited
  }

  lemma FitHasOrder(ln: real -> real, y: seq<real>, p: nat, d: nat, q: nat, m: ArimaFit)
    requires ArimaOutcome(ln, y, p, d, q, Ok(m))
    ensures OrderOf(m) == (p, q) && m.d == d
  {
    hide StageSingular, StageStart;
  }

  lemma ChampionInGrid(ln: real -> real, y: seq<real>, d: nat, pMax: nat, qMax: nat, score: ArimaFit -> Score,
                       log: seq<Attempt>, visited: set<Order>, best: ArimaFit)
    requires Searching(ln, y, d, pMax, qMax, score, log, visited, Some(best))
    ensures OrderOf(best) in visited && OrderOf(best) in Grid(pMax, qMax) && best.d == d
  {
    hide ArimaOutcome, Grid, EachOnce, Within;
    var i :| 0 <= i < |log| && log[i].fit == Some(best);
    assert log[i] in log && Attempted(ln, y, d, log[i]);
    FitHasOrder(ln, y, log[i].order.0, d, log[i].order.1, best);
    assert log[i].order in Orders(log);
  }

  // ---------- the walk as a function of the fits ----------

  /** What fitting each order yields. */
  type Fits = Order -> Option<ArimaFit>

  datatype Walk = Walk(best: Option<ArimaFit>, log: seq<Attempt>)

  ghost predicate Answers(f: Fits, log: seq<Attempt>) {
    forall a :: a in log ==> f(a.order) == a.fit
  }

  function Try(f: Fits, score: ArimaFit -> Score, w: Walk, o: Order): Walk {
    if o in Orders(w.log) then w else Walk(Pick(score, w.best, f(o)), w.log + [Attempt(o, f(o))])
  }

  function SeedWalk(f: Fits, score: ArimaFit -> Score, pMax: nat, qMax: nat, k: nat): Walk
    requires k <= |SEEDS|
  {
    if k == 0 then Walk(None, [])
    else
      var w := SeedWalk(f, score, pMax, qMax, k - 1);
      if SEEDS[k - 1].0 <= pMax && SEEDS[k - 1].1 <= qMax then Try(f, score, w, SEEDS[k - 1]) else w
  }

  function RoundWalk(f: Fits, score: ArimaFit -> Score, moves: seq<(Order, bool)>, w: Walk, k: nat): Walk
    requires k <= |moves|
  {
    if k == 0 then w
    else
      var v := RoundWalk(f, score, moves, w, k - 1);
      if moves[k - 1].1 then Try(f, score, v, moves[k - 1].0) else v
  }

  function LoopWalk(f: Fits, score: ArimaFit -> Score, pMax: nat, qMax: nat, w: Walk, rounds: nat): Walk
    decreases rounds
  {
    if rounds == 0 || w.best.None? then w
    else
      var moves := Moves(w.best.value.p, w.best.value.q, pMax, qMax);
      var v := RoundWalk(f, score, moves, w, |moves|);
      if v.best == w.best then v else LoopWalk(f, score, pMax, qMax, v, rounds - 1)
  }

  /** The whole selection, had each order's fit been known beforehand. */
  function WholeWalk(f: Fits, score: ArimaFit -> Score, pMax: nat, qMax: nat): Walk {
    LoopWalk(f, score, pMax, qMax, SeedWalk(f, score, pMax, qMax, |SEEDS|), 100)
  }

  lemma TryNew(f: Fits, score: ArimaFit -> Score, best: Option<ArimaFit>, log: seq<Attempt>, o: Order, fit: Option<ArimaFit>)
    requires Answers(f, log + [Attempt(o, fit)]) && o !in Orders(log)
    ensures Answers(f, log)
    ensures Try(f, score, Walk(best, log), o) == Walk(Pick(score, best, fit), log + [Attempt(o, fit)])
  {
    hide Pick;
    var a := Attempt(o, fit);
    assert a in log + [a] && forall b :: b in log ==> b in log + [a];
  }

  lemma AnswersPrefix(f: Fits, log0: seq<Attempt>, log: seq<Attempt>)
    requires log0 <= log && Answers(f, log)
    ensures Answers(f, log0)
  {
    assert forall a :: a in log0 ==> a in log;
  }

  /** Any fits that agree with the log lead the first k seeds to this state. */
  ghost predicate SeedTrace(score: ArimaFit -> Score, pMax: nat, qMax: nat, k: nat, best: Option<ArimaFit>, log: seq<Attempt>)
    requires k <= |SEEDS|
  {
    forall f: Fits {:trigger Answers(f, log)} :: Answers(f, log) ==> SeedWalk(f, score, pMax, qMax, k) == Walk(best, log)
  }

  ghost predicate RoundTrace(score: ArimaFit -> Score, moves: seq<(Order, bool)>, w: Walk, k: nat, best: Option<ArimaFit>, log: seq<Attempt>)
    requires k <= |moves|
  {
    forall f: Fits {:trigger Answers(f, log)} :: Answers(f, log) ==> RoundWalk(f, score, moves, w, k) == Walk(best, log)
  }

  /** Any fits that agree with the log make the whole walk continue from this state. */
  ghost predicate LoopTrace(score: ArimaFit -> Score, pMax: nat, qMax: nat, rounds: nat, improved: bool, best: Option<ArimaFit>, log: seq<Attempt>) {
    forall f: Fits {:trigger Answers(f, log)} :: Answers(f, log) ==>
      WholeWalk(f, score, pMax, qMax) ==
        if improved then LoopWalk(f, score, pMax, qMax, Walk(best, log), rounds) else Walk(best, log)
  }

  lemma SeedTraceStep(score: ArimaFit -> Score, pMax: nat, qMax: nat, k: nat, best: Option<ArimaFit>, log: seq<Attempt>, fit: Option<ArimaFit>)
    requires k < |SEEDS| && SeedTrace(score, pMax, qMax, k, best, log)
    ensures var o := SEEDS[k];
      if o.0 <= pMax && o.1 <= qMax && o !in Orders(log)
      then SeedTrace(score, pMax, qMax, k + 1, Pick(score, best, fit), log + [Attempt(o, fit)])
      else SeedTrace(score, pMax, qMax, k + 1, best, log)
  {
    hide Pick, Orders;
    var o := SEEDS[k];
    if o.0 <= pMax && o.1 <= qMax && o !in Orders(log) {
      forall f: Fits | Answers(f, log + [Attempt(o, fit)])
        ensures SeedWalk(f, score, pMax, qMax, k + 1) == Walk(Pick(score, best, fit), log + [Attempt(o, fit)])
      {
        TryNew(f, score, best, log, o, fit);
      }
    }
  }

  lemma RoundTraceStep(score: ArimaFit -> Score, moves: seq<(Order, bool)>, w: Walk, k: nat, best: Option<ArimaFit>, log: seq<Attempt>, fit: Option<ArimaFit>)
    requires k < |moves| && RoundTrace(score, moves, w, k, best, log)
    ensures var (o, ok) := moves[k];
      if ok && o !in Orders(log)
      then RoundTrace(score, moves, w, k + 1, Pick(score, best, fit), log + [Attempt(o, fit)])
      else RoundTrace(score, moves, w, k + 1, best, log)
  {
    hide Pick, Orders;
    var (o, ok) := moves[k];
    if ok && o !in Orders(log) {
      forall f: Fits | Answers(f, log + [Attempt(o, fit)])
        ensures RoundWalk(f, score, moves, w, k + 1) == Walk(Pick(score, best, fit), log + [Attempt(o, fit)])
      {
        TryNew(f, score, best, log, o, fit);
      }
    }
  }

  lemma LoopTraceStart(score: ArimaFit -> Score, pMax: nat, qMax: nat, best: Option<ArimaFit>, log: seq<Attempt>)
    requires SeedTrace(score, pMax, qMax, |SEEDS|, best, log)
    ensures LoopTrace(score, pMax, qMax, 100, true, best, log)
  {
  }

  lemma LoopTraceStep(score: ArimaFit -> Score, pMax: nat, qMax: nat, rounds: nat, best: ArimaFit, log: seq<Attempt>,
                      improved: bool, best': ArimaFit, log': seq<Attempt>)
    requires rounds > 0 && LoopTrace(score, pMax, qMax, rounds, true, Some(best), log) && log <= log'
    requires RoundTrace(score, Moves(best.p, best.q, pMax, qMax), Walk(Some(best), log), 4, Some(best'), log')
    requires improved <==> best' != best
    ensures LoopTrace(score, pMax, qMax, rounds - 1, improved, Some(best'), log')
  {
    hide WholeWalk, RoundWalk;
    forall f: Fits | Answers(f, log')
      ensures WholeWalk(f, score, pMax, qMax) ==
        if improved then LoopWalk(f, score, pMax, qMax, Walk(Some(best'), log'), rounds - 1) else Walk(Some(best'), log')
    {
      AnswersPrefix(f, log, log');
    }
  }

  lemma LoopTraceEnd(score: ArimaFit -> Score, pMax: nat, qMax: nat, rounds: nat, improved: bool, best: Option<ArimaFit>, log: seq<Attempt>)
    requires LoopTrace(score, pMax, qMax, rounds, improved, best, log) && (improved ==> rounds == 0 || best.None?)
    ensures LoopTrace(score, pMax, qMax, 0, false, best, log)
  {
  }

  /**
   The selection is reproducible: whatever yields the recorded fits for the orders tried makes
   the prescribed walk try the same orders in the same sequence and choose the same model.
   */
  ghost predicate Reproducible(score: ArimaFit -> Score, pMax: nat, qMax: nat, best: Option<ArimaFit>, log: seq<Attempt>) {
    forall f: Fits {:trigger Answers(f, log)} :: Answers(f, log) ==> WholeWalk(f, score, pMax, qMax) == Walk(best, log)
  }

  method TryFit(y: seq<real>, o: Order, d: nat, sqrt: real -> real, ln: real -> real) returns (fit: Option<ArimaFit>)
    requires IsSqrt(sqrt)
    ensures Attempted(ln, y, d, Attempt(o, fit))
  {
    hide ArimaOutcome, IsSqrt;
    var r := Fit(y, o.0, d, o.1, sqrt, ln);
    if r.Ok? {
      fit := Some(r.value);
    } else {
      assert ArimaOutcome(ln, y, o.0, d, o.1, Err(r.error));
      fit := None;
    }
  }

  /** Fit the seeds, in order. */
  method Seed(y: seq<real>, d: nat, pMax: nat, qMax: nat, score: ArimaFit -> Score, sqrt: real -> real, ln: real -> real)
    returns (best: Option<ArimaFit>, visited: set<Order>, ghost log: seq<Attempt>)
    requires IsSqrt(sqrt)
    ensures Searching(ln, y, d, pMax, qMax, score, log, visited, best)
    ensures |log| > 0
    ensures forall o :: o in SEEDS && o in Grid(pMax, qMax) ==> o in visited
    ensures SeedTrace(score, pMax, qMax, |SEEDS|, best, log)
  {
    hide Attempted, IsSqrt, Champion, Better, Searching, Grid, SeedTrace;
    best, visited, log := None, {}, [];
    EmptySearch(ln, y, d, pMax, qMax, score);
    for i := 0 to |SEEDS|
      invariant Searching(ln, y, d, pMax, qMax, score, log, visited, best)
      invariant forall k :: 0 <= k < i && SEEDS[k] in Grid(pMax, qMax) ==> SEEDS[k] in visited
      invariant if i == 0 then visited == {} else |log| > 0
      invariant SeedTrace(score, pMax, qMax, i, best, log)
    {
      var o := SEEDS[i];
      InGrid(o, pMax, qMax);
      VisitedIsLogged(ln, y, d, pMax, qMax, score, log, visited, best);
      SeedTraceStep(score, pMax, qMax, i, best, log, None);
      if o.0 <= pMax && o.1 <= qMax && o !in visited {
        var fit := TryFit(y, o, d, sqrt, ln);
        SearchStep(ln, y, d, pMax, qMax, score, log, visited, best, Attempt(o, fit));
        SeedTraceStep(score, pMax, qMax, i, best, log, fit);
        if fit.Some? && (best.None? || Better(score, fit.value, best.value)) {
          best := fit;
        }
        visited, log := visited + {o}, log + [Attempt(o, fit)];
      }
    }
  }

  lemma EmptySearch(ln: real -> real, y: seq<real>, d: nat, pMax: nat, qMax: nat, score: ArimaFit -> Score)
    ensures Searching(ln, y, d, pMax, qMax, score, [], {}, None)
    ensures SeedTrace(score, pMax, qMax, 0, None, [])
  {
  }

  lemma VisitedIsLogged(ln: real -> real, y: seq<real>, d: nat, pMax: nat, qMax: nat, score: ArimaFit -> Score,
                        log: seq<Attempt>, visited: set<Order>, best: Option<ArimaFit>)
    requires Searching(ln, y, d, pMax, qMax, score, log, visited, best)
    ensures visited == Orders(log)
  {
  }

  lemma RoundBegins(score: ArimaFit -> Score, moves: seq<(Order, bool)>, best: Option<ArimaFit>, log: seq<Attempt>)
    ensures RoundTrace(score, moves, Walk(best, log), 0, best, log)
  {
  }

  lemma NewOrder(ln: real -> real, y: seq<real>, o: Order, d: nat, fit: ArimaFit)
    requires Attempted(ln, y, d, Attempt(o, Some(fit)))
    ensures OrderOf(fit) == o
  {
    hide ArimaOutcome;
    FitHasOrder(ln, y, o.0, d, o.1, fit);
  }

  /** One round of the walk: try every unvisited move from the current best. */
  method Round(y: seq<real>, d: nat, pMax: nat, qMax: nat, score: ArimaFit -> Score, sqrt: real -> real, ln: real -> real,
               best0: ArimaFit, visited0: set<Order>, ghost log0: seq<Attempt>)
    returns (best: ArimaFit, visited: set<Order>, improved: bool, ghost log: seq<Attempt>)
    requires IsSqrt(sqrt) && Searching(ln, y, d, pMax, qMax, score, log0, visited0, Some(best0))
    ensures Searching(ln, y, d, pMax, qMax, score, log, visited, Some(best)) && log0 <= log && visited0 <= visited
    ensures improved ==> |log| > |log0|
    ensures improved <==> best != best0
    ensures !improved ==> SurroundedBy(visited, best, pMax, qMax)
    ensures RoundTrace(score, Moves(best0.p, best0.q, pMax, qMax), Walk(Some(best0), log0), 4, Some(best), log)
  {
    hide Attempted, IsSqrt, Champion, Better, Searching, Grid, RoundTrace;
    best, visited, improved, log := best0, visited0, false, log0;
    var moves := Moves(best0.p, best0.q, pMax, qMax);
    ChampionInGrid(ln, y, d, pMax, qMax, score, log, visited, best0);
    RoundBegins(score, moves, Some(best), log);
    for i := 0 to |moves|
      invariant Searching(ln, y, d, pMax, qMax, score, log, visited, Some(best)) && log0 <= log && visited0 <= visited
      invariant improved ==> |log| > |log0|
      invariant if improved then OrderOf(best) !in visited0 else best == best0
      invariant forall k :: 0 <= k < i && moves[k].1 ==> moves[k].0 in visited
      invariant RoundTrace(score, moves, Walk(Some(best0), log0), i, Some(best), log)
    {
      var (o, ok) := moves[i];
      VisitedIsLogged(ln, y, d, pMax, qMax, score, log, visited, Some(best));
      RoundTraceStep(score, moves, Walk(Some(best0), log0), i, Some(best), log, None);
      if ok && o !in visited {
        MovesAreNeighbours(OrderOf(best0), pMax, qMax, o);
        assert moves[i] in moves;
        var fit := TryFit(y, o, d, sqrt, ln);
        SearchStep(ln, y, d, pMax, qMax, score, log, visited, Some(best), Attempt(o, fit));
        RoundTraceStep(score, moves, Walk(Some(best0), log0), i, Some(best), log, fit);
        if fit.Some? && Better(score, fit.value, best) {
          NewOrder(ln, y, o, d, fit.value);
          best, improved := fit.value, true;
        }
        visited, log := visited + {o}, log + [Attempt(o, fit)];
      }
    }
    forall n: Order | Neighbour(OrderOf(best0), n) && n in Grid(pMax, qMax)
      ensures n in visited
    {
      MovesAreNeighbours(OrderOf(best0), pMax, qMax, n);
      var k :| 0 <= k < |moves| && moves[k] == (n, true);
    }
  }

  /** What a finished search promises. */
  ghost predicate SearchOutcome(ln: real -> real, y: seq<real>, d: nat, pMax: nat, qMax: nat, score: ArimaFit -> Score,
                                log: seq<Attempt>, best: Option<ArimaFit>)
  {
    && Searching(ln, y, d, pMax, qMax, score, log, Orders(log), best)
    && (forall o :: o in SEEDS && o in Grid(pMax, qMax) ==> o in Orders(log))
    && ((pMax + 1) * (qMax + 1) <= 101 && best.Some? ==> SurroundedBy(Orders(log), best.value, pMax, qMax))
    && Reproducible(score, pMax, qMax, best, log)
  }

  lemma SearchEnds(ln: real -> real, y: seq<real>, d: nat, pMax: nat, qMax: nat, score: ArimaFit -> Score,
                   log: seq<Attempt>, visited: set<Order>, best: Option<ArimaFit>, improved: bool)
    requires Searching(ln, y, d, pMax, qMax, score, log, visited, best)
    requires improved ==> |log| > 100
    requires !improved && best.Some? ==> SurroundedBy(visited, best.value, pMax, qMax)
    ensures visited == Orders(log)
    ensures (pMax + 1) * (qMax + 1) <= 101 && best.Some? ==> SurroundedBy(visited, best.value, pMax, qMax)
  {
    hide Champion, Attempted, Grid, EachOnce;
    GridSize(pMax, qMax);
    if improved && |Grid(pMax, qMax)| <= 101 {
      FullSubset(visited, Grid(pMax, qMax));
    }
  }

  method Stepwise(y: seq<real>, d: nat, pMax: nat, qMax: nat, score: ArimaFit -> Score, sqrt: real -> real, ln: real -> real)
    returns (best: Option<ArimaFit>, ghost log: seq<Attempt>)
    requires IsSqrt(sqrt)
    ensures SearchOutcome(ln, y, d, pMax, qMax, score, log, best)
  {
    hide IsSqrt, Searching, Grid, SurroundedBy, SeedTrace, RoundTrace, LoopTrace, Moves;
    var visited;
    best, visited, log := Seed(y, d, pMax, qMax, score, sqrt, ln);
    LoopTraceStart(score, pMax, qMax, best, log);
    var improved, guard := true, 0;
    while improved && guard < 100
      invariant Searching(ln, y, d, pMax, qMax, score, log, visited, best)
      invariant forall o :: o in SEEDS && o in Grid(pMax, qMax) ==> o in visited
      invariant guard <= 100 && (improved ==> |log| > guard)
      invariant !improved && best.Some? ==> SurroundedBy(visited, best.value, pMax, qMax)
      invariant LoopTrace(score, pMax, qMax, 100 - guard, improved, best, log)
      decreases 100 - guard
    {
      if best.None? {
        LoopTraceEnd(score, pMax, qMax, 100 - guard, improved, best, log);
        guard, improved := guard + 1, false;
        break;
      }
      guard := guard + 1;
      ghost var logBefore := log;
      var next;
      next, visited, improved, log := Round(y, d, pMax, qMax, score, sqrt, ln, best.value, visited, log);
      LoopTraceStep(score, pMax, qMax, 101 - guard, best.value, logBefore, improved, next, log);
      best := Some(next);
    }
    SearchEnds(ln, y, d, pMax, qMax, score, log, visited, best, improved);
    LoopTraceEnd(score, pMax, qMax, 100 - guard, improved, best, log);
  }

  /**
   The order returned by the walk: a fit of that order, every attempt in the grid and tried
   once, no attempt's finite criterion lower by more than one tie per attempt; and on grids of
   at most 101 cells the same holds against every neighbour that can be fitted at all.
   */
  lemma StepwiseIsNearlyBest(ln: real -> real, y: seq<real>, d: nat, pMax: nat, qMax: nat, score: ArimaFit -> Score,
                             log: seq<Attempt>, best: ArimaFit)
    requires SearchOutcome(ln, y, d, pMax, qMax, score, log, Some(best))
    ensures best.p <= pMax && best.q <= qMax && ArimaOutcome(ln, y, best.p, d, best.q, Ok(best))
    ensures |log| <= (pMax + 1) * (qMax + 1) && EachOnce(log)
    ensures forall a :: a in log && a.fit.Some? && score(a.fit.value).Finite? ==>
      score(best).Finite? && score(best).value <= score(a.fit.value).value + |log| as real * TIE
    ensures (pMax + 1) * (qMax + 1) <= 101 ==> forall n: Order ::
      Neighbour(OrderOf(best), n) && n.0 <= pMax && n.1 <= qMax ==> exists a :: a in log && a.order == n && Attempted(ln, y, d, a)
  {
    hide ArimaOutcome, Within, Grid;
    var visited := Orders(log);
    ChampionInGrid(ln, y, d, pMax, qMax, score, log, visited, best);
    InGrid(OrderOf(best), pMax, qMax);
    GridSize(pMax, qMax);
    SubsetSize(visited, Grid(pMax, qMax));
    ChampionFitted(ln, y, d, score, log, best);
    forall a | a in log && a.fit.Some? && score(a.fit.value).Finite?
      ensures score(best).Finite? && score(best).value <= score(a.fit.value).value + |log| as real * TIE
    {
      NearlyBest(score, log, Some(best), a);
    }
    forall n: Order | (pMax + 1) * (qMax + 1) <= 101 && Neighbour(OrderOf(best), n) && n.0 <= pMax && n.1 <= qMax
      ensures exists a :: a in log && a.order == n && Attempted(ln, y, d, a)
    {
      InGrid(n, pMax, qMax);
      assert n in visited;
      var a :| a in log && a.order == n;
    }
  }

  lemma ChampionFitted(ln: real -> real, y: seq<real>, d: nat, score: ArimaFit -> Score, log: seq<Attempt>, best: ArimaFit)
    requires Champion(score, log, Some(best)) && forall a :: a in log ==> Attempted(ln, y, d, a)
    ensures ArimaOutcome(ln, y, best.p, d, best.q, Ok(best))
  {
    hide ArimaOutcome, Within;
    var i :| 0 <= i < |log| && log[i].fit == Some(best);
    assert log[i] in log && Attempted(ln, y, d, log[i]);
    FitHasOrder(ln, y, log[i].order.0, d, log[i].order.1, best);
  }

  // ---------- how often to difference ----------

  /** Population variance; zero for an empty series. */
  function Variance(x: seq<real>): real {
    if x == [] then 0.0 else Dot(AsVec(Demeaned(x)), AsVec(Demeaned(x)), |x|) / |x| as real
  }

  /** Another difference still removes more than a tenth of the variance. */
  predicate StillShrinks(x: seq<real>) {
    Variance(x) > 0.0 && Variance(Diff(x)) < 0.9 * Variance(x)
  }

  /** d is the first order at which differencing stops: bound reached, too short, or no gain. */
  ghost predicate SelectedOrder(y: seq<real>, dMax: nat, d: nat) {
    && d <= dMax
    && (forall k :: 0 <= k < d ==> |DiffN(y, k)| > 3 && StillShrinks(DiffN(y, k)))
    && (d == dMax || |DiffN(y, d)| <= 3 || !StillShrinks(DiffN(y, d)))
  }

  lemma {:induction false} DiffOfDiffN(y: seq<real>, k: nat)
    ensures Diff(DiffN(y, k)) == DiffN(y, k + 1)
    decreases k
  {
    if k > 0 {
      DiffOfDiffN(Diff(y), k - 1);
    }
  }

  method SelectD(y: seq<real>, dMax: nat) returns (d: nat)
    ensures SelectedOrder(y, dMax, d)
  {
    hide Variance, Diff, DiffN;
    var current := y;
    d := 0;
    assert DiffN(y, 0) == y by { NoDiff(y); }
    while d < dMax && |current| > 3
      invariant d <= dMax && current == DiffN(y, d)
      invariant forall k :: 0 <= k < d ==> |DiffN(y, k)| > 3 && StillShrinks(DiffN(y, k))
      decreases dMax - d
    {
      var differenced := Diff(current);
      if Variance(current) > 0.0 && Variance(differenced) < 0.9 * Variance(current) {
        DiffOfDiffN(y, d);
        current := differenced;
        d := d + 1;
      } else {
        break;
      }
    }
  }

  lemma NoDiff(y: seq<real>)
    ensures DiffN(y, 0) == y
  {
  }

  /** A series has no variance exactly when it is constant. */
  lemma NoVariance(x: seq<real>)
    ensures Variance(x) >= 0.0
    ensures Variance(x) == 0.0 <==> forall i, j :: 0 <= i < |x| && 0 <= j < |x| ==> x[i] == x[j]
  {
    hide Sum, Dot;
    if x != [] {
      var e, n := Demeaned(x), |x|;
      var v := AsVec(e);
      DotSelf(v, n);
      var total, r := Dot(v, v, n), n as real;
      ProductSign(Variance(x), r, total);
      if Variance(x) == 0.0 {
        assert forall i :: 0 <= i < n ==> v(i) == 0.0 && v(i) == x[i] - MeanOf(x);
      }
      if forall i, j :: 0 <= i < n && 0 <= j < n ==> x[i] == x[j] {
        ConstantMean(x, x[0], MeanOf(x));
        assert AllZero(v, n);
      }
    }
  }

  ghost predicate Constant(x: seq<real>) {
    forall i, j :: 0 <= i < |x| && 0 <= j < |x| ==> x[i] == x[j]
  }

  /** The walk never differences past a constant series, and leaves at least three values. */
  lemma NeverOverDifferences(y: seq<real>, dMax: nat, d: nat, k: nat)
    requires SelectedOrder(y, dMax, d)
    ensures Constant(DiffN(y, k)) ==> d <= k
    ensures d > 0 ==> |DiffN(y, d)| >= 3 && d + 3 <= |y|
  {
    hide Variance, Diff, DiffN;
    if k < d && Constant(DiffN(y, k)) {
      NoVariance(DiffN(y, k));
      assert false;
    }
    if d > 0 {
      assert |DiffN(y, d - 1)| > 3;
      DiffLength(y, d - 1);
      DiffLength(y, d);
    }
  }

  /** A straight line of more than three points is differenced once if it slopes, else never. */
  lemma LineIsDifferencedOnce(y: seq<real>, dMax: nat, d: nat, a: real, b: real)
    requires |y| > 3 && dMax > 0 && SelectedOrder(y, dMax, d)
    requires forall t :: 0 <= t < |y| ==> y[t] == LineAt(a, b, t)
    ensures d == if b == 0.0 then 0 else 1
  {
    hide Variance, Diff, DiffN, LineAt;
    NoDiff(y);
    DiffOfDiffN(y, 0);
    LineSteps(y, a, b);
    NeverOverDifferences(y, dMax, d, 0);
    NeverOverDifferences(y, dMax, d, 1);
    NoVariance(y);
    NoVariance(Diff(y));
  }

  lemma LineSteps(y: seq<real>, a: real, b: real)
    requires |y| > 3 && forall t :: 0 <= t < |y| ==> y[t] == LineAt(a, b, t)
    ensures Constant(Diff(y)) && (Constant(y) <==> b == 0.0)
  {
    hide Constant, LineAt;
    var e := Diff(y);
    forall i: nat | i < |e|
      ensures e[i] == b
    {
      LineStep(a, b, i);
    }
    AllEqual(e, b);
    if b == 0.0 {
      forall i: nat | i < |y|
        ensures y[i] == a
      {
        FlatLine(a, b, i);
      }
      AllEqual(y, a);
    } else {
      LineStep(a, b, 0);
      TwoDiffer(y);
    }
  }

  lemma AllEqual(x: seq<real>, c: real)
    requires forall i :: 0 <= i < |x| ==> x[i] == c
    ensures Constant(x)
  {
  }

  lemma TwoDiffer(x: seq<real>)
    requires |x| > 1 && x[1] != x[0]
    ensures !Constant(x)
  {
  }

  // ---------- selection and forecast ----------

  /** The chosen model, the criterion value that selected it, and its forecast. */
  datatype AutoArimaResult = AutoArimaResult(fit: ArimaFit, criterion: Score, forecast: seq<ForecastPoint>)

  ghost predicate AutoOutcome(y: seq<real>, horizon: nat, pMax: nat, qMax: nat, dMax: nat, c: Criterion, ln: real -> real,
                              r: Result<AutoArimaResult, ForecastError>)
  {
    if horizon == 0 then r == Err(ZeroHorizon)
    else exists d, log, best ::
      && SelectedOrder(y, dMax, d)
      && SearchOutcome(ln, y, d, pMax, qMax, ScoreBy(c), log, best)
      && match best
         case None => r == Err(TooShort(d + 4, |y|))
         case Some(m) =>
           && r.Ok? && r.value.fit == m && r.value.criterion == Value(c, m)
           && ForecastOutcome(m, y, horizon, Ok(r.value.forecast))
  }

  method AutoForecast(y: seq<real>, horizon: nat, pMax: nat, qMax: nat, dMax: nat, c: Criterion, ln: real -> real,
                      sqrt: real -> real)
    returns (r: Result<AutoArimaResult, ForecastError>)
    requires IsSqrt(sqrt)
    ensures AutoOutcome(y, horizon, pMax, qMax, dMax, c, ln, r)
  {
    hide IsSqrt, SelectedOrder, SearchOutcome, IsArimaForecast, Value;
    if horizon == 0 {
      return Err(ZeroHorizon);
    }
    var d := SelectD(y, dMax);
    var best, log := Stepwise(y, d, pMax, qMax, ScoreBy(c), sqrt, ln);
    if best.None? {
      r := Err(TooShort(d + 4, |y|));
    } else {
      var forecast := Forecast(best.value, y, horizon, sqrt);
      r := Ok(AutoArimaResult(best.value, Value(c, best.value), forecast.value));
    }
    assert SelectedOrder(y, dMax, d) && SearchOutcome(ln, y, d, pMax, qMax, ScoreBy(c), log, best);
  }

  /**
   Selection fails exactly on series too short for the plain mean of the differenced series.
   The error then claims that d + 4 points are needed, although d + 6 are.
   */
  lemma FailsExactlyWhenShort(ln: real -> real, y: seq<real>, d: nat, pMax: nat, qMax: nat, score: ArimaFit -> Score,
                              log: seq<Attempt>, best: Option<ArimaFit>)
    requires SearchOutcome(ln, y, d, pMax, qMax, score, log, best)
    ensures best.None? <==> |y| < d + 6
  {
    hide ArimaOutcome, Within, EachOnce;
    InGrid((0, 0), pMax, qMax);
    assert SEEDS[0] in SEEDS;
    var a :| a in log && a.order == (0, 0);
    if best.None? {
      var i :| 0 <= i < |log| && log[i] == a;
      assert Attempted(ln, y, d, a) && a.fit.None?;
      var e: ForecastError :| ArimaOutcome(ln, y, 0, d, 0, Err(e));
      MeanFailsOnlyWhenShort(ln, y, d, e);
    } else {
      ChampionFitted(ln, y, d, score, log, best.value);
      FitsOnlyWhenLong(ln, y, d, best.value);
    }
  }

  lemma MeanFailsOnlyWhenShort(ln: real -> real, y: seq<real>, d: nat, e: ForecastError)
    requires ArimaOutcome(ln, y, 0, d, 0, Err(e))
    ensures |y| < d + 6
  {
    DiffLength(y, d);
  }

  lemma FitsOnlyWhenLong(ln: real -> real, y: seq<real>, d: nat, m: ArimaFit)
    requires ArimaOutcome(ln, y, m.p, d, m.q, Ok(m))
    ensures |y| >= d + 6
  {
  }

  /** Two searches whose recorded fits come from one function of the order are the same search. */
  lemma SelectionIsDeterministic(ln: real -> real, y: seq<real>, d: nat, pMax: nat, qMax: nat, score: ArimaFit -> Score,
                                 log: seq<Attempt>, best: Option<ArimaFit>, log': seq<Attempt>, best': Option<ArimaFit>, f: Fits)
    requires SearchOutcome(ln, y, d, pMax, qMax, score, log, best) && SearchOutcome(ln, y, d, pMax, qMax, score, log', best')
    requires Answers(f, log) && Answers(f, log')
    ensures log == log' && best == best'
  {
    hide Searching, WholeWalk, SurroundedBy;
    assert Walk(best, log) == WholeWalk(f, score, pMax, qMax) == Walk(best', log');
  }
}
