/**
 When fired alerts met their own condition: exactly when alerts that share an id ask for the
 same thing (crates/tdw-alert-evaluator/src/lib.rs, crates/tdw-alerts/src/lib.rs).
 */
module AlertSoundness {
  import opened Results
  import opened Alerts
  import opened AlertRuns

  /** What an alert asks for; (de)activation and firing do not change it. */
  predicate SameTerms(a: PriceAlert, b: PriceAlert) {
    a.symbol == b.symbol && a.targetPrice == b.targetPrice && a.condition == b.condition
  }

  /** The alert was active, untriggered and unexpired, and its run's quotes met its condition. */
  ghost predicate JustFire(e: Event, runs: map<nat, Run>) {
    e.Fired? ==>
      && e.run in runs && runs[e.run].memo.quotes.Some?
      && e.alert.active && !e.alert.triggered && e.now < e.alert.expiresAt
      && e.alert.symbol in runs[e.run].memo.quotes.value
      && var price := runs[e.run].memo.quotes.value[e.alert.symbol];
         if e.alert.condition == Above then price >= e.alert.targetPrice else price <= e.alert.targetPrice
  }

  ghost predicate AllJust(s: Sys) { forall e :: e in s.log ==> JustFire(e, s.runs) }

  /** No two untriggered alerts of the pool share an id and ask for different things. */
  predicate Consistent(pool: set<PriceAlert>) {
    forall a, b :: a in pool && b in pool && !a.triggered && !b.triggered && a.id == b.id ==> SameTerms(a, b)
  }

  predicate InsertsFrom(steps: seq<Step>, pool: set<PriceAlert>) {
    forall s :: s in steps && s.Insert? ==> s.alert in pool
  }

  // ---------- consistent pools fire justly ----------

  /** The alert asks for what an untriggered alert of the pool with its id asks for. */
  ghost predicate Traced(a: PriceAlert, pool: set<PriceAlert>) {
    exists p :: p in pool && !p.triggered && p.id == a.id && SameTerms(a, p)
  }

  ghost predicate RecordsTraced(records: seq<PriceAlert>, pool: set<PriceAlert>) {
    forall a :: a in records && !a.triggered ==> Traced(a, pool)
  }

  /** Snapshots come from the pool, and recorded ids fire under the recorded quotes. */
  ghost predicate MemoSound(memo: Memo, pool: set<PriceAlert>) {
    && (memo.eligible.Some? ==> forall e :: e in memo.eligible.value ==> Traced(e, pool))
    && (memo.firedIds.Some? ==>
          && memo.eligible.Some? && memo.quotes.Some?
          && forall id :: id in memo.firedIds.value ==>
               exists e :: e in memo.eligible.value && e.id == id && Fires(e, memo.quotes.value))
  }

  ghost predicate SoundInv(s: Sys, pool: set<PriceAlert>) {
    && RecordsTraced(s.records, pool)
    && (forall r :: r in s.runs ==> MemoSound(s.runs[r].memo, pool))
    && AllJust(s)
  }

  lemma InsertSound(s: Sys, a: PriceAlert, pool: set<PriceAlert>)
    requires SoundInv(s, pool) && a in pool
    ensures SoundInv(s.(records := s.records + [a]), pool)
  {
    hide MemoSound, JustFire;
    assert SameTerms(a, a);
  }

  lemma RecordsSound(s: Sys, after: seq<PriceAlert>, pool: set<PriceAlert>)
    requires SoundInv(s, pool) && RecordsTraced(after, pool)
    ensures SoundInv(s.(records := after), pool)
  {
    hide MemoSound, JustFire, Traced;
  }

  /** Changing a record's flags, never from triggered to untriggered, keeps it traced. */
  lemma UpdateTraced(records: seq<PriceAlert>, k: nat, a: PriceAlert, pool: set<PriceAlert>)
    requires RecordsTraced(records, pool) && k < |records| && a.id == records[k].id && SameTerms(a, records[k])
    requires records[k].triggered ==> a.triggered
    ensures RecordsTraced(records[k := a], pool)
  {
    if !a.triggered {
      assert records[k] in records;
      var p :| p in pool && !p.triggered && p.id == records[k].id && SameTerms(records[k], p);
      assert SameTerms(a, p);
    }
    hide Traced;
    assert forall x :: x in records[k := a] ==> x == a || x in records;
  }

  lemma MemoChangeSound(s: Sys, r: nat, memo: Memo, pool: set<PriceAlert>)
    requires SoundInv(s, pool) && r in s.runs && MemoSound(memo, pool)
    requires s.runs[r].memo.quotes.Some? ==> memo.quotes == s.runs[r].memo.quotes
    ensures SoundInv(WithMemo(s, r, memo), pool)
  {
    hide IsEligible, Fires, MemoSound, RecordsTraced;
  }

  lemma AttemptChangeSound(s: Sys, r: nat, a: Attempt, pool: set<PriceAlert>)
    requires SoundInv(s, pool) && r in s.runs
    ensures SoundInv(WithAttempt(s, r, a), pool)
  {
    hide IsEligible, Fires, MemoSound, RecordsTraced;
  }

  lemma LogSound(s: Sys, e: Event, pool: set<PriceAlert>)
    requires SoundInv(s, pool) && JustFire(e, s.runs)
    ensures SoundInv(s.(log := s.log + [e]), pool)
  {
    hide JustFire, MemoSound, RecordsTraced;
  }

  /** The record found under a recorded id asks for what the judged snapshot asked for. */
  lemma FiredIsJust(s: Sys, r: nat, id: string, a: PriceAlert, now: int, pool: set<PriceAlert>)
    requires Consistent(pool) && SoundInv(s, pool)
    requires r in s.runs && s.runs[r].memo.firedIds.Some? && id in s.runs[r].memo.firedIds.value
    requires a in s.records && a.id == id && IsEligible(a, now)
    ensures JustFire(Fired(r, a, now), s.runs)
  {
    hide AllJust;
    var memo := s.runs[r].memo;
    assert MemoSound(memo, pool);
    var e :| e in memo.eligible.value && e.id == id && Fires(e, memo.quotes.value);
    assert Traced(e, pool) && Traced(a, pool);
    var p :| p in pool && !p.triggered && p.id == e.id && SameTerms(e, p);
    var q :| q in pool && !q.triggered && q.id == a.id && SameTerms(a, q);
    assert SameTerms(p, q);
  }

  lemma FireSound(s: Sys, r: nat, pool: set<PriceAlert>)
    requires Consistent(pool) && SoundInv(s, pool)
    ensures SoundInv(DoFire(s, r), pool)
  {
    hide SoundInv, Find, Consistent;
    if AtId(s, r) && s.runs[r].attempt.value.next < |s.runs[r].memo.firedIds.value| {
      var a := s.runs[r].attempt.value;
      var id := s.runs[r].memo.firedIds.value[a.next];
      if CanFire(s.records, id, a.now) {
        var k := Find(s.records, id);
        var after := AfterFiring(s.records, id, a.now);
        FiredIsJust(s, r, id, s.records[k], a.now, pool);
        LogSound(s, Fired(r, s.records[k], a.now), pool);
        assert RecordsTraced(s.records, pool) by { RecordsOf(s, pool); }
        UpdateTraced(s.records, k, FiredRecord(s.records[k], a.now), pool);
        var logged := s.(log := s.log + [Fired(r, s.records[k], a.now)]);
        RecordsSound(logged, after, pool);
        AttemptChangeSound(logged.(records := after), r,
                           a.(next := a.next + 1, pending := Some(id), triggered := a.triggered + 1), pool);
      } else {
        AttemptChangeSound(s, r, a.(next := a.next + 1), pool);
      }
    }
  }

  lemma RecordsOf(s: Sys, pool: set<PriceAlert>)
    requires SoundInv(s, pool)
    ensures RecordsTraced(s.records, pool) && AllJust(s)
  {
  }

  lemma NotifySound(s: Sys, r: nat, pool: set<PriceAlert>)
    requires SoundInv(s, pool)
    ensures SoundInv(DoNotify(s, r), pool)
  {
    hide SoundInv, Find;
    assert s.log + [] == s.log;
    if Attempting(s, r) && s.runs[r].attempt.value.pending.Some? && s.runs[r].memo.eligible.Some? && s.runs[r].memo.quotes.Some? {
      var a, el := s.runs[r].attempt.value, s.runs[r].memo.eligible.value;
      var k := Find(el, a.pending.value);
      AttemptChangeSound(s, r, a.(pending := None), pool);
      if k < |el| {
        LogSound(s, Notified(r, el[k]), pool);
        AttemptChangeSound(s.(log := s.log + [Notified(r, el[k])]), r, a.(pending := None), pool);
      }
    }
  }

  lemma StoreSound(s: Sys, step: Step, pool: set<PriceAlert>)
    requires SoundInv(s, pool) && (step.SetActive? || step.Delete?)
    ensures SoundInv(Do(s, step), pool)
  {
    hide SoundInv, Find, Retained, Traced;
    var t := Do(s, step);
    RecordsOf(s, pool);
    if step.SetActive? {
      var k := Find(s.records, step.id);
      if k < |s.records| {
        UpdateTraced(s.records, k, s.records[k].(active := step.active), pool);
        RecordsSound(s, t.records, pool);
      }
    } else {
      RecordsSound(s, t.records, pool);
      if t.log != s.log {
        LogSound(s.(records := t.records), Deleted(step.id), pool);
      }
    }
  }

  lemma StartSound(s: Sys, r: nat, now: int, pool: set<PriceAlert>)
    requires SoundInv(s, pool)
    ensures SoundInv(Do(s, Start(r, now)), pool)
  {
    hide IsEligible, Fires, Traced;
  }

  lemma StageSound(s: Sys, step: Step, pool: set<PriceAlert>)
    requires SoundInv(s, pool) && (step.Load? || step.Fetch? || step.Judge? || step.Finish?)
    ensures SoundInv(Do(s, step), pool)
  {
    hide SoundInv, Eligible, QuotesFor, FiringIds, SortedIds;
    if Do(s, step) != s {
      var memo := Do(s, step).runs[step.run].memo;
      StageMemoSound(s, step, pool);
      MemoChangeSound(s, step.run, memo, pool);
    }
  }

  lemma StageMemoSound(s: Sys, step: Step, pool: set<PriceAlert>)
    requires SoundInv(s, pool) && (step.Load? || step.Fetch? || step.Judge? || step.Finish?) && Do(s, step) != s
    ensures step.run in s.runs && MemoSound(Do(s, step).runs[step.run].memo, pool)
  {
    hide Eligible, QuotesFor, FiringIds, SortedIds, Fires, Traced, AllJust;
    assert MemoSound(s.runs[step.run].memo, pool);
  }

  lemma StepSound(s: Sys, step: Step, pool: set<PriceAlert>)
    requires Consistent(pool) && SoundInv(s, pool) && (step.Insert? ==> step.alert in pool)
    ensures SoundInv(Do(s, step), pool)
  {
    hide SoundInv, Consistent;
    match step {
      case Insert(alert) => InsertSound(s, alert, pool);
      case SetActive(_, _) => StoreSound(s, step, pool);
      case Delete(_) => StoreSound(s, step, pool);
      case Start(r, now) => StartSound(s, r, now, pool);
      case Fire(r) => FireSound(s, r, pool);
      case Notify(r) => NotifySound(s, r, pool);
      case _ => StageSound(s, step, pool);
    }
  }

  /** Whatever is inserted from a consistent pool, every fire is just. */
  lemma {:induction false} ConsistentPoolFiresJustly(steps: seq<Step>, pool: set<PriceAlert>)
    requires Consistent(pool) && InsertsFrom(steps, pool)
    ensures SoundInv(Exec(EMPTY, steps), pool) && AllJust(Exec(EMPTY, steps))
  {
    hide Do, SoundInv, AllJust, Consistent;
    if steps == [] {
      NothingFired(pool);
    } else {
      var init, step := steps[..|steps| - 1], steps[|steps| - 1];
      ConsistentPoolFiresJustly(init, pool);
      StepSound(Exec(EMPTY, init), step, pool);
    }
    RecordsOf(Exec(EMPTY, steps), pool);
  }

  lemma NothingFired(pool: set<PriceAlert>)
    ensures SoundInv(EMPTY, pool)
  {
  }

  // ---------- any inconsistent pool fires unjustly ----------

  /** Judge the first alert, then delete it and give its id to the second one. */
  function SwapSteps(a: PriceAlert, b: PriceAlert, now: int, price: real): seq<Step> {
    Judging(a, now, price) + [Delete(a.id)] + [Insert(b)] + [SetActive(b.id, true)] + [Fire(0)]
  }

  function Judging(a: PriceAlert, now: int, price: real): seq<Step> {
    [Insert(a)] + [SetActive(a.id, true)] + [Start(0, now)] + [Load(0)] + [Fetch(0, map[a.symbol := price])] + [Judge(0)]
  }

  function Activated(a: PriceAlert): PriceAlert { a.(active := true) }

  function Judged(a: PriceAlert, now: int, price: real): Sys {
    Sys([Activated(a)],
        map[0 := Run(Memo(Some([Activated(a)]), Some(map[a.symbol := price]), Some([a.id]), None), Some(Attempt(now, 0, None, 0)))],
        [])
  }

  lemma FindOnly(a: PriceAlert)
    ensures Find([a], a.id) == 0 && Retained([a], a.id) == []
  {
    assert [a][..0] == [];
  }

  lemma StagesOfOne(a: PriceAlert, now: int, price: real)
    requires IsEligible(a, now) && Meets(a, price)
    ensures Eligible([a], now) == [a]
    ensures QuotesFor([a], map[a.symbol := price]) == map[a.symbol := price]
    ensures SortedIds(FiringIds([a], map[a.symbol := price])) == [a.id]
  {
    var el, quotes := [a], map[a.symbol := price];
    assert a in el && a.symbol in SymbolsOf(el);
    assert Eligible([], now) == [] && FiringIds([], quotes) == [] && el[..0] == [];
    assert SortedIds([]) == [] && Placed(a.id, []) == [a.id];
  }

  /** The attempt has started and its store holds the activated alert. */
  lemma StartingRun(a: PriceAlert, now: int)
    ensures Exec(EMPTY, [Insert(a)] + [SetActive(a.id, true)] + [Start(0, now)]) ==
            Sys([Activated(a)], map[0 := Run(NO_MEMO, Some(Attempt(now, 0, None, 0)))], [])
  {
    hide Exec, Find;
    FindOnly(a);
    ExecNothing(EMPTY);
    var t1 := [Insert(a)];
    ExecAppend(EMPTY, [], Insert(a));
    assert [] + t1 == t1 && Exec(EMPTY, t1) == Sys([a], map[], []);
    var t2 := t1 + [SetActive(a.id, true)];
    ExecAppend(EMPTY, t1, SetActive(a.id, true));
    assert Exec(EMPTY, t2) == Sys([Activated(a)], map[], []);
    ExecAppend(EMPTY, t2, Start(0, now));
  }

  lemma JudgingRun(a: PriceAlert, now: int, price: real)
    requires !a.triggered && now < a.expiresAt && Meets(a, price)
    ensures Exec(EMPTY, Judging(a, now, price)) == Judged(a, now, price)
  {
    hide Exec, Eligible, QuotesFor, FiringIds, SortedIds, Meets;
    var x, quotes, at := Activated(a), map[a.symbol := price], Attempt(now, 0, None, 0);
    StartingRun(a, now);
    SameMeets(a, price);
    StagesOfOne(x, now, price);
    var t3 := [Insert(a)] + [SetActive(a.id, true)] + [Start(0, now)];
    var t4 := t3 + [Load(0)];
    ExecAppend(EMPTY, t3, Load(0));
    assert Exec(EMPTY, t4) == Sys([x], map[0 := Run(Memo(Some([x]), None, None, None), Some(at))], []);
    var t5 := t4 + [Fetch(0, quotes)];
    ExecAppend(EMPTY, t4, Fetch(0, quotes));
    assert Exec(EMPTY, t5) == Sys([x], map[0 := Run(Memo(Some([x]), Some(quotes), None, None), Some(at))], []);
    ExecAppend(EMPTY, t5, Judge(0));
  }

  lemma SameMeets(a: PriceAlert, price: real)
    ensures Meets(Activated(a), price) == Meets(a, price)
  {
  }

  /** After the judgement the id is deleted and the second alert takes it over. */
  lemma TakeOver(a: PriceAlert, b: PriceAlert, now: int, price: real)
    requires !a.triggered && now < a.expiresAt && Meets(a, price) && a.id == b.id
    ensures Exec(EMPTY, Judging(a, now, price) + [Delete(a.id)] + [Insert(b)] + [SetActive(b.id, true)]) ==
            Sys([Activated(b)], Judged(a, now, price).runs, [Deleted(a.id)])
  {
    hide Exec, Find, Retained, Meets, Judging;
    JudgingRun(a, now, price);
    FindOnly(Activated(a));
    FindOnly(b);
    var runs := Judged(a, now, price).runs;
    var t6 := Judging(a, now, price);
    var t7 := t6 + [Delete(a.id)];
    ExecAppend(EMPTY, t6, Delete(a.id));
    assert Exec(EMPTY, t7) == Sys([], runs, [Deleted(a.id)]);
    var t8 := t7 + [Insert(b)];
    ExecAppend(EMPTY, t7, Insert(b));
    assert Exec(EMPTY, t8) == Sys([b], runs, [Deleted(a.id)]);
    ExecAppend(EMPTY, t8, SetActive(b.id, true));
  }

  lemma SwapInserts(a: PriceAlert, b: PriceAlert, now: int, price: real)
    ensures InsertsFrom(SwapSteps(a, b, now, price), {a, b})
  {
  }

  /** A price that meets the first alert and not the second makes the swap fire unjustly. */
  lemma SwapFiresUnjustly(a: PriceAlert, b: PriceAlert, now: int, price: real)
    requires !a.triggered && !b.triggered && a.id == b.id && now < a.expiresAt && now < b.expiresAt
    requires Meets(a, price) && (a.symbol != b.symbol || !Meets(b, price))
    ensures var s := Exec(EMPTY, SwapSteps(a, b, now, price));
      s.log == [Deleted(a.id), Fired(0, Activated(b), now)] && !AllJust(s)
  {
    hide Exec, Find, Retained, Judging;
    var y := Activated(b);
    TakeOver(a, b, now, price);
    FindOnly(y);
    SameMeets(b, price);
    var t9 := Judging(a, now, price) + [Delete(a.id)] + [Insert(b)] + [SetActive(b.id, true)];
    ExecAppend(EMPTY, t9, Fire(0));
    var s := Exec(EMPTY, t9 + [Fire(0)]);
    assert s.log[1] == Fired(0, y, now) && s.log[1] in s.log;
    assert s.runs[0].memo == Judged(a, now, price).runs[0].memo;
    assert !JustFire(s.log[1], s.runs);
  }

  /** Some price tells alerts with different terms apart, in one direction at least. */
  lemma TellApart(a: PriceAlert, b: PriceAlert) returns (price: real, swap: bool)
    requires !SameTerms(a, b)
    ensures var x, y := if swap then b else a, if swap then a else b;
      Meets(x, price) && (x.symbol != y.symbol || !Meets(y, price))
  {
    if a.symbol != b.symbol {
      price, swap := a.targetPrice, false;
    } else if a.condition == b.condition {
      swap := if a.condition.Above? then b.targetPrice < a.targetPrice else a.targetPrice < b.targetPrice;
      price := if swap then b.targetPrice else a.targetPrice;
    } else {
      var far := if a.targetPrice > b.targetPrice then a.targetPrice else b.targetPrice;
      price, swap := far + 1.0, a.condition.Below?;
    }
  }

  /**
   Over all interleavings of crashing runs whose inserts come from a pool of alerts, every fired
   alert was active, untriggered and unexpired and met its condition under its run's quotes,
   exactly when untriggered alerts of the pool that share an id ask for the same thing.
   */
  lemma FiresAreJustIff(pool: set<PriceAlert>)
    ensures Consistent(pool) <==>
      forall steps :: InsertsFrom(steps, pool) ==> AllJust(Exec(EMPTY, steps))
  {
    hide Exec, AllJust, SameTerms;
    if Consistent(pool) {
      forall steps | InsertsFrom(steps, pool)
        ensures AllJust(Exec(EMPTY, steps))
      {
        ConsistentPoolFiresJustly(steps, pool);
      }
    } else {
      var a, b :| a in pool && b in pool && !a.triggered && !b.triggered && a.id == b.id && !SameTerms(a, b);
      var price, swap := TellApart(a, b);
      var now := (if a.expiresAt < b.expiresAt then a.expiresAt else b.expiresAt) - 1;
      var x, y := if swap then b else a, if swap then a else b;
      SwapFiresUnjustly(x, y, now, price);
      SwapInserts(x, y, now, price);
      FromLarger(SwapSteps(x, y, now, price), {x, y}, pool);
    }
  }

  lemma FromLarger(steps: seq<Step>, small: set<PriceAlert>, pool: set<PriceAlert>)
    requires InsertsFrom(steps, small) && small <= pool
    ensures InsertsFrom(steps, pool)
  {
  }

  // ---------- ids that are never reused, and one that is ----------

  function Inserted(steps: seq<Step>): set<PriceAlert> {
    if steps == [] then {}
    else
      var last := steps[|steps| - 1];
      Inserted(steps[..|steps| - 1]) + if last.Insert? then {last.alert} else {}
  }

  /** Every inserted alert has an id that no earlier one had. */
  predicate NoReuse(steps: seq<Step>) {
    steps == [] ||
    var init, last := steps[..|steps| - 1], steps[|steps| - 1];
    NoReuse(init) && (last.Insert? ==> forall a :: a in Inserted(init) ==> a.id != last.alert.id)
  }

  lemma {:induction false} NoReuseIsConsistent(steps: seq<Step>)
    requires NoReuse(steps)
    ensures forall a, b :: a in Inserted(steps) && b in Inserted(steps) && a.id == b.id ==> a == b
    ensures InsertsFrom(steps, Inserted(steps))
  {
    if steps != [] {
      var init, last := steps[..|steps| - 1], steps[|steps| - 1];
      NoReuseIsConsistent(init);
      assert steps == init + [last];
    }
  }

  /** In particular every fire is just when no id is used for two alerts. */
  lemma FiresAreJust(steps: seq<Step>)
    requires NoReuse(steps)
    ensures AllJust(Exec(EMPTY, steps))
  {
    hide Exec, AllJust, NoReuse, Inserted, InsertsFrom;
    NoReuseIsConsistent(steps);
    FiresAreJustIff(Inserted(steps));
  }

  const OLD_ALERT: PriceAlert := PriceAlert("x", "owner", "s", 100.0, Above, true, false, 10, 0, 0)
  const NEW_ALERT: PriceAlert := PriceAlert("x", "owner", "s", 50.0, Below, true, false, 10, 0, 0)

  /** An id given to an alert with the opposite condition fires it at 150 although it waits for 50. */
  lemma ReusedIdFiresUnjustly()
    ensures var s := Exec(EMPTY, SwapSteps(OLD_ALERT, NEW_ALERT, 0, 150.0));
      s.log == [Deleted("x"), Fired(0, NEW_ALERT, 0)] && !AllJust(s)
  {
    hide Exec, AllJust, SwapSteps;
    SwapFiresUnjustly(OLD_ALERT, NEW_ALERT, 0, 150.0);
  }

  /** Reuse alone does no harm: giving the id to an alert that asks for the same fires justly. */
  lemma HarmlessReuse(a: PriceAlert, steps: seq<Step>)
    requires InsertsFrom(steps, {a})
    ensures AllJust(Exec(EMPTY, steps))
  {
    hide Exec, AllJust, InsertsFrom;
    assert SameTerms(a, a);
    FiresAreJustIff({a});
  }
}
