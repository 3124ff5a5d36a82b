/**
 The evaluation handler, run without interruption: what it does to the store, whom it notifies,
 and that it is a run of the machine of steps (crates/tdw-alert-evaluator/src/lib.rs).
 */
module AlertHandler {
  import opened Results
  import opened StringOrder
  import opened Alerts
  import opened AlertRuns

  // ---------- the handler, run without interruption ----------

  function NotifiedAlerts(log: seq<Event>): seq<PriceAlert> {
    if log == [] then []
    else NotifiedAlerts(log[..|log| - 1]) + if log[|log| - 1].Notified? then [log[|log| - 1].alert] else []
  }

  lemma NotifiedAppend(log: seq<Event>, e: Event)
    ensures NotifiedAlerts(log + [e]) == NotifiedAlerts(log) + if e.Notified? then [e.alert] else []
  {
    assert (log + [e])[..|log|] == log;
  }

  /** Memoised stages are finished in order. */
  ghost predicate Staged(m: Memo) {
    && (m.quotes.Some? ==> m.eligible.Some? && m.eligible.value != [])
    && (m.firedIds.Some? ==> m.quotes.Some?)
    && (m.done.Some? ==> m.firedIds.Some?)
  }

  /** The machine state stands for the store, the run's memo and its position in the last stage. */
  ghost predicate Stands(s: Sys, records: seq<PriceAlert>, r: nat, memo: Memo, a: Attempt) {
    s.records == records && r in s.runs && s.runs[r] == Run(memo, Some(a))
  }

  lemma FireStands(s: Sys, records: seq<PriceAlert>, r: nat, memo: Memo, now: int, i: nat, triggered: nat)
    requires Stands(s, records, r, memo, Attempt(now, i, None, triggered))
    requires memo.firedIds.Some? && memo.done.None? && i < |memo.firedIds.value|
    ensures var id, t := memo.firedIds.value[i], DoFire(s, r);
      if CanFire(records, id, now) then
        && Stands(t, AfterFiring(records, id, now), r, memo, Attempt(now, i + 1, Some(id), triggered + 1))
        && NotifiedAlerts(t.log) == NotifiedAlerts(s.log)
      else
        && Stands(t, records, r, memo, Attempt(now, i + 1, None, triggered))
        && t.log == s.log
  {
    hide Find, AfterFiring, NotifiedAlerts;
    var id := memo.firedIds.value[i];
    if CanFire(records, id, now) {
      NotifiedAppend(s.log, Fired(r, records[Find(records, id)], now));
    }
  }

  lemma NotifyStands(s: Sys, records: seq<PriceAlert>, r: nat, memo: Memo, now: int, i: nat, id: string, triggered: nat)
    requires Stands(s, records, r, memo, Attempt(now, i, Some(id), triggered))
    requires memo.eligible.Some? && memo.quotes.Some?
    ensures var t, el, k := DoNotify(s, r), memo.eligible.value, Find(memo.eligible.value, id);
      && Stands(t, records, r, memo, Attempt(now, i, None, triggered))
      && NotifiedAlerts(t.log) == NotifiedAlerts(s.log) +
           if k < |el| && el[k].symbol in memo.quotes.value then [el[k]] else []
  {
    hide Find, NotifiedAlerts;
    var el, k := memo.eligible.value, Find(memo.eligible.value, id);
    assert s.log + [] == s.log;
    if k < |el| && el[k].symbol in memo.quotes.value {
      NotifiedAppend(s.log, Notified(r, el[k]));
    }
  }

  // ---------- the effect of the last stage ----------

  predicate FirstOfId(records: seq<PriceAlert>, k: nat) { k < |records| && Find(records, records[k].id) == k }

  /** The store after the last stage: the first record of each id is fired if it is eligible. */
  function FiredBy(records: seq<PriceAlert>, ids: seq<string>, now: int): (r: seq<PriceAlert>)
    ensures |r| == |records|
    ensures forall k :: 0 <= k < |r| ==> r[k].id == records[k].id
  {
    seq(|records|, k requires 0 <= k < |records| =>
      if records[k].id in ids && FirstOfId(records, k) && IsEligible(records[k], now)
      then FiredRecord(records[k], now) else records[k])
  }

  /** The ids that win their mark, each where it first occurs. */
  function Winners(records: seq<PriceAlert>, ids: seq<string>, now: int): seq<string> {
    if ids == [] then []
    else
      var n := |ids| - 1;
      Winners(records, ids[..n], now) + if ids[n] !in ids[..n] && CanFire(records, ids[n], now) then [ids[n]] else []
  }

  /** The snapshot alerts of the winners, those with a quote, in the order of the winners. */
  function Announced(winners: seq<string>, eligible: seq<PriceAlert>, quotes: map<string, real>): (r: seq<PriceAlert>)
    ensures |r| <= |winners|
  {
    if winners == [] then []
    else
      var n := |winners| - 1;
      var k := Find(eligible, winners[n]);
      Announced(winners[..n], eligible, quotes) +
      if k < |eligible| && eligible[k].symbol in quotes then [eligible[k]] else []
  }

  lemma SameIdsSameFind(a: seq<PriceAlert>, b: seq<PriceAlert>, id: string)
    requires |a| == |b| && forall k :: 0 <= k < |a| ==> a[k].id == b[k].id
    ensures Find(a, id) == Find(b, id)
  {
    FindUnique(a, id, Find(b, id));
  }

  /** One more id: it wins exactly when it is new and its first record was eligible at the start. */
  lemma FiredByStep(records: seq<PriceAlert>, ids: seq<string>, id: string, now: int)
    ensures var sofar := FiredBy(records, ids, now);
      && (CanFire(sofar, id, now) <==> id !in ids && CanFire(records, id, now))
      && AfterFiring(sofar, id, now) == FiredBy(records, ids + [id], now)
  {
    var sofar, k := FiredBy(records, ids, now), Find(records, id);
    SameIdsSameFind(sofar, records, id);
    hide Find;
    if k < |records| {
      assert FirstOfId(records, k);
    }
    assert AfterFiring(sofar, id, now) == FiredBy(records, ids + [id], now);
  }

  lemma WinnersStep(records: seq<PriceAlert>, ids: seq<string>, id: string, now: int)
    ensures Winners(records, ids + [id], now) ==
            if id !in ids && CanFire(records, id, now) then Winners(records, ids, now) + [id] else Winners(records, ids, now)
  {
    assert (ids + [id])[..|ids|] == ids;
  }

  lemma AnnouncedStep(winners: seq<string>, id: string, eligible: seq<PriceAlert>, quotes: map<string, real>)
    ensures var k := Find(eligible, id);
      Announced(winners + [id], eligible, quotes) == Announced(winners, eligible, quotes) +
        if k < |eligible| && eligible[k].symbol in quotes then [eligible[k]] else []
  {
    assert (winners + [id])[..|winners|] == winners;
  }

  /** Before the first id nothing has happened. */
  lemma NothingFiredBy(records: seq<PriceAlert>, now: int)
    ensures FiredBy(records, [], now) == records
  {
  }

  // ---------- what the effect means ----------

  /** The positions of the records that a stage changed. */
  function Changed(before: seq<PriceAlert>, after: seq<PriceAlert>): set<nat> {
    set k: nat | k < |before| && k < |after| && before[k] != after[k]
  }

  /** Records are fired exactly where the program's guard holds, written out; all others stay. */
  lemma FiredByMeans(records: seq<PriceAlert>, ids: seq<string>, now: int)
    ensures forall k :: 0 <= k < |records| ==>
      var a := records[k];
      FiredBy(records, ids, now)[k] ==
        if a.id in ids && a.active && !a.triggered && now < a.expiresAt && (forall j :: 0 <= j < k ==> records[j].id != a.id)
        then a.(triggered := true, active := false, updatedAt := now) else a
  {
    forall k: nat | k < |records|
      ensures FirstOfId(records, k) <==> forall j :: 0 <= j < k ==> records[j].id != records[k].id
    {
      if forall j :: 0 <= j < k ==> records[j].id != records[k].id {
        FindUnique(records, records[k].id, k);
      }
    }
  }

  /** The winners are the distinct ids whose first record was eligible; there is one per changed record. */
  lemma {:induction false} WinnersAre(records: seq<PriceAlert>, ids: seq<string>, now: int)
    ensures forall id :: id in Winners(records, ids, now) <==> id in ids && CanFire(records, id, now)
    ensures forall i, j :: 0 <= i < j < |Winners(records, ids, now)| ==> Winners(records, ids, now)[i] != Winners(records, ids, now)[j]
    ensures InOrder(ids) ==> InOrder(Winners(records, ids, now))
    ensures |Winners(records, ids, now)| == |Changed(records, FiredBy(records, ids, now))|
  {
    WinnersMembers(records, ids, now);
    WinnersCount(records, ids, now);
  }

  lemma {:induction false} WinnersMembers(records: seq<PriceAlert>, ids: seq<string>, now: int)
    ensures var r := Winners(records, ids, now);
      && (forall id :: id in r <==> id in ids && CanFire(records, id, now))
      && (forall i, j :: 0 <= i < j < |r| ==> r[i] != r[j])
      && (InOrder(ids) ==> InOrder(r))
  {
    hide CanFire, Less;
    if ids != [] {
      var n := |ids| - 1;
      var init, id := ids[..n], ids[n];
      assert ids == init + [id];
      WinnersMembers(records, init, now);
      WinnersStep(records, init, id, now);
      if InOrder(ids) {
        forall w | w in Winners(records, init, now)
          ensures AtMost(w, id)
        {
          var j :| 0 <= j < n && ids[j] == w;
        }
      }
    }
  }

  lemma {:induction false} WinnersCount(records: seq<PriceAlert>, ids: seq<string>, now: int)
    ensures |Winners(records, ids, now)| == |Changed(records, FiredBy(records, ids, now))|
  {
    hide CanFire, Changed, FiredBy;
    if ids == [] {
      NothingChanged(records, now);
    } else {
      var n := |ids| - 1;
      assert ids == ids[..n] + [ids[n]];
      WinnersCount(records, ids[..n], now);
      WinnersStep(records, ids[..n], ids[n], now);
      ChangedStep(records, ids[..n], ids[n], now);
    }
  }

  lemma NothingChanged(records: seq<PriceAlert>, now: int)
    ensures Changed(records, FiredBy(records, [], now)) == {}
  {
  }

  lemma ChangedStep(records: seq<PriceAlert>, ids: seq<string>, id: string, now: int)
    ensures var was, next := Changed(records, FiredBy(records, ids, now)), Changed(records, FiredBy(records, ids + [id], now));
      |next| == |was| + if id !in ids && CanFire(records, id, now) then 1 else 0
  {
    var was, next := Changed(records, FiredBy(records, ids, now)), Changed(records, FiredBy(records, ids + [id], now));
    var k := Find(records, id);
    hide Find;
    if id !in ids && CanFire(records, id, now) {
      assert FirstOfId(records, k) && k !in was;
      assert next == was + {k};
    } else {
      assert next == was;
    }
  }

  /**
   Who is notified: in the order of their ids, exactly the first snapshot alert of each winner,
   when its symbol has a quote.
   */
  lemma {:induction false} AnnouncedAre(winners: seq<string>, eligible: seq<PriceAlert>, quotes: map<string, real>)
    requires InOrder(winners) && forall i, j :: 0 <= i < j < |winners| ==> winners[i] != winners[j]
    ensures var r := Announced(winners, eligible, quotes);
      && (forall a :: a in r <==> a.id in winners && a.symbol in quotes && exists k :: IsFirst(eligible, k, a))
      && (forall i, j :: 0 <= i < j < |r| ==> Less(r[i].id, r[j].id))
  {
    hide Find, Less;
    if winners != [] {
      var n := |winners| - 1;
      var init, id := winners[..n], winners[n];
      assert winners == init + [id];
      AnnouncedAre(init, eligible, quotes);
      AnnouncedStep(init, id, eligible, quotes);
      FirstIsFound(eligible, id);
    }
  }

  /** a is the first alert of its id in the snapshot. */
  ghost predicate IsFirst(eligible: seq<PriceAlert>, k: int, a: PriceAlert) {
    0 <= k < |eligible| && eligible[k] == a && forall j :: 0 <= j < k ==> eligible[j].id != a.id
  }

  lemma FirstIsFound(eligible: seq<PriceAlert>, id: string)
    ensures forall a, k :: IsFirst(eligible, k, a) && a.id == id ==> k == Find(eligible, id)
    ensures Find(eligible, id) < |eligible| ==> IsFirst(eligible, Find(eligible, id), eligible[Find(eligible, id)])
  {
    forall a, k | IsFirst(eligible, k, a) && a.id == id
      ensures k == Find(eligible, id)
    {
      FindUnique(eligible, id, k);
    }
  }

  // ---------- the handler ----------

  /**
   The last stage: fire each id, notify after each success. Its steps are marks and notifications
   of this run and nothing else.
   */
  method FireAndNotify(store: InMemoryAlertStore, now: int, ids: seq<string>, eligible: seq<PriceAlert>, quotes: map<string, real>,
                       ghost r: nat, ghost memo: Memo, ghost s0: Sys)
    returns (triggered: nat, notified: seq<PriceAlert>, ghost s: Sys, ghost steps: seq<Step>)
    requires Stands(s0, store.records, r, memo, Attempt(now, 0, None, 0))
    requires memo.eligible == Some(eligible) && memo.quotes == Some(quotes) && memo.firedIds == Some(ids) && memo.done.None?
    modifies store
    ensures s == Exec(s0, steps) && Stands(s, store.records, r, memo, Attempt(now, |ids|, None, triggered))
    ensures forall st :: st in steps ==> st == Fire(r) || st == Notify(r)
    ensures store.records == FiredBy(old(store.records), ids, now)
    ensures |store.records| == |old(store.records)| && forall k :: 0 <= k < |store.records| ==>
      var a := old(store.records)[k];
      store.records[k] ==
        if a.id in ids && a.active && !a.triggered && now < a.expiresAt && (forall j :: 0 <= j < k ==> old(store.records)[j].id != a.id)
        then a.(triggered := true, active := false, updatedAt := now) else a
    ensures triggered == |Winners(old(store.records), ids, now)|
    ensures triggered == |set k: nat | k < |store.records| && old(store.records)[k] != store.records[k]|
    ensures notified == Announced(Winners(old(store.records), ids, now), eligible, quotes)
    ensures NotifiedAlerts(s.log) == NotifiedAlerts(s0.log) + notified
  {
    hide Exec, Find, NotifiedAlerts, Stands, DoFire, DoNotify, FiredBy, Winners, Announced;
    triggered, notified, s, steps := 0, [], s0, [];
    ghost var before := store.records;
    ExecNothing(s0);
    NothingFiredBy(before, now);
    NoWinners(before, now, eligible, quotes);
    for i := 0 to |ids|
      invariant s == Exec(s0, steps) && Stands(s, store.records, r, memo, Attempt(now, i, None, triggered))
      invariant forall st :: st in steps ==> st == Fire(r) || st == Notify(r)
      invariant store.records == FiredBy(before, ids[..i], now)
      invariant triggered == |Winners(before, ids[..i], now)|
      invariant notified == Announced(Winners(before, ids[..i], now), eligible, quotes)
      invariant NotifiedAlerts(s.log) == NotifiedAlerts(s0.log) + notified
    {
      var id := ids[i];
      assert ids[..i + 1] == ids[..i] + [id];
      FireStands(s, store.records, r, memo, now, i, triggered);
      FiredByStep(before, ids[..i], id, now);
      WinnersStep(before, ids[..i], id, now);
      var fired := store.MarkFired(id, now);
      ExecAppend(s0, steps, Fire(r));
      s, steps := DoFire(s, r), steps + [Fire(r)];
      if fired {
        triggered := triggered + 1;
        NotifyStands(s, store.records, r, memo, now, i + 1, id, triggered);
        AnnouncedStep(Winners(before, ids[..i], now), id, eligible, quotes);
        var k := Find(eligible, id);
        if k < |eligible| && eligible[k].symbol in quotes {
          notified := notified + [eligible[k]];
        }
        ExecAppend(s0, steps, Notify(r));
        s, steps := DoNotify(s, r), steps + [Notify(r)];
      } else {
        assert NotifiedAlerts(s.log) == NotifiedAlerts(s0.log) + notified;
      }
    }
    assert ids[..|ids|] == ids;
    FiredByMeans(before, ids, now);
    WinnersAre(before, ids, now);
    assert Changed(before, store.records) == set k: nat | k < |store.records| && before[k] != store.records[k];
  }

  lemma NoWinners(records: seq<PriceAlert>, now: int, eligible: seq<PriceAlert>, quotes: map<string, real>)
    ensures Winners(records, [], now) == [] && Announced([], eligible, quotes) == []
  {
  }

  /**
   The whole handler, from whatever an earlier attempt memoised, is a run of the machine whose
   steps are all its own. Stages that are not memoised load, fetch and judge as the program does;
   the last stage then fires the first record of each judged id if it is eligible, changes no
   other record, counts what it changed, and notifies about the winners.
   */
  method EvaluateAlerts(store: InMemoryAlertStore, memo0: Memo, now: int, available: map<string, real>, ghost r: nat, ghost s0: Sys)
    returns (memo: Memo, processed: nat, triggered: nat, notified: seq<PriceAlert>, ghost s: Sys, ghost steps: seq<Step>)
    requires Staged(memo0) && s0.records == store.records
    requires if r in s0.runs then s0.runs[r].memo == memo0 else memo0 == NO_MEMO
    modifies store
    ensures s == Exec(s0, steps) && s.records == store.records && r in s.runs && s.runs[r].memo == memo
    ensures forall st :: st in steps ==>
      || st == Start(r, now) || st == Load(r) || st == Fetch(r, available) || st == Judge(r)
      || st == Fire(r) || st == Notify(r) || st == Finish(r)
    ensures Staged(memo) && memo.eligible.Some? && processed == |memo.eligible.value|
    ensures memo.eligible.value == if memo0.eligible.Some? then memo0.eligible.value else Eligible(old(store.records), now)
    ensures memo.done.Some? <==> memo.eligible.value != []
    ensures memo.done.Some? ==>
      && memo.quotes.value ==
           (if memo0.quotes.Some? then memo0.quotes.value else QuotesFor(memo.eligible.value, available))
      && memo.firedIds.value ==
           (if memo0.firedIds.Some? then memo0.firedIds.value else SortedIds(FiringIds(memo.eligible.value, memo.quotes.value)))
    ensures triggered == if memo.done.Some? then memo.done.value else 0
    ensures memo0.done.Some? || memo.done.None? ==> store.records == old(store.records) && notified == []
    ensures memo0.done.Some? ==> memo == memo0
    ensures memo0.done.None? && memo.done.Some? ==>
      && |store.records| == |old(store.records)|
      && (forall k :: 0 <= k < |store.records| ==>
           var a := old(store.records)[k];
           store.records[k] ==
             if a.id in memo.firedIds.value && a.active && !a.triggered && now < a.expiresAt
                && (forall j :: 0 <= j < k ==> old(store.records)[j].id != a.id)
             then a.(triggered := true, active := false, updatedAt := now) else a)
      && triggered == |set k: nat | k < |store.records| && old(store.records)[k] != store.records[k]|
      && notified == Announced(Winners(old(store.records), memo.firedIds.value, now), memo.eligible.value, memo.quotes.value)
    ensures NotifiedAlerts(s.log) == NotifiedAlerts(s0.log) + notified
  {
    hide Exec, Do, Eligible, QuotesFor, FiringIds, SortedIds, NotifiedAlerts, Stands, Find, FiredBy, Winners, Announced;
    ghost var a := Attempt(now, 0, None, 0);
    memo, processed, triggered, notified := memo0, 0, 0, [];
    s, steps := Do(s0, Start(r, now)), [Start(r, now)];
    StartStands(s0, r, memo0, now);
    if memo.eligible.None? {
      var rows := store.ListEligible(now);
      memo := memo.(eligible := Some(rows));
    }
    LoadStands(s0, steps, s, store.records, r, memo0, a);
    s, steps := Do(s, Load(r)), steps + [Load(r)];
    StandsMeans(s, store.records, r, memo, a);
    var eligible := memo.eligible.value;
    processed := |eligible|;
    if |eligible| == 0 {
      return;
    }
    ghost var loaded := memo;
    if memo.quotes.None? {
      var answers := FetchQuotes(eligible, available);
      memo := memo.(quotes := Some(answers));
    }
    FetchStands(s0, steps, s, store.records, r, loaded, a, available);
    s, steps := Do(s, Fetch(r, available)), steps + [Fetch(r, available)];
    ghost var fetched := memo;
    if memo.firedIds.None? {
      var ids := Evaluate(eligible, memo.quotes.value);
      memo := memo.(firedIds := Some(ids));
    }
    JudgeStands(s0, steps, s, store.records, r, fetched, a);
    s, steps := Do(s, Judge(r)), steps + [Judge(r)];
    StandsMeans(s, store.records, r, memo, a);
    if memo.done.Some? {
      triggered := memo.done.value;
      return;
    }
    ghost var before, tail := steps, [];
    triggered, notified, s, tail := FireAndNotify(store, now, memo.firedIds.value, eligible, memo.quotes.value, r, memo, s);
    ExecJoin(s0, before, tail);
    FinishStands(s0, before + tail, s, store.records, r, memo, Attempt(now, |memo.firedIds.value|, None, triggered));
    s, steps := Do(s, Finish(r)), before + tail + [Finish(r)];
    memo := memo.(done := Some(triggered));
    StandsMeans(s, store.records, r, memo, Attempt(now, |memo.firedIds.value|, None, triggered));
  }

  lemma StandsMeans(s: Sys, records: seq<PriceAlert>, r: nat, memo: Memo, a: Attempt)
    requires Stands(s, records, r, memo, a)
    ensures s.records == records && r in s.runs && s.runs[r].memo == memo
  {
  }

  lemma StartStands(s0: Sys, r: nat, memo: Memo, now: int)
    requires if r in s0.runs then s0.runs[r].memo == memo else memo == NO_MEMO
    ensures var t := Do(s0, Start(r, now));
      Exec(s0, [Start(r, now)]) == t && Stands(t, s0.records, r, memo, Attempt(now, 0, None, 0)) && t.log == s0.log
  {
    ExecNothing(s0);
    ExecAppend(s0, [], Start(r, now));
    assert [] + [Start(r, now)] == [Start(r, now)];
  }

  lemma LoadStands(s0: Sys, steps: seq<Step>, s: Sys, records: seq<PriceAlert>, r: nat, memo: Memo, a: Attempt)
    requires s == Exec(s0, steps) && Stands(s, records, r, memo, a)
    ensures var t := Do(s, Load(r));
      && Exec(s0, steps + [Load(r)]) == t && t.log == s.log
      && Stands(t, records, r, if memo.eligible.None? then memo.(eligible := Some(Eligible(records, a.now))) else memo, a)
  {
    hide Eligible, Exec;
    ExecAppend(s0, steps, Load(r));
  }

  lemma FetchStands(s0: Sys, steps: seq<Step>, s: Sys, records: seq<PriceAlert>, r: nat, memo: Memo, a: Attempt, available: map<string, real>)
    requires s == Exec(s0, steps) && Stands(s, records, r, memo, a) && memo.eligible.Some? && memo.eligible.value != []
    ensures var t := Do(s, Fetch(r, available));
      && Exec(s0, steps + [Fetch(r, available)]) == t && t.log == s.log
      && Stands(t, records, r, if memo.quotes.None? then memo.(quotes := Some(QuotesFor(memo.eligible.value, available))) else memo, a)
  {
    hide QuotesFor, Exec;
    ExecAppend(s0, steps, Fetch(r, available));
  }

  lemma JudgeStands(s0: Sys, steps: seq<Step>, s: Sys, records: seq<PriceAlert>, r: nat, memo: Memo, a: Attempt)
    requires s == Exec(s0, steps) && Stands(s, records, r, memo, a) && memo.eligible.Some? && memo.quotes.Some?
    ensures var t := Do(s, Judge(r));
      && Exec(s0, steps + [Judge(r)]) == t && t.log == s.log
      && Stands(t, records, r, if memo.firedIds.None? then memo.(firedIds := Some(SortedIds(FiringIds(memo.eligible.value, memo.quotes.value)))) else memo, a)
  {
    hide FiringIds, SortedIds, Exec;
    ExecAppend(s0, steps, Judge(r));
  }

  lemma FinishStands(s0: Sys, steps: seq<Step>, s: Sys, records: seq<PriceAlert>, r: nat, memo: Memo, a: Attempt)
    requires s == Exec(s0, steps) && Stands(s, records, r, memo, a)
    requires memo.firedIds.Some? && memo.done.None? && a.pending.None? && a.next == |memo.firedIds.value|
    ensures var t := Do(s, Finish(r));
      && Exec(s0, steps + [Finish(r)]) == t && t.log == s.log
      && Stands(t, records, r, memo.(done := Some(a.triggered)), a)
  {
    hide Exec;
    ExecAppend(s0, steps, Finish(r));
  }
}
