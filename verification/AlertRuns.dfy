/**
 Evaluation runs of price alerts as a machine of atomic steps: any number of runs, crashing and
 replaying, interleaved with inserts, deletions and (de)activations of the shared store
 (crates/tdw-alert-evaluator/src/lib.rs, crates/tdw-alerts/src/lib.rs).

 A stage whose result has been memoised is not executed again; a replay reads the clock again.
 */
module AlertRuns {
  import opened Results
  import opened Alerts

  /** Results of finished stages, which survive a crash. */
  datatype Memo = Memo(
    eligible: Option<seq<PriceAlert>>,
    quotes: Option<map<string, real>>,
    firedIds: Option<seq<string>>,
    done: Option<nat>)

  /** What an attempt keeps in memory and loses in a crash. */
  datatype Attempt = Attempt(now: int, next: nat, pending: Option<string>, triggered: nat)

  datatype Run = Run(memo: Memo, attempt: Option<Attempt>)

  datatype Event =
    | Fired(run: nat, alert: PriceAlert, now: int)
    | Notified(run: nat, alert: PriceAlert)
    | Deleted(id: string)

  datatype Sys = Sys(records: seq<PriceAlert>, runs: map<nat, Run>, log: seq<Event>)

  datatype Step =
    | Insert(alert: PriceAlert)
    | SetActive(id: string, active: bool)
    | Delete(id: string)
    | Start(run: nat, now: int)
    | Load(run: nat)
    | Fetch(run: nat, available: map<string, real>)
    | Judge(run: nat)
    | Fire(run: nat)
    | Notify(run: nat)
    | Finish(run: nat)

  const NO_MEMO: Memo := Memo(None, None, None, None)

  predicate Attempting(s: Sys, r: nat) { r in s.runs && s.runs[r].attempt.Some? }

  function WithMemo(s: Sys, r: nat, memo: Memo): Sys
    requires r in s.runs
  {
    s.(runs := s.runs[r := s.runs[r].(memo := memo)])
  }

  function WithAttempt(s: Sys, r: nat, a: Attempt): Sys
    requires r in s.runs
  {
    s.(runs := s.runs[r := s.runs[r].(attempt := Some(a))])
  }

  /** Whether the run is between two ids of its last stage. */
  predicate AtId(s: Sys, r: nat) {
    && Attempting(s, r) && s.runs[r].memo.firedIds.Some? && s.runs[r].memo.done.None?
    && s.runs[r].attempt.value.pending.None?
  }

  /** Mark the next id as fired; only a successful mark is followed by a notification. */
  function DoFire(s: Sys, r: nat): Sys {
    if AtId(s, r) && s.runs[r].attempt.value.next < |s.runs[r].memo.firedIds.value| then
      var a := s.runs[r].attempt.value;
      var id := s.runs[r].memo.firedIds.value[a.next];
      if CanFire(s.records, id, a.now) then
        WithAttempt(
          s.(records := AfterFiring(s.records, id, a.now),
             log := s.log + [Fired(r, s.records[Find(s.records, id)], a.now)]),
          r, a.(next := a.next + 1, pending := Some(id), triggered := a.triggered + 1))
      else WithAttempt(s, r, a.(next := a.next + 1))
    else s
  }

  /** Notify about the fired id, when the snapshot has the alert and its quote. */
  function DoNotify(s: Sys, r: nat): Sys {
    if Attempting(s, r) && s.runs[r].attempt.value.pending.Some?
       && s.runs[r].memo.eligible.Some? && s.runs[r].memo.quotes.Some? then
      var a, el := s.runs[r].attempt.value, s.runs[r].memo.eligible.value;
      var k := Find(el, a.pending.value);
      var sent := if k < |el| && el[k].symbol in s.runs[r].memo.quotes.value then [Notified(r, el[k])] else [];
      WithAttempt(s.(log := s.log + sent), r, a.(pending := None))
    else s
  }

  /** One atomic step; a step that is not enabled changes nothing. */
  function Do(s: Sys, step: Step): Sys {
    match step
    case Insert(alert) => s.(records := s.records + [alert])
    case SetActive(id, active) => s.(records := AfterSetActive(s.records, id, active))
    case Delete(id) =>
      s.(records := Retained(s.records, id),
         log := if Find(s.records, id) < |s.records| then s.log + [Deleted(id)] else s.log)
    case Start(r, now) =>
      s.(runs := s.runs[r := Run(if r in s.runs then s.runs[r].memo else NO_MEMO, Some(Attempt(now, 0, None, 0)))])
    case Load(r) =>
      if Attempting(s, r) && s.runs[r].memo.eligible.None? then
        WithMemo(s, r, s.runs[r].memo.(eligible := Some(Eligible(s.records, s.runs[r].attempt.value.now))))
      else s
    case Fetch(r, available) =>
      if Attempting(s, r) && s.runs[r].memo.eligible.Some? && s.runs[r].memo.eligible.value != []
         && s.runs[r].memo.quotes.None? then
        WithMemo(s, r, s.runs[r].memo.(quotes := Some(QuotesFor(s.runs[r].memo.eligible.value, available))))
      else s
    case Judge(r) =>
      if Attempting(s, r) && s.runs[r].memo.eligible.Some? && s.runs[r].memo.quotes.Some?
         && s.runs[r].memo.firedIds.None? then
        WithMemo(s, r, s.runs[r].memo.(
          firedIds := Some(SortedIds(FiringIds(s.runs[r].memo.eligible.value, s.runs[r].memo.quotes.value)))))
      else s
    case Fire(r) => DoFire(s, r)
    case Notify(r) => DoNotify(s, r)
    case Finish(r) =>
      if AtId(s, r) && s.runs[r].attempt.value.next == |s.runs[r].memo.firedIds.value| then
        WithMemo(s, r, s.runs[r].memo.(done := Some(s.runs[r].attempt.value.triggered)))
      else s
  }

  const EMPTY: Sys := Sys([], map[], [])

  function Exec(s: Sys, steps: seq<Step>): Sys {
    if steps == [] then s else Do(Exec(s, steps[..|steps| - 1]), steps[|steps| - 1])
  }

  lemma ExecAppend(s: Sys, steps: seq<Step>, step: Step)
    ensures Exec(s, steps + [step]) == Do(Exec(s, steps), step)
  {
    assert (steps + [step])[..|steps|] == steps;
  }

  lemma ExecNothing(s: Sys)
    ensures Exec(s, []) == s
  {
  }

  lemma {:induction false} ExecJoin(s: Sys, a: seq<Step>, b: seq<Step>)
    ensures Exec(s, a + b) == Exec(Exec(s, a), b)
    decreases b
  {
    hide Do;
    if b == [] {
      assert a + b == a;
    } else {
      var n := |b| - 1;
      assert a + b == (a + b[..n]) + [b[n]];
      ExecAppend(s, a + b[..n], b[n]);
      ExecJoin(s, a, b[..n]);
    }
  }

  // ---------- the log tells what happened ----------

  /**
   A record becomes triggered exactly when a fire is logged, with that record as it was, by a
   run that is attempting; a deletion is logged exactly when it removes something.
   */
  lemma LogIsComplete(s: Sys, step: Step)
    ensures var t := Do(s, step);
      && (!step.Delete? ==> |t.records| >= |s.records| && forall k :: 0 <= k < |s.records| ==>
            if t.records[k].triggered == s.records[k].triggered then true
            else
              && step.Fire? && Attempting(s, step.run) && t.records[k].triggered
              && t.log == s.log + [Fired(step.run, s.records[k], s.runs[step.run].attempt.value.now)])
      && (step.Fire? && t.log != s.log ==> exists k :: 0 <= k < |s.records| && !s.records[k].triggered && t.records[k].triggered)
      && (step.Delete? ==>
            t.log == if exists a :: a in s.records && a.id == step.id then s.log + [Deleted(step.id)] else s.log)
      && (!step.Fire? && !step.Delete? && !step.Notify? ==> t.log == s.log)
  {
    hide Eligible, QuotesFor, FiringIds, SortedIds;
    if step.Fire? && Do(s, step).log != s.log {
      var k := Find(s.records, s.runs[step.run].memo.firedIds.value[s.runs[step.run].attempt.value.next]);
      assert !s.records[k].triggered;
    }
    if step.Delete? && Find(s.records, step.id) < |s.records| {
      assert s.records[Find(s.records, step.id)] in s.records;
    }
  }

  // ---------- fire once ----------

  predicate FiresId(e: Event, id: string) { e.Fired? && e.alert.id == id }

  predicate DeletesId(e: Event, id: string) { e.Deleted? && e.id == id }

  predicate NotifiesId(e: Event, id: string) { e.Notified? && e.alert.id == id }

  /** The id has fired since its last deletion. */
  predicate Open(log: seq<Event>, id: string) {
    log != [] &&
    var e := log[|log| - 1];
    FiresId(e, id) || (!DeletesId(e, id) && Open(log[..|log| - 1], id))
  }

  /** Between two fires of the id lies a deletion of it. */
  ghost predicate OnceBetweenDeletions(log: seq<Event>, id: string) {
    forall i, j :: 0 <= i < j < |log| && FiresId(log[i], id) && FiresId(log[j], id) ==>
      exists k :: i < k < j && DeletesId(log[k], id)
  }

  /** A fire that no deletion has followed leaves the id open. */
  lemma {:induction false} OpenUnlessDeleted(log: seq<Event>, id: string, i: nat)
    requires i < |log| && FiresId(log[i], id)
    requires forall k :: i < k < |log| ==> !DeletesId(log[k], id)
    ensures Open(log, id)
  {
    if i < |log| - 1 {
      OpenUnlessDeleted(log[..|log| - 1], id, i);
    }
  }

  lemma OnceAppend(log: seq<Event>, id: string, e: Event)
    requires OnceBetweenDeletions(log, id) && (FiresId(e, id) ==> !Open(log, id))
    ensures OnceBetweenDeletions(log + [e], id)
    ensures Open(log + [e], id) <==> FiresId(e, id) || (!DeletesId(e, id) && Open(log, id))
  {
    hide FiresId, DeletesId, Open;
    var log' := log + [e];
    forall i, j | 0 <= i < j < |log'| && FiresId(log'[i], id) && FiresId(log'[j], id)
      ensures exists k :: i < k < j && DeletesId(log'[k], id)
    {
      if j < |log| {
        var k :| i < k < j && DeletesId(log[k], id);
        assert DeletesId(log'[k], id);
      } else {
        if forall k :: i < k < |log| ==> !DeletesId(log[k], id) {
          OpenUnlessDeleted(log, id, i);
          assert false;
        }
        var k :| i < k < |log| && DeletesId(log[k], id);
        assert DeletesId(log'[k], id);
      }
    }
    OpenAppend(log, id, e);
  }

  lemma OpenAppend(log: seq<Event>, id: string, e: Event)
    ensures Open(log + [e], id) <==> FiresId(e, id) || (!DeletesId(e, id) && Open(log, id))
  {
    assert (log + [e])[..|log|] == log;
  }

  /** The record that `mark_fired` would act on has already fired. */
  predicate FirstTriggered(records: seq<PriceAlert>, id: string) {
    var k := Find(records, id);
    k < |records| && records[k].triggered
  }

  ghost predicate FireInv(s: Sys, id: string) {
    OnceBetweenDeletions(s.log, id) && (Open(s.log, id) ==> FirstTriggered(s.records, id))
  }

  lemma {:induction false} FindRetained(records: seq<PriceAlert>, gone: string, id: string)
    requires gone != id && Find(records, id) < |records|
    ensures var rest := Retained(records, gone);
      Find(rest, id) < |rest| && rest[Find(rest, id)] == records[Find(records, id)]
    decreases |records|
  {
    hide Find, Retained;
    var n, k := |records| - 1, Find(records, id);
    var init, last := records[..n], records[n];
    var rest := Retained(init, gone);
    var tail := if last.id != gone then [last] else [];
    assert Retained(records, gone) == rest + tail by { RetainedLast(records, gone); }
    if k < n {
      FindUnique(init, id, k);
      FindRetained(init, gone, id);
      FindUnique(rest + tail, id, Find(rest, id));
    } else {
      forall j | 0 <= j < |rest|
        ensures rest[j].id != id
      {
        assert rest[j] in rest && rest[j] in init;
      }
      FindUnique(rest + tail, id, |rest|);
    }
  }

  lemma RetainedLast(records: seq<PriceAlert>, gone: string)
    requires records != []
    ensures Retained(records, gone) == Retained(records[..|records| - 1], gone) +
                                       if records[|records| - 1].id != gone then [records[|records| - 1]] else []
  {
  }

  lemma FindAppend(records: seq<PriceAlert>, a: PriceAlert, id: string)
    requires Find(records, id) < |records|
    ensures Find(records + [a], id) == Find(records, id)
  {
    FindUnique(records + [a], id, Find(records, id));
  }

  lemma FindUpdated(records: seq<PriceAlert>, k: nat, a: PriceAlert, id: string)
    requires k < |records| && a.id == records[k].id
    ensures Find(records[k := a], id) == Find(records, id)
  {
    FindUnique(records[k := a], id, Find(records, id));
  }

  /** No step resets `triggered` on the first record of an id except its deletion. */
  lemma StepKeepsFireInv(s: Sys, step: Step, id: string)
    requires FireInv(s, id)
    ensures FireInv(Do(s, step), id)
  {
    hide Open, OnceBetweenDeletions, Find, Retained, FiringIds, SortedIds, Eligible;
    match step {
      case Insert(alert) =>
        if Open(s.log, id) {
          FindAppend(s.records, alert, id);
        }
      case SetActive(other, active) =>
        var k := Find(s.records, other);
        if k < |s.records| {
          FindUpdated(s.records, k, s.records[k].(active := active), id);
        }
      case Delete(other) =>
        OnceAppendIf(s.log, id, Deleted(other));
        if Open(s.log, id) && other != id {
          FindRetained(s.records, other, id);
        }
      case Fire(r) => FireKeepsFireInv(s, r, id);
      case Notify(r) => NotifyKeepsFireInv(s, r, id);
      case _ =>
    }
  }

  lemma OnceAppendIf(log: seq<Event>, id: string, e: Event)
    requires OnceBetweenDeletions(log, id) && !e.Fired?
    ensures OnceBetweenDeletions(log + [e], id)
    ensures Open(log + [e], id) <==> !DeletesId(e, id) && Open(log, id)
  {
    OnceAppend(log, id, e);
  }

  lemma FireKeepsFireInv(s: Sys, r: nat, id: string)
    requires FireInv(s, id)
    ensures FireInv(DoFire(s, r), id)
  {
    hide Open, OnceBetweenDeletions, Find;
    if AtId(s, r) && s.runs[r].attempt.value.next < |s.runs[r].memo.firedIds.value| {
      var a := s.runs[r].attempt.value;
      var x := s.runs[r].memo.firedIds.value[a.next];
      if CanFire(s.records, x, a.now) {
        var k := Find(s.records, x);
        FindUpdated(s.records, k, FiredRecord(s.records[k], a.now), id);
        OnceAppend(s.log, id, Fired(r, s.records[k], a.now));
      }
    }
  }

  lemma NotifyKeepsFireInv(s: Sys, r: nat, id: string)
    requires FireInv(s, id)
    ensures FireInv(DoNotify(s, r), id)
  {
    hide Open, OnceBetweenDeletions, Find, FirstTriggered;
    assert s.log + [] == s.log;
    if Attempting(s, r) && s.runs[r].memo.eligible.Some? && s.runs[r].attempt.value.pending.Some? {
      var el := s.runs[r].memo.eligible.value;
      var k := Find(el, s.runs[r].attempt.value.pending.value);
      if k < |el| {
        OnceAppendIf(s.log, id, Notified(r, el[k]));
      }
    }
  }

  /** Over any interleaving, an id fires at most once between deletions of it. */
  lemma {:induction false} FiresAtMostOnce(steps: seq<Step>, id: string)
    ensures FireInv(Exec(EMPTY, steps), id)
    ensures OnceBetweenDeletions(Exec(EMPTY, steps).log, id)
  {
    hide Do;
    if steps != [] {
      FiresAtMostOnce(steps[..|steps| - 1], id);
      StepKeepsFireInv(Exec(EMPTY, steps[..|steps| - 1]), steps[|steps| - 1], id);
    }
  }

  // ---------- one notification per fire ----------

  function CountFired(log: seq<Event>, id: string): nat {
    if log == [] then 0 else CountFired(log[..|log| - 1], id) + if FiresId(log[|log| - 1], id) then 1 else 0
  }

  function CountDeleted(log: seq<Event>, id: string): nat {
    if log == [] then 0 else CountDeleted(log[..|log| - 1], id) + if DeletesId(log[|log| - 1], id) then 1 else 0
  }

  function CountNotified(log: seq<Event>, id: string): nat {
    if log == [] then 0 else CountNotified(log[..|log| - 1], id) + if NotifiesId(log[|log| - 1], id) then 1 else 0
  }

  lemma CountsAppend(log: seq<Event>, e: Event, id: string)
    ensures CountFired(log + [e], id) == CountFired(log, id) + if FiresId(e, id) then 1 else 0
    ensures CountDeleted(log + [e], id) == CountDeleted(log, id) + if DeletesId(e, id) then 1 else 0
    ensures CountNotified(log + [e], id) == CountNotified(log, id) + if NotifiesId(e, id) then 1 else 0
  {
    assert (log + [e])[..|log|] == log;
  }

  /** Fires never outnumber deletions by more than one. */
  lemma {:induction false} FiresNeedDeletions(log: seq<Event>, id: string)
    requires OnceBetweenDeletions(log, id)
    ensures CountFired(log, id) <= CountDeleted(log, id) + if Open(log, id) then 1 else 0
  {
    if log != [] {
      var n := |log| - 1;
      var init, e := log[..n], log[n];
      FiresNeedDeletions(init, id);
      if FiresId(e, id) && Open(init, id) {
        var i := LastFire(init, id);
        assert false;
      }
    }
  }

  lemma {:induction false} LastFire(log: seq<Event>, id: string) returns (i: nat)
    requires Open(log, id)
    ensures i < |log| && FiresId(log[i], id) && forall k :: i < k < |log| ==> !DeletesId(log[k], id)
  {
    var n := |log| - 1;
    if FiresId(log[n], id) {
      i := n;
    } else {
      i := LastFire(log[..n], id);
    }
  }

  /** Runs that have fired the id and not yet tried to notify. */
  function Pending(runs: map<nat, Run>, id: string): set<nat> {
    set r | r in runs && runs[r].attempt.Some? && runs[r].attempt.value.pending == Some(id)
  }

  lemma PendingUpdate(runs: map<nat, Run>, r: nat, run: Run, id: string)
    ensures Pending(runs[r := run], id) ==
      (Pending(runs, id) - {r}) + if run.attempt.Some? && run.attempt.value.pending == Some(id) then {r} else {}
  {
  }

  lemma RemoveSize(a: set<nat>, r: nat)
    ensures |a - {r}| == |a| - if r in a then 1 else 0
  {
  }

  ghost predicate NotifyInv(s: Sys, id: string) {
    CountNotified(s.log, id) + |Pending(s.runs, id)| <= CountFired(s.log, id)
  }

  lemma MemoKeepsNotifyInv(s: Sys, r: nat, memo: Memo, id: string)
    requires NotifyInv(s, id) && r in s.runs
    ensures NotifyInv(WithMemo(s, r, memo), id)
  {
    hide CountFired, CountNotified;
    var run := s.runs[r].(memo := memo);
    PendingUpdate(s.runs, r, run, id);
    assert Pending(s.runs[r := run], id) == Pending(s.runs, id);
  }

  lemma FireKeepsNotifyInv(s: Sys, r: nat, id: string)
    requires NotifyInv(s, id)
    ensures NotifyInv(DoFire(s, r), id)
  {
    hide CountFired, CountNotified, Find, Pending;
    if AtId(s, r) && s.runs[r].attempt.value.next < |s.runs[r].memo.firedIds.value| {
      var a := s.runs[r].attempt.value;
      var x := s.runs[r].memo.firedIds.value[a.next];
      RemoveSize(Pending(s.runs, id), r);
      if CanFire(s.records, x, a.now) {
        CountsAppend(s.log, Fired(r, s.records[Find(s.records, x)], a.now), id);
        PendingUpdate(s.runs, r, s.runs[r].(attempt := Some(a.(next := a.next + 1, pending := Some(x), triggered := a.triggered + 1))), id);
      } else {
        PendingUpdate(s.runs, r, s.runs[r].(attempt := Some(a.(next := a.next + 1))), id);
      }
    }
  }

  lemma NotifyKeepsNotifyInv(s: Sys, r: nat, id: string)
    requires NotifyInv(s, id)
    ensures NotifyInv(DoNotify(s, r), id)
  {
    hide CountFired, CountNotified, Find, Pending;
    assert s.log + [] == s.log;
    if Attempting(s, r) && s.runs[r].attempt.value.pending.Some? && s.runs[r].memo.eligible.Some? && s.runs[r].memo.quotes.Some? {
      var a, el := s.runs[r].attempt.value, s.runs[r].memo.eligible.value;
      var k := Find(el, a.pending.value);
      PendingUpdate(s.runs, r, s.runs[r].(attempt := Some(a.(pending := None))), id);
      RemoveSize(Pending(s.runs, id), r);
      PendingMember(s.runs, r, a.pending.value);
      if k < |el| {
        CountsAppend(s.log, Notified(r, el[k]), id);
      }
    }
  }

  lemma PendingMember(runs: map<nat, Run>, r: nat, id: string)
    requires r in runs && runs[r].attempt.Some? && runs[r].attempt.value.pending == Some(id)
    ensures r in Pending(runs, id)
  {
  }

  lemma StepKeepsNotifyInv(s: Sys, step: Step, id: string)
    requires NotifyInv(s, id)
    ensures NotifyInv(Do(s, step), id)
  {
    hide CountFired, CountNotified, Find, Pending, Retained, FiringIds, SortedIds, Eligible, NotifyInv;
    match step {
      case Insert(_) => LogKeepsNotifyInv(s, Do(s, step), id);
      case SetActive(_, _) => LogKeepsNotifyInv(s, Do(s, step), id);
      case Delete(other) =>
        if Find(s.records, other) < |s.records| {
          DeletedKeepsNotifyInv(s, Do(s, step), other, id);
        } else {
          LogKeepsNotifyInv(s, Do(s, step), id);
        }
      case Start(r, now) => StartKeepsNotifyInv(s, r, now, id);
      case Fire(r) => FireKeepsNotifyInv(s, r, id);
      case Notify(r) => NotifyKeepsNotifyInv(s, r, id);
      case _ =>
        if Do(s, step) != s {
          MemoKeepsNotifyInv(s, step.run, Do(s, step).runs[step.run].memo, id);
          assert Do(s, step) == WithMemo(s, step.run, Do(s, step).runs[step.run].memo);
        }
    }
  }

  lemma LogKeepsNotifyInv(s: Sys, t: Sys, id: string)
    requires NotifyInv(s, id) && t.log == s.log && t.runs == s.runs
    ensures NotifyInv(t, id)
  {
  }

  lemma DeletedKeepsNotifyInv(s: Sys, t: Sys, other: string, id: string)
    requires NotifyInv(s, id) && t.log == s.log + [Deleted(other)] && t.runs == s.runs
    ensures NotifyInv(t, id)
  {
    hide CountFired, CountNotified, Pending;
    CountsAppend(s.log, Deleted(other), id);
  }

  lemma StartKeepsNotifyInv(s: Sys, r: nat, now: int, id: string)
    requires NotifyInv(s, id)
    ensures NotifyInv(Do(s, Start(r, now)), id)
  {
    hide CountFired, CountNotified, Pending;
    var memo := if r in s.runs then s.runs[r].memo else NO_MEMO;
    PendingUpdate(s.runs, r, Run(memo, Some(Attempt(now, 0, None, 0))), id);
    RemoveSize(Pending(s.runs, id), r);
  }

  /**
   Over any interleaving, crashes included: no more notifications than fires for an id, and at
   most one more fire than deletions of it.
   */
  lemma {:induction false} NotifiesAtMostOncePerFire(steps: seq<Step>, id: string)
    ensures NotifyInv(Exec(EMPTY, steps), id)
    ensures var log := Exec(EMPTY, steps).log;
      CountNotified(log, id) <= CountFired(log, id) <= CountDeleted(log, id) + 1
  {
    hide Do, CountFired, CountNotified, CountDeleted, OnceBetweenDeletions, Open;
    if steps == [] {
      NothingPending(id);
    } else {
      NotifiesAtMostOncePerFire(steps[..|steps| - 1], id);
      StepKeepsNotifyInv(Exec(EMPTY, steps[..|steps| - 1]), steps[|steps| - 1], id);
    }
    FiresAtMostOnce(steps, id);
    FiresNeedDeletions(Exec(EMPTY, steps).log, id);
  }

  lemma NothingPending(id: string)
    ensures NotifyInv(EMPTY, id)
  {
  }
}
